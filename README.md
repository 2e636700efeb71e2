# Notation converter core, modelled in Dafny

This project models the notation engine of the `NotacionConverter` calculator
(`src/game.js`), leaving out its web page. The engine has five parts:

- **Tokenizer** (`Tokenizer`): the global regular expression that splits an
  infix string into operand runs `[a-zA-Z0-9.]+` and the single symbols
  `( ) + - * / ^`. Any other character is dropped silently.
- **Infix to postfix** (`Postfix`): the shunting-yard loop of
  `infijaAPostfija`. It uses the precedence table (`+ -` → 1, `* /` → 2,
  `^` → 3) and the "equal or higher precedence pops" rule, and it raises the
  unbalanced-parentheses error from its two throw sites.
- **Infix to prefix** (`Prefix`): `infijaAPrefija`. It mirrors the string
  (reverses it and swaps the parentheses), converts the mirror to postfix,
  and reverses the order of the space-separated pieces.
- **Postfix evaluator** (`Evaluator`): `evaluarPostfija`. It works on a stack
  of numbers and has its five error exits: too few operands, division by
  zero, unknown operator, unsupported symbol, and a malformed result.
- **Display fix** (`Display`): `parcheVisualizacionNumeros`. It overwrites
  the all-digit tokens of the prefix notation with the digit runs of the
  infix string, in order.

The other modules support these:

- `Errors` holds the error and result types.
- `Strings` holds reversal, concatenation, and the space `join` and `split`.
- `Pipeline` connects the converter and the evaluator through a reference
  semantics of arithmetic expression trees.
- `PrefixPipeline` states what the prefix notation of such a tree is, and
  how operators of equal precedence are grouped in it.

The loops of `infijaAPostfija`, `evaluarPostfija` and
`parcheVisualizacionNumeros` are methods: `Postfix.InfixToPostfix`,
`Evaluator.EvaluatePostfix` and `Display.PatchDisplay`. Each keeps its local
stacks as `seq` variables and is proved equal to a recursive specification
function. Each function's properties are then proved as lemmas. The
converter object has no state that any of these operations changes. Its only
data field is the constant precedence table, set in the constructor;
`esOperando`, `mayorOIgualPrecedencia` and `evaluarPostfija` are arrow
functions held in fields, and no field is ever reassigned. So its methods are
modelled as functions and methods of modules, not as a class.

## Model

| member | source | states |
|---|---|---|
| Tokenizer.Tokenize | src/game.js:25 | every token is an operand run or a single symbol, and concatenating the tokens gives back exactly the characters the pattern keeps, in order |
| Tokenizer.TokenizeSeparated | src/game.js:25 | without dropped characters, no two neighbouring tokens are both operands: operand runs are maximal |
| Tokenizer.TokenizeUnique | src/game.js:25 | a string without dropped characters has exactly one tokenization: any token list that spells it and keeps operand runs maximal is the one returned |
| Tokenizer.TokenizeConcat | src/game.js:25 | round trip: spelling out a token list with separated operands and tokenizing it returns the list |
| Tokenizer.TokenizeAtDropped | src/game.js:25 | a dropped character splits the input: the tokens of `a c b` are the tokens of `a` followed by those of `b` |
| Tokenizer.OperandsAppend | src/game.js:13-15 | the operands of a concatenation are the operands of each part, in order |
| Postfix.PopOperatorsEffect | src/game.js:39-45 | the operator branch pops a top segment of operators that bind at least as tightly as the incoming one and outputs it top first; it stops at '(', at the bottom, or at a looser operator |
| Postfix.PopOperatorsPopsEveryHigher | src/game.js:17-19 | on an ascending stack, every operator above the nearest '(' whose precedence is at least the incoming one's is popped, so equal precedence (including `^`) groups to the left |
| Postfix.StepKeepsAscending | src/game.js:38-47 | every loop step keeps operator precedence strictly rising towards the top between parentheses |
| Postfix.PopToOpenFails | src/game.js:32-37 | the ')' branch throws exactly when no '(' is on the stack |
| Postfix.PopToOpenEffect | src/game.js:32-36 | when the ')' branch succeeds it outputs, top first, the operators above the nearest '(' and removes them with that '(' |
| Postfix.FlushEffect | src/game.js:49-52 | the final loop throws exactly when a '(' is left, and otherwise appends the whole stack top first |
| Postfix.InfixToPostfix | src/game.js:21-54 | the loop over local stack and output lists returns or throws exactly what the shunting-yard specification gives |
| Postfix.StepMultiset | src/game.js:27-47 | one step moves tokens between input, stack and output without losing or inventing any; only parentheses disappear |
| Postfix.StepOperands | src/game.js:28-29 | one step outputs the token if it is an operand, and outputs no other operand |
| Postfix.FlushPermutes | src/game.js:49-52 | the final loop outputs exactly the stack's operators and no operand |
| Postfix.RunPermutes | src/game.js:27-52 | a successful run outputs exactly the non-parenthesis tokens of its input, stack and earlier output |
| Postfix.RunKeepsOperands | src/game.js:27-52 | a successful run outputs the input's operands after those already output, in input order |
| Postfix.PostfixKeepsOperands | src/game.js:21-54 | the postfix output keeps the operands of the input in their original order |
| Postfix.PostfixRearrangesTokens | src/game.js:21-54 | the postfix output is a permutation of the input tokens without parentheses, with as many tokens as the input has operands and operators |
| Postfix.PostfixTokensAreTokens | src/game.js:21-54 | every piece of the postfix output is a token |
| Postfix.WithoutParensCount | src/game.js:21-54 | without its parentheses, a token list consists of its operands and its operators |
| Postfix.StepOpenCount | src/game.js:30-47 | a step changes the number of open parentheses on the stack by the token's parenthesis count, and fails exactly when it would close one that is not open |
| Postfix.RunFailsIffUnbalanced | src/game.js:27-52 | a run fails exactly when the rest of its input is unbalanced relative to the open parentheses already stacked, and then only with the unbalanced-parentheses error |
| Postfix.PostfixFailsIffUnbalanced | src/game.js:21-54 | the conversion throws exactly when the parentheses are unbalanced (a ')' with no open '(' or a '(' never closed), and it throws nothing else |
| Postfix.ThreeOperands | src/game.js:2-19 | on `a op1 b op2 c`, `op1` is applied first exactly when its precedence is at least that of `op2` |
| Postfix.ParenthesizedFirst | src/game.js:30-37 | parentheses override precedence: `(a op1 b) op2 c` always applies `op1` first |
| Postfix.SingleOperation | src/game.js:27-52 | a single operation `a op b` becomes `a b op` |
| Postfix.RunGroup | src/game.js:30-37 | a parenthesised operation at the start of the input outputs its postfix form and leaves the stack empty |
| Postfix.RunLastOperator | src/game.js:38-52 | a trailing `op c` on an empty stack outputs `c op` |
| Postfix.RunFirstOperation | src/game.js:27-47 | `a op b` at the start of the input outputs `a b` and leaves `op` alone on the stack |
| Postfix.InfixOfThree | src/game.js:21-54 | the three-operand precedence rule, stated for the infix string and the space-joined postfix string |
| Postfix.InfixParenthesized | src/game.js:21-54 | the parenthesised three-operand rule, stated for the infix string and the space-joined postfix string |
| Postfix.PostfixOfSum | src/game.js:21-54 | `3+4*2` converts to `3 4 2 * +` |
| Postfix.PostfixOfPower | src/game.js:2-19 | `2^3^2` converts to `2 3 ^ 2 ^`, so `^` groups to the left |
| Postfix.PostfixOfGroup | src/game.js:30-37 | `(1+2)*3` converts to `1 2 + 3 *` |
| Postfix.PostfixOfUnclosed | src/game.js:49-50 | `(1+2` throws the unbalanced-parentheses error |
| Prefix.MirrorInvolution | src/game.js:58-66 | mirroring twice gives the string back |
| Prefix.TokenizeMirror | src/game.js:58-68 | the tokens of the mirrored string are the mirrored tokens of the original, in reverse order, so every multi-character operand arrives read back to front |
| Prefix.OperandsMirror | src/game.js:58-68 | the operands of mirrored tokens are the mirrored operands |
| Prefix.BalancedMirror | src/game.js:58-68 | a token list is balanced exactly when its mirror image is |
| Prefix.PrefixFailsIffPostfixFails | src/game.js:56-70 | the prefix conversion throws exactly when the postfix conversion of the same string throws, and only with the unbalanced-parentheses error |
| Prefix.PrefixReversesPostfix | src/game.js:68-69 | the prefix notation is the postfix notation of the mirrored string, with its pieces in reverse order |
| Prefix.PrefixOperands | src/game.js:56-70 | the operands of the prefix notation are the infix operands in their original order, each one read back to front |
| Prefix.PrefixOfThree | src/game.js:56-70 | on `a op1 b op2 c` the prefix notation applies `op1` first only when its precedence is strictly higher than that of `op2`, so operators of equal precedence group to the right; every operand comes out read back to front |
| Prefix.MirrorRunOfThree | src/game.js:38-52 | the corrected pass over the mirrored tokens `x op2 y op1 z`, which pops only strictly tighter operators, outputs `x y op2 z op1` when `op2` binds strictly tighter and `x y z op1 op2` otherwise |
| Prefix.CorrectedPrefixOfThree | src/game.js:56-70 | the corrected conversion applies `op1` first on `a op1 b op2 c` exactly when its precedence is at least that of `op2`, the rule of the postfix notation, so equal precedence groups to the left |
| Prefix.PrefixOfSum | src/game.js:56-70 | `3+4*2` converts to `+ 3 * 4 2` |
| Prefix.PrefixOfTwelve | src/game.js:56-70 | `12+3` converts to `+ 21 3`: the two-digit operand comes out reversed |
| Evaluator.PiecesOfJoin | src/game.js:79 | splitting on spaces and dropping empty pieces undoes the space join of non-empty, space-free tokens |
| Evaluator.ParseNumeral | src/game.js:82-83 | a token of decimal digits is an operand and parses to the number its digits denote |
| Evaluator.ParseNumberStart | src/game.js:82 | a token parses as a number exactly when it starts with a digit, or with '.' followed by a digit |
| Evaluator.EvaluatePostfix | src/game.js:77-113 | the stack loop returns or throws exactly what the evaluation specification gives |
| Evaluator.StepErrors | src/game.js:84-106 | each error exit of a step, together with the exact condition under which it is taken: too few operands, division by zero, an unknown operator, an unsupported symbol |
| Evaluator.StepEffect | src/game.js:81-106 | a number is pushed; an operator replaces the two top values by one and leaves the rest of the stack alone; an operand that is not a number is skipped |
| Evaluator.EvalTokensDepth | src/game.js:81-107 | a successful loop changes the stack height by the number of numbers minus the number of operators |
| Evaluator.EvaluationCounts | src/game.js:109-112 | a successful evaluation had exactly one number more than operators |
| Evaluator.EmptyIsMalformed | src/game.js:109-111 | the empty string is a malformed postfix expression |
| Evaluator.EvalPostOrder | src/game.js:81-107 | on the postfix tokens of an expression tree, the loop pushes the tree's value, or fails as computing that value does |
| Evaluator.EvaluationOfPostOrder | src/game.js:77-113 | evaluating the space-joined postfix form of an expression tree gives its value or its error |
| Pipeline.TokenizeRender | src/game.js:25 | a fully parenthesised expression, once written out, is read back as its own tokens |
| Pipeline.RunInfixTokens | src/game.js:27-52 | converting a fully parenthesised expression outputs its postfix order and leaves the operator stack as it was |
| Pipeline.ShuntingYardOfInfixTokens | src/game.js:21-54 | the shunting-yard conversion of a fully parenthesised expression is its postfix order |
| Pipeline.PostfixOfRender | src/game.js:21-54 | converting a fully parenthesised expression string gives its postfix order, space-separated |
| Pipeline.PipelineComputesValue | src/game.js:21-113 | converting a fully parenthesised expression to postfix and evaluating the result gives the expression's value, or its division-by-zero error |
| Pipeline.PostfixOfDifference | src/game.js:21-54 | `1-2-3` converts to `1 2 - 3 -`, the postfix notation of `(1-2)-3` |
| Pipeline.EvaluationOfDifference | src/game.js:77-113 | `1 2 - 3 -` evaluates to -4 |
| Pipeline.EvaluationOfSum | src/game.js:21-113 | `3+4*2` converts to `3 4 2 * +`, which evaluates to 11 |
| Pipeline.EvaluationOfQuotient | src/game.js:96-97 | `10 0 /` throws the division-by-zero error |
| Pipeline.PowerUnsupported | src/game.js:84-106 | a `^` token is rejected as an unsupported symbol whatever the stack holds |
| Pipeline.PowerRefused | src/game.js:9 | `2^3^2` converts to postfix, but evaluating that postfix rejects its `^` |
| PrefixPipeline.MirrorInfixTokens | src/game.js:58-66 | the mirror image of a fully parenthesised expression, read as tokens, is the expression with the operands of every operation swapped and every numeral read back to front |
| PrefixPipeline.PostOrderOfFlip | src/game.js:68-69 | the postfix order of that swapped expression, read backwards, is the prefix order of the expression with its numerals read back to front |
| PrefixPipeline.PrefixOfRender | src/game.js:56-70 | converting a fully parenthesised expression string to prefix gives its prefix order, space-separated, with every numeral read back to front |
| PrefixPipeline.PrefixOfDifference | src/game.js:56-70 | `1-2-3` converts to `- 1 - 2 3`, the prefix notation of `1-(2-3)`, not of `(1-2)-3` |
| PrefixPipeline.DifferenceCorrected | src/game.js:56-70 | the corrected conversion gives `- - 1 2 3` for `1-2-3`, the prefix notation of `(1-2)-3` |
| Display.DigitRuns | src/game.js:119 | every run extracted from the infix string is a non-empty string of digits |
| Display.DigitRunsSpellDigits | src/game.js:119 | the runs, concatenated, are exactly the digits of the string, in order |
| Display.DigitRunsAtNonDigit | src/game.js:119 | no run reaches across a non-digit: the runs of `a c b` are those of `a` followed by those of `b` |
| Display.DigitRunsOfNumeral | src/game.js:119 | a string made only of digits is a single run |
| Display.DigitRunsOfRender | src/game.js:119 | the digit runs of a fully parenthesised expression string are its numerals, left to right |
| Display.PatchDisplay | src/game.js:118-132 | the loop with its counter returns exactly what the display-fix specification gives |
| Display.PatchAt | src/game.js:122-129 | position by position: a token that is not all digits is kept; the k-th all-digit token becomes the k-th digit run while runs remain, and is kept once they are used up |
| Display.PatchedTokens | src/game.js:122-131 | the output's space-separated tokens are the patched input tokens, so their number is unchanged |
| Display.PatchIdempotent | src/game.js:122-129 | patching a second time with the same runs changes nothing |
| Display.PatchedDisplayIdempotent | src/game.js:118-131 | applying the display fix to its own output changes nothing |
| Display.DigitRunsAreOperands | src/game.js:119 | in an expression made only of digits and symbols, the digit runs are exactly the operand tokens |
| Display.PatchOperands | src/game.js:122-129 | when the operands are exactly the all-digit tokens and there are as many runs as operands, the patched operands are the runs |
| Display.PatchRestoresIntegers | src/game.js:118-131 | for an integer expression, the patched prefix notation shows the original numbers in their original order |
| Display.OperandsRestored | src/game.js:118-131 | restoring operands commutes with picking out the operands |
| Display.RestoreMirrored | src/game.js:58-66 | reading each mirrored operand back to front gives the original operand |
| Display.RestoredDisplayShowsOperands | src/game.js:118-131 | the corrected fix keeps every non-operand token in place and shows the infix operands as written, in order, whatever characters they contain |
| Display.RestorePreOrder | src/game.js:58-66 | reading every operand of the reversed prefix order back to front gives the prefix order |
| Display.PatchPreOrder | src/game.js:122-129 | patching the reversed prefix order of an expression with its numerals, in order, gives its prefix order and uses up exactly those numerals |
| Display.DisplayOfRender | src/game.js:118-131 | for a fully parenthesised expression both the fix as written and the corrected fix display exactly its prefix notation |
| Display.DisplayOfTwelve | src/game.js:118-131 | `12+3` has the prefix notation `+ 21 3`, which the fix displays as `+ 12 3` |
| Display.DecimalMisplaced | src/game.js:118-131 | `1.5+2` has the prefix notation `+ 5.1 2`, which the fix as written displays as `+ 5.1 1`, although the operands are `1.5` and `2` |
| Display.DecimalRestored | src/game.js:118-131 | the corrected fix displays `+ 5.1 2` as `+ 1.5 2` |

## Left out

- `procesarOperacion` and everything from line 134 of `src/game.js` on are left out: the page, the input field, the alert dialogs, the input clean-up (`trim`, removing spaces), and the timing of each conversion (`performance.now()`) with its `toFixed(6)` formatting. They are user-interface code.
- Evaluator.EvaluatePostfix: numbers are exact reals, not IEEE doubles. So rounding, overflow to `Infinity` and signed zero are not modelled.
- Evaluator.ParseNumber: an operand token such as `Infinity` is skipped like any other token that does not parse. `parseFloat` would push the value `Infinity` instead.
- The regular expressions are written as scanners over characters, not as a regular-expression engine.
- `^` is converted with the same left-to-right grouping as the other operators, which is what the source does. The evaluator then rejects it as an unsupported symbol (see `Pipeline.PowerRefused`). The model keeps both behaviours as they are.
- Pipeline.PipelineComputesValue: "conversion then evaluation computes the arithmetic value" is proved only for fully parenthesised expressions. For unparenthesised input, precedence is covered by the three-operand lemmas (`Postfix.ThreeOperands`, `Postfix.ParenthesizedFirst`) and the worked examples, not by a general theorem.
- The `NotacionConverter` object and the module-level `conversor` instance are not modelled as a class. The object's only data field is the constant precedence table; its other fields hold the arrow functions `esOperando`, `mayorOIgualPrecedencia` and `evaluarPostfija`, and no field is ever reassigned.
- Prefix.CorrectedPrefixNotation: the corrected conversion is proved only on three-operand inputs (`Prefix.CorrectedPrefixOfThree`) and on the worked example. Its failure behaviour and its output for longer inputs are not proved in general.
- PrefixPipeline.PrefixOfRender: the prefix order is proved only for fully parenthesised expressions. Without parentheses the grouping is covered by `Prefix.PrefixOfThree` and the worked examples.

## Findings

| source | as written | input that shows it | evidently intended | confidence | as-written member | corrected member |
|---|---|---|---|---|---|---|
| src/game.js:118-131 | the display fix overwrites the all-digit prefix tokens, in order, with the digit runs of the infix string; a decimal operand such as `1.5` has two digit runs and is not an all-digit token | `1.5+2`: its prefix notation is `+ 5.1 2`, which is displayed as `+ 5.1 1` | undo the digit reversal that mirroring causes, so that `+ 1.5 2` is shown | not executed | Display.DecimalMisplaced | Display.RestoredDisplayShowsOperands |
| src/game.js:56-70 | the prefix conversion runs the postfix conversion, with its "equal or higher precedence pops" rule, on the mirrored string; read backwards, this makes operators of equal precedence group to the right | `1-2-3`: the prefix notation is `- 1 - 2 3`, which denotes `1-(2-3)` = 2, while the postfix notation `1 2 - 3 -` denotes `(1-2)-3` = -4 | group equal precedence to the left, as the postfix notation does: `- - 1 2 3` | not executed | Prefix.PrefixOfThree | Prefix.CorrectedPrefixOfThree |

The corrected fix (`Display.RestoredDisplay`) reads each operand token of the
prefix notation back to front. Mirroring read that operand back to front
(`Prefix.PrefixOperands`), so this restores every operand exactly, whatever
characters it contains. `Display.DecimalRestored` shows it on the input
above. For expressions made only of integers, the fix as written is already
correct (`Display.PatchRestoresIntegers`).

The corrected prefix conversion (`Prefix.CorrectedPrefixNotation`) keeps the
mirroring, but its pass over the mirrored tokens pops a stacked operator only
when it binds strictly tighter than the incoming one. Read backwards, this
makes operators of equal precedence group to the left. `Prefix.PrefixOfThree`
and `PrefixPipeline.PrefixOfDifference` show the behaviour as written;
`Prefix.CorrectedPrefixOfThree` proves the intended rule and
`PrefixPipeline.DifferenceCorrected` shows it on the input above. On fully
parenthesised expressions the conversion as written is already right, since
the parentheses fix the grouping (`PrefixPipeline.PrefixOfRender`).
