/** The error taxonomy of the notation engine and the result type that
    replaces JavaScript's thrown `Error`s. */
module Errors {

  /** One constructor per distinct `throw` of the engine. */
  datatype Error =
    | UnbalancedParentheses          // infix to postfix: a ')' without '(' or a '(' never closed
    | InsufficientOperands           // evaluator: an arithmetic token with fewer than two values
    | DivisionByZero                 // evaluator: '/' with a right operand equal to zero
    | UnknownOperator(token: string) // evaluator: a token holding + - * / that is not exactly one of them
    | UnsupportedSymbol(token: string) // evaluator: a token that is neither arithmetic nor an operand
    | MalformedExpression            // evaluator: the final stack does not hold exactly one value

  /** A computation that either returns a value or throws one of the errors above. */
  datatype Result<T> = Ok(value: T) | Err(error: Error)
}
