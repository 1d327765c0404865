/** Failure-carrying result types shared by the other modules. */
module Wrappers {

  /** An optional value: the matcher's `Option<HashMap<..>>` and the rewriter's `Option<Expression>`. */
  datatype Option<+T> = None | Some(value: T)

  /** A value or an error: the parser's `Result<Expression, ParserError>`. */
  datatype Result<+T, +E> = Success(value: T) | Failure(error: E)
}
