/** Failures of the calculator.  The C++ code throws `std::runtime_error`
    with a fixed message; here each message is a constructor of `Error`,
    and every fallible operation returns a `Result`. */
module Results {

  datatype Error =
    | DivisionByZero
    | ZeroDenominator
    | InsufficientValues
    | MismatchedParentheses
    | ExpectedOpenParen
    | MismatchedArgumentParentheses
    | UnknownFunction(name: string)
    | InvalidToken
    | InvalidExpression
      /** Reducing a leftover `(` calls an empty `std::function`. */
    | BadFunctionCall
  {
    /** The text the C++ exception carries. */
    function Message(): string {
      match this
      case DivisionByZero => "Division by zero"
      case ZeroDenominator => "Denominator cannot be zero"
      case InsufficientValues => "Insufficient values in expression"
      case MismatchedParentheses => "Mismatched parentheses"
      case ExpectedOpenParen => "Expected '(' after function name"
      case MismatchedArgumentParentheses => "Mismatched parentheses in function argument"
      case UnknownFunction(name) => "Unknown function: " + name
      case InvalidToken => "Invalid character or token"
      case InvalidExpression => "Invalid expression"
      case BadFunctionCall => "bad_function_call"
    }
  }

  datatype Result<+T> = Ok(value: T) | Err(error: Error) {
    predicate IsFailure() { Err? }

    function PropagateFailure<U>(): Result<U>
      requires Err?
    {
      Err(error)
    }

    function Extract(): T
      requires Ok?
    {
      value
    }
  }
}
