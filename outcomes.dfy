// Optional values and error results shared by the whole model.  The library
// signals failure with .NET exceptions; each exception kind it can raise (or
// let escape) becomes an Error value here, so that every operation is total.
module Outcomes {

  datatype Option<+T> = None | Some(value: T) {
    predicate IsFailure() { None? }
    function PropagateFailure<U>(): Option<U> requires None? { None }
    function Extract(): T requires Some? { value }
  }

  /** The exceptions of the library, as values. */
  datatype Error =
    | ArgumentError(parameter: string)  // ArgumentException (Rule.Match on empty input)
    | ParserError(message: string)      // ParserException (Rule.ParseTree on a failed match)
    | EvaluatorError(message: string)   // EvaluatorException (typed-value overlay)
    | NoElements                        // InvalidOperationException from Enumerable.First
    | NotImplemented                    // NotImplementedException (EvaluateLeafsRule)
    | IndexOutOfRange                   // reading a character past the end of the input
    | ArgumentOutOfRange                // String.Substring outside the input
    | NullReference                     // a lazy rule whose resolver produced no rule
    | Diverged                          // unbounded recursion or an endless loop

  datatype Result<+T> = Ok(value: T) | Err(error: Error) {
    predicate IsFailure() { Err? }
    function PropagateFailure<U>(): Result<U> requires Err? { Err(error) }
    function Extract(): T requires Ok? { value }
  }
}
