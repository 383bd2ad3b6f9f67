/** Outcomes of the decoder: the panics of the original become values of `Error`. */
module Results {

  datatype Option<T> = None | Some(value: T)

  /** One constructor per way the decoder can fail (a panic or `todo!()` in the original). */
  datatype Error =
    | InvalidInteger            // `i` with no `e` anywhere in the remaining input
    | DictionaryNotImplemented  // the dictionary branch, which is a `todo!()`
    | MissingColon              // a string with no `:` in the remaining input
    | InvalidLength             // the text before `:` is not a `usize`
    | StringOutOfBounds         // the declared length exceeds what follows `:`
    | Unhandled                 // any other non-empty input
    | UnexpectedEndOfList       // the input ends inside a list

  /** What the decoder hands back to its caller: a value, or the error it panicked with. */
  datatype Result<T> = Ok(value: T) | Err(error: Error)

  /** A parse step: the value and the input that remains after it, or an error. */
  datatype Parsed<T> = Done(value: T, rest: string) | Fail(error: Error)
}
