/** Failure values shared by the model: the Python exceptions the core can raise,
    and an Option for the `df=None` default of the scorer. */
module Results {

  /** The exceptions the modelled Python code raises. */
  datatype Error =
    | IndexError            // `i[0]` on an empty record in sentenceConnect
    | ZeroDivisionError     // `v / len(text)` with an empty text (only possible at order 0)
    | ValueError(message: string)  // `raise ValueError("Invalid mode: ...")`
    | AttributeError        // `df.get(...)` while `df` is still `None`
    | ShapeError            // numpy refusing the vectors of an empty reference list

  datatype Option<+T> = None | Some(value: T)

  /** A value or the exception that aborted the computation. */
  datatype Result<+T> = Ok(value: T) | Err(error: Error) {

    predicate IsFailure() {
      Err?
    }

    function PropagateFailure<U>(): Result<U>
      requires Err?
    {
      Err(error)
    }

    function Extract(): T
      requires Ok?
    {
      value
    }
  }
}
