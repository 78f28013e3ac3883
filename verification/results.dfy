/** Optional values and the Python exceptions the dashboard code can raise. */
module Results {

  /** A value that may be absent: a `None` argument or a NaN cell. */
  datatype Option<+T> = None | Some(value: T)

  /** The exceptions reachable in the modelled code. */
  datatype Error =
    | KeyError(key: string)        // a genre missing from the colour map
    | UnboundLabel(name: string)   // a local read before any branch assigned it
    | IndexError                   // `years[0]` / `years[1]` on a short list

  /** The outcome of a call that may raise. */
  datatype Result<+T> = Ok(value: T) | Err(error: Error) {

    predicate IsFailure() {
      Err?
    }

    function PropagateFailure<U>(): Result<U>
      requires Err?
    {
      Err(error)
    }

    function Extract(): T
      requires Ok?
    {
      value
    }
  }
}
