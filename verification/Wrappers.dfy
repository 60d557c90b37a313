/** Optional values and results that carry the fault a source method throws. */
module Wrappers {

  datatype Option<+T> = None | Some(value: T)

  /** The kinds of exception the modelled code throws. */
  datatype Fault = SerializationFault | FormatFault | NullFault

  datatype Result<+T> = Ok(value: T) | Err(fault: Fault) {
    predicate IsFailure() {
      Err?
    }

    function PropagateFailure<U>(): Result<U>
      requires Err?
    {
      Err(fault)
    }

    function Extract(): T
      requires Ok?
    {
      value
    }
  }
}
