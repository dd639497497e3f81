/** Option and Result, the failure-compatible wrappers the rest of the model uses. */
module Wrappers {

  /** A value that may be absent: a missing attribute, child element or argument. */
  datatype Option<+T> = None | Some(value: T)

  /** Either a computed value or the error that stops the run. */
  datatype Result<+R, +E> = Success(value: R) | Failure(error: E) {

    predicate IsFailure() {
      Failure?
    }

    function PropagateFailure<U>(): Result<U, E>
      requires Failure?
    {
      Failure(error)
    }

    function Extract(): R
      requires Success?
    {
      value
    }
  }

  /** The value stored under `key`, if any. */
  function Lookup<K, V(==)>(m: map<K, V>, key: K): (r: Option<V>)
    ensures r.Some? ==> r.value in m.Values
  {
    if key in m then Some(m[key]) else None
  }
}
