/** Failure-carrying datatypes. Every fail-fast exit of the generator (a thrown
    GradleException, a failed `require`, an empty `first`, an index out of
    bounds) becomes an `Err` carrying a message. */
module Wrappers {

  datatype Option<+T> = None | Some(value: T) {
    predicate IsFailure() { None? }

    function PropagateFailure<U>(): Option<U>
      requires None?
    {
      None
    }

    function Extract(): T
      requires Some?
    {
      value
    }

    /** `listOf(x).filterNotNull()`. */
    function ToSeq(): (r: seq<T>)
      ensures |r| <= 1
      ensures Some? ==> r == [value]
      ensures None? ==> r == []
    {
      if Some? then [value] else []
    }
  }

  datatype Result<+T> = Ok(value: T) | Err(msg: string) {
    predicate IsFailure() { Err? }

    function PropagateFailure<U>(): Result<U>
      requires Err?
    {
      Err(msg)
    }

    function Extract(): T
      requires Ok?
    {
      value
    }
  }

  /** Fails with `msg` unless `cond` holds; used with `:-`. */
  function Need(cond: bool, msg: string): (r: Result<()>)
  {
    if cond then Ok(()) else Err(msg)
  }
}
