/** Values shared by both adapters: the `Poll` of Rust's task model, results
    carrying the transport's error, wakers as opaque tokens, and messages as
    opaque byte strings. */
module Async {

  /** The handle a task hands to a pending future so that it is polled again;
      only its identity matters here. */
  type WakerId = nat

  /** The answer of every poll method: not yet, or ready with a value. */
  datatype Poll<T> = Pending | Ready(value: T)

  datatype Option<T> = None | Some(value: T) {

    /** The stored value, if any, as a sequence of length at most one. */
    function ToSeq(): (s: seq<T>)
    {
      if None? then [] else [value]
    }
  }

  /** An error reported by the messaging transport, kept opaque. */
  datatype Error = Error(code: int)

  /** A transport result: a value, or the transport's error. */
  datatype Result<T> = Ok(value: T) | Err(error: Error)

  /** A message payload; its contents play no part in the adapters' logic. */
  type Message = seq<bv8>
}
