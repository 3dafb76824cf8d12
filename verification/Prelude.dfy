/** Failure-compatible result types shared by every module. */
module Prelude {

  datatype Option<+T> = None | Some(value: T)

  /** The error cases of the storage engine that the model distinguishes. */
  datatype Error =
    | Zero        // zero-sized region, or arithmetic beyond u64
    | Truncated   // fewer bytes than requested
    | Invalid     // a decoded number is not a valid item of its type
    | Collision   // a manifest name is already taken
    | NotFound    // a manifest name or column is missing
    | Checksum    // the recorded checksum differs from the computed one
    | Magic       // not a file of this format
    | Version     // a file of an unknown format version

  datatype Result<+T> = Ok(value: T) | Err(error: Error) {
    predicate IsFailure() {
      Err?
    }

    function PropagateFailure<U>(): Result<U>
      requires Err?
    {
      Err(error)
    }

    function Extract(): T
      requires Ok?
    {
      value
    }
  }

  /** Fails with `error` unless `condition` holds. */
  function Need(condition: bool, error: Error): Result<()> {
    if condition then Ok(()) else Err(error)
  }

  /** Puts `prefix` in front of a sequence that may have failed. */
  function Prefixed<T>(prefix: seq<T>, rest: Result<seq<T>>): Result<seq<T>> {
    match rest
    case Ok(cs) => Ok(prefix + cs)
    case Err(e) => Err(e)
  }

  lemma {:induction false} PrefixedTwice<T>(prefix: seq<T>, x: T, rest: Result<seq<T>>)
    ensures Prefixed(prefix, Prefixed([x], rest)) == Prefixed(prefix + [x], rest)
  {
    if rest.Ok? { assert prefix + ([x] + rest.value) == prefix + [x] + rest.value; }
  }

  lemma {:induction false} PrefixedNone<T>(rest: Result<seq<T>>)
    ensures Prefixed([], rest) == rest
  {
    if rest.Ok? { assert [] + rest.value == rest.value; }
  }
}
