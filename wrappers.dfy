// Shared option and result types used by every other module.
module Wrappers {
  /** A value that may be absent: Python's None, JavaScript's null/undefined. */
  datatype Option<T> = None | Some(value: T) {
    /** The value, or `d` when it is absent (Python/JS `x or d`, `x || d`). */
    function GetOr(d: T): T {
      match this
      case None => d
      case Some(v) => v
    }
  }

  /** The outcome of an operation that can fail with an error of type E. */
  datatype Result<T, E> = Ok(value: T) | Err(error: E)

  /** The last element of a non-empty sequence, and everything before it. */
  function Last<T>(s: seq<T>): T requires s != [] { s[|s| - 1] }
  function Front<T>(s: seq<T>): seq<T> requires s != [] { s[..|s| - 1] }

  /** A prefix one longer splits into the shorter prefix and the next element. */
  lemma PrefixStep<T>(s: seq<T>, i: nat)
    requires i < |s|
    ensures s[..i + 1] != [] && Front(s[..i + 1]) == s[..i] && Last(s[..i + 1]) == s[i]
  {
  }
}
