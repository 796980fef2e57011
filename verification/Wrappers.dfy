/** What the whole model shares: a value that may be absent, the outcome of a
    check that either accepts with a value or rejects, and white space.  The
    repository's exceptions carry only diagnostic text, so a rejection has none. */
module Wrappers {

  datatype Option<+T> = None | Some(value: T)

  datatype Result<+T> = Ok(value: T) | Rejected {
    predicate IsFailure() {
      Rejected?
    }

    function PropagateFailure<U>(): (r: Result<U>)
      requires Rejected?
    {
      Rejected
    }

    function Extract(): T
      requires Ok?
    {
      value
    }
  }

  /** Accept nothing in particular, or reject. */
  function Require(condition: bool): Result<()> {
    if condition then Ok(()) else Rejected
  }

  /** White space as `str.strip` understands it. */
  predicate Space(c: char) {
    || '\t' <= c <= '\r' || '\U{1C}' <= c <= ' ' || c in {'\U{85}', '\U{A0}', '\U{1680}'}
    || '\U{2000}' <= c <= '\U{200A}' || c in {'\U{2028}', '\U{2029}', '\U{202F}', '\U{205F}', '\U{3000}'}
  }
}
