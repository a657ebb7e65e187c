/** Failure-carrying values. `Failure`/`Fail` stand for a raised Python
    exception (`ValueError`, `TypeError`) or an `ArgumentParser.error` exit,
    carrying the message the source passes along. */
module Wrappers {

  datatype Option<+T> = None | Some(value: T)

  datatype Result<+T, +E> = Success(value: T) | Failure(error: E)

  /** The outcome of a check that produces no value on success. */
  datatype Outcome<+E> = Pass | Fail(error: E)
}

/** Python truthiness of the values the source tests with `if x` / `not x`. */
module Truthiness {
  import opened Wrappers

  /** An `Optional[str]`: `None` and `""` are falsy, every other string is truthy. */
  predicate Truthy(s: Option<string>) {
    s.Some? && s.value != ""
  }

  /** An `Optional[int]`: `None` and `0` are falsy. */
  predicate NonZero(n: Option<int>) {
    n.Some? && n.value != 0
  }

  /** Python's `int(b)` on a `bool`. */
  function Int(b: bool): nat {
    if b then 1 else 0
  }
}
