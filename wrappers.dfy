/** Failure-carrying values shared by every module: Go's `(T, error)` and
    `error` returns become Result and Outcome, a nil-or-value becomes Option. */
module Wrappers {

  datatype Option<+T> = None | Some(value: T)

  /** A value or the error that took its place. */
  datatype Result<+T, +E> = Success(value: T) | Failure(error: E)

  /** An `error` return: nil (Pass) or an error (Fail). */
  datatype Outcome<+E> = Pass | Fail(error: E)

  /** Looking up a key of a Go map with the comma-ok form. */
  function Lookup<K, V>(m: map<K, V>, k: K): (r: Option<V>)
    ensures r.Some? <==> k in m
    ensures r.Some? ==> r.value == m[k]
  {
    if k in m then Some(m[k]) else None
  }
}
