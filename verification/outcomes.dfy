/** Outcome types used in place of the source's `exit(0)` calls, its
    uncaught conversion exceptions and its "no such position" sentinel
    values. */
module Outcomes {

  /** A value that may be absent. */
  datatype Option<+T> = None | Some(value: T)

  /** Either a computed value or the reason the computation stopped. */
  datatype Result<+T, +E> = Success(value: T) | Failure(error: E)

  /** Looks `key` up in `m`, absent keys giving `None`. */
  function Lookup<K, V>(m: map<K, V>, key: K): Option<V>
  {
    if key in m then Some(m[key]) else None
  }
}
