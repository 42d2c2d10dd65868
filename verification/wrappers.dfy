/** Optional values and results, the shapes JavaScript expresses with
    `undefined` and with thrown errors. */
module Wrappers {

  /** A value or its absence (`undefined`). */
  datatype Option<+T> = None | Some(value: T)

  /** A value, or the error an operation throws instead of returning. */
  datatype Result<+T, +E> = Ok(value: T) | Err(error: E)

  /** JavaScript's `a || b` where each side is an object or `undefined`:
      objects are truthy, so the left side wins whenever it is present. */
  function Or<T>(a: Option<T>, b: Option<T>): Option<T>
  {
    if a.Some? then a else b
  }

  /** JavaScript's `m[k]` on a plain object used as a dictionary. */
  function Lookup<K, V>(m: map<K, V>, k: K): (r: Option<V>)
    ensures r.Some? <==> k in m
    ensures r.Some? ==> r.value == m[k]
  {
    if k in m then Some(m[k]) else None
  }
}
