/** The value-or-absent wrapper used for Python's `None`. */
module Optional {

  datatype Option<+T> = None | Some(value: T)

  /** `d.get(k)` for a dict holding possibly-absent values. */
  function Lookup<K, V>(m: map<K, Option<V>>, k: K): Option<V>
  {
    if k in m then m[k] else None
  }
}
