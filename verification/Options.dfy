/** The optional value used throughout the models for SQL NULL, None, null and undefined. */
module Options {
  datatype Option<+T> = None | Some(value: T)

  /** `mapping.get(key)`, or a left join: nothing for a missing key and for no key at all. */
  function Lookup<K(==), V>(m: map<K, V>, key: Option<K>): Option<V> {
    if key.Some? && key.value in m then Some(m[key.value]) else None
  }
}
