/** Ruby's `nil` as an explicit option, and hash lookup that answers `nil` for a missing key. */
module Wrappers {

  datatype Option<+T> = None | Some(value: T)

  /** `hash[key]` on a Ruby Hash whose values are never nil. */
  function Lookup<K, V>(m: map<K, V>, k: K): Option<V>
  {
    if k in m then Some(m[k]) else None
  }
}
