/** The optional value and the dictionary lookup with a default that the
    rest of the model shares. */
module Wrappers {

  datatype Option<+T> = None | Some(value: T)

  /** VimScript's `get(dict, key, default)`. */
  function Get<K, V>(m: map<K, V>, k: K, default: V): (v: V)
    ensures k in m ==> v == m[k]
    ensures k !in m ==> v == default
  {
    if k in m then m[k] else default
  }
}
