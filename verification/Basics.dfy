/** Optional values, time, and keys that may be absent. */
module Basics {
  datatype Option<T> = None | Some(value: T)

  /** Time as the store's clock counts it. */
  type Time = nat

  function Min(a: Time, b: Time): Time { if a <= b then a else b }

  function Max(a: Time, b: Time): Time { if a <= b then b else a }

  /** Setting a key, or deleting it when there is no value. */
  function Put<K, V>(m: map<K, V>, key: K, value: Option<V>): map<K, V> {
    if value.None? then m - {key} else m[key := value.value]
  }
}
