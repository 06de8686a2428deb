/**
 * `lsGet` / `lsSet` (app.js): JSON values kept in the browser's per-origin
 * key-value store. The store is a map from key to what `JSON.parse` makes of
 * the stored text; serialisation itself is not modelled.
 */
module Storage {

  /** What reading one key and parsing it can give. */
  datatype Entry<V> =
    | Parsed(value: V)   // the text parsed to a non-null value
    | ParsedNull         // the text was "null"
    | Unparsable         // JSON.parse threw

  type Disk<V> = map<string, Entry<V>>

  /** `lsGet(key, fallback)`: the stored value, or `fallback` when the key is
      absent (getItem gives null, which parses to null), holds null, or
      holds text that does not parse. */
  function LsGet<V>(disk: Disk<V>, key: string, fallback: V): (r: V)
    ensures key in disk && disk[key].Parsed? ==> r == disk[key].value
    ensures key !in disk || disk[key].ParsedNull? || disk[key].Unparsable? ==> r == fallback
  {
    if key in disk then
      match disk[key]
      case Parsed(v) => v
      case ParsedNull => fallback
      case Unparsable => fallback
    else fallback
  }

  /** `lsSet(key, value)`: `accepted` is whether the browser took the write;
      a refused write (quota, storage disabled) is dropped without raising. */
  function LsSet<V>(disk: Disk<V>, key: string, value: V, accepted: bool): (r: Disk<V>)
    ensures accepted ==> key in r && r[key] == Parsed(value)
    ensures !accepted ==> r == disk
  {
    if accepted then disk[key := Parsed(value)] else disk
  }

  /** An accepted write is what the next read of that key returns. */
  lemma ReadYourWrite<V>(disk: Disk<V>, key: string, value: V, fallback: V)
    ensures LsGet(LsSet(disk, key, value, true), key, fallback) == value
  {
  }

  /** Writing one key never changes what another key reads. */
  lemma WriteLeavesOtherKeys<V>(disk: Disk<V>, key: string, other: string, value: V, accepted: bool, fallback: V)
    requires other != key
    ensures LsGet(LsSet(disk, key, value, accepted), other, fallback) == LsGet(disk, other, fallback)
  {
  }
}
