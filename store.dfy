/** The key-value store `_storage` of Core.js and its three operations. */
module Store {
  import opened Values

  type Storage = map<string, Value>

  /** No key maps to `undefined`: `storageSet` refuses it (Core.js:126-127). */
  predicate AllDefined(st: Storage)
  {
    forall k :: k in st ==> st[k] != Undefined
  }

  /** `storageGet(key)` (Core.js:113-119): `undefined` for a non-string or
      missing key, the stored value otherwise. */
  function Get(st: Storage, key: Value): (v: Value)
    ensures v == Undefined || (key.Str? && key.s in st && st[key.s] == v)
    ensures AllDefined(st) ==> (v != Undefined <==> key.Str? && key.s in st)
  {
    if key.Str? && key.s in st then st[key.s] else Undefined
  }

  /** `storageSet(key, value)` (Core.js:125-132). */
  function Set(st: Storage, key: Value, value: Value): (r: Storage)
    ensures key.Str? && value != Undefined ==> Get(r, key) == value
    ensures !key.Str? || value == Undefined ==> r == st
    ensures forall k :: k != key ==> Get(r, k) == Get(st, k)
    ensures AllDefined(st) ==> AllDefined(r)
  {
    if !key.Str? || value.Undefined? then st else st[key.s := value]
  }

  /** `storageRemove(key)` (Core.js:137-144). */
  function Remove(st: Storage, key: Value): (r: Storage)
    ensures Get(r, key) == Undefined
    ensures !key.Str? ==> r == st
    ensures forall k :: k != key ==> Get(r, k) == Get(st, k)
    ensures AllDefined(st) ==> AllDefined(r)
  {
    if !key.Str? then st else st - {key.s}
  }

  /** Removing a key twice is the same as removing it once. */
  lemma RemoveIdempotent(st: Storage, key: Value)
    ensures Remove(Remove(st, key), key) == Remove(st, key)
  {
  }
}
