/** The Core singleton of Core.js: the closure that owns `_instance`,
    `_cache` and `_storage` (Core.js:9-13), and the prototype methods that
    every Core object runs against those shared tables. */
module CoreSingleton {
  import opened Values
  import opened Handlers
  import opened Registry
  import opened Store

  /** An object made by `new Core()` (Core.js:19). It holds no state of its
      own: all its methods act on the closure's tables. */
  class Core {
    constructor()
    {
    }
  }

  /** The module closure of Core.js. */
  class CoreState {
    var instance: Core?
    var cache: Table
    var storage: Storage

    /** The invariant every operation keeps: no event type is left with an
        empty list, and no key is stored with `undefined`. */
    ghost predicate Valid()
      reads this
    {
      NoEmptyLists(cache) && AllDefined(storage)
    }

    /** Loading the module: no instance yet, both tables empty (Core.js:9-13). */
    constructor()
      ensures Valid()
      ensures instance == null && cache == map[] && storage == map[]
    {
      instance := null;
      cache := map[];
      storage := map[];
    }

    /** `destroy()` (Core.js:24-39): deletes every event type and every stored
        key, one property at a time, then drops the instance. */
    method Destroy()
      modifies this
      ensures Valid()
      ensures instance == null && cache == map[] && storage == map[]
    {
      while cache != map[]
        decreases cache.Keys
      {
        var prop :| prop in cache;
        cache := cache - {prop};
      }
      while storage != map[]
        invariant cache == map[]
        decreases storage.Keys
      {
        var prop :| prop in storage;
        storage := storage - {prop};
      }
      instance := null;
    }

    /** `on(type, handler)` (Core.js:45-65). */
    method On(eventType: Option<string>, handler: Value)
      requires Valid()
      modifies this`cache
      ensures Valid()
      ensures cache == AfterOn(old(cache), eventType, handler)
    {
      if eventType.None? || !handler.Fn? {
        return;
      }
      var t, h := eventType.value, handler.handler;
      assert t in cache ==> cache[t] != [];
      if t !in cache {
        cache := cache[t := []];
      }
      if |cache[t]| == 0 {
        cache := cache[t := cache[t] + [h]];
        assert cache[t] == [h] == Subscribe([], h);
        return;
      }
      ghost var hs := cache[t];
      assert hs + seq(0, _ => h) == hs;
      var i, len := 0, |cache[t]|;
      while i < len
        invariant 0 <= i <= len == |hs|
        invariant cache == old(cache)[t := hs + seq(|Others(hs[..i], h.text)|, _ => h)]
      {
        ghost var n := |Others(hs[..i], h.text)|;
        OthersAppend(hs[..i], [hs[i]], h.text);
        assert hs[..i + 1] == hs[..i] + [hs[i]];
        assert cache[t][i] == hs[i];
        if cache[t][i].text != h.text {
          cache := cache[t := cache[t] + [h]];
          assert hs + seq(n, _ => h) + [h] == hs + seq(n + 1, _ => h);
        }
        i := i + 1;
      }
      assert hs[..len] == hs;
    }

    /** `off(type, handler)` (Core.js:71-90). */
    method Off(eventType: string, handler: Value)
      requires Valid()
      modifies this`cache
      ensures Valid()
      ensures cache == AfterOff(old(cache), eventType, handler)
    {
      if eventType !in cache || |cache[eventType]| == 0 || !handler.Fn? {
        return;
      }
      var t, text := eventType, handler.handler.text;
      ghost var hs := cache[t];
      var i, len := 0, |cache[t]|;
      while i < len
        invariant t in cache && cache == old(cache)[t := cache[t]]
        invariant 0 <= i <= len && |cache[t]| <= len
        invariant Unsubscribe(hs, text) == Swept(cache[t], i, text)
      {
        SpliceStep(cache[t], i, text);
        if i < |cache[t]| && cache[t][i].text == text {
          cache := cache[t := cache[t][..i] + cache[t][i + 1..]];
        }
        i := i + 1;
      }
      assert Swept(cache[t], i, text) == cache[t];
      if |cache[t]| == 0 {
        cache := cache - {t};
      }
    }

    /** `emit(type, data)` (Core.js:96-107): the calls it makes, in order.
        Handlers are taken not to touch the registry while they run. */
    method Emit(eventType: string, data: Value) returns (calls: seq<Invocation>)
      ensures eventType !in cache ==> calls == []
      ensures eventType in cache ==>
                && |calls| == |cache[eventType]|
                && forall k :: 0 <= k < |calls| ==> calls[k] == Invocation(cache[eventType][k], data)
    {
      calls := [];
      if eventType !in cache || |cache[eventType]| == 0 {
        return;
      }
      var i, len := 0, |cache[eventType]|;
      while i < len
        invariant 0 <= i <= len
        invariant |calls| == i
        invariant forall k :: 0 <= k < i ==> calls[k] == Invocation(cache[eventType][k], data)
      {
        calls := calls + [Invocation(cache[eventType][i], data)];
        i := i + 1;
      }
    }

    /** `storageGet(key)` (Core.js:113-119). */
    method StorageGet(key: Value) returns (v: Value)
      ensures v == Get(storage, key)
    {
      if !key.Str? {
        return Undefined;
      }
      v := if key.s in storage then storage[key.s] else Undefined;
    }

    /** `storageSet(key, value)` (Core.js:125-132). */
    method StorageSet(key: Value, value: Value)
      requires Valid()
      modifies this`storage
      ensures Valid()
      ensures storage == Set(old(storage), key, value)
    {
      if !key.Str? || value.Undefined? {
        return;
      }
      storage := storage[key.s := value];
    }

    /** `storageRemove(key)` (Core.js:137-144). */
    method StorageRemove(key: Value)
      requires Valid()
      modifies this`storage
      ensures Valid()
      ensures storage == Remove(old(storage), key)
    {
      if !key.Str? {
        return;
      }
      storage := storage - {key.s};
    }

    /** `getInstance()` (Core.js:253-259): the existing instance, or a new one
        when there is none. The tables are left as they are. */
    method GetInstance() returns (core: Core)
      modifies this`instance
      ensures old(instance) != null ==> core == old(instance)
      ensures old(instance) == null ==> fresh(core)
      ensures instance == core
    {
      if instance == null {
        instance := new Core();
      }
      core := instance;
    }
  }

  /** The list `off`'s loop will have left once it has looked at slot `i` of
      `list` and onwards: the slots before `i` are settled. */
  function Swept(list: seq<Handler>, i: nat, text: string): seq<Handler>
  {
    var k := if i < |list| then i else |list|;
    list[..k] + Unsubscribe(list[k..], text)
  }

  /** One turn of `off`'s loop keeps `Swept` fixed. */
  lemma {:induction false} SpliceStep(list: seq<Handler>, i: nat, text: string)
    ensures i < |list| && list[i].text == text ==>
              Swept(list[..i] + list[i + 1..], i + 1, text) == Swept(list, i, text)
    ensures !(i < |list| && list[i].text == text) ==>
              Swept(list, i + 1, text) == Swept(list, i, text)
  {
    if i < |list| {
      var rest := list[i..];
      assert rest[0] == list[i] && rest[1..] == list[i + 1..];
      if list[i].text == text {
        var spliced := list[..i] + list[i + 1..];
        if i + 1 < |list| {
          assert spliced[..i + 1] == list[..i] + [list[i + 1]];
          assert spliced[i + 1..] == list[i + 2..] == rest[2..];
        } else {
          assert spliced == list[..i];
        }
      } else {
        assert list[..i + 1] == list[..i] + [list[i]];
      }
    }
  }
}
