# Core singleton: event registry, key-value store and lifecycle

This project is a Dafny model of the stateful part of `Core.js`. That file
defines a browser-side singleton. Its module closure owns three pieces of
state (Core.js:9-13):

- `_instance`, the one Core object, created lazily by `getInstance` and
  dropped by `destroy`;
- `_cache`, the event registry, which maps an event type to an ordered list
  of handler functions (`on`, `off`, `emit`);
- `_storage`, a key-value store from string keys to any value
  (`storageGet`, `storageSet`, `storageRemove`).

The closure is the class `CoreSingleton.CoreState`, with the fields
`instance`, `cache` and `storage`. Each prototype method of Core is a method
of that class. Each method changes only the field it names in `modifies`.
The `ensures` of `On`, `Off`, `StorageSet` and `StorageRemove` set the new
table equal to a pure function of the old one: `Registry.AfterOn`,
`Registry.AfterOff`, `Store.Set` and `Store.Remove`. `Destroy` empties both
tables, and `GetInstance` keeps the existing instance or stores a fresh one.
Lemmas about the handler lists that `on` and `off` produce
(`Handlers.Subscribe`, `Handlers.Unsubscribe`) carry the properties. `CoreState.Valid()` is the invariant that every mutating method
keeps: no event type maps to an empty list, and no key maps to `undefined`.

JavaScript values are the datatype `Values.Value`, which keeps the
distinctions that Core.js tests with `typeof`. A handler function is
`Values.Handler(id, text)`. The `id` stands for the object's identity and
`text` for its `toString()`. Core.js compares handlers only by `text`.

## Behaviour as written

The model follows the loops of Core.js, not their comments:

- **`on` does not deduplicate.** The comment at Core.js:58 says "write only
  unique handlers". The loop at Core.js:59-63 reads its bound once. It then
  pushes one copy of the new handler for every registered handler whose text
  differs. For example, on the list `[f, g]`, `on(type, f)` gives `[f, g, f]`.
  `Handlers.SubscribeTextCount` proves the general rule: after `on(type, h)`
  on a non-empty list, the number of handlers with h's text equals the old
  length of the list.
- **`off` does not remove every match.** At Core.js:79-83, `splice(i, 1)`
  shifts the next handler into slot `i` while `i` still advances. The handler
  right after a removed one is therefore never examined. `Handlers.Unsubscribe`
  states this sweep. `Handlers.UnsubscribeCopies` proves that `n` copies of a
  handler become `n / 2` copies. So `off` followed by `emit` can still call
  the handler that was removed.
- **A destroyed instance is not detached.** `destroy` empties the tables in
  place and nulls `_instance` (Core.js:24-39). It never replaces the tables.
  A Core object from before `destroy` therefore still reads and writes the
  same tables as the new one. In the model the operations belong to the
  closure, so it does not matter which Core object calls them.
- **There is no configuration store.** Core.js has no config property setter,
  so the model has none.

## Model

| member | source | states |
|---|---|---|
| Handlers.Subscribe | Core.js:55-63 | the list after `on` is never empty; the old handlers stay in place and order as its prefix; everything after that prefix is the new handler |
| Handlers.SubscribeAppendsPerMismatch | Core.js:58-63 | on a non-empty list, `on` appends exactly as many copies of the handler as there are registered handlers whose text differs |
| Handlers.SubscribeUnchangedIffAllShareText | Core.js:58-63 | on a non-empty list, `on` changes nothing if and only if every registered handler has the new handler's text |
| Handlers.SubscribeTextCount | Core.js:58-63 | after `on(type, h)` on a non-empty list, the number of handlers with h's text equals the old length of the list, so duplicates are not suppressed |
| Handlers.UnsubscribeKeepsOthers | Core.js:79-83 | every handler whose text differs survives `off`, in the same order, and `off` adds no handler with a different text |
| Handlers.UnsubscribeIsSubseq | Core.js:79-83 | the list after `off` is a subsequence of the list before |
| Handlers.UnsubscribeRemovesMatch | Core.js:79-83 | `off` never adds a match; it removes at least one match when one exists; it leaves a list without matches unchanged; the list gets shorter if and only if a match exists |
| Handlers.UnsubscribeFirstMatch | Core.js:79-83 | `off` keeps every handler before the first match and removes the first match; the handler right after it is kept without being examined, even when it matches |
| Handlers.UnsubscribeCopies | Core.js:79-83 | `off` on a list of `n` copies of one handler leaves `n / 2` copies |
| Registry.AfterOn | Core.js:45-65 | `on` with a null type or a non-function handler changes nothing; otherwise the type becomes present with a non-empty list, an absent or empty list becomes `[handler]`, every other type keeps its list, and no list in the table is empty afterwards |
| Registry.AfterOff | Core.js:71-90 | `off` on an absent type, an empty list or a non-function handler changes nothing; otherwise only this type's entry changes, no type is added, and no list in the table is empty afterwards, because a list the sweep empties takes its type out of the table |
| Registry.OffThenOnRecreates | Core.js:51-89 | a type whose list `off` empties becomes absent, and the next `on` for that type creates the one-handler list again |
| Registry.OffLeavesHalfOfCopies | Core.js:79-89 | when `n >= 2` copies of a handler are registered, `off` with that handler leaves the type present with `n / 2` copies |
| Registry.OnDuplicates | Core.js:58-63 | on a present type, `on(type, h)` makes the number of handlers with h's text equal to the old length of the list |
| Store.Get | Core.js:113-119 | the result is `undefined` or the value stored under the string key; with no `undefined` values stored, it is defined if and only if the key is a string that is present |
| Store.Set | Core.js:125-132 | with a string key and a defined value, a later get of that key returns the value; with a non-string key or an `undefined` value, nothing changes; every other key reads the same; no `undefined` value is ever stored |
| Store.Remove | Core.js:137-144 | after remove, a get of the key returns `undefined`; a non-string key changes nothing; every other key reads the same |
| Store.RemoveIdempotent | Core.js:137-144 | removing a key twice leaves the same store as removing it once |
| CoreSingleton.CoreState.constructor | Core.js:9-13 | the module starts with no instance and two empty tables |
| CoreSingleton.CoreState.Destroy | Core.js:24-39 | the property-by-property deletion loops leave both tables empty, and the instance is null afterwards |
| CoreSingleton.CoreState.On | Core.js:45-65 | the push loop, with its bound read once, turns the registry into `AfterOn` of the old one and keeps the invariant; the store and the instance do not change |
| CoreSingleton.CoreState.Off | Core.js:71-90 | the index and splice loop, followed by the delete of an emptied type, turns the registry into `AfterOff` of the old one and keeps the invariant; the store and the instance do not change |
| CoreSingleton.CoreState.Emit | Core.js:96-107 | for an absent type there are no calls; otherwise every registered handler is called exactly once, in list order, with `data`; no state changes |
| CoreSingleton.CoreState.StorageGet | Core.js:113-119 | returns what `Store.Get` gives for the current store; no state changes |
| CoreSingleton.CoreState.StorageSet | Core.js:125-132 | turns the store into `Store.Set` of the old one and keeps the invariant; the registry and the instance do not change |
| CoreSingleton.CoreState.StorageRemove | Core.js:137-144 | turns the store into `Store.Remove` of the old one and keeps the invariant; the registry and the instance do not change |
| CoreSingleton.CoreState.GetInstance | Core.js:253-259 | when an instance exists, it is returned again; otherwise a fresh object is created, stored and returned; the tables do not change |

## Left out

- The `http` request builder (Core.js:148-250) and `_toQueryString` (Core.js:154-162). They are built on `XMLHttpRequest`, asynchronous load and error callbacks, `JSON.stringify` and `encodeURIComponent`, which are all foreign I/O.
- `Function.prototype.toString`: a handler's text is an abstract string given with the handler.
- What handlers do when they are called. `emit` is modelled as the list of calls it makes.
- CoreSingleton.CoreState.Emit: assumes that handlers do not change the registry while `emit` runs. The loop bound is read once (Core.js:102) and `on` only appends past it (Core.js:61), so a handler that only adds handlers does not change which handlers run in the same pass. A handler that removes handlers of the same type shifts the list, so later handlers can be skipped. If the list becomes shorter than the bound, or its type is deleted while handlers remain to be visited, the next turn of the loop reads past the list or reads from `undefined` at Core.js:103. Reading from `undefined` throws a TypeError. For example, the last handler of a list may delete its own type without a throw, but an earlier handler may not. None of these cases is modelled.
- JavaScript object quirks: `hasOwnProperty` is modelled as key membership, and inherited properties (such as `storageGet("toString")`) are not modelled. Keys that plain objects treat specially are modelled as ordinary keys. The event type `"hasOwnProperty"` creates an own property that hides `Object.prototype.hasOwnProperty`, so every later `on`, `off` and `emit` throws at Core.js:51, 72 or 97 until `destroy` runs. The key `"__proto__"` does not behave like an ordinary key either: `storageSet("__proto__", v)` with a primitive `v` stores nothing.
- Event-type coercion. In `on`, the type is `Option<string>`, and `None` stands for a type that is loosely equal to `null` (that is, `null` or `undefined`). In `off` and `emit`, the type is a `string`. JavaScript would turn a non-string type into a property name, such as `"null"` or `"5"`; the model does not.
- The truthiness and `typeof` tests on list elements (Core.js:60, 80, 103). The registry only ever holds functions, so in the model these tests always pass, except past the current end of the list in `off`'s loop, where the element reads as `undefined` and the test fails.
- JavaScript numbers are modelled as unbounded integers. No operation of the core computes with them.
