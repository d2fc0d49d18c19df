/** The event registry `_cache` of Core.js: event type to handler list, and
    the effect of `on` and `off` on the whole table. */
module Registry {
  import opened Values
  import opened Handlers

  type Table = map<string, seq<Handler>>

  /** Every present event type maps to a non-empty list (Core.js:55-57, 85-89). */
  predicate NoEmptyLists(reg: Table)
  {
    forall t :: t in reg ==> reg[t] != []
  }

  /** The list registered for `t`, where an absent type reads as empty. */
  function Registered(reg: Table, t: string): seq<Handler>
  {
    if t in reg then reg[t] else []
  }

  /** The table after `on(eventType, handler)` (Core.js:45-65); `None` stands
      for a type that is `null` or `undefined`. */
  function AfterOn(reg: Table, eventType: Option<string>, handler: Value): (r: Table)
    ensures eventType.None? || !handler.Fn? ==> r == reg
    ensures eventType.Some? && handler.Fn? ==>
              && r.Keys == reg.Keys + {eventType.value}
              && r[eventType.value] != []
              && (Registered(reg, eventType.value) == [] ==> r[eventType.value] == [handler.handler])
    ensures forall t :: eventType != Some(t) && t in reg ==> r[t] == reg[t]
    ensures NoEmptyLists(reg) ==> NoEmptyLists(r)
  {
    if eventType.None? || !handler.Fn? then reg
    else
      var t := eventType.value;
      reg[t := Subscribe(Registered(reg, t), handler.handler)]
  }

  /** The table after `off(eventType, handler)` (Core.js:71-90): a list the
      sweep empties takes its type out of the table. */
  function AfterOff(reg: Table, eventType: string, handler: Value): (r: Table)
    ensures eventType !in reg || reg[eventType] == [] || !handler.Fn? ==> r == reg
    ensures r.Keys <= reg.Keys && r.Keys >= reg.Keys - {eventType}
    ensures forall t :: t != eventType && t in reg ==> r[t] == reg[t]
    ensures NoEmptyLists(reg) ==> NoEmptyLists(r)
  {
    if eventType !in reg || reg[eventType] == [] || !handler.Fn? then reg
    else
      var rest := Unsubscribe(reg[eventType], handler.handler.text);
      if rest == [] then reg - {eventType} else reg[eventType := rest]
  }

  /** A type whose list `off` emptied is absent, and the next `on` for it
      creates the list `[h]` afresh. */
  lemma OffThenOnRecreates(reg: Table, eventType: string, h: Handler, g: Handler)
    requires NoEmptyLists(reg) && eventType in reg && Unsubscribe(reg[eventType], h.text) == []
    ensures eventType !in AfterOff(reg, eventType, Fn(h))
    ensures AfterOn(AfterOff(reg, eventType, Fn(h)), Some(eventType), Fn(g))[eventType] == [g]
  {
  }

  /** When `n` copies of one handler are registered, `off` with that handler
      leaves `n / 2` of them, so for `n >= 2` a later `emit` still reaches it. */
  lemma {:induction false} OffLeavesHalfOfCopies(reg: Table, eventType: string, h: Handler, n: nat)
    requires n >= 2 && eventType in reg && reg[eventType] == seq(n, _ => h)
    ensures var r := AfterOff(reg, eventType, Fn(h));
            eventType in r && r[eventType] == seq(n / 2, _ => h)
  {
    UnsubscribeCopies(h, n);
  }

  /** Registering a handler for a type whose list holds other handlers raises
      the number of handlers with its text to the old list's length. */
  lemma {:induction false} OnDuplicates(reg: Table, eventType: string, h: Handler)
    requires eventType in reg && reg[eventType] != []
    ensures Matches(AfterOn(reg, Some(eventType), Fn(h))[eventType], h.text) == |reg[eventType]|
  {
    SubscribeTextCount(reg[eventType], h);
  }
}
