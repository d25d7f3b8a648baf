/** `EventEmitter`: each event name owns an ordered list of listeners.
    Listeners are abstract identities compared with `===`; what a
    listener does when called is outside this model, so `emit` is the
    list of listeners it calls, in calling order. */
module EventEmitter {

  datatype Emitter<L> = Emitter(events: map<string, seq<L>>)

  /** The constructor: no event has listeners. */
  function NewEmitter<L>(): (em: Emitter<L>)
    ensures forall e :: e !in em.events
  {
    Emitter(map[])
  }

  /** `emit(event)`: the listeners called, in registration order; none
      for an event never registered. */
  function Emit<L>(em: Emitter<L>, event: string): (r: seq<L>)
    ensures event !in em.events ==> r == []
    ensures event in em.events ==> r == em.events[event]
  {
    if event in em.events then em.events[event] else []
  }

  /** `on(event, listener)`: appends, creating the list when absent. */
  function On<L>(em: Emitter<L>, event: string, listener: L): (r: Emitter<L>)
    ensures Emit(r, event) == Emit(em, event) + [listener]
    ensures forall e | e != event :: Emit(r, e) == Emit(em, e)
    ensures forall e | e != event && e in em.events :: e in r.events && r.events[e] == em.events[e]
  {
    var list := if event in em.events then em.events[event] else [];
    Emitter(em.events[event := list + [listener]])
  }

  /** `indexOf`: the first position holding `x`, or -1. */
  function IndexOf<L(==)>(s: seq<L>, x: L): (i: int)
    ensures -1 <= i
    ensures i == -1 <==> x !in s
    ensures 0 <= i ==> i < |s| && s[i] == x && x !in s[..i]
  {
    if |s| == 0 then -1
    else if s[0] == x then 0
    else
      var j := IndexOf(s[1..], x);
      if j == -1 then -1
      else
        assert s[..j + 1] == [s[0]] + s[1..][..j];
        j + 1
  }

  /** `removeListener(event, listener)`: splices out the first occurrence. */
  function RemoveListener<L(==)>(em: Emitter<L>, event: string, listener: L): (r: Emitter<L>)
    ensures forall e | e != event :: e in r.events <==> e in em.events
    ensures forall e | e != event && e in em.events :: r.events[e] == em.events[e]
  {
    if event in em.events then
      var list := em.events[event];
      var idx := IndexOf(list, listener);
      if idx > -1 then Emitter(em.events[event := list[..idx] + list[idx + 1..]])
      else em
    else em
  }

  /** Removal takes out one occurrence of the listener, the first, and
      keeps the others in order. */
  lemma {:induction false} RemoveListenerRemovesFirst<L>(em: Emitter<L>, event: string, listener: L)
    requires listener in Emit(em, event)
    ensures var before, after := Emit(em, event), Emit(RemoveListener(em, event, listener), event);
            exists i | 0 <= i < |before| ::
              && before[i] == listener && listener !in before[..i]
              && after == before[..i] + before[i + 1..]
    ensures multiset(Emit(RemoveListener(em, event, listener), event))
            == multiset(Emit(em, event)) - multiset{listener}
  {
    var before := Emit(em, event);
    var i := IndexOf(before, listener);
    var after := Emit(RemoveListener(em, event, listener), event);
    assert after == before[..i] + before[i + 1..];
    assert before == before[..i] + [listener] + before[i + 1..];
    assert multiset(before) == multiset(before[..i]) + multiset{listener} + multiset(before[i + 1..]);
  }

  /** Removing a listener that is not registered for the event, or from an
      event never registered, changes nothing. */
  lemma RemoveAbsentIsNoOp<L>(em: Emitter<L>, event: string, listener: L)
    requires listener !in Emit(em, event)
    ensures RemoveListener(em, event, listener) == em
  {
  }

  /** Registering a fresh listener and removing it again restores what
      every event emits. */
  lemma {:induction false} OnThenRemoveRestores<L>(em: Emitter<L>, event: string, listener: L, e: string)
    requires listener !in Emit(em, event)
    ensures Emit(RemoveListener(On(em, event, listener), event, listener), e) == Emit(em, e)
  {
    var s := Emit(em, event);
    var t := Emit(On(em, event, listener), event);
    assert t == s + [listener];
    assert IndexOf(t, listener) == |s|;
    assert t[..|s|] + t[|s| + 1..] == s;
  }

  /** Duplicates are kept: registering the same listener twice makes it
      run twice, and one removal leaves one registration. */
  lemma {:induction false} DuplicatesKept<L>(em: Emitter<L>, event: string, listener: L)
    requires listener !in Emit(em, event)
    ensures var twice := On(On(em, event, listener), event, listener);
            && Emit(twice, event) == Emit(em, event) + [listener, listener]
            && Emit(RemoveListener(twice, event, listener), event) == Emit(em, event) + [listener]
  {
    var s := Emit(em, event);
    var twice := On(On(em, event, listener), event, listener);
    var t := Emit(twice, event);
    assert t == s + [listener, listener];
    assert IndexOf(t, listener) == |s|;
    assert t[..|s|] + t[|s| + 1..] == s + [listener];
  }
}
