/** Routing of domain events: staged into the outbox before the commit, or handled inline after it. */
module EventDispatch {
  import opened Common
  import opened Clock
  import opened Facts
  import opened OutboxProtocol
  import opened OutboxRelay

  datatype DispatchMode = Sync | Background
  datatype Event = Event(kind: string, payload: string)
  datatype Handler = Handler(kind: string, mode: DispatchMode)
  type Registry = map<string, seq<Handler>>

  /** Handler number `handler` of event number `event`: one thing that has to be done. */
  datatype Obligation = Obligation(event: nat, handler: nat)

  datatype Phase = Staging | Dispatching

  function Handlers(registry: Registry, event: Event): seq<Handler>
  {
    if event.kind in registry then registry[event.kind] else []
  }

  predicate IsObligation(registry: Registry, events: seq<Event>, o: Obligation)
  {
    o.event < |events| && o.handler < |Handlers(registry, events[o.event])|
  }

  predicate Takes(phase: Phase, celeryEnabled: bool, handler: Handler)
  {
    match phase
    case Staging => celeryEnabled && handler.mode == Background
    case Dispatching => handler.mode == Sync || !celeryEnabled
  }

  predicate IsTaken(phase: Phase, celeryEnabled: bool, registry: Registry, events: seq<Event>, o: Obligation)
  {
    IsObligation(registry, events, o)
    && Takes(phase, celeryEnabled, Handlers(registry, events[o.event])[o.handler])
  }

  predicate Earlier(a: Obligation, b: Obligation)
  {
    a.event < b.event || (a.event == b.event && a.handler < b.handler)
  }

  ghost predicate InOrder(obligations: seq<Obligation>)
  {
    forall i, j :: 0 <= i < j < |obligations| ==> Earlier(obligations[i], obligations[j])
  }

  /** All obligations the phase takes that come before a limit, each once, event by event and handler by handler. */
  ghost predicate TakenBefore(
    phase: Phase, celeryEnabled: bool, registry: Registry, events: seq<Event>, limit: Obligation,
    taken: seq<Obligation>)
  {
    && InOrder(taken)
    && forall o :: o in taken <==> IsTaken(phase, celeryEnabled, registry, events, o) && Earlier(o, limit)
  }

  ghost predicate Taken(
    phase: Phase, celeryEnabled: bool, registry: Registry, events: seq<Event>, taken: seq<Obligation>)
  {
    && InOrder(taken)
    && forall o :: o in taken <==> IsTaken(phase, celeryEnabled, registry, events, o)
  }

  function Occurrences(obligations: seq<Obligation>, o: Obligation): nat
  {
    multiset(obligations)[o]
  }

  lemma AllButLast(a: seq<Obligation>, o: Obligation)
    requires a != [] && InOrder(a)
    ensures o in a[..|a| - 1] <==> o in a && o != a[|a| - 1]
  {
    var m := |a| - 1;
    assert a == a[..m] + [a[m]];
    if o in a[..m] {
      var i :| 0 <= i < m && a[i] == o;
      assert Earlier(a[i], a[m]);
    }
  }

  lemma {:induction false} OccursOnce(obligations: seq<Obligation>, o: Obligation)
    requires InOrder(obligations)
    ensures Occurrences(obligations, o) == if o in obligations then 1 else 0
    decreases |obligations|
  {
    if obligations != [] {
      var n := |obligations| - 1;
      OccursOnce(obligations[..n], o);
      AllButLast(obligations, o);
      assert obligations == obligations[..n] + [obligations[n]];
    }
  }

  /** Between them the two phases take every (event, registered handler) pair exactly once. */
  lemma EveryPairExactlyOnce(
    celeryEnabled: bool, registry: Registry, events: seq<Event>,
    staged: seq<Obligation>, dispatched: seq<Obligation>, o: Obligation)
    requires Taken(Staging, celeryEnabled, registry, events, staged)
    requires Taken(Dispatching, celeryEnabled, registry, events, dispatched)
    ensures Occurrences(staged, o) + Occurrences(dispatched, o)
         == if o.event < |events| && events[o.event].kind in registry
               && o.handler < |registry[events[o.event].kind]| then 1 else 0
    ensures o in staged <==>
              && o.event < |events| && events[o.event].kind in registry
              && o.handler < |registry[events[o.event].kind]|
              && celeryEnabled && registry[events[o.event].kind][o.handler].mode == Background
  {
    OccursOnce(staged, o);
    OccursOnce(dispatched, o);
  }

  /** The order leaves no freedom: what a phase takes is determined by the events and the registry. */
  lemma {:induction false} SameTaken(a: seq<Obligation>, b: seq<Obligation>)
    requires InOrder(a) && InOrder(b) && forall o :: o in a <==> o in b
    ensures a == b
    decreases |a|
  {
    HeadIsMember(a);
    HeadIsMember(b);
    if a != [] && b != [] {
      var m, n := |a| - 1, |b| - 1;
      assert a[m] in a && b[n] in b;
      var i :| 0 <= i < |b| && b[i] == a[m];
      var j :| 0 <= j < |a| && a[j] == b[n];
      assert i == n;
      forall o ensures o in a[..m] <==> o in b[..n] {
        AllButLast(a, o);
        AllButLast(b, o);
      }
      SameTaken(a[..m], b[..n]);
      assert a == a[..m] + [a[m]] && b == b[..n] + [b[n]];
    }
  }

  lemma SkipOrTake(
    phase: Phase, celeryEnabled: bool, registry: Registry, events: seq<Event>, at: Obligation, taken: seq<Obligation>)
    requires TakenBefore(phase, celeryEnabled, registry, events, at, taken) && IsObligation(registry, events, at)
    ensures var handler := Handlers(registry, events[at.event])[at.handler];
            TakenBefore(phase, celeryEnabled, registry, events, Obligation(at.event, at.handler + 1),
                        if Takes(phase, celeryEnabled, handler) then taken + [at] else taken)
  {
    var next := Obligation(at.event, at.handler + 1);
    assert forall o :: Earlier(o, next) <==> Earlier(o, at) || o == at;
    assert forall i :: 0 <= i < |taken| ==> taken[i] in taken;
  }

  lemma NextEvent(
    phase: Phase, celeryEnabled: bool, registry: Registry, events: seq<Event>, i: nat, taken: seq<Obligation>)
    requires i < |events|
    requires TakenBefore(
      phase, celeryEnabled, registry, events, Obligation(i, |Handlers(registry, events[i])|), taken)
    ensures TakenBefore(phase, celeryEnabled, registry, events, Obligation(i + 1, 0), taken)
  {
  }

  lemma AllEvents(phase: Phase, celeryEnabled: bool, registry: Registry, events: seq<Event>, taken: seq<Obligation>)
    requires TakenBefore(phase, celeryEnabled, registry, events, Obligation(|events|, 0), taken)
    ensures Taken(phase, celeryEnabled, registry, events, taken)
  {
  }

  // ----- What is handed over

  /** The outbox message of an obligation. */
  function Delivery(registry: Registry, events: seq<Event>, o: Obligation): Message
    requires IsObligation(registry, events, o)
  {
    var event := events[o.event];
    Message(event.kind, Handlers(registry, event)[o.handler].kind, event.payload)
  }

  /** The message names the event's type and the handler's, and carries the event's payload. */
  lemma DeliveryNames(registry: Registry, events: seq<Event>, o: Obligation)
    requires IsObligation(registry, events, o)
    ensures var message, event := Delivery(registry, events, o), events[o.event];
            && message.eventType == event.kind && message.payload == event.payload
            && event.kind in registry && o.handler < |registry[event.kind]|
            && message.handlerType == registry[event.kind][o.handler].kind
  {
  }

  /** The handlers a worker can find for a message: those of its event type that carry its handler type. */
  function Candidates(registry: Registry, message: Message): set<nat>
  {
    if message.eventType !in registry then {} else
      set j | 0 <= j < |registry[message.eventType]| && registry[message.eventType][j].kind == message.handlerType
  }

  /** When an event type's handlers have different types, the message leads back to exactly its handler. */
  lemma DeliveryFindsItsHandler(registry: Registry, events: seq<Event>, o: Obligation)
    requires IsObligation(registry, events, o)
    requires forall i, j :: 0 <= i < j < |Handlers(registry, events[o.event])| ==>
               Handlers(registry, events[o.event])[i].kind != Handlers(registry, events[o.event])[j].kind
    ensures Candidates(registry, Delivery(registry, events, o)) == {o.handler}
  {
    var handlers := Handlers(registry, events[o.event]);
    forall j | 0 <= j < |handlers| && j != o.handler ensures handlers[j].kind != handlers[o.handler].kind {
      if j < o.handler {
        assert handlers[j].kind != handlers[o.handler].kind;
      } else {
        assert handlers[o.handler].kind != handlers[j].kind;
      }
    }
  }

  /** One run of a handler in this process. */
  datatype Call = Call(handler: Handler, event: Event)

  function InlineCall(registry: Registry, events: seq<Event>, o: Obligation): Call
    requires IsObligation(registry, events, o)
  {
    Call(Handlers(registry, events[o.event])[o.handler], events[o.event])
  }

  function InlineCalls(registry: Registry, events: seq<Event>, taken: seq<Obligation>): (calls: seq<Call>)
    requires forall o :: o in taken ==> IsObligation(registry, events, o)
    ensures |calls| == |taken|
  {
    seq(|taken|, k requires 0 <= k < |taken| => assert taken[k] in taken; InlineCall(registry, events, taken[k]))
  }

  /** The k-th call runs the handler registered at the k-th obligation's place, on that obligation's event. */
  lemma InlineCallsName(registry: Registry, events: seq<Event>, taken: seq<Obligation>, k: nat)
    requires (forall o :: o in taken ==> IsObligation(registry, events, o)) && k < |taken|
    ensures var o, call := taken[k], InlineCalls(registry, events, taken)[k];
            && o.event < |events| && events[o.event].kind in registry
            && o.handler < |registry[events[o.event].kind]|
            && call.event == events[o.event] && call.handler == registry[events[o.event].kind][o.handler]
  {
    assert taken[k] in taken;
  }

  /** The k-th new row of the outbox is the k-th staged obligation, not processed yet. */
  ghost predicate RowsFor(
    added: map<RowId, Row>, registry: Registry, events: seq<Event>, staged: seq<Obligation>, ids: seq<RowId>)
  {
    && |ids| == |staged| && Distinct(ids)
    && forall k :: 0 <= k < |ids| ==>
         && ids[k] in added && IsObligation(registry, events, staged[k])
         && added[ids[k]].message == Delivery(registry, events, staged[k]) && added[ids[k]].processedAt == None
  }

  /** The rows were created one after the other between two moments. */
  predicate CreatedBetween(added: map<RowId, Row>, ids: seq<RowId>, from: int, to: int)
    requires forall id :: id in ids ==> id in added
  {
    && from <= to && (forall k :: 0 <= k < |ids| ==> from <= added[ids[k]].createdAt <= to)
    && (forall j, k :: 0 <= j < k < |ids| ==> added[ids[j]].createdAt <= added[ids[k]].createdAt)
  }

  lemma OneMoreMoment(added: map<RowId, Row>, ids: seq<RowId>, from: int, to: int, row: Row, id: RowId)
    requires (forall other :: other in ids ==> other in added) && CreatedBetween(added, ids, from, to)
    requires row.createdAt >= to && id !in ids
    ensures (forall other :: other in ids + [id] ==> other in added[id := row])
    ensures CreatedBetween(added[id := row], ids + [id], from, row.createdAt)
  {
    var added', ids' := added[id := row], ids + [id];
    forall k | 0 <= k < |ids| ensures added'[ids'[k]] == added[ids[k]] {
      assert ids[k] in ids;
    }
  }

  lemma RowsDescribe(
    added: map<RowId, Row>, registry: Registry, events: seq<Event>, staged: seq<Obligation>, ids: seq<RowId>)
    requires RowsFor(added, registry, events, staged, ids)
    ensures forall k :: 0 <= k < |staged| ==>
              var o := staged[k];
              && o.event < |events| && events[o.event].kind in registry
              && o.handler < |registry[events[o.event].kind]| && ids[k] in added
              && added[ids[k]].message.eventType == events[o.event].kind
              && added[ids[k]].message.handlerType == registry[events[o.event].kind][o.handler].kind
              && added[ids[k]].message.payload == events[o.event].payload
  {
    forall k | 0 <= k < |staged|
      ensures added[ids[k]].message == Delivery(registry, events, staged[k])
    {
      DeliveryNames(registry, events, staged[k]);
    }
  }

  /** Row ids are time-sortable: each is new, and above all before it. */
  class IdSource {
    var next: nat

    method Next() returns (id: RowId)
      modifies this
      ensures id == old(next) && next == id + 1
    {
      id := next;
      next := next + 1;
    }
  }

  ghost predicate AllBelow(rows: map<RowId, Row>, next: nat)
  {
    forall id :: id in rows ==> id < next
  }

  /** The session gained exactly these rows, under ids that were not in use. */
  ghost predicate Gained(before: map<RowId, Row>, after: map<RowId, Row>, start: nat, next: nat, ids: seq<RowId>)
  {
    && start <= next
    && (forall id :: id in ids ==> start <= id < next)
    && (forall id :: id in after <==> id in before || id in ids)
    && (forall id :: id in before ==> id in after && after[id] == before[id])
  }

  lemma OneMoreRow(
    added: map<RowId, Row>, registry: Registry, events: seq<Event>, staged: seq<Obligation>, ids: seq<RowId>,
    o: Obligation, row: Row, id: RowId)
    requires RowsFor(added, registry, events, staged, ids) && IsObligation(registry, events, o)
    requires row.message == Delivery(registry, events, o) && row.processedAt == None && id !in ids
    ensures RowsFor(added[id := row], registry, events, staged + [o], ids + [id])
  {
    var added', staged', ids' := added[id := row], staged + [o], ids + [id];
    forall k | 0 <= k < |ids'|
      ensures ids'[k] in added' && IsObligation(registry, events, staged'[k])
      ensures added'[ids'[k]].message == Delivery(registry, events, staged'[k]) && added'[ids'[k]].processedAt == None
    {
      if k < |ids| {
        assert ids'[k] == ids[k] && staged'[k] == staged[k] && ids[k] in ids;
      }
    }
  }

  lemma OneMoreId(
    before: map<RowId, Row>, added: map<RowId, Row>, start: nat, ids: seq<RowId>, row: Row, id: RowId)
    requires AllBelow(before, start) && Gained(before, added, start, id, ids)
    ensures id !in ids && Gained(before, added[id := row], start, id + 1, ids + [id])
  {
    assert forall other :: other in ids + [id] <==> other in ids || other == id;
  }

  class HybridEventDispatcher {
    const registry: Registry
    const celeryEnabled: bool
    const outbox: SqlaOutboxRepository
    const ids: IdSource
    const clock: UtcClock
    var calls: seq<Call>

    constructor (
      registry: Registry, celeryEnabled: bool, outbox: SqlaOutboxRepository, ids: IdSource, clock: UtcClock)
      ensures this.registry == registry && this.celeryEnabled == celeryEnabled && this.outbox == outbox
      ensures this.ids == ids && this.clock == clock && calls == []
    {
      this.registry, this.celeryEnabled, this.outbox, this.ids, this.clock :=
        registry, celeryEnabled, outbox, ids, clock;
      calls := [];
    }

    method Stage(events: seq<Event>) returns (ghost staged: seq<Obligation>, ghost rows: seq<RowId>)
      requires AllBelow(outbox.added, ids.next)
      modifies outbox, ids, clock
      ensures Taken(Staging, celeryEnabled, registry, events, staged)
      ensures RowsFor(outbox.added, registry, events, staged, rows)
      ensures Gained(old(outbox.added), outbox.added, old(ids.next), ids.next, rows)
      ensures AllBelow(outbox.added, ids.next) && outbox.marks == old(outbox.marks)
      ensures outbox.deletes == old(outbox.deletes)
      ensures forall k :: 0 <= k < |staged| ==>
                var o := staged[k];
                && o.event < |events| && events[o.event].kind in registry
                && o.handler < |registry[events[o.event].kind]| && rows[k] in outbox.added
                && outbox.added[rows[k]].message.eventType == events[o.event].kind
                && outbox.added[rows[k]].message.handlerType == registry[events[o.event].kind][o.handler].kind
                && outbox.added[rows[k]].message.payload == events[o.event].payload
      ensures CreatedBetween(outbox.added, rows, old(clock.now), clock.now)
    {
      staged, rows := [], [];
      if !celeryEnabled { return; }
      for i := 0 to |events|
        invariant TakenBefore(Staging, celeryEnabled, registry, events, Obligation(i, 0), staged)
        invariant RowsFor(outbox.added, registry, events, staged, rows)
        invariant Gained(old(outbox.added), outbox.added, old(ids.next), ids.next, rows)
        invariant outbox.marks == old(outbox.marks) && outbox.deletes == old(outbox.deletes)
        invariant CreatedBetween(outbox.added, rows, old(clock.now), clock.now)
      {
        var handlers := Handlers(registry, events[i]);
        for j := 0 to |handlers|
          invariant TakenBefore(Staging, celeryEnabled, registry, events, Obligation(i, j), staged)
          invariant RowsFor(outbox.added, registry, events, staged, rows)
          invariant Gained(old(outbox.added), outbox.added, old(ids.next), ids.next, rows)
          invariant outbox.marks == old(outbox.marks) && outbox.deletes == old(outbox.deletes)
          invariant CreatedBetween(outbox.added, rows, old(clock.now), clock.now)
        {
          SkipOrTake(Staging, celeryEnabled, registry, events, Obligation(i, j), staged);
          if handlers[j].mode == Background {
            ghost var before := clock.now;
            var id := ids.Next();
            var now := clock.Read();
            var message := Message(events[i].kind, handlers[j].kind, events[i].payload);
            OneMoreId(old(outbox.added), outbox.added, old(ids.next), rows, Row(message, now, None), id);
            OneMoreMoment(outbox.added, rows, old(clock.now), before, Row(message, now, None), id);
            OneMoreRow(
              outbox.added, registry, events, staged, rows, Obligation(i, j), Row(message, now, None), id);
            outbox.Add(id, message, now);
            staged, rows := staged + [Obligation(i, j)], rows + [id];
          }
        }
        NextEvent(Staging, celeryEnabled, registry, events, i, staged);
      }
      AllEvents(Staging, celeryEnabled, registry, events, staged);
      RowsDescribe(outbox.added, registry, events, staged, rows);
    }

    /** Runs the handlers in order; the first one that raises ends it. */
    method Dispatch(events: seq<Event>, raises: Call -> bool) returns (raised: bool, ghost dispatched: seq<Obligation>)
      modifies this
      ensures forall o :: o in dispatched ==> IsObligation(registry, events, o)
      ensures calls == old(calls) + InlineCalls(registry, events, dispatched)
      ensures forall k :: 0 <= k < |dispatched| - (if raised then 1 else 0) ==>
                !raises(InlineCalls(registry, events, dispatched)[k])
      ensures if raised then
                && dispatched != []
                && var last := dispatched[|dispatched| - 1];
                && TakenBefore(
                  Dispatching, celeryEnabled, registry, events, Obligation(last.event, last.handler + 1), dispatched)
                && raises(InlineCalls(registry, events, dispatched)[|dispatched| - 1])
              else Taken(Dispatching, celeryEnabled, registry, events, dispatched)
    {
      dispatched := [];
      for i := 0 to |events|
        invariant TakenBefore(Dispatching, celeryEnabled, registry, events, Obligation(i, 0), dispatched)
        invariant calls == old(calls) + InlineCalls(registry, events, dispatched)
        invariant forall k :: 0 <= k < |dispatched| ==> !raises(InlineCalls(registry, events, dispatched)[k])
      {
        var handlers := Handlers(registry, events[i]);
        for j := 0 to |handlers|
          invariant TakenBefore(Dispatching, celeryEnabled, registry, events, Obligation(i, j), dispatched)
          invariant calls == old(calls) + InlineCalls(registry, events, dispatched)
          invariant forall k :: 0 <= k < |dispatched| ==> !raises(InlineCalls(registry, events, dispatched)[k])
        {
          SkipOrTake(Dispatching, celeryEnabled, registry, events, Obligation(i, j), dispatched);
          if handlers[j].mode == Sync || !celeryEnabled {
            ghost var next := dispatched + [Obligation(i, j)];
            var call := Call(handlers[j], events[i]);
            calls := calls + [call];
            assert InlineCalls(registry, events, next) == InlineCalls(registry, events, dispatched) + [call];
            dispatched := next;
            if raises(call) { return true, dispatched; }
          }
        }
        NextEvent(Dispatching, celeryEnabled, registry, events, i, dispatched);
      }
      AllEvents(Dispatching, celeryEnabled, registry, events, dispatched);
      raised := false;
    }
  }

  // ----- Recording and collecting

  class Entity {
    var events: seq<Event>

    constructor ()
      ensures events == []
    {
      events := [];
    }

    method RecordEvent(event: Event)
      modifies this
      ensures events == old(events) + [event]
    {
      events := events + [event];
    }

    method CollectEvents() returns (collected: seq<Event>)
      modifies this
      ensures collected == old(events) && events == []
    {
      collected := events;
      events := [];
    }
  }

  datatype EntityCall = Record(event: Event) | Collect

  /** What an entity holds after a sequence of calls. */
  function Held(calls: seq<EntityCall>): seq<Event>
    decreases |calls|
  {
    if calls == [] then [] else
      var n := |calls| - 1;
      match calls[n]
      case Record(event) => Held(calls[..n]) + [event]
      case Collect => []
  }

  /** What the collect calls returned, put together. */
  function Collected(calls: seq<EntityCall>): seq<Event>
    decreases |calls|
  {
    if calls == [] then [] else
      var n := |calls| - 1;
      Collected(calls[..n]) + if calls[n].Collect? then Held(calls[..n]) else []
  }

  function Recorded(calls: seq<EntityCall>): seq<Event>
    decreases |calls|
  {
    if calls == [] then [] else
      var n := |calls| - 1;
      Recorded(calls[..n]) + if calls[n].Record? then [calls[n].event] else []
  }

  /** Every recorded event is collected once, in order, or is still held. */
  lemma {:induction false} CollectedOnce(calls: seq<EntityCall>)
    ensures Recorded(calls) == Collected(calls) + Held(calls)
    decreases |calls|
  {
    if calls != [] {
      CollectedOnce(calls[..|calls| - 1]);
    }
  }

  /** The class follows the calls: its field is what the calls leave, its results are what they collect. */
  method Perform(entity: Entity, calls: seq<EntityCall>) returns (collected: seq<Event>)
    requires entity.events == []
    modifies entity
    ensures entity.events == Held(calls) && collected == Collected(calls)
    ensures collected + entity.events == Recorded(calls)
  {
    collected := [];
    for i := 0 to |calls|
      invariant entity.events == Held(calls[..i]) && collected == Collected(calls[..i])
    {
      assert calls[..i + 1][..i] == calls[..i];
      match calls[i] {
        case Record(event) => entity.RecordEvent(event);
        case Collect =>
          var more := entity.CollectEvents();
          collected := collected + more;
      }
    }
    assert calls[..|calls|] == calls;
    CollectedOnce(calls);
  }
}
