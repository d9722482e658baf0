/** From a recorded event to its handlers: what a web transaction that stages events can rely on. */
module EventDelivery {
  import opened Common
  import opened OutboxProtocol
  import opened OutboxRelay
  import opened OutboxSafety
  import opened EventDispatch

  /** Stage the rows one after the other, as part of a web transaction. */
  function StageSteps(tx: WebTx, ids: seq<RowId>, rows: map<RowId, Row>): (steps: seq<Step>)
    requires forall id :: id in ids ==> id in rows
    ensures |steps| == |ids|
  {
    seq(|ids|, k requires 0 <= k < |ids| =>
      assert ids[k] in ids; Stage(tx, ids[k], rows[ids[k]].message, rows[ids[k]].createdAt))
  }

  function StagedBy(s: State, tx: WebTx): map<RowId, Row>
  {
    if tx in s.open then s.open[tx] else map[]
  }

  predicate FreshRows(issued: set<RowId>, ids: seq<RowId>, rows: map<RowId, Row>)
  {
    Distinct(ids) && forall id :: id in ids ==> id in rows && rows[id].processedAt == None && id !in issued
  }

  /** The second state differs from the first only in what has been staged. */
  predicate OnlyStaged(s: State, t: State)
  {
    && t.rows == s.rows && t.locks == s.locks && t.drainers == s.drainers && t.published == s.published
    && t.history == s.history
  }

  /** Staging fresh rows is always possible, and the transaction then holds exactly them besides its earlier ones. */
  lemma {:induction false} StagingRuns(s: State, tx: WebTx, ids: seq<RowId>, rows: map<RowId, Row>)
    requires FreshRows(s.issued, ids, rows)
    ensures IsRun(s, StageSteps(tx, ids, rows))
    ensures var t := After(s, StageSteps(tx, ids, rows));
            && OnlyStaged(s, t) && (ids != [] ==> tx in t.open)
            && (forall id :: id in StagedBy(t, tx) <==> id in StagedBy(s, tx) || id in ids)
            && (forall id :: id in ids ==> StagedBy(t, tx)[id] == rows[id])
            && (forall id :: id in StagedBy(s, tx) && id !in ids ==> StagedBy(t, tx)[id] == StagedBy(s, tx)[id])
    decreases |ids|
  {
    var steps := StageSteps(tx, ids, rows);
    if ids != [] {
      assert ids[0] in ids;
      var next := Apply(s, steps[0]);
      assert StagedBy(next, tx) == StagedBy(s, tx)[ids[0] := rows[ids[0]]];
      assert forall id :: id in ids <==> id == ids[0] || id in ids[1..];
      assert ids[0] !in ids[1..];
      assert FreshRows(next.issued, ids[1..], rows);
      StagingRuns(next, tx, ids[1..], rows);
      assert steps[1..] == StageSteps(tx, ids[1..], rows);
    }
  }

  predicate Kept(s: State, id: RowId, message: Message)
  {
    || (Pending(s.rows, id) && s.rows[id].message == message)
    || Task(id, message) in s.published
  }

  /** It is left to inline dispatch, or held by exactly one row that is pending or has been published, never both. */
  ghost predicate IsMet(
    s: State, celeryEnabled: bool, registry: Registry, events: seq<Event>, staged: seq<Obligation>, ids: seq<RowId>,
    o: Obligation)
    requires IsObligation(registry, events, o) && |ids| == |staged|
  {
    if IsTaken(Dispatching, celeryEnabled, registry, events, o) then o !in staged else
      exists k :: 0 <= k < |staged| && staged[k] == o && Kept(s, ids[k], Delivery(registry, events, o))
        && forall j :: 0 <= j < |staged| && staged[j] == o ==> j == k
  }

  lemma PairAtOnePlace(staged: seq<Obligation>, o: Obligation, k: nat)
    requires InOrder(staged) && k < |staged| && staged[k] == o
    ensures forall j :: 0 <= j < |staged| && staged[j] == o ==> j == k
  {
  }

  /**
   End to end, for a web transaction that has staged its events when it commits, whatever ran
   before and whatever runs after: every (event, registered handler) pair is either left to
   inline dispatch, or held by exactly one row that is pending or has been published with the
   pair's content -- never both, and whatever the relay does or fails to do.
   */
  lemma EveryPairIsMet(
    before: seq<Step>, tx: WebTx, celeryEnabled: bool, registry: Registry, events: seq<Event>,
    staged: seq<Obligation>, ids: seq<RowId>, rest: seq<Step>, o: Obligation)
    requires Taken(Staging, celeryEnabled, registry, events, staged)
    requires IsRun(EMPTY, before) && RowsFor(StagedBy(After(EMPTY, before), tx), registry, events, staged, ids)
    requires tx in After(EMPTY, before).open && IsRun(Apply(After(EMPTY, before), CommitWeb(tx)), rest)
    requires IsObligation(registry, events, o)
    ensures IsMet(
              After(Apply(After(EMPTY, before), CommitWeb(tx)), rest), celeryEnabled, registry, events, staged, ids, o)
  {
    OccursOnce(staged, o);
    if !IsTaken(Dispatching, celeryEnabled, registry, events, o) {
      var k :| 0 <= k < |staged| && staged[k] == o;
      PairAtOnePlace(staged, o, k);
      CommittedRowIsRelayed(before, tx, ids[k], rest);
    }
  }

  /** A transaction that rolls back notifies nobody: none of its rows is ever stored or published. */
  lemma RolledBackEventsAreNotRelayed(
    before: seq<Step>, tx: WebTx, registry: Registry, events: seq<Event>, staged: seq<Obligation>, ids: seq<RowId>,
    rest: seq<Step>)
    requires IsRun(EMPTY, before) && tx in After(EMPTY, before).open
    requires RowsFor(StagedBy(After(EMPTY, before), tx), registry, events, staged, ids)
    requires IsRun(Apply(After(EMPTY, before), AbortWeb(tx)), rest)
    ensures var t := After(Apply(After(EMPTY, before), AbortWeb(tx)), rest);
            forall id :: id in ids ==> id !in t.rows && forall task :: task in t.published ==> task.id != id
  {
    forall id | id in ids
      ensures var t := After(Apply(After(EMPTY, before), AbortWeb(tx)), rest);
              id !in t.rows && forall task :: task in t.published ==> task.id != id
    {
      AbortedRowIsNeverRelayed(before, tx, id, rest);
    }
  }

  // ----- The transaction itself

  /** The steps of a web transaction that stages these rows; one that stages none never reaches the outbox. */
  function TransactionSteps(tx: WebTx, ids: seq<RowId>, rows: map<RowId, Row>, commits: bool): seq<Step>
    requires forall id :: id in ids ==> id in rows
  {
    if ids == [] then [] else StageSteps(tx, ids, rows) + [if commits then CommitWeb(tx) else AbortWeb(tx)]
  }

  /** Whatever runs next, every pair is met. */
  ghost predicate MetFromNowOn(
    s: State, celeryEnabled: bool, registry: Registry, events: seq<Event>, staged: seq<Obligation>, ids: seq<RowId>)
    requires |ids| == |staged|
  {
    forall rest, o :: (IsRun(s, rest) && IsObligation(registry, events, o)) ==>
                        IsMet(After(s, rest), celeryEnabled, registry, events, staged, ids, o)
  }

  predicate IsGone(s: State, id: RowId)
  {
    id !in s.rows && forall task :: task in s.published ==> task.id != id
  }

  /** Whatever runs next, none of the rows is stored or has been published. */
  ghost predicate GoneFromNowOn(s: State, ids: seq<RowId>)
  {
    forall rest, id :: (IsRun(s, rest) && id in ids) ==> IsGone(After(s, rest), id)
  }

  /**
   In plain terms, after any further steps: a pair is deferred exactly when Celery is on and its handler
   is a background one; its row or task then names the event's type and the handler's type and carries
   the event's payload.
   */
  lemma MetMeans(
    s: State, celeryEnabled: bool, registry: Registry, events: seq<Event>, staged: seq<Obligation>, ids: seq<RowId>,
    rest: seq<Step>, i: nat, j: nat)
    requires i < |events| && events[i].kind in registry && j < |registry[events[i].kind]| && |ids| == |staged|
    requires MetFromNowOn(s, celeryEnabled, registry, events, staged, ids) && IsRun(s, rest)
    ensures var t, handler := After(s, rest), registry[events[i].kind][j];
            var message := Message(events[i].kind, handler.kind, events[i].payload);
            if celeryEnabled && handler.mode == Background then
              exists k :: 0 <= k < |staged| && staged[k] == Obligation(i, j)
                && (|| (&& ids[k] in t.rows && t.rows[ids[k]].processedAt == None
                        && t.rows[ids[k]].message == message)
                    || Task(ids[k], message) in t.published)
            else Obligation(i, j) !in staged
  {
    var o := Obligation(i, j);
    assert IsRun(s, rest) && IsObligation(registry, events, o);
    assert IsMet(After(s, rest), celeryEnabled, registry, events, staged, ids, o);
    DeliveryNames(registry, events, o);
  }

  /** In plain terms: none of the rows is in the table or among the published tasks after any further steps. */
  lemma GoneMeans(s: State, ids: seq<RowId>, rest: seq<Step>, k: nat)
    requires GoneFromNowOn(s, ids) && IsRun(s, rest) && k < |ids|
    ensures ids[k] !in After(s, rest).rows
    ensures forall task :: task in After(s, rest).published ==> task.id != ids[k]
  {
    var id := ids[k];
    assert IsRun(s, rest) && id in ids;
    assert IsGone(After(s, rest), id);
  }

  /** The states of a transaction that has staged something: before its end, and after. */
  lemma StagedThenEnded(
    history: seq<Step>, tx: WebTx, ids: seq<RowId>, rows: map<RowId, Row>, commits: bool)
    requires IsRun(EMPTY, history) && tx !in After(EMPTY, history).open && ids != []
    requires FreshRows(After(EMPTY, history).issued, ids, rows) && forall id :: id in rows <==> id in ids
    ensures IsRun(EMPTY, history + StageSteps(tx, ids, rows))
    ensures var t := After(EMPTY, history + StageSteps(tx, ids, rows));
            var last := if commits then CommitWeb(tx) else AbortWeb(tx);
            && OnlyStaged(After(EMPTY, history), t) && tx in t.open && StagedBy(t, tx) == rows
            && IsRun(After(EMPTY, history), TransactionSteps(tx, ids, rows, commits))
            && After(After(EMPTY, history), TransactionSteps(tx, ids, rows, commits)) == Apply(t, last)
  {
    var s, stage := After(EMPTY, history), StageSteps(tx, ids, rows);
    StagingRuns(s, tx, ids, rows);
    RunsCompose(EMPTY, history, stage);
    var t := After(s, stage);
    assert StagedBy(t, tx) == rows;
    var last := if commits then CommitWeb(tx) else AbortWeb(tx);
    assert [last][1..] == [];
    RunsCompose(s, stage, [last]);
  }

  lemma CommittedPairsAreMet(
    history: seq<Step>, tx: WebTx, celeryEnabled: bool, registry: Registry, events: seq<Event>,
    staged: seq<Obligation>, ids: seq<RowId>, rows: map<RowId, Row>)
    requires Taken(Staging, celeryEnabled, registry, events, staged)
    requires RowsFor(rows, registry, events, staged, ids) && forall id :: id in rows <==> id in ids
    requires IsRun(EMPTY, history) && tx !in After(EMPTY, history).open
    requires FreshRows(After(EMPTY, history).issued, ids, rows)
    requires IsRun(EMPTY, history + TransactionSteps(tx, ids, rows, true))
    ensures MetFromNowOn(
              After(EMPTY, history + TransactionSteps(tx, ids, rows, true)), celeryEnabled, registry, events,
              staged, ids)
  {
    var stage := StageSteps(tx, ids, rows);
    var end := After(EMPTY, history + TransactionSteps(tx, ids, rows, true));
    forall rest, o | IsRun(end, rest) && IsObligation(registry, events, o)
      ensures IsMet(After(end, rest), celeryEnabled, registry, events, staged, ids, o)
    {
      if ids == [] {
        OccursOnce(staged, o);
      } else {
        StagedThenEnded(history, tx, ids, rows, true);
        RunsCompose(EMPTY, history, TransactionSteps(tx, ids, rows, true));
        EveryPairIsMet(history + stage, tx, celeryEnabled, registry, events, staged, ids, rest, o);
      }
    }
  }

  lemma RolledBackRowsAreGone(history: seq<Step>, tx: WebTx, ids: seq<RowId>, rows: map<RowId, Row>)
    requires IsRun(EMPTY, history) && tx !in After(EMPTY, history).open
    requires FreshRows(After(EMPTY, history).issued, ids, rows) && forall id :: id in rows <==> id in ids
    requires IsRun(EMPTY, history + TransactionSteps(tx, ids, rows, false))
    ensures GoneFromNowOn(After(EMPTY, history + TransactionSteps(tx, ids, rows, false)), ids)
  {
    var end := After(EMPTY, history + TransactionSteps(tx, ids, rows, false));
    forall rest, id | IsRun(end, rest) && id in ids ensures IsGone(After(end, rest), id) {
      StagedThenEnded(history, tx, ids, rows, false);
      RunsCompose(EMPTY, history, TransactionSteps(tx, ids, rows, false));
      AbortedRowIsNeverRelayed(history + StageSteps(tx, ids, rows), tx, id, rest);
    }
  }

  lemma TransactionOnTable(history: seq<Step>, tx: WebTx, ids: seq<RowId>, rows: map<RowId, Row>, commits: bool)
    requires IsRun(EMPTY, history) && tx !in After(EMPTY, history).open
    requires FreshRows(After(EMPTY, history).issued, ids, rows) && forall id :: id in rows <==> id in ids
    ensures IsRun(EMPTY, history + TransactionSteps(tx, ids, rows, commits))
    ensures var s := After(EMPTY, history); var t := After(EMPTY, history + TransactionSteps(tx, ids, rows, commits));
            && t.rows == (if commits then s.rows + rows else s.rows)
            && t.locks == s.locks && t.published == s.published
  {
    if ids == [] {
      assert rows == map[] && history + [] == history;
    } else {
      StagedThenEnded(history, tx, ids, rows, commits);
      RunsCompose(EMPTY, history, TransactionSteps(tx, ids, rows, commits));
    }
  }

  lemma StagedRowsAreFresh(
    issued: set<RowId>, start: nat, next: nat, registry: Registry, events: seq<Event>, staged: seq<Obligation>,
    ids: seq<RowId>, rows: map<RowId, Row>)
    requires RowsFor(rows, registry, events, staged, ids) && Gained(map[], rows, start, next, ids)
    requires forall id :: id in issued ==> id < start
    ensures FreshRows(issued, ids, rows) && forall id :: id in rows <==> id in ids
  {
  }

  /** Commit or roll back a web session: it has inserted rows and holds no row locks. */
  method EndTransaction(outbox: SqlaOutboxRepository, commits: bool)
    requires outbox.marks == map[] && outbox.deletes == {}
    requires forall id :: id in outbox.table.locks ==> outbox.table.locks[id] != outbox.session
    modifies outbox, outbox.table
    ensures outbox.table.rows
         == if commits then old(outbox.table.rows) + old(outbox.added) else old(outbox.table.rows)
    ensures outbox.table.locks == old(outbox.table.locks) && outbox.Clean()
  {
    if commits {
      outbox.Commit();
    } else {
      outbox.Rollback();
    }
  }

  /** Collect an entity's events and stage them into a session that has staged nothing yet. */
  method CollectAndStage(dispatcher: HybridEventDispatcher, entity: Entity, ghost issued: set<RowId>)
    returns (events: seq<Event>, ghost staged: seq<Obligation>, ghost ids: seq<RowId>)
    requires dispatcher.outbox.Clean() && forall id :: id in issued ==> id < dispatcher.ids.next
    modifies dispatcher.outbox, dispatcher.ids, dispatcher.clock, entity
    ensures events == old(entity.events) && entity.events == [] && |ids| == |staged|
    ensures Taken(Staging, dispatcher.celeryEnabled, dispatcher.registry, events, staged)
    ensures RowsFor(dispatcher.outbox.added, dispatcher.registry, events, staged, ids)
    ensures FreshRows(issued, ids, dispatcher.outbox.added)
    ensures forall id :: id in dispatcher.outbox.added <==> id in ids
    ensures dispatcher.outbox.marks == map[] && dispatcher.outbox.deletes == {}
  {
    ghost var start := dispatcher.ids.next;
    events := entity.CollectEvents();
    staged, ids := dispatcher.Stage(events);
    StagedRowsAreFresh(
      issued, start, dispatcher.ids.next, dispatcher.registry, events, staged, ids, dispatcher.outbox.added);
  }

  /**
   The end of a use case: the entity's events are staged into the session, the session commits
   or rolls back, and the events are dispatched after a commit.  On the table and the broker this
   is the run of a web transaction.  If it committed, every pair is met from then on, even when an
   inline handler raises; if it rolled back, no handler runs and nothing staged is ever relayed.
   */
  method FinishUseCase(
    dispatcher: HybridEventDispatcher, celery: Celery, entity: Entity, commits: bool, raises: Call -> bool,
    ghost history: seq<Step>, ghost tx: WebTx)
    returns (raised: bool, ghost steps: seq<Step>, ghost staged: seq<Obligation>, ghost dispatched: seq<Obligation>,
      ghost ids: seq<RowId>)
    requires dispatcher.outbox.Clean() && IsRun(EMPTY, history)
    requires var s := After(EMPTY, history);
             && Represents(s, dispatcher.outbox.table, celery) && tx !in s.open
             && (forall id :: id in s.issued ==> id < dispatcher.ids.next)
             && (forall id :: id in s.locks ==> s.locks[id] != dispatcher.outbox.session)
    modifies dispatcher, dispatcher.outbox, dispatcher.outbox.table, dispatcher.ids, dispatcher.clock, entity
    ensures entity.events == [] && dispatcher.outbox.Clean() && |ids| == |staged|
    ensures IsRun(EMPTY, history + steps)
    ensures Represents(After(EMPTY, history + steps), dispatcher.outbox.table, celery)
    ensures forall o :: o in dispatched ==> IsObligation(dispatcher.registry, old(entity.events), o)
    ensures dispatcher.calls
         == old(dispatcher.calls) + InlineCalls(dispatcher.registry, old(entity.events), dispatched)
    ensures commits && !raised ==>
              Taken(Dispatching, dispatcher.celeryEnabled, dispatcher.registry, old(entity.events), dispatched)
    ensures !commits ==> dispatched == []
    ensures commits ==>
              MetFromNowOn(After(EMPTY, history + steps), dispatcher.celeryEnabled, dispatcher.registry,
                           old(entity.events), staged, ids)
    ensures !commits ==> GoneFromNowOn(After(EMPTY, history + steps), ids)
  {
    var events;
    events, staged, ids := CollectAndStage(dispatcher, entity, After(EMPTY, history).issued);
    ghost var rows := dispatcher.outbox.added;
    steps := TransactionSteps(tx, ids, rows, commits);
    TransactionOnTable(history, tx, ids, rows, commits);
    EndTransaction(dispatcher.outbox, commits);
    raised, dispatched := false, [];
    if commits {
      CommittedPairsAreMet(history, tx, dispatcher.celeryEnabled, dispatcher.registry, events, staged, ids, rows);
      raised, dispatched := dispatcher.Dispatch(events, raises);
    } else {
      RolledBackRowsAreGone(history, tx, ids, rows);
    }
  }
}
