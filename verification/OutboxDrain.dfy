/** A single drain loop working through a fixed table without failures. */
module OutboxDrain {
  import opened Facts
  import opened OutboxProtocol

  /** One tick: what the select returned, when each row was marked, and the setting it read. */
  datatype Tick = Tick(batch: seq<Task>, times: seq<int>, retain: bool)

  /** Sending and marking the first messages of the batch, one after the other. */
  function RelaySteps(d: DrainerId, times: seq<int>): seq<Step>
  {
    if times == [] then [] else
      RelaySteps(d, times[..|times| - 1]) + [Send(d), Mark(d, times[|times| - 1])]
  }

  function TickSteps(d: DrainerId, tick: Tick): seq<Step>
  {
    [Take(d, tick.batch, tick.retain)]
    + if tick.batch == [] then [] else RelaySteps(d, tick.times) + [CommitBatch(d)]
  }

  /** The marks a session holds after the first |times| messages of its batch. */
  function Marks(batch: seq<Task>, times: seq<int>): (marks: map<RowId, int>)
    requires |times| <= |batch|
    ensures forall id :: id in marks <==> id in Ids(batch[..|times|])
  {
    if times == [] then map[] else
      var n := |times| - 1;
      assert batch[..n + 1] == batch[..n] + [batch[n]];
      assert Ids(batch[..n + 1]) == Ids(batch[..n]) + [batch[n].id];
      Marks(batch, times[..n])[batch[n].id := times[n]]
  }

  function MidBatch(tick: Tick): Drainer
    requires |tick.times| <= |tick.batch|
  {
    Drainer(tick.retain, tick.batch, |tick.times|, |tick.times|, Marks(tick.batch, tick.times))
  }

  /** The state after drain loop d has reached session w and published `more`. */
  function Reached(s: State, d: DrainerId, w: Drainer, more: seq<Task>): State
  {
    s.(drainers := s.drainers[d := w], published := s.published + more)
  }

  lemma OneStepRun(s: State, e: Step)
    requires Enabled(s, e)
    ensures IsRun(s, [e]) && After(s, [e]) == Apply(s, e)
  {
    assert [e][1..] == [];
  }

  lemma TwoStepRun(s: State, e: Step, f: Step)
    requires Enabled(s, e) && Enabled(Apply(s, e), f)
    ensures IsRun(s, [e, f]) && After(s, [e, f]) == Apply(Apply(s, e), f)
  {
    OneStepRun(Apply(s, e), f);
    assert [e, f][1..] == [f];
  }

  lemma RelayOne(s: State, d: DrainerId, tick: Tick)
    requires 0 < |tick.times| <= |tick.batch|
    ensures var n := |tick.times| - 1; var w := MidBatch(tick.(times := tick.times[..n]));
            var t := Reached(s, d, w, tick.batch[..n]); var steps := [Send(d), Mark(d, tick.times[n])];
            IsRun(t, steps) && After(t, steps) == Reached(s, d, MidBatch(tick), tick.batch[..n + 1])
  {
    var n := |tick.times| - 1;
    var t := Reached(s, d, MidBatch(tick.(times := tick.times[..n])), tick.batch[..n]);
    var t1 := Apply(t, Send(d));
    var t2 := Apply(t1, Mark(d, tick.times[n]));
    TwoStepRun(t, Send(d), Mark(d, tick.times[n]));
    assert t2.drainers == s.drainers[d := MidBatch(tick)];
    assert s.published + tick.batch[..n] + [tick.batch[n]] == s.published + tick.batch[..n + 1];
  }

  /** The first |times| messages of a batch that has just been taken. */
  lemma {:induction false} RelayRun(s: State, d: DrainerId, tick: Tick)
    requires d in s.drainers && s.drainers[d] == Drainer(tick.retain, tick.batch, 0, 0, map[])
    requires |tick.times| <= |tick.batch|
    ensures IsRun(s, RelaySteps(d, tick.times))
    ensures After(s, RelaySteps(d, tick.times)) == Reached(s, d, MidBatch(tick), tick.batch[..|tick.times|])
    decreases |tick.times|
  {
    if tick.times == [] {
      assert Reached(s, d, MidBatch(tick), []) == s;
    } else {
      var n := |tick.times| - 1;
      RelayRun(s, d, tick.(times := tick.times[..n]));
      RelayOne(s, d, tick);
      RunsCompose(s, RelaySteps(d, tick.times[..n]), [Send(d), Mark(d, tick.times[n])]);
    }
  }

  /** No drain loop is mid-tick and no row is locked. */
  predicate Quiet(s: State)
  {
    s.drainers == map[] && s.locks == map[]
  }

  function ToSet(ids: seq<RowId>): set<RowId>
  {
    set id | id in ids
  }

  function PendingIds(rows: map<RowId, Row>): set<RowId>
  {
    set id | id in rows && Pending(rows, id)
  }

  /** The state a whole tick leads to. */
  function TickEnd(s: State, tick: Tick): State
    requires |tick.times| == |tick.batch|
  {
    var marks := Marks(tick.batch, tick.times);
    s.(rows := CommitMarks(s.rows, marks, tick.retain),
       published := s.published + tick.batch,
       history := s.history.(relayed := s.history.relayed + marks.Keys))
  }

  /** A tick publishes its batch in order, and exactly those rows stop being pending. */
  lemma TickEffect(s: State, tick: Tick)
    requires |tick.times| == |tick.batch|
    ensures var t := TickEnd(s, tick);
            && PendingIds(t.rows) == PendingIds(s.rows) - ToSet(Ids(tick.batch))
            && (forall id :: id in PendingIds(t.rows) ==> t.rows[id] == s.rows[id])
  {
    assert tick.batch[..|tick.times|] == tick.batch;
  }

  /** The state after the tick has taken its batch and relayed a prefix of it. */
  function Relaying(s: State, d: DrainerId, tick: Tick): State
    requires |tick.times| <= |tick.batch|
  {
    Reached(s.(locks := Lock(s.locks, tick.batch, d)), d, MidBatch(tick), tick.batch[..|tick.times|])
  }

  lemma TakeRun(s: State, d: DrainerId, tick: Tick)
    requires d !in s.drainers && IsBatch(s.rows, s.locks, tick.batch) && tick.batch != [] && tick.times == []
    ensures var take := Take(d, tick.batch, tick.retain); IsRun(s, [take]) && After(s, [take]) == Relaying(s, d, tick)
  {
    OneStepRun(s, Take(d, tick.batch, tick.retain));
    assert s.published + tick.batch[..0] == s.published;
  }

  lemma RelayingMore(s: State, d: DrainerId, tick: Tick)
    requires |tick.times| <= |tick.batch|
    ensures Reached(Relaying(s, d, tick.(times := [])), d, MidBatch(tick), tick.batch[..|tick.times|])
         == Relaying(s, d, tick)
  {
    assert tick.batch[..0] == [];
    assert s.published + [] == s.published;
  }

  /** Taking a batch and relaying a prefix of it, from any state in which the loop is idle. */
  lemma TakeThenRelay(s: State, d: DrainerId, tick: Tick)
    requires d !in s.drainers && IsBatch(s.rows, s.locks, tick.batch) && |tick.times| <= |tick.batch|
    requires tick.batch != []
    ensures var steps := [Take(d, tick.batch, tick.retain)] + RelaySteps(d, tick.times);
            IsRun(s, steps) && After(s, steps) == Relaying(s, d, tick)
  {
    TakeRun(s, d, tick.(times := []));
    RelayRun(Relaying(s, d, tick.(times := [])), d, tick);
    RunsCompose(s, [Take(d, tick.batch, tick.retain)], RelaySteps(d, tick.times));
    RelayingMore(s, d, tick);
  }

  function Unlocked(s: State, d: DrainerId, batch: seq<Task>): map<RowId, DrainerId>
  {
    if batch == [] then s.locks else Unlock(Lock(s.locks, batch, d), d)
  }

  lemma CommitTick(s: State, d: DrainerId, tick: Tick)
    requires d !in s.drainers && |tick.times| == |tick.batch| && tick.batch != []
    ensures var t := Relaying(s, d, tick);
            && IsRun(t, [CommitBatch(d)])
            && After(t, [CommitBatch(d)]) == TickEnd(s, tick).(locks := Unlocked(s, d, tick.batch))
  {
    var t := Relaying(s, d, tick);
    OneStepRun(t, CommitBatch(d));
    assert tick.batch[..|tick.times|] == tick.batch;
    assert t.drainers - {d} == s.drainers;
  }

  lemma EmptyTickRun(s: State, d: DrainerId, tick: Tick)
    requires d !in s.drainers && IsBatch(s.rows, s.locks, []) && tick.batch == [] && tick.times == []
    ensures IsRun(s, TickSteps(d, tick)) && After(s, TickSteps(d, tick)) == TickEnd(s, tick)
  {
    OneStepRun(s, Take(d, [], tick.retain));
    assert TickSteps(d, tick) == [Take(d, [], tick.retain)];
    assert TickEnd(s, tick) == s;
  }

  lemma FullTickRun(s: State, d: DrainerId, tick: Tick)
    requires d !in s.drainers && IsBatch(s.rows, s.locks, tick.batch) && |tick.times| == |tick.batch| > 0
    ensures IsRun(s, TickSteps(d, tick))
    ensures After(s, TickSteps(d, tick)) == TickEnd(s, tick).(locks := Unlocked(s, d, tick.batch))
  {
    var relay := [Take(d, tick.batch, tick.retain)] + RelaySteps(d, tick.times);
    TakeThenRelay(s, d, tick);
    CommitTick(s, d, tick);
    RunsCompose(s, relay, [CommitBatch(d)]);
    assert TickSteps(d, tick) == relay + [CommitBatch(d)];
  }

  /** The steps of a tick are a run of the protocol. */
  lemma TickRun(s: State, d: DrainerId, tick: Tick)
    requires d !in s.drainers && IsBatch(s.rows, s.locks, tick.batch) && |tick.times| == |tick.batch|
    ensures IsRun(s, TickSteps(d, tick))
    ensures After(s, TickSteps(d, tick)) == TickEnd(s, tick).(locks := Unlocked(s, d, tick.batch))
  {
    if tick.batch == [] {
      EmptyTickRun(s, d, tick);
    } else {
      FullTickRun(s, d, tick);
    }
  }

  lemma QuietTickRun(s: State, d: DrainerId, tick: Tick)
    requires Quiet(s) && IsBatch(s.rows, s.locks, tick.batch) && |tick.times| == |tick.batch|
    ensures IsRun(s, TickSteps(d, tick)) && After(s, TickSteps(d, tick)) == TickEnd(s, tick)
  {
    TickRun(s, d, tick);
    assert Unlock(Lock(map[], tick.batch, d), d) == map[];
  }

  /** The steps after the last mark of a tick that raises: its loop may have sent one more message. */
  function FailSteps(d: DrainerId, tick: Tick, sent: nat): seq<Step>
  {
    if sent == |tick.times| then [Fail(d)] else [Send(d), Fail(d)]
  }

  /** A tick that raises leaves the table and the locks as they were, and has published what it sent. */
  predicate Undone(s: State, t: State, d: DrainerId, tick: Tick, sent: nat)
    requires sent <= |tick.batch|
  {
    && t.rows == s.rows && t.locks == Unlocked(s, d, tick.batch) && t.drainers == s.drainers
    && t.published == s.published + tick.batch[..sent]
  }

  lemma FailAfterMark(s: State, d: DrainerId, tick: Tick)
    requires d !in s.drainers && |tick.times| <= |tick.batch| && tick.batch != []
    ensures var t := Relaying(s, d, tick);
            IsRun(t, [Fail(d)]) && Undone(s, After(t, [Fail(d)]), d, tick, |tick.times|)
  {
    OneStepRun(Relaying(s, d, tick), Fail(d));
    assert Relaying(s, d, tick).drainers - {d} == s.drainers;
  }

  lemma FailAfterSend(s: State, d: DrainerId, tick: Tick)
    requires d !in s.drainers && |tick.times| < |tick.batch|
    ensures var t := Relaying(s, d, tick);
            IsRun(t, [Send(d), Fail(d)]) && Undone(s, After(t, [Send(d), Fail(d)]), d, tick, |tick.times| + 1)
  {
    var t, n := Relaying(s, d, tick), |tick.times|;
    TwoStepRun(t, Send(d), Fail(d));
    assert Apply(t, Send(d)).drainers - {d} == s.drainers;
    assert s.published + tick.batch[..n] + [tick.batch[n]] == s.published + tick.batch[..n + 1];
  }

  lemma FailTick(s: State, d: DrainerId, tick: Tick, sent: nat)
    requires d !in s.drainers && |tick.times| <= sent <= |tick.batch| && sent <= |tick.times| + 1 && tick.batch != []
    ensures var t := Relaying(s, d, tick);
            IsRun(t, FailSteps(d, tick, sent)) && Undone(s, After(t, FailSteps(d, tick, sent)), d, tick, sent)
  {
    if sent == |tick.times| {
      FailAfterMark(s, d, tick);
    } else {
      FailAfterSend(s, d, tick);
    }
  }

  /** The steps of a tick that raises after relaying a prefix of its batch. */
  lemma FailedTickRun(s: State, d: DrainerId, tick: Tick, sent: nat)
    requires d !in s.drainers && IsBatch(s.rows, s.locks, tick.batch) && tick.batch != []
    requires |tick.times| <= sent <= |tick.batch| && sent <= |tick.times| + 1
    ensures var steps := [Take(d, tick.batch, tick.retain)] + RelaySteps(d, tick.times) + FailSteps(d, tick, sent);
            IsRun(s, steps) && Undone(s, After(s, steps), d, tick, sent)
  {
    TakeThenRelay(s, d, tick);
    FailTick(s, d, tick, sent);
    RunsCompose(s, [Take(d, tick.batch, tick.retain)] + RelaySteps(d, tick.times), FailSteps(d, tick, sent));
  }

  lemma DistinctSize(ids: seq<RowId>)
    requires Distinct(ids)
    ensures |ToSet(ids)| == |ids|
  {
    if ids != [] {
      var rest, last := ids[..|ids| - 1], ids[|ids| - 1];
      DistinctSize(rest);
      assert ids == rest + [last];
      assert ToSet(ids) == ToSet(rest) + {last};
    }
  }

  lemma BatchSize(rows: map<RowId, Row>, batch: seq<Task>)
    requires IsBatch(rows, map[], batch)
    ensures ToSet(Ids(batch)) <= PendingIds(rows)
    ensures |batch| == if |PendingIds(rows)| <= DRAIN_BATCH_SIZE then |PendingIds(rows)| else DRAIN_BATCH_SIZE
    ensures |PendingIds(rows) - ToSet(Ids(batch))| == |PendingIds(rows)| - |batch|
  {
    var taken := ToSet(Ids(batch));
    DistinctSize(Ids(batch));
    assert taken <= PendingIds(rows);
    SubsetSize(taken, PendingIds(rows));
    if |batch| < DRAIN_BATCH_SIZE {
      forall id | id in PendingIds(rows) ensures id in taken {
        assert Available(rows, map[], id);
      }
      assert taken == PendingIds(rows);
    }
  }

  ghost predicate IsDrain(s: State, ticks: seq<Tick>)
    decreases |ticks|
  {
    ticks == [] ||
    (&& |ticks[0].times| == |ticks[0].batch| && IsBatch(s.rows, s.locks, ticks[0].batch)
     && IsDrain(TickEnd(s, ticks[0]), ticks[1..]))
  }

  predicate Timed(ticks: seq<Tick>)
  {
    forall i :: 0 <= i < |ticks| ==> |ticks[i].times| == |ticks[i].batch|
  }

  function DrainEnd(s: State, ticks: seq<Tick>): State
    requires Timed(ticks)
    decreases |ticks|
  {
    if ticks == [] then s else DrainEnd(TickEnd(s, ticks[0]), ticks[1..])
  }

  function Drained(ticks: seq<Tick>): seq<Task>
  {
    if ticks == [] then [] else ticks[0].batch + Drained(ticks[1..])
  }

  function DrainSteps(d: DrainerId, ticks: seq<Tick>): seq<Step>
  {
    if ticks == [] then [] else TickSteps(d, ticks[0]) + DrainSteps(d, ticks[1..])
  }

  /** The pending rows the ticks relayed, each once, oldest first; the rest is at least as new. */
  ghost predicate RelayedOldestFirst(rows: map<RowId, Row>, rows': map<RowId, Row>, relayed: seq<Task>)
  {
    && Distinct(Ids(relayed))
    && (forall i :: 0 <= i < |relayed| ==> Pending(rows, relayed[i].id))
    && (forall i, j :: 0 <= i < j < |relayed| ==> rows[relayed[i].id].createdAt <= rows[relayed[j].id].createdAt)
    && PendingIds(rows') == PendingIds(rows) - ToSet(Ids(relayed))
    && (forall i, id :: 0 <= i < |relayed| && id in PendingIds(rows') ==>
          rows[relayed[i].id].createdAt <= rows[id].createdAt)
  }

  /** How many of n pending rows are left after a number of ticks. */
  function Remaining(n: nat, ticks: nat): (left: nat)
    ensures left == 0 <==> n <= DRAIN_BATCH_SIZE * ticks
  {
    if n <= DRAIN_BATCH_SIZE * ticks then 0 else n - DRAIN_BATCH_SIZE * ticks
  }

  /** What the ticks made of the table. */
  ghost predicate DrainedTo(rows: map<RowId, Row>, rows': map<RowId, Row>, relayed: seq<Task>, ticks: nat)
  {
    && |PendingIds(rows')| == Remaining(|PendingIds(rows)|, ticks)
    && RelayedOldestFirst(rows, rows', relayed)
    && (forall id :: id in PendingIds(rows') ==> rows'[id] == rows[id])
  }

  /** Ticks one after the other are a run of the protocol. */
  lemma {:induction false} DrainIsRun(s: State, d: DrainerId, ticks: seq<Tick>)
    requires Quiet(s) && Timed(ticks) && IsDrain(s, ticks)
    ensures IsRun(s, DrainSteps(d, ticks)) && After(s, DrainSteps(d, ticks)) == DrainEnd(s, ticks)
    decreases |ticks|
  {
    if ticks != [] {
      QuietTickRun(s, d, ticks[0]);
      DrainIsRun(TickEnd(s, ticks[0]), d, ticks[1..]);
      RunsCompose(s, TickSteps(d, ticks[0]), DrainSteps(d, ticks[1..]));
    }
  }

  lemma {:induction false} DrainPublishes(s: State, ticks: seq<Tick>)
    requires Timed(ticks)
    ensures DrainEnd(s, ticks).published == s.published + Drained(ticks)
    decreases |ticks|
  {
    if ticks == [] {
      assert s.published + [] == s.published;
    } else {
      var s1 := TickEnd(s, ticks[0]);
      DrainPublishes(s1, ticks[1..]);
      assert s1.published == s.published + ticks[0].batch;
      assert s.published + ticks[0].batch + Drained(ticks[1..]) == s.published + (ticks[0].batch + Drained(ticks[1..]));
    }
  }

  lemma CountComposes(rows: map<RowId, Row>, rows1: map<RowId, Row>, first: seq<Task>, ticks: nat)
    requires IsBatch(rows, map[], first) && PendingIds(rows1) == PendingIds(rows) - ToSet(Ids(first))
    ensures Remaining(|PendingIds(rows1)|, ticks) == Remaining(|PendingIds(rows)|, ticks + 1)
  {
    BatchSize(rows, first);
  }

  lemma OrderComposes(
    rows: map<RowId, Row>, rows1: map<RowId, Row>, rows2: map<RowId, Row>, first: seq<Task>, rest: seq<Task>)
    requires IsBatch(rows, map[], first) && RelayedOldestFirst(rows1, rows2, rest)
    requires PendingIds(rows1) == PendingIds(rows) - ToSet(Ids(first))
    requires forall id :: id in PendingIds(rows1) ==> rows1[id] == rows[id]
    ensures RelayedOldestFirst(rows, rows2, first + rest) && PendingIds(rows2) <= PendingIds(rows1)
  {
    var all := first + rest;
    assert Ids(all) == Ids(first) + Ids(rest);
    forall i | 0 <= i < |rest| ensures rest[i].id in PendingIds(rows1) {
      assert Pending(rows1, rest[i].id);
    }
    forall i, id | 0 <= i < |first| && id in PendingIds(rows1)
      ensures rows[first[i].id].createdAt <= rows[id].createdAt && first[i].id != id
    {
      assert Ids(first)[i] in Ids(first);
      assert Available(rows, map[], id);
    }
    forall i, j | 0 <= i < j < |all| ensures all[i].id != all[j].id
      ensures Pending(rows, all[i].id) && Pending(rows, all[j].id)
      ensures rows[all[i].id].createdAt <= rows[all[j].id].createdAt
    {
      if i < |first| <= j {
        assert rest[j - |first|].id in PendingIds(rows1);
      } else if j < |first| {
        assert Ids(first)[i] != Ids(first)[j];
      } else {
        assert Ids(rest)[i - |first|] != Ids(rest)[j - |first|];
        assert rest[i - |first|].id in PendingIds(rows1) && rest[j - |first|].id in PendingIds(rows1);
      }
    }
  }

  lemma DrainComposes(
    rows: map<RowId, Row>, rows1: map<RowId, Row>, rows2: map<RowId, Row>, first: seq<Task>, rest: seq<Task>,
    ticks: nat)
    requires IsBatch(rows, map[], first) && DrainedTo(rows1, rows2, rest, ticks)
    requires PendingIds(rows1) == PendingIds(rows) - ToSet(Ids(first))
    requires forall id :: id in PendingIds(rows1) ==> rows1[id] == rows[id]
    ensures DrainedTo(rows, rows2, first + rest, ticks + 1)
  {
    CountComposes(rows, rows1, first, ticks);
    OrderComposes(rows, rows1, rows2, first, rest);
  }

  lemma {:induction false} DrainKeepsOrder(s: State, ticks: seq<Tick>)
    requires Quiet(s) && Timed(ticks) && IsDrain(s, ticks)
    ensures DrainedTo(s.rows, DrainEnd(s, ticks).rows, Drained(ticks), |ticks|)
    decreases |ticks|
  {
    if ticks != [] {
      var s1 := TickEnd(s, ticks[0]);
      TickEffect(s, ticks[0]);
      DrainKeepsOrder(s1, ticks[1..]);
      DrainComposes(s.rows, s1.rows, DrainEnd(s1, ticks[1..]).rows, ticks[0].batch, Drained(ticks[1..]), |ticks| - 1);
    }
  }

  /**
   After k ticks of one drain loop, 100 * k rows have been relayed or none is left, in
   non-decreasing created_at order: n pending rows take exactly ceil(n / 100) ticks.
   */
  lemma DrainsInOrder(s: State, d: DrainerId, ticks: seq<Tick>)
    requires Quiet(s) && Timed(ticks) && IsDrain(s, ticks)
    ensures IsRun(s, DrainSteps(d, ticks))
    ensures var t := After(s, DrainSteps(d, ticks));
            && t.published == s.published + Drained(ticks)
            && DrainedTo(s.rows, t.rows, Drained(ticks), |ticks|)
            && (PendingIds(t.rows) == {} <==> |PendingIds(s.rows)| <= 100 * |ticks|)
  {
    DrainIsRun(s, d, ticks);
    DrainPublishes(s, ticks);
    DrainKeepsOrder(s, ticks);
  }
}
