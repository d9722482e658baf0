/** The relay as it runs: one drain loop on its own session, step by step, against the shared table. */
module OutboxRelay {
  import opened Common
  import opened Clock
  import opened OutboxProtocol
  import opened OutboxDrain
  import opened OutboxSelect
  import opened OutboxSafety

  /** The broker: it remembers every task it was sent. */
  class Celery {
    var published: seq<Task>

    method SendTask(id: RowId, message: Message)
      modifies this
      ensures published == old(published) + [Task(id, message)]
    {
      published := published + [Task(id, message)];
    }
  }

  /** The outbox table with its row locks, shared by all sessions. */
  class OutboxTable {
    var rows: map<RowId, Row>
    var locks: map<RowId, DrainerId>
  }

  /** What committing a session's inserts, updates and deletes makes of the table. */
  function SessionRows(
    rows: map<RowId, Row>, added: map<RowId, Row>, marks: map<RowId, int>, deletes: set<RowId>): map<RowId, Row>
  {
    var all := rows + added;
    map id | id in all && id !in deletes :: if id in marks then all[id].(processedAt := Some(marks[id])) else all[id]
  }

  class SqlaOutboxRepository {
    const table: OutboxTable
    const session: DrainerId
    var added: map<RowId, Row>
    var marks: map<RowId, int>
    var deletes: set<RowId>

    constructor (table: OutboxTable, session: DrainerId)
      ensures this.table == table && this.session == session && Clean()
    {
      this.table := table;
      this.session := session;
      added, marks, deletes := map[], map[], {};
    }

    predicate Clean()
      reads this
    {
      added == map[] && marks == map[] && deletes == {}
    }

    method Add(id: RowId, message: Message, now: int)
      modifies this
      ensures added == old(added)[id := Row(message, now, None)] && marks == old(marks) && deletes == old(deletes)
    {
      added := added[id := Row(message, now, None)];
    }

    method GetPending() returns (messages: seq<Task>)
      modifies table
      ensures IsBatch(old(table.rows), old(table.locks), messages)
      ensures table.rows == old(table.rows) && table.locks == Lock(old(table.locks), messages, session)
    {
      BatchExists(table.rows, table.locks);
      messages := OldestFirst(table.rows, AvailableIds(table.rows, table.locks), DRAIN_BATCH_SIZE);
      table.locks := Lock(table.locks, messages, session);
    }

    method MarkProcessed(message: Task, now: int)
      modifies this
      ensures marks == old(marks)[message.id := now] && added == old(added) && deletes == old(deletes)
    {
      marks := marks[message.id := now];
    }

    method Delete(message: Task)
      modifies this
      ensures deletes == old(deletes) + {message.id} && added == old(added) && marks == old(marks)
    {
      deletes := deletes + {message.id};
    }

    method Commit()
      modifies this, table
      ensures table.rows == SessionRows(old(table.rows), old(added), old(marks), old(deletes))
      ensures table.locks == Unlock(old(table.locks), session) && Clean()
    {
      table.rows := SessionRows(table.rows, added, marks, deletes);
      table.locks := Unlock(table.locks, session);
      added, marks, deletes := map[], map[], {};
    }

    method Rollback()
      modifies this, table
      ensures table.rows == old(table.rows) && table.locks == Unlock(old(table.locks), session) && Clean()
    {
      table.locks := Unlock(table.locks, session);
      added, marks, deletes := map[], map[], {};
    }
  }

  /** The protocol state that the table and the broker stand for. */
  ghost predicate Represents(s: State, table: OutboxTable, celery: Celery)
    reads table, celery
  {
    s.rows == table.rows && s.locks == table.locks && s.published == celery.published
  }

  lemma SessionCommit(rows: map<RowId, Row>, marks: map<RowId, int>, retain: bool)
    ensures SessionRows(rows, map[], marks, if retain then {} else marks.Keys) == CommitMarks(rows, marks, retain)
  {
  }

  /** Each message of the batch is marked with the time at its own position. */
  lemma {:induction false} MarkAt(batch: seq<Task>, times: seq<int>, k: nat)
    requires k < |times| <= |batch| && Distinct(Ids(batch))
    ensures batch[k].id in Marks(batch, times) && Marks(batch, times)[batch[k].id] == times[k]
    decreases |times|
  {
    var n := |times| - 1;
    assert Ids(batch)[k] == batch[k].id && Ids(batch)[n] == batch[n].id;
    if k < n {
      MarkAt(batch, times[..n], k);
    }
  }

  /** What a committed tick makes of the table: relayed rows are marked in place or gone, all others untouched. */
  lemma CommittedTick(rows: map<RowId, Row>, batch: seq<Task>, times: seq<int>, retain: bool)
    requires |times| == |batch| && Distinct(Ids(batch)) && forall k :: 0 <= k < |batch| ==> batch[k].id in rows
    ensures var after := CommitMarks(rows, Marks(batch, times), retain);
            && (retain ==> forall k :: 0 <= k < |batch| ==>
                  && batch[k].id in after
                  && after[batch[k].id].processedAt == Some(times[k])
                  && after[batch[k].id].message == rows[batch[k].id].message
                  && after[batch[k].id].createdAt == rows[batch[k].id].createdAt)
            && (!retain ==> forall k :: 0 <= k < |batch| ==> batch[k].id !in after)
            && (forall id :: id !in Ids(batch) ==>
                  (id in after <==> id in rows) && (id in rows ==> after[id] == rows[id]))
  {
    var marks := Marks(batch, times);
    assert batch[..|times|] == batch;
    forall k | 0 <= k < |batch| ensures batch[k].id in marks && marks[batch[k].id] == times[k] {
      MarkAt(batch, times, k);
    }
  }

  /** A session that held no lock before its batch holds none after it. */
  lemma LocksRestored(locks: map<RowId, DrainerId>, batch: seq<Task>, d: DrainerId)
    requires forall k :: 0 <= k < |batch| ==> batch[k].id !in locks
    requires forall id :: id in locks ==> locks[id] != d
    ensures Unlock(Lock(locks, batch, d), d) == locks
  {
    forall id | id in Ids(batch) ensures id !in locks {
      var k :| 0 <= k < |batch| && Ids(batch)[k] == id;
      assert batch[k].id == id;
    }
  }

  lemma LocksRestoredIf(locks: map<RowId, DrainerId>, batch: seq<Task>, d: DrainerId)
    requires forall k :: 0 <= k < |batch| ==> batch[k].id !in locks
    ensures (forall id :: id in locks ==> locks[id] != d) ==> Unlock(Lock(locks, batch, d), d) == locks
  {
    if forall id :: id in locks ==> locks[id] != d {
      LocksRestored(locks, batch, d);
    }
  }

  lemma NotInBatch(batch: seq<Task>)
    ensures forall id :: (forall k :: 0 <= k < |batch| ==> batch[k].id != id) ==> id !in Ids(batch)
  {
  }

  lemma MarksStep(batch: seq<Task>, times: seq<int>, now: int)
    requires |times| < |batch|
    ensures Marks(batch, times + [now]) == Marks(batch, times)[batch[|times|].id := now]
  {
    assert (times + [now])[..|times|] == times;
  }

  /** What goes wrong with one message: the send fails, or raises although it was delivered, or the delete fails. */
  datatype MessageTrouble = Smooth | SendFails | SendUnconfirmed | DeleteFails

  datatype CommitTrouble = Commits | CommitFails | CommitUnconfirmed

  /** The setting one tick reads, and which of its calls raise. */
  datatype TickEnvironment = TickEnvironment(
    retainAfterRelay: bool, selectFails: bool, messages: seq<MessageTrouble>, commit: CommitTrouble)
  {
    function At(i: nat): MessageTrouble {
      if i < |messages| then messages[i] else Smooth
    }
  }

  method RelayMessage(
    outbox: SqlaOutboxRepository, celery: Celery, clock: UtcClock, message: Task, retainAfterRelay: bool,
    trouble: MessageTrouble)
    returns (raised: bool, ghost sent: bool, now: int)
    modifies outbox, celery, clock
    ensures raised <==> trouble.SendFails? || trouble.SendUnconfirmed? || (trouble.DeleteFails? && !retainAfterRelay)
    ensures celery.published == old(celery.published) + if sent then [message] else []
    ensures (sent <==> !trouble.SendFails?) && outbox.added == old(outbox.added)
    ensures !raised ==>
              && outbox.marks == old(outbox.marks)[message.id := now]
              && outbox.deletes == old(outbox.deletes) + (if retainAfterRelay then {} else {message.id})
              && now == clock.now
    ensures clock.now >= old(clock.now)
  {
    now, sent := clock.now, false;
    if trouble.SendFails? { return true, sent, now; }
    celery.SendTask(message.id, message.message);
    sent := true;
    if trouble.SendUnconfirmed? { return true, sent, now; }
    now := clock.Read();
    outbox.MarkProcessed(message, now);
    if !retainAfterRelay {
      if trouble.DeleteFails? { return true, sent, now; }
      outbox.Delete(message);
    }
    raised := false;
  }

  lemma PrefixStep(batch: seq<Task>, i: nat)
    requires i < |batch|
    ensures batch[..i + 1] == batch[..i] + [batch[i]]
  {
  }

  /** The loop over a batch; it ends early when a call raises. */
  method RelayBatch(
    outbox: SqlaOutboxRepository, celery: Celery, clock: UtcClock, messages: seq<Task>, env: TickEnvironment)
    returns (raised: bool, ghost times: seq<int>, ghost sent: nat)
    requires outbox.Clean()
    modifies outbox, celery, clock
    ensures |times| <= sent <= |messages| && sent <= |times| + 1 && outbox.added == map[]
    ensures celery.published == old(celery.published) + messages[..sent]
    ensures old(clock.now) <= clock.now && forall t :: t in times ==> old(clock.now) <= t <= clock.now
    ensures !raised ==>
              && |times| == sent == |messages| && outbox.marks == Marks(messages, times)
              && outbox.deletes == if env.retainAfterRelay then {} else outbox.marks.Keys
  {
    times, sent := [], 0;
    for i := 0 to |messages|
      invariant |times| == sent == i && outbox.added == map[]
      invariant celery.published == old(celery.published) + messages[..i]
      invariant old(clock.now) <= clock.now && forall t :: t in times ==> old(clock.now) <= t <= clock.now
      invariant outbox.marks == Marks(messages, times)
      invariant outbox.deletes == if env.retainAfterRelay then {} else outbox.marks.Keys
    {
      PrefixStep(messages, i);
      ghost var isSent;
      var now;
      raised, isSent, now := RelayMessage(outbox, celery, clock, messages[i], env.retainAfterRelay, env.At(i));
      if raised {
        sent := if isSent then i + 1 else i;
        return;
      }
      MarksStep(messages, times, now);
      times, sent := times + [now], i + 1;
    }
    raised := false;
  }

  /**
   One tick; when a call raises, its session is rolled back, unless the database had committed
   already.  `tick` tells which batch it took and when it marked each message, `sent` how many
   messages the broker has, and `committed` whether the batch was committed.
   */
  method DrainOutbox(outbox: SqlaOutboxRepository, celery: Celery, clock: UtcClock, env: TickEnvironment)
    returns (raised: bool, ghost tick: Tick, ghost sent: nat, ghost committed: bool)
    requires outbox.Clean()
    modifies outbox, outbox.table, celery, clock
    ensures tick.retain == env.retainAfterRelay && outbox.Clean()
    ensures |tick.times| <= sent <= |tick.batch| && sent <= |tick.times| + 1
    ensures IsBatch(old(outbox.table.rows), old(outbox.table.locks), tick.batch) || (raised && tick.batch == [])
    ensures celery.published == old(celery.published) + tick.batch[..sent]
    ensures forall t :: t in tick.times ==> old(clock.now) <= t <= clock.now
    ensures outbox.table.locks == if tick.batch == [] then old(outbox.table.locks)
                                  else Unlock(Lock(old(outbox.table.locks), tick.batch, outbox.session), outbox.session)
    ensures committed ==> |tick.times| == |tick.batch| > 0
    ensures outbox.table.rows
         == if committed then CommitMarks(old(outbox.table.rows), Marks(tick.batch, tick.times), env.retainAfterRelay)
            else old(outbox.table.rows)
    ensures !raised ==> committed || tick.batch == []
    ensures forall k :: 0 <= k < |tick.batch| ==>
              && tick.batch[k].id in old(outbox.table.rows)
              && old(outbox.table.rows)[tick.batch[k].id].processedAt == None
    ensures committed && env.retainAfterRelay ==>
              forall k :: 0 <= k < |tick.batch| ==>
                && tick.batch[k].id in outbox.table.rows
                && var was, now := old(outbox.table.rows)[tick.batch[k].id], outbox.table.rows[tick.batch[k].id];
                && now.message == was.message && now.createdAt == was.createdAt
                && now.processedAt == Some(tick.times[k])
    ensures committed && !env.retainAfterRelay ==>
              forall k :: 0 <= k < |tick.batch| ==> tick.batch[k].id !in outbox.table.rows
    ensures forall id :: !committed || (forall k :: 0 <= k < |tick.batch| ==> tick.batch[k].id != id) ==>
              && (id in outbox.table.rows <==> id in old(outbox.table.rows))
              && (id in outbox.table.rows ==> outbox.table.rows[id] == old(outbox.table.rows)[id])
    ensures (forall id :: id in old(outbox.table.locks) ==> old(outbox.table.locks)[id] != outbox.session) ==>
              outbox.table.locks == old(outbox.table.locks)
  {
    tick, sent, committed := Tick([], [], env.retainAfterRelay), 0, false;
    if env.selectFails { return true, tick, sent, committed; }
    var messages := outbox.GetPending();
    if messages == [] {
      assert Lock(old(outbox.table.locks), [], outbox.session) == old(outbox.table.locks);
      return false, tick, sent, committed;
    }
    LocksRestoredIf(old(outbox.table.locks), messages, outbox.session);
    ghost var times;
    raised, times, sent := RelayBatch(outbox, celery, clock, messages, env);
    tick := Tick(messages, times, env.retainAfterRelay);
    if raised || env.commit.CommitFails? {
      outbox.Rollback();
      return true, tick, sent, committed;
    }
    SessionCommit(outbox.table.rows, outbox.marks, env.retainAfterRelay);
    CommittedTick(outbox.table.rows, messages, times, env.retainAfterRelay);
    NotInBatch(messages);
    outbox.Commit();
    raised, committed := env.commit.CommitUnconfirmed?, true;
  }

  /** The protocol steps of a tick. */
  function StepsOf(d: DrainerId, tick: Tick, sent: nat, committed: bool): seq<Step>
  {
    if committed then TickSteps(d, tick)
    else if tick.batch == [] then []
    else [Take(d, tick.batch, tick.retain)] + RelaySteps(d, tick.times) + FailSteps(d, tick, sent)
  }

  lemma StepsRun(s: State, d: DrainerId, tick: Tick, sent: nat, committed: bool)
    requires d !in s.drainers && |tick.times| <= sent <= |tick.batch| && sent <= |tick.times| + 1
    requires IsBatch(s.rows, s.locks, tick.batch) || tick.batch == []
    requires committed ==> |tick.times| == |tick.batch| > 0
    ensures IsRun(s, StepsOf(d, tick, sent, committed))
    ensures var t := After(s, StepsOf(d, tick, sent, committed));
            && t.rows == (if committed then CommitMarks(s.rows, Marks(tick.batch, tick.times), tick.retain) else s.rows)
            && t.locks == (if tick.batch == [] then s.locks else Unlock(Lock(s.locks, tick.batch, d), d))
            && t.published == s.published + tick.batch[..sent] && t.drainers == s.drainers
  {
    if committed {
      assert tick.batch[..sent] == tick.batch;
      TickRun(s, d, tick);
    } else if tick.batch != [] {
      FailedTickRun(s, d, tick, sent);
    } else {
      assert s.published + [] == s.published;
    }
  }

  /** A tick on the real table and broker is a run of the protocol, wherever it raises. */
  method DrainOutboxFromWorker(
    table: OutboxTable, celery: Celery, clock: UtcClock, worker: DrainerId, env: TickEnvironment, ghost before: State)
    returns (raised: bool, ghost steps: seq<Step>)
    requires Represents(before, table, celery) && worker !in before.drainers
    modifies table, celery, clock
    ensures IsRun(before, steps) && Represents(After(before, steps), table, celery)
    ensures After(before, steps).drainers == before.drainers
  {
    var outbox := new SqlaOutboxRepository(table, worker);
    ghost var tick, sent, committed;
    raised, tick, sent, committed := DrainOutbox(outbox, celery, clock, env);
    steps := StepsOf(worker, tick, sent, committed);
    StepsRun(before, worker, tick, sent, committed);
  }

  /**
   The endless loops of any number of workers, cut off after any number of ticks in any order:
   whatever each tick's settings are and wherever it raises, the ticks together are a run of the
   protocol, so its invariant holds.
   */
  method RunForever(
    table: OutboxTable, celery: Celery, clock: UtcClock, ticks: seq<(DrainerId, TickEnvironment)>,
    ghost before: State)
    returns (ghost trace: seq<Step>)
    requires Inv(before) && Represents(before, table, celery)
    requires forall i :: 0 <= i < |ticks| ==> ticks[i].0 !in before.drainers
    modifies table, celery, clock
    ensures IsRun(before, trace)
    ensures Represents(After(before, trace), table, celery) && Inv(After(before, trace))
    ensures After(before, trace).drainers == before.drainers
  {
    trace := [];
    for n := 0 to |ticks|
      invariant IsRun(before, trace)
      invariant Represents(After(before, trace), table, celery)
      invariant After(before, trace).drainers == before.drainers
    {
      ghost var steps;
      var raised;
      raised, steps := DrainOutboxFromWorker(table, celery, clock, ticks[n].0, ticks[n].1, After(before, trace));
      RunsCompose(before, trace, steps);
      trace := trace + steps;
    }
    RunPreserves(before, trace);
  }
}
