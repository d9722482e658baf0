/** The retention setting decides what stays in the table, never what is relayed. */
module OutboxRetention {
  import opened OutboxProtocol
  import opened OutboxSafety

  function PendingRows(rows: map<RowId, Row>): map<RowId, Row>
  {
    map id | id in rows && Pending(rows, id) :: rows[id]
  }

  function Forget(drainers: map<DrainerId, Drainer>): map<DrainerId, Drainer>
  {
    map d | d in drainers :: drainers[d].(retain := true)
  }

  /** The state without processed rows and without each loop's retention setting. */
  function View(s: State): State
  {
    s.(rows := PendingRows(s.rows), drainers := Forget(s.drainers))
  }

  /** The same step, except that a drain loop may read another retention setting. */
  predicate SameButRetention(e: Step, f: Step)
  {
    e == f || (e.Take? && f.Take? && f == e.(retain := f.retain))
  }

  predicate SameRunButRetention(es: seq<Step>, fs: seq<Step>)
  {
    |es| == |fs| && forall i :: 0 <= i < |es| ==> SameButRetention(es[i], fs[i])
  }

  lemma SameBatches(rows: map<RowId, Row>, rows': map<RowId, Row>, locks: map<RowId, DrainerId>, batch: seq<Task>)
    requires PendingRows(rows) == PendingRows(rows') && IsBatch(rows, locks, batch)
    ensures IsBatch(rows', locks, batch)
  {
    forall id ensures Pending(rows, id) <==> Pending(rows', id)
      ensures Pending(rows, id) ==> rows[id] == rows'[id]
    {
      assert Pending(rows, id) <==> id in PendingRows(rows);
      assert Pending(rows', id) <==> id in PendingRows(rows');
      if Pending(rows, id) {
        assert PendingRows(rows)[id] == rows[id] && PendingRows(rows')[id] == rows'[id];
      }
    }
  }

  lemma PendingAfterMarks(rows: map<RowId, Row>, marks: map<RowId, int>, retain: bool)
    ensures PendingRows(CommitMarks(rows, marks, retain)) == PendingRows(rows) - marks.Keys
  {
  }

  lemma PendingAfterInsert(rows: map<RowId, Row>, rows': map<RowId, Row>, more: map<RowId, Row>)
    requires PendingRows(rows) == PendingRows(rows')
    ensures PendingRows(rows + more) == PendingRows(rows' + more)
  {
    forall r: map<RowId, Row> ensures PendingRows(r + more) == (PendingRows(r) - more.Keys) + PendingRows(more) {
    }
  }

  lemma ForgetUpdate(drainers: map<DrainerId, Drainer>, d: DrainerId, w: Drainer)
    ensures Forget(drainers[d := w]) == Forget(drainers)[d := w.(retain := true)]
    ensures Forget(drainers - {d}) == Forget(drainers) - {d}
  {
  }

  /** The two loops' sessions differ at most in the retention setting. */
  lemma SameSessions(drainers: map<DrainerId, Drainer>, drainers': map<DrainerId, Drainer>, d: DrainerId)
    requires Forget(drainers) == Forget(drainers')
    ensures d in drainers <==> d in drainers'
    ensures d in drainers ==> drainers'[d] == drainers[d].(retain := drainers'[d].retain)
  {
    assert d in drainers <==> d in Forget(drainers);
    assert d in drainers' <==> d in Forget(drainers');
    if d in drainers {
      assert Forget(drainers)[d] == drainers[d].(retain := true);
      assert Forget(drainers')[d] == drainers'[d].(retain := true);
    }
  }

  /** Moving both loops' sessions in the same way keeps them alike. */
  lemma SameMove(
    drainers: map<DrainerId, Drainer>, drainers': map<DrainerId, Drainer>, d: DrainerId, w: Drainer, w': Drainer)
    requires Forget(drainers) == Forget(drainers') && w' == w.(retain := w'.retain)
    ensures Forget(drainers[d := w]) == Forget(drainers'[d := w'])
  {
    ForgetUpdate(drainers, d, w);
    ForgetUpdate(drainers', d, w');
  }

  lemma TakeSimulates(s: State, s': State, d: DrainerId, batch: seq<Task>, retain: bool, retain': bool)
    requires View(s) == View(s') && Enabled(s, Take(d, batch, retain))
    ensures Enabled(s', Take(d, batch, retain'))
    ensures View(Apply(s, Take(d, batch, retain))) == View(Apply(s', Take(d, batch, retain')))
  {
    SameBatches(s.rows, s'.rows, s.locks, batch);
    SameSessions(s.drainers, s'.drainers, d);
    SameMove(
      s.drainers, s'.drainers, d, Drainer(retain, batch, 0, 0, map[]), Drainer(retain', batch, 0, 0, map[]));
  }

  lemma SendSimulates(s: State, s': State, d: DrainerId)
    requires View(s) == View(s') && Enabled(s, Send(d))
    ensures Enabled(s', Send(d)) && View(Apply(s, Send(d))) == View(Apply(s', Send(d)))
  {
    SameSessions(s.drainers, s'.drainers, d);
    var w, w' := s.drainers[d], s'.drainers[d];
    SameMove(s.drainers, s'.drainers, d, w.(sent := w.sent + 1), w'.(sent := w.sent + 1));
  }

  lemma MarkSimulates(s: State, s': State, d: DrainerId, now: int)
    requires View(s) == View(s') && Enabled(s, Mark(d, now))
    ensures Enabled(s', Mark(d, now)) && View(Apply(s, Mark(d, now))) == View(Apply(s', Mark(d, now)))
  {
    SameSessions(s.drainers, s'.drainers, d);
    var w, w' := s.drainers[d], s'.drainers[d];
    var marked, marks := w.marked + 1, w.marks[w.batch[w.marked].id := now];
    SameMove(
      s.drainers, s'.drainers, d, w.(marked := marked, marks := marks), w'.(marked := marked, marks := marks));
  }

  lemma EndSimulates(s: State, s': State, e: Step, d: DrainerId)
    requires View(s) == View(s') && (e == CommitBatch(d) || e == Fail(d)) && Enabled(s, e)
    ensures Enabled(s', e) && View(Apply(s, e)) == View(Apply(s', e))
  {
    SameSessions(s.drainers, s'.drainers, d);
    ForgetUpdate(s.drainers, d, s.drainers[d]);
    ForgetUpdate(s'.drainers, d, s'.drainers[d]);
    PendingAfterMarks(s.rows, s.drainers[d].marks, s.drainers[d].retain);
    PendingAfterMarks(s'.rows, s'.drainers[d].marks, s'.drainers[d].retain);
  }

  lemma StepSimulates(s: State, s': State, e: Step, e': Step)
    requires View(s) == View(s') && SameButRetention(e, e') && Enabled(s, e)
    ensures Enabled(s', e') && View(Apply(s, e)) == View(Apply(s', e'))
  {
    match e
    case Stage(_, _, _, _) =>
    case CommitWeb(tx) => PendingAfterInsert(s.rows, s'.rows, s.open[tx]);
    case AbortWeb(_) =>
    case Take(d, batch, retain) => TakeSimulates(s, s', d, batch, retain, e'.retain);
    case Send(d) => SendSimulates(s, s', d);
    case Mark(d, now) => MarkSimulates(s, s', d, now);
    case CommitBatch(d) => EndSimulates(s, s', e, d);
    case Fail(d) => EndSimulates(s, s', e, d);
  }

  lemma {:induction false} RunSimulates(s: State, s': State, es: seq<Step>, fs: seq<Step>)
    requires View(s) == View(s') && SameRunButRetention(es, fs) && IsRun(s, es)
    ensures IsRun(s', fs) && View(After(s, es)) == View(After(s', fs))
    decreases |es|
  {
    if es != [] {
      StepSimulates(s, s', es[0], fs[0]);
      RunSimulates(Apply(s, es[0]), Apply(s', fs[0]), es[1..], fs[1..]);
    }
  }

  // ----- What stays in the table

  predicate SameSetting(drainers: map<DrainerId, Drainer>, retain: bool)
  {
    forall d :: d in drainers ==> drainers[d].retain == retain
  }

  /** The table keeps all committed rows, or only those not yet relayed. */
  ghost predicate TableIs(rows: map<RowId, Row>, h: History, retain: bool)
  {
    forall id :: id in rows <==> id in h.committed && (retain || id !in h.relayed)
  }

  ghost predicate Keeps(s: State, retain: bool)
  {
    SameSetting(s.drainers, retain) && TableIs(s.rows, s.history, retain)
  }

  lemma CommitKeepsTable(rows: map<RowId, Row>, h: History, marks: map<RowId, int>, retain: bool)
    requires TableIs(rows, h, retain)
    ensures TableIs(CommitMarks(rows, marks, retain), h.(relayed := h.relayed + marks.Keys), retain)
  {
  }

  lemma InsertKeepsTable(rows: map<RowId, Row>, h: History, more: map<RowId, Row>, retain: bool)
    requires TableIs(rows, h, retain) && forall id :: id in more ==> id !in h.relayed
    ensures TableIs(rows + more, h.(committed := h.committed + Messages(more)), retain)
  {
  }

  lemma StepKeepsSetting(s: State, e: Step, retain: bool)
    requires SameSetting(s.drainers, retain) && Enabled(s, e) && (e.Take? ==> e.retain == retain)
    ensures SameSetting(Apply(s, e).drainers, retain)
  {
  }

  lemma StepKeepsTable(s: State, e: Step, retain: bool)
    requires RowsInv(s.rows, s.issued, s.history) && OpenInv(s.open, s.issued, s.history)
    requires Keeps(s, retain) && Enabled(s, e) && (e.Take? ==> e.retain == retain)
    ensures Keeps(Apply(s, e), retain)
  {
    StepKeepsSetting(s, e, retain);
    match e
    case CommitWeb(tx) => InsertKeepsTable(s.rows, s.history, s.open[tx], retain);
    case CommitBatch(d) => CommitKeepsTable(s.rows, s.history, s.drainers[d].marks, retain);
    case _ =>
  }

  lemma {:induction false} RunKeepsTable(s: State, steps: seq<Step>, retain: bool)
    requires Inv(s) && Keeps(s, retain) && IsRun(s, steps)
    requires forall i :: 0 <= i < |steps| && steps[i].Take? ==> steps[i].retain == retain
    ensures Keeps(After(s, steps), retain)
    decreases |steps|
  {
    if steps != [] {
      StepPreserves(s, steps[0]);
      StepKeepsTable(s, steps[0], retain);
      RunKeepsTable(Apply(s, steps[0]), steps[1..], retain);
    }
  }

  /** With retention on, no committed row ever leaves the table, and the processed ones have been published. */
  lemma RetainedRowsStay(steps: seq<Step>, id: RowId)
    requires IsRun(EMPTY, steps) && forall i :: 0 <= i < |steps| && steps[i].Take? ==> steps[i].retain
    requires id in After(EMPTY, steps).history.committed
    ensures var s := After(EMPTY, steps);
            && id in s.rows && s.rows[id].message == s.history.committed[id]
            && (s.rows[id].processedAt.Some? ==> Task(id, s.rows[id].message) in s.published)
  {
    RunKeepsTable(EMPTY, steps, true);
    RunPreserves(EMPTY, steps);
    NothingLostNoGhosts(steps);
  }

  /** With retention off, the table never holds a processed row, and a row that is gone has been published. */
  lemma DeletedRowsWerePublished(steps: seq<Step>, id: RowId)
    requires IsRun(EMPTY, steps) && forall i :: 0 <= i < |steps| && steps[i].Take? ==> !steps[i].retain
    requires id in After(EMPTY, steps).history.committed
    ensures var s := After(EMPTY, steps);
            && (id in s.rows ==> s.rows[id].processedAt.None?)
            && (id !in s.rows ==> Task(id, s.history.committed[id]) in s.published)
  {
    RunKeepsTable(EMPTY, steps, false);
    RunPreserves(EMPTY, steps);
    NothingLostNoGhosts(steps);
  }

  // ----- What is relayed

  /**
   Change the retention setting of any ticks of a run: it is still a run, and it ends with the
   same pending rows and the same published tasks.
   */
  lemma RetentionNeverChangesRelay(es: seq<Step>, fs: seq<Step>)
    requires IsRun(EMPTY, es) && SameRunButRetention(es, fs)
    ensures IsRun(EMPTY, fs)
    ensures var s, t := After(EMPTY, es), After(EMPTY, fs);
            && s.published == t.published && PendingRows(s.rows) == PendingRows(t.rows)
            && s.locks == t.locks && s.history == t.history
  {
    RunSimulates(EMPTY, EMPTY, es, fs);
  }
}
