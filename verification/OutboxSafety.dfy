/** What every step of the relay keeps, and what follows for whole runs. */
module OutboxSafety {
  import opened Common
  import opened OutboxProtocol

  ghost predicate RowsInv(rows: map<RowId, Row>, issued: set<RowId>, h: History)
  {
    && h.committed.Keys <= issued
    && h.aborted <= issued && h.aborted !! h.committed.Keys
    && rows.Keys <= h.committed.Keys
    && (forall id :: id in rows ==> rows[id].message == h.committed[id])
    && (forall id :: id in h.committed ==> (Pending(rows, id) <==> id !in h.relayed))
    && h.relayed <= h.committed.Keys
  }

  ghost predicate OpenInv(open: map<WebTx, map<RowId, Row>>, issued: set<RowId>, h: History)
  {
    && (forall tx, id :: tx in open && id in open[tx] ==>
          && id in issued && id !in h.committed && id !in h.aborted
          && open[tx][id].processedAt.None?)
    && (forall t, u, id :: t in open && u in open && t != u && id in open[t] ==> id !in open[u])
  }

  /** One drain loop: its position, and its hold on every row of its batch. */
  ghost predicate DrainerInv(rows: map<RowId, Row>, locks: map<RowId, DrainerId>, d: DrainerId, w: Drainer)
  {
    && w.batch != [] && |w.batch| <= DRAIN_BATCH_SIZE && Distinct(Ids(w.batch))
    && w.marked <= w.sent <= w.marked + 1 && w.sent <= |w.batch|
    && (forall id :: id in w.marks <==> id in Ids(w.batch[..w.marked]))
    && (forall i :: 0 <= i < |w.batch| ==>
          && w.batch[i].id in locks && locks[w.batch[i].id] == d
          && Pending(rows, w.batch[i].id) && w.batch[i].message == rows[w.batch[i].id].message)
  }

  ghost predicate LocksInv(rows: map<RowId, Row>, locks: map<RowId, DrainerId>, drainers: map<DrainerId, Drainer>)
  {
    && (forall d :: d in drainers ==> DrainerInv(rows, locks, d, drainers[d]))
    && (forall id :: id in locks ==> locks[id] in drainers && id in Ids(drainers[locks[id]].batch))
  }

  /** Some drain loop has sent the row in a batch that has not ended yet. */
  predicate InFlight(locks: map<RowId, DrainerId>, drainers: map<DrainerId, Drainer>, id: RowId)
  {
    && id in locks && locks[id] in drainers
    && var w := drainers[locks[id]];
    w.sent <= |w.batch| && id in Ids(w.batch[..w.sent])
  }

  function TimesPublished(published: seq<Task>, id: RowId): nat
  {
    multiset(Ids(published))[id]
  }

  predicate Accounted(
    published: seq<Task>, h: History, locks: map<RowId, DrainerId>, drainers: map<DrainerId, Drainer>, id: RowId)
  {
    TimesPublished(published, id)
    == (if id in h.relayed then 1 else 0) + h.failedSends[id] + (if InFlight(locks, drainers, id) then 1 else 0)
  }

  ghost predicate PublishedInv(published: seq<Task>, h: History)
  {
    forall i :: 0 <= i < |published| ==>
      published[i].id in h.committed && h.committed[published[i].id] == published[i].message
  }

  ghost predicate CountInv(
    published: seq<Task>, h: History, locks: map<RowId, DrainerId>, drainers: map<DrainerId, Drainer>)
  {
    forall id :: Accounted(published, h, locks, drainers, id)
  }

  ghost predicate Inv(s: State)
  {
    && RowsInv(s.rows, s.issued, s.history)
    && OpenInv(s.open, s.issued, s.history)
    && LocksInv(s.rows, s.locks, s.drainers)
    && PublishedInv(s.published, s.history)
    && CountInv(s.published, s.history, s.locks, s.drainers)
  }

  // ----- Sequences of row ids

  lemma DistinctCount(ids: seq<RowId>, id: RowId)
    requires Distinct(ids)
    ensures multiset(ids)[id] == if id in ids then 1 else 0
  {
    if ids != [] {
      assert ids == ids[..|ids| - 1] + [ids[|ids| - 1]];
      DistinctCount(ids[..|ids| - 1], id);
    }
  }

  lemma IdsAppend(tasks: seq<Task>, t: Task)
    ensures Ids(tasks + [t]) == Ids(tasks) + [t.id]
  {}

  /** One more element of a batch: its id is new to the prefix before it. */
  lemma PrefixGrows(batch: seq<Task>, n: nat)
    requires n < |batch| && Distinct(Ids(batch))
    ensures Ids(batch[..n + 1]) == Ids(batch[..n]) + [batch[n].id]
    ensures batch[n].id !in Ids(batch[..n])
    ensures Distinct(Ids(batch[..n]))
  {
    assert batch[..n + 1] == batch[..n] + [batch[n]];
    assert Ids(batch[..n]) == Ids(batch)[..n];
  }

  // ----- Each step keeps the invariant

  lemma StageRows(rows: map<RowId, Row>, issued: set<RowId>, h: History, id: RowId)
    requires RowsInv(rows, issued, h)
    ensures RowsInv(rows, issued + {id}, h)
  {
  }

  /** A fresh row joins one open transaction. */
  lemma StageOpen(
    open: map<WebTx, map<RowId, Row>>, issued: set<RowId>, h: History, tx: WebTx, id: RowId, row: Row)
    requires OpenInv(open, issued, h) && h.committed.Keys <= issued && h.aborted <= issued
    requires id !in issued && row.processedAt.None?
    ensures OpenInv(open[tx := (if tx in open then open[tx] else map[])[id := row]], issued + {id}, h)
  {
  }

  lemma CountCarries(s: State, t: State)
    requires CountInv(s.published, s.history, s.locks, s.drainers)
    requires t.published == s.published && t.locks == s.locks && t.drainers == s.drainers
    requires t.history.relayed == s.history.relayed && t.history.failedSends == s.history.failedSends
    ensures CountInv(t.published, t.history, t.locks, t.drainers)
  {
    forall id ensures Accounted(t.published, t.history, t.locks, t.drainers, id) {
      assert Accounted(s.published, s.history, s.locks, s.drainers, id);
    }
  }

  lemma StagePreserves(s: State, tx: WebTx, id: RowId, message: Message, now: int)
    requires Inv(s) && Enabled(s, Stage(tx, id, message, now))
    ensures Inv(Apply(s, Stage(tx, id, message, now)))
  {
    StageRows(s.rows, s.issued, s.history, id);
    StageOpen(s.open, s.issued, s.history, tx, id, Row(message, now, None));
    CountCarries(s, Apply(s, Stage(tx, id, message, now)));
  }

  lemma CommitWebRows(s: State, tx: WebTx)
    requires RowsInv(s.rows, s.issued, s.history) && OpenInv(s.open, s.issued, s.history) && tx in s.open
    ensures var t := Apply(s, CommitWeb(tx));
            RowsInv(t.rows, t.issued, t.history) && OpenInv(t.open, t.issued, t.history)
    ensures forall id :: id in s.rows ==> id !in s.open[tx]
  {
  }

  /** Drain loops keep their hold as long as the rows they hold stay as they are. */
  lemma LocksCarry(
    rows: map<RowId, Row>, rows': map<RowId, Row>, locks: map<RowId, DrainerId>, drainers: map<DrainerId, Drainer>)
    requires LocksInv(rows, locks, drainers)
    requires forall id :: id in rows && id in locks ==> id in rows' && rows'[id] == rows[id]
    ensures LocksInv(rows', locks, drainers)
  {
    forall d | d in drainers ensures DrainerInv(rows', locks, d, drainers[d]) {
      assert DrainerInv(rows, locks, d, drainers[d]);
    }
  }

  lemma CommitWebPreserves(s: State, tx: WebTx)
    requires Inv(s) && Enabled(s, CommitWeb(tx))
    ensures Inv(Apply(s, CommitWeb(tx)))
  {
    var t := Apply(s, CommitWeb(tx));
    CommitWebRows(s, tx);
    LocksCarry(s.rows, t.rows, s.locks, s.drainers);
    CountCarries(s, t);
  }

  lemma AbortWebPreserves(s: State, tx: WebTx)
    requires Inv(s) && Enabled(s, AbortWeb(tx))
    ensures Inv(Apply(s, AbortWeb(tx)))
  {
    CountCarries(s, Apply(s, AbortWeb(tx)));
  }

  /** Loops that hold other rows keep their hold when a batch of unlocked rows is locked. */
  lemma TakeKeepsHold(
    rows: map<RowId, Row>, locks: map<RowId, DrainerId>, batch: seq<Task>, d: DrainerId, other: DrainerId, w: Drainer)
    requires DrainerInv(rows, locks, other, w)
    requires forall i :: 0 <= i < |batch| ==> batch[i].id !in locks
    ensures DrainerInv(rows, Lock(locks, batch, d), other, w)
  {
    forall i | 0 <= i < |w.batch| ensures w.batch[i].id !in Ids(batch) {
      assert w.batch[i].id in locks;
    }
  }

  lemma TakeHolds(rows: map<RowId, Row>, locks: map<RowId, DrainerId>, batch: seq<Task>, d: DrainerId, retain: bool)
    requires IsBatch(rows, locks, batch) && batch != []
    ensures DrainerInv(rows, Lock(locks, batch, d), d, Drainer(retain, batch, 0, 0, map[]))
  {
    assert batch[..0] == [];
    forall i | 0 <= i < |batch| ensures batch[i].id in Ids(batch) {
      assert Ids(batch)[i] == batch[i].id;
    }
  }

  lemma TakeNames(locks: map<RowId, DrainerId>, drainers: map<DrainerId, Drainer>, d: DrainerId, w: Drainer)
    requires forall id :: id in locks ==> locks[id] in drainers && id in Ids(drainers[locks[id]].batch)
    requires d !in drainers
    ensures var locks', drainers' := Lock(locks, w.batch, d), drainers[d := w];
            forall id :: id in locks' ==> locks'[id] in drainers' && id in Ids(drainers'[locks'[id]].batch)
  {
  }

  lemma TakeLocks(
    rows: map<RowId, Row>, locks: map<RowId, DrainerId>, drainers: map<DrainerId, Drainer>, d: DrainerId,
    batch: seq<Task>, retain: bool)
    requires LocksInv(rows, locks, drainers) && d !in drainers && IsBatch(rows, locks, batch) && batch != []
    ensures LocksInv(rows, Lock(locks, batch, d), drainers[d := Drainer(retain, batch, 0, 0, map[])])
  {
    var w := Drainer(retain, batch, 0, 0, map[]);
    TakeNames(locks, drainers, d, w);
    TakeHolds(rows, locks, batch, d, retain);
    forall other | other in drainers ensures DrainerInv(rows, Lock(locks, batch, d), other, drainers[other]) {
      assert DrainerInv(rows, locks, other, drainers[other]);
      TakeKeepsHold(rows, locks, batch, d, other, drainers[other]);
    }
  }

  lemma TakeCounts(
    published: seq<Task>, h: History, locks: map<RowId, DrainerId>, drainers: map<DrainerId, Drainer>,
    d: DrainerId, batch: seq<Task>, w: Drainer)
    requires CountInv(published, h, locks, drainers) && d !in drainers && w.sent == 0
    requires forall i :: 0 <= i < |batch| ==> batch[i].id !in locks
    ensures CountInv(published, h, Lock(locks, batch, d), drainers[d := w])
  {
    assert w.batch[..0] == [];
    var locks', drainers' := Lock(locks, batch, d), drainers[d := w];
    forall id ensures Accounted(published, h, locks', drainers', id) {
      assert Accounted(published, h, locks, drainers, id);
    }
  }

  lemma TakePreserves(s: State, d: DrainerId, batch: seq<Task>, retain: bool)
    requires Inv(s) && Enabled(s, Take(d, batch, retain))
    ensures Inv(Apply(s, Take(d, batch, retain)))
  {
    if batch != [] {
      TakeLocks(s.rows, s.locks, s.drainers, d, batch, retain);
      TakeCounts(s.published, s.history, s.locks, s.drainers, d, batch, Drainer(retain, batch, 0, 0, map[]));
    }
  }

  /** Moving one drain loop within its batch keeps every hold. */
  lemma LocksMove(
    rows: map<RowId, Row>, locks: map<RowId, DrainerId>, drainers: map<DrainerId, Drainer>, d: DrainerId, w: Drainer)
    requires LocksInv(rows, locks, drainers) && d in drainers
    requires DrainerInv(rows, locks, d, w) && w.batch == drainers[d].batch
    ensures LocksInv(rows, locks, drainers[d := w])
  {
  }

  /** The rows of a drain loop's batch are locked by it. */
  predicate Holds(locks: map<RowId, DrainerId>, d: DrainerId, batch: seq<Task>)
  {
    forall i :: 0 <= i < |batch| ==> batch[i].id in locks && locks[batch[i].id] == d
  }

  lemma SendCounts(
    published: seq<Task>, h: History, locks: map<RowId, DrainerId>, drainers: map<DrainerId, Drainer>, d: DrainerId)
    requires CountInv(published, h, locks, drainers) && d in drainers && drainers[d].sent < |drainers[d].batch|
    requires Distinct(Ids(drainers[d].batch)) && Holds(locks, d, drainers[d].batch)
    ensures var w := drainers[d];
            CountInv(published + [w.batch[w.sent]], h, locks, drainers[d := w.(sent := w.sent + 1)])
  {
    var w := drainers[d];
    var published', drainers' := published + [w.batch[w.sent]], drainers[d := w.(sent := w.sent + 1)];
    PrefixGrows(w.batch, w.sent);
    IdsAppend(published, w.batch[w.sent]);
    forall id ensures Accounted(published', h, locks, drainers', id) {
      assert Accounted(published, h, locks, drainers, id);
    }
  }

  lemma SendLocks(
    rows: map<RowId, Row>, locks: map<RowId, DrainerId>, drainers: map<DrainerId, Drainer>, d: DrainerId)
    requires LocksInv(rows, locks, drainers) && d in drainers
    requires drainers[d].sent == drainers[d].marked < |drainers[d].batch|
    ensures LocksInv(rows, locks, drainers[d := drainers[d].(sent := drainers[d].sent + 1)])
  {
    var w := drainers[d];
    assert DrainerInv(rows, locks, d, w);
    LocksMove(rows, locks, drainers, d, w.(sent := w.sent + 1));
  }

  lemma SendPublished(s: State, d: DrainerId)
    requires RowsInv(s.rows, s.issued, s.history) && PublishedInv(s.published, s.history) && d in s.drainers
    requires s.drainers[d].sent < |s.drainers[d].batch| && DrainerInv(s.rows, s.locks, d, s.drainers[d])
    ensures PublishedInv(s.published + [s.drainers[d].batch[s.drainers[d].sent]], s.history)
  {
  }

  lemma SendPreserves(s: State, d: DrainerId)
    requires Inv(s) && Enabled(s, Send(d))
    ensures Inv(Apply(s, Send(d)))
  {
    assert DrainerInv(s.rows, s.locks, d, s.drainers[d]);
    SendLocks(s.rows, s.locks, s.drainers, d);
    SendPublished(s, d);
    SendCounts(s.published, s.history, s.locks, s.drainers, d);
  }

  lemma MarkCounts(
    published: seq<Task>, h: History, locks: map<RowId, DrainerId>, drainers: map<DrainerId, Drainer>, d: DrainerId,
    w: Drainer)
    requires CountInv(published, h, locks, drainers) && d in drainers
    requires w.sent == drainers[d].sent && w.batch == drainers[d].batch
    ensures CountInv(published, h, locks, drainers[d := w])
  {
    var drainers' := drainers[d := w];
    forall id ensures Accounted(published, h, locks, drainers', id) {
      assert Accounted(published, h, locks, drainers, id);
    }
  }

  lemma MarkLocks(
    rows: map<RowId, Row>, locks: map<RowId, DrainerId>, drainers: map<DrainerId, Drainer>, d: DrainerId, now: int)
    requires LocksInv(rows, locks, drainers) && d in drainers
    requires drainers[d].sent == drainers[d].marked + 1 <= |drainers[d].batch|
    ensures var w := drainers[d];
            LocksInv(rows, locks,
                     drainers[d := w.(marked := w.marked + 1, marks := w.marks[w.batch[w.marked].id := now])])
  {
    var w := drainers[d];
    assert DrainerInv(rows, locks, d, w);
    PrefixGrows(w.batch, w.marked);
    LocksMove(rows, locks, drainers, d, w.(marked := w.marked + 1, marks := w.marks[w.batch[w.marked].id := now]));
  }

  lemma MarkPreserves(s: State, d: DrainerId, now: int)
    requires Inv(s) && Enabled(s, Mark(d, now))
    ensures Inv(Apply(s, Mark(d, now)))
  {
    var w := s.drainers[d];
    MarkLocks(s.rows, s.locks, s.drainers, d, now);
    MarkCounts(s.published, s.history, s.locks, s.drainers, d,
               w.(marked := w.marked + 1, marks := w.marks[w.batch[w.marked].id := now]));
  }

  /** A drain loop that ends lets go of its own rows and touches nobody else's. */
  lemma UnlockPreserves(
    rows: map<RowId, Row>, rows': map<RowId, Row>, locks: map<RowId, DrainerId>, drainers: map<DrainerId, Drainer>,
    d: DrainerId)
    requires LocksInv(rows, locks, drainers) && d in drainers
    requires forall id :: id in locks && locks[id] != d && id in rows ==> id in rows' && rows'[id] == rows[id]
    ensures LocksInv(rows', Unlock(locks, d), drainers - {d})
  {
    forall other | other in drainers - {d} ensures DrainerInv(rows', Unlock(locks, d), other, drainers[other]) {
      assert DrainerInv(rows, locks, other, drainers[other]);
    }
  }

  /** When its batch commits, a drain loop has sent and marked exactly the rows it holds. */
  ghost predicate MarksItsRows(
    rows: map<RowId, Row>, locks: map<RowId, DrainerId>, drainers: map<DrainerId, Drainer>, d: DrainerId)
    requires d in drainers
  {
    && (forall id :: id in drainers[d].marks <==> id in locks && locks[id] == d)
    && (forall id :: id in drainers[d].marks ==> Pending(rows, id) && InFlight(locks, drainers, id))
  }

  lemma HeldRows(rows: map<RowId, Row>, locks: map<RowId, DrainerId>, drainers: map<DrainerId, Drainer>, d: DrainerId)
    requires LocksInv(rows, locks, drainers) && d in drainers && drainers[d].marked == |drainers[d].batch|
    ensures MarksItsRows(rows, locks, drainers, d)
  {
    var w := drainers[d];
    assert DrainerInv(rows, locks, d, w);
    assert w.batch[..w.marked] == w.batch == w.batch[..w.sent];
    forall id | id in w.marks
      ensures id in locks && locks[id] == d && Pending(rows, id)
    {
      var k :| 0 <= k < |w.batch| && Ids(w.batch)[k] == id;
      assert w.batch[k].id == id;
    }
  }

  lemma CommitCounts(
    published: seq<Task>, h: History, locks: map<RowId, DrainerId>, drainers: map<DrainerId, Drainer>, d: DrainerId)
    requires CountInv(published, h, locks, drainers) && d in drainers
    requires forall id :: id in drainers[d].marks <==> id in locks && locks[id] == d
    requires forall id :: id in drainers[d].marks ==> id !in h.relayed && InFlight(locks, drainers, id)
    ensures CountInv(published, h.(relayed := h.relayed + drainers[d].marks.Keys), Unlock(locks, d), drainers - {d})
  {
    var h', locks', drainers' := h.(relayed := h.relayed + drainers[d].marks.Keys), Unlock(locks, d), drainers - {d};
    forall id ensures Accounted(published, h', locks', drainers', id) {
      assert Accounted(published, h, locks, drainers, id);
    }
  }

  lemma CommitRows(rows: map<RowId, Row>, issued: set<RowId>, h: History, marks: map<RowId, int>, retain: bool)
    requires RowsInv(rows, issued, h) && forall id :: id in marks ==> Pending(rows, id)
    ensures RowsInv(CommitMarks(rows, marks, retain), issued, h.(relayed := h.relayed + marks.Keys))
  {
  }

  lemma CommitPreserves(s: State, d: DrainerId)
    requires Inv(s) && Enabled(s, CommitBatch(d))
    ensures Inv(Apply(s, CommitBatch(d)))
  {
    var w := s.drainers[d];
    HeldRows(s.rows, s.locks, s.drainers, d);
    CommitCounts(s.published, s.history, s.locks, s.drainers, d);
    CommitRows(s.rows, s.issued, s.history, w.marks, w.retain);
    UnlockPreserves(s.rows, CommitMarks(s.rows, w.marks, w.retain), s.locks, s.drainers, d);
  }

  lemma FailCounts(
    published: seq<Task>, h: History, locks: map<RowId, DrainerId>, drainers: map<DrainerId, Drainer>, d: DrainerId,
    sent: seq<RowId>)
    requires CountInv(published, h, locks, drainers) && d in drainers && drainers[d].sent <= |drainers[d].batch|
    requires Distinct(Ids(drainers[d].batch)) && Holds(locks, d, drainers[d].batch)
    requires sent == Ids(drainers[d].batch[..drainers[d].sent])
    ensures CountInv(published, h.(failedSends := h.failedSends + multiset(sent)), Unlock(locks, d), drainers - {d})
  {
    var batch, n := drainers[d].batch, drainers[d].sent;
    var h', locks', drainers' := h.(failedSends := h.failedSends + multiset(sent)), Unlock(locks, d), drainers - {d};
    assert sent == Ids(batch)[..n];
    forall id ensures Accounted(published, h', locks', drainers', id) {
      assert Accounted(published, h, locks, drainers, id);
      DistinctCount(sent, id);
      if id in sent {
        var k :| 0 <= k < n && sent[k] == id;
        assert batch[k].id == id;
      }
    }
  }

  lemma FailPreserves(s: State, d: DrainerId)
    requires Inv(s) && Enabled(s, Fail(d))
    ensures Inv(Apply(s, Fail(d)))
  {
    var w := s.drainers[d];
    assert DrainerInv(s.rows, s.locks, d, w);
    FailCounts(s.published, s.history, s.locks, s.drainers, d, Ids(w.batch[..w.sent]));
    UnlockPreserves(s.rows, s.rows, s.locks, s.drainers, d);
  }

  lemma StepPreserves(s: State, e: Step)
    requires Inv(s) && Enabled(s, e)
    ensures Inv(Apply(s, e))
  {
    match e
    case Stage(tx, id, message, now) => StagePreserves(s, tx, id, message, now);
    case CommitWeb(tx) => CommitWebPreserves(s, tx);
    case AbortWeb(tx) => AbortWebPreserves(s, tx);
    case Take(d, batch, retain) => TakePreserves(s, d, batch, retain);
    case Send(d) => SendPreserves(s, d);
    case Mark(d, now) => MarkPreserves(s, d, now);
    case CommitBatch(d) => CommitPreserves(s, d);
    case Fail(d) => FailPreserves(s, d);
  }

  lemma {:induction false} RunPreserves(s: State, steps: seq<Step>)
    requires Inv(s) && IsRun(s, steps)
    ensures Inv(After(s, steps))
    decreases |steps|
  {
    if steps != [] {
      StepPreserves(s, steps[0]);
      RunPreserves(Apply(s, steps[0]), steps[1..]);
    }
  }

  // ----- Whole runs

  predicate Grows(h: History, h': History)
  {
    && (forall id :: id in h.committed ==> id in h'.committed && h'.committed[id] == h.committed[id])
    && h.aborted <= h'.aborted
  }

  lemma StepGrows(s: State, e: Step)
    requires OpenInv(s.open, s.issued, s.history) && Enabled(s, e)
    ensures Grows(s.history, Apply(s, e).history)
  {
  }

  /** What has been committed or rolled back stays so. */
  lemma {:induction false} CommittedGrows(s: State, steps: seq<Step>)
    requires Inv(s) && IsRun(s, steps)
    ensures Grows(s.history, After(s, steps).history)
    decreases |steps|
  {
    if steps != [] {
      StepPreserves(s, steps[0]);
      StepGrows(s, steps[0]);
      CommittedGrows(Apply(s, steps[0]), steps[1..]);
    }
  }

  /** In every reachable state a committed row is pending or published, and a published task is a committed row. */
  lemma NothingLostNoGhosts(steps: seq<Step>)
    requires IsRun(EMPTY, steps)
    ensures var s := After(EMPTY, steps); var c := s.history.committed;
            && (forall id :: id in c ==>
                  || (Pending(s.rows, id) && s.rows[id].message == c[id])
                  || Task(id, c[id]) in s.published)
            && (forall t :: t in s.published ==> t.id in c && c[t.id] == t.message && t.id !in s.history.aborted)
  {
    RunPreserves(EMPTY, steps);
    var s := After(EMPTY, steps);
    forall id | id in s.history.committed && !Pending(s.rows, id)
      ensures Task(id, s.history.committed[id]) in s.published
    {
      assert Accounted(s.published, s.history, s.locks, s.drainers, id);
      assert id in multiset(Ids(s.published));
      var k :| 0 <= k < |s.published| && Ids(s.published)[k] == id;
      assert s.published[k] == Task(id, s.history.committed[id]);
    }
  }

  /** From the moment its transaction commits, a row is pending or its task has been published. */
  lemma CommittedRowIsRelayed(before: seq<Step>, tx: WebTx, id: RowId, rest: seq<Step>)
    requires IsRun(EMPTY, before) && tx in After(EMPTY, before).open && id in After(EMPTY, before).open[tx]
    requires IsRun(Apply(After(EMPTY, before), CommitWeb(tx)), rest)
    ensures var message := After(EMPTY, before).open[tx][id].message;
            var t := After(Apply(After(EMPTY, before), CommitWeb(tx)), rest);
            || (Pending(t.rows, id) && t.rows[id].message == message)
            || Task(id, message) in t.published
  {
    var s := After(EMPTY, before);
    RunPreserves(EMPTY, before);
    CommitWebPreserves(s, tx);
    CommittedGrows(Apply(s, CommitWeb(tx)), rest);
    assert IsRun(s, [CommitWeb(tx)] + rest);
    RunsCompose(EMPTY, before, [CommitWeb(tx)] + rest);
    assert ([CommitWeb(tx)] + rest)[1..] == rest;
    NothingLostNoGhosts(before + ([CommitWeb(tx)] + rest));
  }

  /** A row whose transaction rolled back is never stored and never published. */
  lemma AbortedRowIsNeverRelayed(before: seq<Step>, tx: WebTx, id: RowId, rest: seq<Step>)
    requires IsRun(EMPTY, before) && tx in After(EMPTY, before).open && id in After(EMPTY, before).open[tx]
    requires IsRun(Apply(After(EMPTY, before), AbortWeb(tx)), rest)
    ensures var t := After(Apply(After(EMPTY, before), AbortWeb(tx)), rest);
            id !in t.rows && forall task :: task in t.published ==> task.id != id
  {
    var s := Apply(After(EMPTY, before), AbortWeb(tx));
    RunPreserves(EMPTY, before);
    AbortWebPreserves(After(EMPTY, before), tx);
    CommittedGrows(s, rest);
    RunPreserves(s, rest);
  }

  /** How many batches of the run had sent the row when they failed. */
  ghost function FailuresSending(s: State, steps: seq<Step>, id: RowId): nat
    requires IsRun(s, steps)
    decreases |steps|
  {
    if steps == [] then 0 else
      var e := steps[0];
      (if e.Fail? && id in Ids(s.drainers[e.drainer].batch[..s.drainers[e.drainer].sent]) then 1 else 0)
      + FailuresSending(Apply(s, e), steps[1..], id)
  }

  /** How many batches of the run committed a processed mark for the row. */
  ghost function CommitsMarking(s: State, steps: seq<Step>, id: RowId): nat
    requires IsRun(s, steps)
    decreases |steps|
  {
    if steps == [] then 0 else
      var e := steps[0];
      (if e.CommitBatch? && id in s.drainers[e.drainer].marks then 1 else 0)
      + CommitsMarking(Apply(s, e), steps[1..], id)
  }

  lemma FailHistory(s: State, d: DrainerId, id: RowId)
    requires LocksInv(s.rows, s.locks, s.drainers) && Enabled(s, Fail(d))
    ensures Apply(s, Fail(d)).history.failedSends[id] == s.history.failedSends[id]
      + (if id in Ids(s.drainers[d].batch[..s.drainers[d].sent]) then 1 else 0)
  {
    var w := s.drainers[d];
    assert DrainerInv(s.rows, s.locks, d, w);
    assert Ids(w.batch[..w.sent]) == Ids(w.batch)[..w.sent];
    DistinctCount(Ids(w.batch[..w.sent]), id);
  }

  lemma LockedIsPending(s: State, id: RowId)
    requires Inv(s) && id in s.locks
    ensures Pending(s.rows, id) && id !in s.history.relayed
  {
    var w := s.drainers[s.locks[id]];
    assert DrainerInv(s.rows, s.locks, s.locks[id], w);
    var k :| 0 <= k < |w.batch| && Ids(w.batch)[k] == id;
    assert w.batch[k].id == id;
  }

  lemma CommitHistory(s: State, d: DrainerId, id: RowId)
    requires Inv(s) && Enabled(s, CommitBatch(d))
    ensures id in Apply(s, CommitBatch(d)).history.relayed <==> id in s.history.relayed || id in s.drainers[d].marks
    ensures id in s.drainers[d].marks ==> id !in s.history.relayed
  {
    HeldRows(s.rows, s.locks, s.drainers, d);
    if id in s.drainers[d].marks {
      LockedIsPending(s, id);
    }
  }

  lemma StepHistory(s: State, e: Step, id: RowId)
    requires Inv(s) && Enabled(s, e)
    ensures Apply(s, e).history.failedSends[id] == s.history.failedSends[id]
      + (if e.Fail? && id in Ids(s.drainers[e.drainer].batch[..s.drainers[e.drainer].sent]) then 1 else 0)
    ensures (if id in Apply(s, e).history.relayed then 1 else 0) == (if id in s.history.relayed then 1 else 0)
      + (if e.CommitBatch? && id in s.drainers[e.drainer].marks then 1 else 0)
  {
    match e
    case Fail(d) => FailHistory(s, d, id);
    case CommitBatch(d) => CommitHistory(s, d, id);
    case _ =>
  }

  lemma {:induction false} HistoryCounts(s: State, steps: seq<Step>, id: RowId)
    requires Inv(s) && IsRun(s, steps)
    ensures After(s, steps).history.failedSends[id] == s.history.failedSends[id] + FailuresSending(s, steps, id)
    ensures (if id in After(s, steps).history.relayed then 1 else 0)
         == (if id in s.history.relayed then 1 else 0) + CommitsMarking(s, steps, id)
    decreases |steps|
  {
    if steps != [] {
      var e := steps[0];
      var t := Apply(s, e);
      StepPreserves(s, e);
      HistoryCounts(t, steps[1..], id);
      StepHistory(s, e, id);
    }
  }

  /** Every publication of a row is accounted for by the batch that made it. */
  lemma PublicationCount(steps: seq<Step>, id: RowId)
    requires IsRun(EMPTY, steps)
    ensures var s := After(EMPTY, steps);
            && TimesPublished(s.published, id)
               == CommitsMarking(EMPTY, steps, id) + FailuresSending(EMPTY, steps, id)
                  + (if InFlight(s.locks, s.drainers, id) then 1 else 0)
            && CommitsMarking(EMPTY, steps, id) <= 1
            && (CommitsMarking(EMPTY, steps, id) == 1 ==> !InFlight(s.locks, s.drainers, id))
  {
    RunPreserves(EMPTY, steps);
    HistoryCounts(EMPTY, steps, id);
    var s := After(EMPTY, steps);
    assert Accounted(s.published, s.history, s.locks, s.drainers, id);
    if InFlight(s.locks, s.drainers, id) {
      LockedIsPending(s, id);
    }
  }

  lemma {:induction false} NoFailures(s: State, steps: seq<Step>, id: RowId)
    requires IsRun(s, steps) && forall i :: 0 <= i < |steps| ==> !steps[i].Fail?
    ensures FailuresSending(s, steps, id) == 0
    decreases |steps|
  {
    if steps != [] {
      NoFailures(Apply(s, steps[0]), steps[1..], id);
    }
  }

  /** Without failed batches no row is published twice, however many drain loops there are. */
  lemma AtMostOnceWithoutFailures(steps: seq<Step>, id: RowId)
    requires IsRun(EMPTY, steps) && forall i :: 0 <= i < |steps| ==> !steps[i].Fail?
    ensures TimesPublished(After(EMPTY, steps).published, id) <= 1
  {
    PublicationCount(steps, id);
    NoFailures(EMPTY, steps, id);
  }

  /** Batches of concurrent drain loops never share a row, and every locked row is still pending. */
  lemma BatchesAreDisjoint(steps: seq<Step>)
    requires IsRun(EMPTY, steps)
    ensures var s := After(EMPTY, steps);
            && (forall d, e, i, j |
                  && d in s.drainers && e in s.drainers && d != e
                  && 0 <= i < |s.drainers[d].batch| && 0 <= j < |s.drainers[e].batch| ::
                  s.drainers[d].batch[i].id != s.drainers[e].batch[j].id)
            && (forall id :: id in s.locks ==> Pending(s.rows, id))
  {
    RunPreserves(EMPTY, steps);
    var s := After(EMPTY, steps);
    forall d, e, i, j | d in s.drainers && e in s.drainers && d != e
      && 0 <= i < |s.drainers[d].batch| && 0 <= j < |s.drainers[e].batch|
      ensures s.drainers[d].batch[i].id != s.drainers[e].batch[j].id
    {
      assert DrainerInv(s.rows, s.locks, d, s.drainers[d]) && DrainerInv(s.rows, s.locks, e, s.drainers[e]);
    }
    forall id | id in s.locks ensures Pending(s.rows, id) {
      LockedIsPending(s, id);
    }
  }

  /** Ending a batch unlocks every row of it; a commit comes only after every row has been sent. */
  lemma BatchEnds(s: State, e: Step, d: DrainerId)
    requires Inv(s) && Enabled(s, e) && d in s.drainers && (e == CommitBatch(d) || e == Fail(d))
    ensures var t := Apply(s, e);
            && (forall id :: id in Ids(s.drainers[d].batch) ==> id !in t.locks)
            && (e == CommitBatch(d) ==> forall id :: id in Ids(s.drainers[d].batch) ==>
                  InFlight(s.locks, s.drainers, id) && id in t.history.relayed)
  {
    var w := s.drainers[d];
    assert DrainerInv(s.rows, s.locks, d, w);
    forall id | id in Ids(w.batch) ensures id in s.locks && s.locks[id] == d {
      var k :| 0 <= k < |w.batch| && Ids(w.batch)[k] == id;
      assert w.batch[k].id == id;
    }
    if e == CommitBatch(d) { HeldRows(s.rows, s.locks, s.drainers, d); }
  }

  lemma LockedRowsStay(s: State, e: Step, id: RowId)
    requires Inv(s) && Enabled(s, e) && id in s.locks
    requires e != CommitBatch(s.locks[id]) && e != Fail(s.locks[id])
    ensures var t := Apply(s, e);
            && id in t.locks && t.locks[id] == s.locks[id] && id in s.rows && id in t.rows && t.rows[id] == s.rows[id]
  {
    LockedIsPending(s, id);
    if e.CommitBatch? {
      HeldRows(s.rows, s.locks, s.drainers, e.drainer);
    } else if e.CommitWeb? {
      CommitWebRows(s, e.tx);
    }
  }

  /**
   A row stays locked by its drain loop, and unchanged, until that loop ends its whole batch; a
   commit can only come once every row of the batch has been sent, and it unlocks them all.
   */
  lemma LockHeldToBatchEnd(steps: seq<Step>, e: Step, id: RowId)
    requires IsRun(EMPTY, steps) && Enabled(After(EMPTY, steps), e) && id in After(EMPTY, steps).locks
    ensures var s := After(EMPTY, steps); var t := Apply(s, e); var d := s.locks[id];
            if d in s.drainers && (e == CommitBatch(d) || e == Fail(d)) then
              && (forall other :: other in Ids(s.drainers[d].batch) ==> other !in t.locks)
              && (e == CommitBatch(d) ==> forall other :: other in Ids(s.drainers[d].batch) ==>
                    InFlight(s.locks, s.drainers, other) && other in t.history.relayed)
            else
              id in t.locks && t.locks[id] == d && id in s.rows && id in t.rows && t.rows[id] == s.rows[id]
  {
    var s := After(EMPTY, steps);
    RunPreserves(EMPTY, steps);
    var d := s.locks[id];
    if e == CommitBatch(d) || e == Fail(d) {
      BatchEnds(s, e, d);
    } else {
      LockedRowsStay(s, e, id);
    }
  }
}
