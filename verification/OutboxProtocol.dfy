/**
 The transactional outbox and its concurrent relay, as a state machine.

 A web transaction stages rows and commits or aborts them as a whole.  Any number of
 drain loops run side by side: each takes (and locks) a batch of pending rows, sends
 and marks them one at a time, and commits the whole batch once.  It may fail between
 any two of these steps, which rolls its session back and releases its locks.
 */
module OutboxProtocol {
  import opened Common

  type RowId = nat
  type WebTx = nat
  type DrainerId = nat

  const DRAIN_BATCH_SIZE: nat := 100

  /** What a handler needs to run: the columns that are relayed to the broker. */
  datatype Message = Message(eventType: string, handlerType: string, payload: string)

  datatype Row = Row(message: Message, createdAt: int, processedAt: Option<int>)

  /** A published broker task; also a row as a drain loop has loaded it. */
  datatype Task = Task(id: RowId, message: Message)

  /** The session of one drain loop in the middle of a tick. */
  datatype Drainer = Drainer(retain: bool, batch: seq<Task>, sent: nat, marked: nat, marks: map<RowId, int>)

  /** History variables: no guard reads them. */
  datatype History = History(
    committed: map<RowId, Message>,  // every row some web transaction committed
    aborted: set<RowId>,             // every row some web transaction rolled back
    relayed: set<RowId>,             // rows whose processed mark was committed
    failedSends: multiset<RowId>)    // one occurrence per failed batch that had sent the row

  datatype State = State(
    rows: map<RowId, Row>,
    open: map<WebTx, map<RowId, Row>>,
    locks: map<RowId, DrainerId>,
    drainers: map<DrainerId, Drainer>,
    published: seq<Task>,
    issued: set<RowId>,
    history: History)

  const EMPTY: State := State(map[], map[], map[], map[], [], {}, History(map[], {}, {}, multiset{}))

  datatype Step =
    | Stage(tx: WebTx, id: RowId, message: Message, now: int)
    | CommitWeb(tx: WebTx)
    | AbortWeb(tx: WebTx)
    | Take(drainer: DrainerId, batch: seq<Task>, retain: bool)
    | Send(drainer: DrainerId)
    | Mark(drainer: DrainerId, now: int)
    | CommitBatch(drainer: DrainerId)
    | Fail(drainer: DrainerId)

  function Ids(tasks: seq<Task>): (ids: seq<RowId>)
    ensures |ids| == |tasks|
    ensures forall i :: 0 <= i < |tasks| ==> ids[i] == tasks[i].id
  {
    seq(|tasks|, i requires 0 <= i < |tasks| => tasks[i].id)
  }

  predicate Distinct(ids: seq<RowId>)
  {
    forall i, j :: 0 <= i < j < |ids| ==> ids[i] != ids[j]
  }

  predicate Pending(rows: map<RowId, Row>, id: RowId)
  {
    id in rows && rows[id].processedAt.None?
  }

  predicate Available(rows: map<RowId, Row>, locks: map<RowId, DrainerId>, id: RowId)
  {
    Pending(rows, id) && id !in locks
  }

  /**
   What the locking select may return: distinct pending rows nobody has locked, oldest
   first, at most DRAIN_BATCH_SIZE, and none left out unless the batch is full of rows
   at least as old.  Rows created at the same instant may come in any order.
   */
  ghost predicate IsBatch(rows: map<RowId, Row>, locks: map<RowId, DrainerId>, batch: seq<Task>)
  {
    && |batch| <= DRAIN_BATCH_SIZE
    && Distinct(Ids(batch))
    && (forall i :: 0 <= i < |batch| ==>
          Available(rows, locks, batch[i].id) && batch[i].message == rows[batch[i].id].message)
    && (forall i, j :: 0 <= i < j < |batch| ==> rows[batch[i].id].createdAt <= rows[batch[j].id].createdAt)
    && (forall id :: Available(rows, locks, id) && id !in Ids(batch) ==>
          |batch| == DRAIN_BATCH_SIZE
          && forall i :: 0 <= i < |batch| ==> rows[batch[i].id].createdAt <= rows[id].createdAt)
  }

  ghost predicate Enabled(s: State, e: Step)
  {
    match e
    case Stage(tx, id, message, now) => id !in s.issued
    case CommitWeb(tx) => tx in s.open
    case AbortWeb(tx) => tx in s.open
    case Take(d, batch, retain) => d !in s.drainers && IsBatch(s.rows, s.locks, batch)
    case Send(d) => d in s.drainers && s.drainers[d].sent == s.drainers[d].marked < |s.drainers[d].batch|
    case Mark(d, now) => d in s.drainers && s.drainers[d].sent == s.drainers[d].marked + 1 <= |s.drainers[d].batch|
    case CommitBatch(d) => d in s.drainers && s.drainers[d].marked == |s.drainers[d].batch|
    case Fail(d) => d in s.drainers && s.drainers[d].sent <= |s.drainers[d].batch|
  }

  function Messages(rows: map<RowId, Row>): map<RowId, Message>
  {
    map id | id in rows :: rows[id].message
  }

  /** The rows after a batch commits: marked when they are retained, gone otherwise. */
  function CommitMarks(rows: map<RowId, Row>, marks: map<RowId, int>, retain: bool): map<RowId, Row>
  {
    if retain then
      map id | id in rows :: if id in marks then rows[id].(processedAt := Some(marks[id])) else rows[id]
    else
      rows - marks.Keys
  }

  function Unlock(locks: map<RowId, DrainerId>, d: DrainerId): map<RowId, DrainerId>
  {
    map id | id in locks && locks[id] != d :: locks[id]
  }

  function Lock(locks: map<RowId, DrainerId>, batch: seq<Task>, d: DrainerId): map<RowId, DrainerId>
  {
    locks + map id | id in Ids(batch) :: d
  }

  ghost function Apply(s: State, e: Step): State
    requires Enabled(s, e)
  {
    match e
    case Stage(tx, id, message, now) =>
      var staged := if tx in s.open then s.open[tx] else map[];
      s.(open := s.open[tx := staged[id := Row(message, now, None)]], issued := s.issued + {id})
    case CommitWeb(tx) =>
      s.(rows := s.rows + s.open[tx], open := s.open - {tx},
         history := s.history.(committed := s.history.committed + Messages(s.open[tx])))
    case AbortWeb(tx) =>
      s.(open := s.open - {tx}, history := s.history.(aborted := s.history.aborted + s.open[tx].Keys))
    case Take(d, batch, retain) =>
      if batch == [] then s
      else s.(locks := Lock(s.locks, batch, d), drainers := s.drainers[d := Drainer(retain, batch, 0, 0, map[])])
    case Send(d) =>
      var w := s.drainers[d];
      s.(published := s.published + [w.batch[w.sent]], drainers := s.drainers[d := w.(sent := w.sent + 1)])
    case Mark(d, now) =>
      var w := s.drainers[d];
      s.(drainers := s.drainers[d := w.(marked := w.marked + 1, marks := w.marks[w.batch[w.marked].id := now])])
    case CommitBatch(d) =>
      var w := s.drainers[d];
      s.(rows := CommitMarks(s.rows, w.marks, w.retain), locks := Unlock(s.locks, d), drainers := s.drainers - {d},
         history := s.history.(relayed := s.history.relayed + w.marks.Keys))
    case Fail(d) =>
      var w := s.drainers[d];
      s.(locks := Unlock(s.locks, d), drainers := s.drainers - {d},
         history := s.history.(failedSends := s.history.failedSends + multiset(Ids(w.batch[..w.sent]))))
  }

  ghost predicate IsRun(s: State, steps: seq<Step>)
    decreases |steps|
  {
    steps == [] || (Enabled(s, steps[0]) && IsRun(Apply(s, steps[0]), steps[1..]))
  }

  ghost function After(s: State, steps: seq<Step>): State
    requires IsRun(s, steps)
    decreases |steps|
  {
    if steps == [] then s else After(Apply(s, steps[0]), steps[1..])
  }

  /** A run followed by a run from where it ended is a run. */
  lemma {:induction false} RunsCompose(s: State, first: seq<Step>, second: seq<Step>)
    requires IsRun(s, first) && IsRun(After(s, first), second)
    ensures IsRun(s, first + second) && After(s, first + second) == After(After(s, first), second)
    decreases |first|
  {
    if first == [] {
      assert first + second == second;
    } else {
      assert (first + second)[0] == first[0] && (first + second)[1..] == first[1..] + second;
      RunsCompose(Apply(s, first[0]), first[1..], second);
    }
  }
}
