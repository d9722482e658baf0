/** The select of pending rows: there is always a batch to take. */
module OutboxSelect {
  import opened OutboxProtocol
  import opened OutboxDrain

  predicate Older(rows: map<RowId, Row>, a: RowId, b: RowId)
    requires a in rows && b in rows
  {
    rows[a].createdAt < rows[b].createdAt || (rows[a].createdAt == rows[b].createdAt && a <= b)
  }

  lemma {:induction false} FindOldest(rows: map<RowId, Row>, ids: set<RowId>) returns (oldest: RowId)
    requires ids != {} && ids <= rows.Keys
    ensures oldest in ids && forall other :: other in ids ==> Older(rows, oldest, other)
    decreases |ids|
  {
    var a :| a in ids;
    if ids == {a} {
      oldest := a;
    } else {
      var b := FindOldest(rows, ids - {a});
      oldest := if Older(rows, a, b) then a else b;
      forall other | other in ids ensures Older(rows, oldest, other) {
        assert other != a ==> other in ids - {a} && Older(rows, b, other);
      }
    }
  }

  lemma OldestExists(rows: map<RowId, Row>, ids: set<RowId>)
    requires ids != {} && ids <= rows.Keys
    ensures exists id :: id in ids && forall other :: other in ids ==> Older(rows, id, other)
  {
    var oldest := FindOldest(rows, ids);
  }

  function Oldest(rows: map<RowId, Row>, ids: set<RowId>): (id: RowId)
    requires ids != {} && ids <= rows.Keys
    ensures id in ids && forall other :: other in ids ==> Older(rows, id, other)
  {
    OldestExists(rows, ids);
    var id :| id in ids && forall other :: other in ids ==> Older(rows, id, other);
    id
  }

  /** The n oldest rows among ids, or all of them. */
  function OldestFirst(rows: map<RowId, Row>, ids: set<RowId>, n: nat): (batch: seq<Task>)
    requires ids <= rows.Keys
    decreases n
  {
    if n == 0 || ids == {} then [] else
      var id := Oldest(rows, ids);
      [Task(id, rows[id].message)] + OldestFirst(rows, ids - {id}, n - 1)
  }

  function AvailableIds(rows: map<RowId, Row>, locks: map<RowId, DrainerId>): (ids: set<RowId>)
    ensures ids <= rows.Keys
  {
    set id | id in rows && Available(rows, locks, id)
  }

  /** The n oldest rows of ids, in order. */
  ghost predicate OldestOf(rows: map<RowId, Row>, ids: set<RowId>, n: nat, batch: seq<Task>)
    requires ids <= rows.Keys
  {
    && |batch| <= n && Distinct(Ids(batch))
    && (forall i :: 0 <= i < |batch| ==> batch[i].id in ids && batch[i].message == rows[batch[i].id].message)
    && (forall i, j :: 0 <= i < j < |batch| ==> rows[batch[i].id].createdAt <= rows[batch[j].id].createdAt)
    && (forall id :: id in ids && id !in Ids(batch) ==>
          |batch| == n && forall i :: 0 <= i < |batch| ==> rows[batch[i].id].createdAt <= rows[id].createdAt)
  }

  lemma OldestOfCons(rows: map<RowId, Row>, ids: set<RowId>, n: nat, first: RowId, rest: seq<Task>)
    requires ids <= rows.Keys && first in ids && n > 0 && OldestOf(rows, ids - {first}, n - 1, rest)
    requires forall other :: other in ids ==> Older(rows, first, other)
    ensures OldestOf(rows, ids, n, [Task(first, rows[first].message)] + rest)
  {
    var batch := [Task(first, rows[first].message)] + rest;
    assert Ids(batch) == [first] + Ids(rest);
    forall i | 0 <= i < |rest| ensures Ids(rest)[i] != first && Older(rows, first, rest[i].id) {
      assert rest[i].id in ids - {first};
    }
    forall id | id in ids && id !in Ids(batch)
      ensures |batch| == n && forall i :: 0 <= i < |batch| ==> rows[batch[i].id].createdAt <= rows[id].createdAt
    {
      assert Ids(batch)[0] == first;
      assert id in ids - {first} && id !in Ids(rest);
      assert Older(rows, first, id);
    }
  }

  lemma {:induction false} OldestFirstSorted(rows: map<RowId, Row>, ids: set<RowId>, n: nat)
    requires ids <= rows.Keys
    ensures OldestOf(rows, ids, n, OldestFirst(rows, ids, n))
    decreases n
  {
    if n != 0 && ids != {} {
      var first := Oldest(rows, ids);
      OldestFirstSorted(rows, ids - {first}, n - 1);
      OldestOfCons(rows, ids, n, first, OldestFirst(rows, ids - {first}, n - 1));
    }
  }

  /** An idle drain loop can always take a batch. */
  lemma BatchExists(rows: map<RowId, Row>, locks: map<RowId, DrainerId>)
    ensures IsBatch(rows, locks, OldestFirst(rows, AvailableIds(rows, locks), DRAIN_BATCH_SIZE))
  {
    OldestFirstSorted(rows, AvailableIds(rows, locks), DRAIN_BATCH_SIZE);
  }

  /** A quiet table can be drained for any number of ticks. */
  lemma {:induction false} DrainExists(s: State, retain: bool, n: nat) returns (ticks: seq<Tick>)
    requires Quiet(s)
    ensures |ticks| == n && Timed(ticks) && IsDrain(s, ticks)
    decreases n
  {
    if n == 0 {
      ticks := [];
    } else {
      BatchExists(s.rows, s.locks);
      var batch := OldestFirst(s.rows, AvailableIds(s.rows, s.locks), DRAIN_BATCH_SIZE);
      var tick := Tick(batch, seq(|batch|, _ => 0), retain);
      var rest := DrainExists(TickEnd(s, tick), retain, n - 1);
      ticks := [tick] + rest;
      assert ticks[1..] == rest;
    }
  }
}
