/** Offset pagination over a tie-broken order, and the total that every page reports. */
module Pagination {
  import opened Common
  import opened Facts

  type RowId = nat

  const MAX_INT32: nat := 0x7fff_ffff

  datatype Order = Asc | Desc

  datatype PaginationError = LimitTooSmall | LimitTooLarge | OffsetTooSmall | OffsetTooLarge

  datatype Params = Params(limit: nat, offset: nat)

  function MakeParams(limit: int, offset: int): Result<Params, PaginationError>
  {
    if limit < 1 then Err(LimitTooSmall)
    else if limit > MAX_INT32 then Err(LimitTooLarge)
    else if offset < 0 then Err(OffsetTooSmall)
    else if offset > MAX_INT32 then Err(OffsetTooLarge)
    else Ok(Params(limit, offset))
  }

  /** The bounds, and which is reported when several are broken. */
  lemma ParamsAccepted(limit: int, offset: int)
    ensures MakeParams(limit, offset).Ok? <==> 1 <= limit <= 2147483647 && 0 <= offset <= 2147483647
    ensures MakeParams(limit, offset).Ok? ==>
              MakeParams(limit, offset).value.limit == limit && MakeParams(limit, offset).value.offset == offset
    ensures MakeParams(limit, offset).Err? ==>
              MakeParams(limit, offset).error == (
                if limit < 1 then LimitTooSmall else if limit > 2147483647 then LimitTooLarge
                else if offset < 0 then OffsetTooSmall else OffsetTooLarge)
  {
  }

  // ----- The order: by the sorting column, then by id, both in the same direction

  /** The values of the sorting column; only their order matters. */
  type Column = map<RowId, int>

  predicate Before(column: Column, order: Order, a: RowId, b: RowId)
    requires a in column && b in column
  {
    match order
    case Asc => column[a] < column[b] || (column[a] == column[b] && a < b)
    case Desc => column[a] > column[b] || (column[a] == column[b] && a > b)
  }

  /** The sequence holds exactly these rows, in order. */
  ghost predicate IsListing(column: Column, order: Order, ids: set<RowId>, listing: seq<RowId>)
    requires ids <= column.Keys
  {
    && (forall id :: id in listing <==> id in ids)
    && (forall i, j :: 0 <= i < j < |listing| ==> Before(column, order, listing[i], listing[j]))
  }

  lemma {:induction false} FindFirst(column: Column, order: Order, ids: set<RowId>) returns (first: RowId)
    requires ids <= column.Keys && ids != {}
    ensures first in ids && forall other :: other in ids && other != first ==> Before(column, order, first, other)
    decreases |ids|
  {
    var a :| a in ids;
    if ids == {a} {
      first := a;
    } else {
      var b := FindFirst(column, order, ids - {a});
      first := if Before(column, order, a, b) then a else b;
      forall other | other in ids && other != first ensures Before(column, order, first, other) {
        assert other != a && other != b ==> other in ids - {a} && Before(column, order, b, other);
      }
    }
  }

  /** Ascending means that values do not fall, and ids rise where values are equal; descending the opposite. */
  lemma ListingIsSorted(column: Column, order: Order, ids: set<RowId>, s: seq<RowId>, i: nat, j: nat)
    requires ids <= column.Keys && IsListing(column, order, ids, s) && i < j < |s|
    ensures s[i] in ids && s[j] in ids
    ensures order == Asc ==> column[s[i]] <= column[s[j]] && (column[s[i]] == column[s[j]] ==> s[i] < s[j])
    ensures order == Desc ==> column[s[i]] >= column[s[j]] && (column[s[i]] == column[s[j]] ==> s[i] > s[j])
  {
    assert Before(column, order, s[i], s[j]);
    assert s[i] in s && s[j] in s;
  }

  /** Every set of rows has a listing ... */
  lemma {:induction false} ListingExists(column: Column, order: Order, ids: set<RowId>) returns (listing: seq<RowId>)
    requires ids <= column.Keys
    ensures IsListing(column, order, ids, listing)
    decreases |ids|
  {
    if ids == {} {
      listing := [];
    } else {
      var first := FindFirst(column, order, ids);
      var rest := ListingExists(column, order, ids - {first});
      listing := [first] + rest;
      forall i | 0 <= i < |rest| ensures Before(column, order, first, rest[i]) {
        assert rest[i] in ids - {first};
      }
    }
  }

  lemma TailIsListing(column: Column, order: Order, ids: set<RowId>, s: seq<RowId>)
    requires ids <= column.Keys && s != [] && IsListing(column, order, ids, s)
    ensures s[0] in ids && IsListing(column, order, ids - {s[0]}, s[1..])
  {
    assert s[0] in s;
    forall id ensures id in s[1..] <==> id in ids - {s[0]} {
      if id in s[1..] {
        var k :| 0 <= k < |s[1..]| && s[1..][k] == id;
        assert s[k + 1] == id && Before(column, order, s[0], s[k + 1]);
      }
      if id in ids - {s[0]} {
        assert id in s;
        var k :| 0 <= k < |s| && s[k] == id;
        assert s[1..][k - 1] == id;
      }
    }
  }

  /** ... and only one: ties never leave the order open. */
  lemma {:induction false} ListingIsUnique(column: Column, order: Order, ids: set<RowId>, s: seq<RowId>, t: seq<RowId>)
    requires ids <= column.Keys && IsListing(column, order, ids, s) && IsListing(column, order, ids, t)
    ensures s == t
    decreases |s|
  {
    HeadIsMember(t);
    if s != [] {
      assert s[0] in s && s[0] in t;
      var i :| 0 <= i < |t| && t[i] == s[0];
      assert t[0] in s;
      var j :| 0 <= j < |s| && s[j] == t[0];
      assert i == 0 && j == 0;
      TailIsListing(column, order, ids, s);
      TailIsListing(column, order, ids, t);
      ListingIsUnique(column, order, ids - {s[0]}, s[1..], t[1..]);
      assert s == [s[0]] + s[1..] && t == [t[0]] + t[1..];
    }
  }

  function Reverse(s: seq<RowId>): (r: seq<RowId>)
    ensures |r| == |s| && forall i :: 0 <= i < |s| ==> r[i] == s[|s| - 1 - i]
  {
    seq(|s|, i requires 0 <= i < |s| => s[|s| - 1 - i])
  }

  /** Descending is ascending backwards, ties included. */
  lemma DescendingIsReversed(column: Column, ids: set<RowId>, up: seq<RowId>, down: seq<RowId>)
    requires ids <= column.Keys && IsListing(column, Asc, ids, up) && IsListing(column, Desc, ids, down)
    ensures down == Reverse(up)
  {
    var r := Reverse(up);
    forall id ensures id in r <==> id in ids {
      if id in ids {
        assert id in up;
        var k :| 0 <= k < |up| && up[k] == id;
        assert r[|up| - 1 - k] == id;
      }
      if id in r {
        var k :| 0 <= k < |r| && r[k] == id;
        assert id == up[|up| - 1 - k];
      }
    }
    assert IsListing(column, Desc, ids, r);
    ListingIsUnique(column, Desc, ids, r, down);
  }

  lemma {:induction false} ListingSize(column: Column, order: Order, ids: set<RowId>, s: seq<RowId>)
    requires ids <= column.Keys && IsListing(column, order, ids, s)
    ensures |s| == |ids|
    decreases |s|
  {
    if s == [] {
      assert forall id :: id in ids ==> id in s;
    } else {
      TailIsListing(column, order, ids, s);
      ListingSize(column, order, ids - {s[0]}, s[1..]);
    }
  }

  // ----- Pages

  /** LIMIT and OFFSET applied to the full listing. */
  function Page(full: seq<RowId>, p: Params): (rows: seq<RowId>)
  {
    var from := if p.offset < |full| then p.offset else |full|;
    var to := if from + p.limit < |full| then from + p.limit else |full|;
    full[from..to]
  }

  /** The k-th row of a page is the k-th after the offset, and a page is as long as the limit and the rest allow. */
  lemma PageRows(full: seq<RowId>, p: Params, k: nat)
    ensures |Page(full, p)| <= p.limit
    ensures k < |Page(full, p)| <==> k < p.limit && p.offset + k < |full|
    ensures k < |Page(full, p)| ==> Page(full, p)[k] == full[p.offset + k]
  {
  }

  /** A page and its total: the window count of its rows, or the fallback count when it has none. */
  function FetchPage(full: seq<RowId>, fallback: nat, p: Params): (seq<RowId>, nat)
  {
    var rows := Page(full, p);
    if rows != [] then (rows, |full|) else (rows, fallback)
  }

  /** Ask for page after page of the same size until one is not full. */
  function Walk(full: seq<RowId>, limit: int, offset: int): Result<seq<RowId>, PaginationError>
    decreases |full| - offset
  {
    var p :- MakeParams(limit, offset);
    var rows := Page(full, p);
    if |rows| < limit then Ok(rows)
    else
      var rest :- Walk(full, limit, offset + limit);
      Ok(rows + rest)
  }

  /** The offset of the first page that is not full, counted from here. */
  function LastOffset(left: nat, limit: nat): nat
    requires limit > 0
  {
    if left < limit then 0 else limit + LastOffset(left - limit, limit)
  }

  lemma DropOneMultiple(n: int, d: int)
    requires n >= d > 0
    ensures (n - d) % d == n % d
  {
    var q, r := n / d, n % d;
    assert n - d == (q - 1) * d + r;
    RemainderIs(n - d, d, q - 1, r);
  }

  lemma OneLess(n: int, d: int)
    requires n >= d > 0
    ensures d + (n - d) / d * d == n / d * d
  {
    assert (n - d) % d == n % d by { DropOneMultiple(n, d); }
    assert n == n / d * d + n % d;
    assert n - d == (n - d) / d * d + (n - d) % d;
  }

  lemma {:induction false} LastOffsetIs(left: nat, limit: nat)
    requires limit > 0
    ensures LastOffset(left, limit) == left / limit * limit
    decreases left
  {
    if left >= limit {
      LastOffsetIs(left - limit, limit);
      OneLess(left, limit);
    } else {
      assert left / limit == 0;
    }
  }

  lemma {:induction false} WalkFrom(full: seq<RowId>, limit: int, offset: int)
    requires 1 <= limit <= MAX_INT32 && 0 <= offset <= |full|
    ensures Walk(full, limit, offset) ==
              if offset + LastOffset(|full| - offset, limit) <= MAX_INT32 then Ok(full[offset..])
              else Err(OffsetTooLarge)
    decreases |full| - offset
  {
    if offset <= MAX_INT32 {
      var rows := Page(full, Params(limit, offset));
      if |full| - offset < limit {
        assert rows == full[offset..];
      } else {
        assert rows == full[offset..offset + limit];
        WalkFrom(full, limit, offset + limit);
        assert full[offset..] == rows + full[offset + limit..];
      }
    }
  }

  /**
   Pages of any limit, taken until one is not full, put together give the full listing, no row
   skipped or repeated -- exactly when the offset of that last page, which may be an empty one,
   still fits the 32-bit bound.
   */
  lemma PagesConcatenate(full: seq<RowId>, limit: int)
    requires 1 <= limit <= MAX_INT32
    ensures Walk(full, limit, 0) == Ok(full) <==> |full| / limit * limit <= MAX_INT32
    ensures |full| <= MAX_INT32 ==> Walk(full, limit, 0) == Ok(full)
  {
    WalkFrom(full, limit, 0);
    LastOffsetIs(|full|, limit);
    assert full[0..] == full;
    assert |full| == |full| / limit * limit + |full| % limit;
  }

  /** Ask for page after page of the same size until the reported total is reached. */
  function WalkByTotal(full: seq<RowId>, limit: int, offset: int): Result<seq<RowId>, PaginationError>
    decreases |full| - offset
  {
    var p :- MakeParams(limit, offset);
    var (rows, total) := FetchPage(full, |full|, p);
    if offset + limit >= total then Ok(rows)
    else
      var rest :- WalkByTotal(full, limit, offset + limit);
      Ok(rows + rest)
  }

  lemma {:induction false} WalkByTotalFrom(full: seq<RowId>, limit: int, offset: int)
    requires 1 <= limit <= MAX_INT32 && 0 <= offset < |full|
    ensures WalkByTotal(full, limit, offset) ==
              if offset + LastOffset(|full| - 1 - offset, limit) <= MAX_INT32 then Ok(full[offset..])
              else Err(OffsetTooLarge)
    decreases |full| - offset
  {
    if offset <= MAX_INT32 {
      var rows := Page(full, Params(limit, offset));
      if offset + limit >= |full| {
        assert rows == full[offset..];
      } else {
        assert rows == full[offset..offset + limit];
        WalkByTotalFrom(full, limit, offset + limit);
        assert full[offset..] == rows + full[offset + limit..];
      }
    }
  }

  /** Guided by the total, the walk reads no empty page at the end: the last row's own page has to fit the bound. */
  lemma PagesByTotalConcatenate(full: seq<RowId>, limit: int)
    requires 1 <= limit <= MAX_INT32
    ensures WalkByTotal(full, limit, 0) == Ok(full) <==>
              full == [] || (|full| - 1) / limit * limit <= MAX_INT32
  {
    if full != [] {
      WalkByTotalFrom(full, limit, 0);
      LastOffsetIs(|full| - 1, limit);
      assert full[0..] == full;
    }
  }

  /** Every page of a listing reports the same total exactly when the fallback counts its rows. */
  lemma TotalsAgreeIff(full: seq<RowId>, fallback: nat)
    ensures (forall p: Params :: FetchPage(full, fallback, p).1 == |full|) <==> fallback == |full|
  {
    var past := Params(1, |full|);
    assert Page(full, past) == [];
    if forall p: Params :: FetchPage(full, fallback, p).1 == |full| {
      assert FetchPage(full, fallback, past).1 == |full|;
    }
  }
}
