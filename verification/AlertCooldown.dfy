/** The alert rate limiter: one table of last-sent times, checked against the full history of calls. */
module AlertCooldown {
  import opened Spacing

  /** A call of should_send and the clock reading it made, in seconds. */
  datatype Call = Call(kind: string, at: real)

  predicate Decides(cooldown: real, lastSentAt: map<string, real>, call: Call)
  {
    call.kind !in lastSentAt || call.at - lastSentAt[call.kind] >= cooldown
  }

  /** The table after a sequence of calls. */
  function Table(cooldown: real, calls: seq<Call>): map<string, real>
    decreases |calls|
  {
    if calls == [] then map[] else
      var n := |calls| - 1;
      var before := Table(cooldown, calls[..n]);
      if Decides(cooldown, before, calls[n]) then before[calls[n].kind := calls[n].at] else before
  }

  /** Whether call number k was let through. */
  predicate IsSent(cooldown: real, calls: seq<Call>, k: nat)
    requires k < |calls|
  {
    Decides(cooldown, Table(cooldown, calls[..k]), calls[k])
  }

  predicate NonDecreasing(calls: seq<Call>)
  {
    forall i, j :: 0 <= i < j < |calls| ==> calls[i].at <= calls[j].at
  }

  predicate SentAs(cooldown: real, calls: seq<Call>, kind: string, k: int)
  {
    0 <= k < |calls| && calls[k].kind == kind && IsSent(cooldown, calls, k)
  }

  lemma SentEarlier(cooldown: real, calls: seq<Call>, n: nat, kind: string)
    requires n <= |calls|
    ensures forall k :: SentAs(cooldown, calls[..n], kind, k) <==> k < n && SentAs(cooldown, calls, kind, k)
  {
    forall k | 0 <= k < n ensures IsSent(cooldown, calls[..n], k) == IsSent(cooldown, calls, k) {
      assert calls[..n][..k] == calls[..k];
    }
  }

  /** The table holds, for every type ever sent and for no other, the time of its latest send. */
  lemma {:induction false} TableIsLatestSend(cooldown: real, calls: seq<Call>, kind: string)
    requires NonDecreasing(calls)
    ensures kind in Table(cooldown, calls) <==> exists k :: SentAs(cooldown, calls, kind, k)
    ensures kind in Table(cooldown, calls) ==>
              exists k :: SentAs(cooldown, calls, kind, k) && Table(cooldown, calls)[kind] == calls[k].at
    ensures forall k :: SentAs(cooldown, calls, kind, k) ==>
              kind in Table(cooldown, calls) && calls[k].at <= Table(cooldown, calls)[kind]
    decreases |calls|
  {
    if calls != [] {
      var n := |calls| - 1;
      TableIsLatestSend(cooldown, calls[..n], kind);
      SentEarlier(cooldown, calls, n, kind);
      if SentAs(cooldown, calls, kind, n) {
        assert Table(cooldown, calls)[kind] == calls[n].at;
      } else {
        assert forall k :: SentAs(cooldown, calls, kind, k) ==> SentAs(cooldown, calls[..n], kind, k);
        assert kind in Table(cooldown, calls) <==> kind in Table(cooldown, calls[..n]);
      }
    }
  }

  /** A call is suppressed exactly when the same type was sent less than one cooldown ago. */
  lemma SuppressedIff(cooldown: real, calls: seq<Call>, n: nat)
    requires NonDecreasing(calls) && n < |calls|
    ensures !IsSent(cooldown, calls, n) <==>
              exists k :: k < n && SentAs(cooldown, calls, calls[n].kind, k) && calls[n].at - calls[k].at < cooldown
  {
    TableIsLatestSend(cooldown, calls[..n], calls[n].kind);
    SentEarlier(cooldown, calls, n, calls[n].kind);
  }

  // ----- The sends of one type

  function Sends(cooldown: real, calls: seq<Call>, kind: string): seq<real>
    decreases |calls|
  {
    if calls == [] then [] else
      var n := |calls| - 1;
      var before := Sends(cooldown, calls[..n], kind);
      if calls[n].kind == kind && IsSent(cooldown, calls, n) then before + [calls[n].at] else before
  }

  lemma {:induction false} TableIsEndOfSends(cooldown: real, calls: seq<Call>, kind: string)
    ensures var sends := Sends(cooldown, calls, kind);
            if sends == [] then kind !in Table(cooldown, calls)
            else kind in Table(cooldown, calls) && Table(cooldown, calls)[kind] == sends[|sends| - 1]
    decreases |calls|
  {
    if calls != [] {
      TableIsEndOfSends(cooldown, calls[..|calls| - 1], kind);
    }
  }

  lemma {:induction false} SendsAreSpaced(cooldown: real, calls: seq<Call>, kind: string)
    ensures Spaced(Sends(cooldown, calls, kind), cooldown)
    decreases |calls|
  {
    if calls != [] {
      var n := |calls| - 1;
      SendsAreSpaced(cooldown, calls[..n], kind);
      TableIsEndOfSends(cooldown, calls[..n], kind);
    }
  }

  /** Any window of length w holds at most w / cooldown + 1 sends of one type. */
  lemma SendsInWindow(cooldown: real, calls: seq<Call>, kind: string, i: nat, j: nat, w: real)
    requires cooldown > 0.0 && i < j <= |Sends(cooldown, calls, kind)|
    requires Sends(cooldown, calls, kind)[j - 1] - Sends(cooldown, calls, kind)[i] <= w
    ensures (j - i) as real <= w / cooldown + 1.0
  {
    SendsAreSpaced(cooldown, calls, kind);
    WindowBound(Sends(cooldown, calls, kind), cooldown, i, j, w);
  }

  /** The calls about one type. */
  function Only(calls: seq<Call>, kind: string): seq<Call>
    decreases |calls|
  {
    if calls == [] then [] else
      var n := |calls| - 1;
      Only(calls[..n], kind) + if calls[n].kind == kind then [calls[n]] else []
  }

  /** Calls about other types change nothing: the same sends happen without them. */
  lemma {:induction false} OtherTypesDoNotMatter(cooldown: real, calls: seq<Call>, kind: string)
    ensures Sends(cooldown, calls, kind) == Sends(cooldown, Only(calls, kind), kind)
    decreases |calls|
  {
    if calls != [] {
      var n := |calls| - 1;
      var few := Only(calls[..n], kind);
      OtherTypesDoNotMatter(cooldown, calls[..n], kind);
      TableIsEndOfSends(cooldown, calls[..n], kind);
      TableIsEndOfSends(cooldown, few, kind);
      assert (few + [calls[n]])[..|few|] == few && few + [] == few;
    }
  }

  // ----- The limiter itself

  /** A clock that only moves forward. */
  class MonotonicClock {
    var now: real

    method Read(elapsed: real) returns (reading: real)
      requires elapsed >= 0.0
      modifies this
      ensures now == reading == old(now) + elapsed
    {
      now := now + elapsed;
      reading := now;
    }
  }

  /** The type was sent less than one cooldown before now. */
  ghost predicate SentWithinCooldown(cooldown: real, calls: seq<Call>, kind: string, now: real)
  {
    exists k :: SentAs(cooldown, calls, kind, k) && now - calls[k].at < cooldown
  }

  ghost predicate IsHistory(calls: seq<Call>, now: real)
  {
    NonDecreasing(calls) && forall i :: 0 <= i < |calls| ==> calls[i].at <= now
  }

  lemma OneMoreCall(cooldown: real, before: seq<Call>, kind: string, now: real)
    requires IsHistory(before, now)
    ensures var call := Call(kind, now);
            && IsHistory(before + [call], now)
            && Table(cooldown, before + [call]) ==
                 (if Decides(cooldown, Table(cooldown, before), call) then Table(cooldown, before)[kind := now]
                  else Table(cooldown, before))
            && (!Decides(cooldown, Table(cooldown, before), call) <==>
                  SentWithinCooldown(cooldown, before, kind, now))
  {
    assert (before + [Call(kind, now)])[..|before|] == before;
    TableIsLatestSend(cooldown, before, kind);
  }

  class AlertCooldown {
    const cooldown: real
    const clock: MonotonicClock
    var lastSentAt: map<string, real>
    ghost var calls: seq<Call>

    constructor (cooldown: real, clock: MonotonicClock)
      ensures this.cooldown == cooldown && this.clock == clock && calls == [] && Valid()
    {
      this.cooldown, this.clock := cooldown, clock;
      lastSentAt, calls := map[], [];
    }

    ghost predicate Valid()
      reads this, clock
    {
      IsHistory(calls, clock.now) && lastSentAt == Table(cooldown, calls)
    }

    /** Answers by the whole history of calls, though it looks only at the table. */
    method ShouldSend(kind: string, elapsed: real) returns (send: bool)
      requires Valid() && elapsed >= 0.0
      modifies this, clock
      ensures Valid() && clock.now == old(clock.now) + elapsed && calls == old(calls) + [Call(kind, clock.now)]
      ensures !send <==> SentWithinCooldown(cooldown, old(calls), kind, clock.now)
      ensures lastSentAt == if send then old(lastSentAt)[kind := clock.now] else old(lastSentAt)
    {
      var now := clock.Read(elapsed);
      ghost var before := calls;
      calls := before + [Call(kind, now)];
      OneMoreCall(cooldown, before, kind, now);
      if kind in lastSentAt && now - lastSentAt[kind] < cooldown {
        return false;
      }
      lastSentAt := lastSentAt[kind := now];
      send := true;
    }
  }
}
