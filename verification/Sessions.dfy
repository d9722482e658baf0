/**
 Sliding-window sessions: issue, authenticate and maybe refresh, log out, revoke all.

 Times are microseconds.  The code reads the clock separately to check the token, to check
 the session's expiry, to decide on a refresh, and to compute the new expiry.  A token is an
 ideal signed pair; its exp claim is section 4.1.4 of RFC 7519.
 */
module Sessions {
  import opened Common
  import opened Facts
  import opened Spacing

  type UserId = nat
  type SessionId = nat

  datatype Session = Session(user: UserId, expiration: int)

  datatype Token = Token(sid: SessionId, exp: int)

  /**
   A session's lifetime, how much of it must be left for a request not to refresh it, and the
   grain to which the token library cuts the exp claim down before it compares it.
   */
  datatype Settings = Settings(ttl: nat, threshold: nat, grain: Grain)

  type Grain = n: nat | n > 0 witness 1

  const WHOLE_SECONDS: Grain := 1_000_000

  predicate Sound(c: Settings)
  {
    c.threshold <= c.ttl && c.ttl > 0
  }

  /** The exp claim as the token library compares it. */
  function CutDown(c: Settings, exp: int): (cut: int)
    ensures exp - c.grain < cut <= exp
  {
    exp - exp % c.grain
  }

  /** It is the last whole unit up to the claim. */
  lemma CutDownIsWhole(c: Settings, exp: int)
    ensures CutDown(c, exp) % c.grain == 0 && CutDown(c, exp) <= exp < CutDown(c, exp) + c.grain
  {
    RemainderIs(CutDown(c, exp), c.grain, exp / c.grain, 0);
  }

  // ----- The refresh threshold

  /** n / d rounded to the nearest integer, ties to the even one. */
  function RoundHalfEven(n: nat, d: nat): nat
    requires d > 0
  {
    var q, r := n / d, n % d;
    if 2 * r > d || (2 * r == d && q % 2 == 1) then q + 1 else q
  }

  lemma DivideThenMultiply(n: nat, d: nat)
    requires d > 0
    ensures n == (n / d) * d + n % d && n % d < d
  {
  }

  lemma RoundedProduct(ttl: nat, a: nat, b: nat)
    requires ttl > 0 && 0 < a < b
    ensures var t := RoundHalfEven(ttl * a, b);
            && t <= ttl && 2 * (t * b - ttl * a) <= b && 2 * (ttl * a - t * b) <= b
            && (2 * (t * b - ttl * a) == b || 2 * (ttl * a - t * b) == b ==> t % 2 == 0)
  {
    var n := ttl * a;
    var q, t := n / b, RoundHalfEven(n, b);
    DivideThenMultiply(n, b);
    assert (q + 1) * b == q * b + b;
    SmallerFactor(a, b, ttl);
    if q >= ttl {
      SmallerFactor(ttl, q, b);
      assert false;
    }
  }

  /** The TTL times the refresh ratio a / b, as timedelta multiplication rounds it. */
  function SettingsFor(ttl: nat, a: nat, b: nat): (c: Settings)
    requires ttl > 0 && 0 < a < b
    ensures Sound(c) && c.ttl == ttl && c.grain == 1_000_000
    ensures 2 * (c.threshold * b - ttl * a) <= b && 2 * (ttl * a - c.threshold * b) <= b
  {
    RoundedProduct(ttl, a, b);
    Settings(ttl, RoundHalfEven(ttl * a, b), WHOLE_SECONDS)
  }

  // ----- One request

  /** The clock readings of one request, in the order they are made. */
  datatype Readings = Readings(decode: int, check: int, refresh: int, renew: int)

  predicate InOrder(r: Readings)
  {
    r.decode <= r.check <= r.refresh <= r.renew
  }

  /** What a request makes of a session's expiry; None when it is turned away. */
  function Visit(c: Settings, expiration: int, r: Readings): Option<int>
  {
    if expiration <= r.check then None
    else if expiration - r.refresh <= c.threshold then Some(r.renew + c.ttl)
    else Some(expiration)
  }

  predicate Refreshes(c: Settings, expiration: int, r: Readings)
  {
    expiration > r.check && expiration - r.refresh <= c.threshold
  }

  /** The expiry of a session never moves backwards. */
  lemma ExpiryNeverMovesBack(c: Settings, expiration: int, r: Readings)
    requires Sound(c) && InOrder(r) && Visit(c, expiration, r).Some?
    ensures Visit(c, expiration, r).value >= expiration
  {
  }

  // ----- One session over many requests

  predicate Consecutive(start: int, visits: seq<Readings>)
  {
    && (forall i :: 0 <= i < |visits| ==> InOrder(visits[i]))
    && (visits != [] ==> start <= visits[0].decode)
    && (forall i :: 0 <= i < |visits| - 1 ==> visits[i].renew <= visits[i + 1].decode)
  }

  /** The expiry after all the visits, None as soon as one is turned away. */
  function VisitAll(c: Settings, expiration: int, visits: seq<Readings>): Option<int>
    decreases |visits|
  {
    if visits == [] then Some(expiration)
    else
      var n := |visits| - 1;
      match VisitAll(c, expiration, visits[..n])
      case None => None
      case Some(e) => Visit(c, e, visits[n])
  }

  function LastReading(start: int, visits: seq<Readings>): int
  {
    if visits == [] then start else visits[|visits| - 1].renew
  }

  lemma OneMoreVisit(c: Settings, expiration: int, start: int, visits: seq<Readings>, r: Readings)
    requires Consecutive(start, visits) && InOrder(r) && LastReading(start, visits) <= r.decode
    ensures Consecutive(start, visits + [r]) && LastReading(start, visits + [r]) == r.renew
    ensures VisitAll(c, expiration, visits).Some? ==>
              VisitAll(c, expiration, visits + [r]) == Visit(c, VisitAll(c, expiration, visits).value, r)
  {
    assert (visits + [r])[..|visits|] == visits;
  }

  /** The longest gap that is always safe; a threshold rounded up to the whole TTL leaves one microsecond less. */
  function SafeGap(c: Settings): int
  {
    if c.threshold < c.ttl then c.threshold else c.ttl - 1
  }

  /** A visit that is let in leaves more than the safe gap to go, counted from its refresh check. */
  lemma VisitLeavesSafeGap(c: Settings, expiration: int, r: Readings)
    requires Sound(c) && InOrder(r) && Visit(c, expiration, r).Some?
    ensures Visit(c, expiration, r).value > r.refresh + SafeGap(c)
  {
  }

  predicate GapsAtMost(visits: seq<Readings>, gap: int)
  {
    forall i :: 0 <= i < |visits| - 1 ==> visits[i + 1].check - visits[i].refresh <= gap
  }

  /** Used at gaps of at most the threshold -- of less than it when that is the whole TTL -- a session never expires. */
  lemma {:induction false} RegularUseNeverExpires(c: Settings, expiration: int, start: int, visits: seq<Readings>)
    requires Sound(c) && Consecutive(start, visits) && GapsAtMost(visits, SafeGap(c))
    requires visits != [] ==> visits[0].check < expiration
    ensures VisitAll(c, expiration, visits).Some?
    ensures visits != [] ==> VisitAll(c, expiration, visits).value > visits[|visits| - 1].refresh + SafeGap(c)
    decreases |visits|
  {
    if visits != [] {
      var n := |visits| - 1;
      RegularUseNeverExpires(c, expiration, start, visits[..n]);
      if n > 0 {
        assert visits[n].check - visits[n - 1].refresh <= SafeGap(c);
      }
    }
  }

  /** The bound is sharp: for any longer gap there is a session that one visit leaves too little. */
  lemma LongerGapsCanExpire(c: Settings, t: int, gap: int)
    requires Sound(c) && gap > SafeGap(c)
    ensures var expiration := if c.threshold < c.ttl then t + c.threshold + 1 else t + c.ttl;
            var visited := Visit(c, expiration, Readings(t, t, t, t));
            && expiration <= t + c.ttl && visited.Some?
            && Visit(c, visited.value, Readings(t + gap, t + gap, t + gap, t + gap)) == None
  {
  }

  lemma ThresholdCovers(threshold: nat, product: int, b: nat, gap: int)
    requires b > 0 && (gap + 1) * b <= product && 2 * (product - threshold * b) <= b
    ensures threshold >= gap + 1
  {
    var k := gap + 1 - threshold;
    assert k * b == (gap + 1) * b - threshold * b;
    Multiples(k, b);
  }

  /** For a refresh ratio a / b: used at gaps at least a microsecond below ratio times TTL, a session never expires. */
  lemma UseWithinRatioNeverExpires(
    ttl: nat, a: nat, b: nat, gap: int, expiration: int, start: int, visits: seq<Readings>)
    requires ttl > 0 && 0 < a < b && (gap + 1) * b <= ttl * a
    requires Consecutive(start, visits) && GapsAtMost(visits, gap) && (visits != [] ==> visits[0].check < expiration)
    ensures VisitAll(SettingsFor(ttl, a, b), expiration, visits).Some?
  {
    var c := SettingsFor(ttl, a, b);
    ThresholdCovers(c.threshold, ttl * a, b, gap);
    RegularUseNeverExpires(c, expiration, start, visits);
  }

  /** An expiry is never further away than one TTL from the latest clock reading. */
  lemma {:induction false} ExpiryWithinTtl(c: Settings, expiration: int, start: int, visits: seq<Readings>)
    requires Sound(c) && Consecutive(start, visits) && expiration <= start + c.ttl
    requires VisitAll(c, expiration, visits).Some?
    ensures VisitAll(c, expiration, visits).value <= LastReading(start, visits) + c.ttl
    decreases |visits|
  {
    if visits != [] {
      var n := |visits| - 1;
      ExpiryWithinTtl(c, expiration, start, visits[..n]);
    }
  }

  /** After an idle gap of at least the TTL, the next request is turned away. */
  lemma IdleSessionExpires(c: Settings, expiration: int, start: int, visits: seq<Readings>, next: Readings)
    requires Sound(c) && Consecutive(start, visits) && expiration <= start + c.ttl
    requires next.check >= LastReading(start, visits) + c.ttl
    ensures VisitAll(c, expiration, visits + [next]) == None
  {
    assert (visits + [next])[..|visits|] == visits;
    if VisitAll(c, expiration, visits).Some? {
      ExpiryWithinTtl(c, expiration, start, visits);
    }
  }

  // ----- How often a session is refreshed

  /** The moments at which refreshes computed their new expiry. */
  function RefreshMoments(c: Settings, expiration: int, visits: seq<Readings>): (moments: seq<real>)
    requires VisitAll(c, expiration, visits).Some?
    decreases |visits|
  {
    if visits == [] then [] else
      var n := |visits| - 1;
      RefreshMoments(c, expiration, visits[..n])
      + if Refreshes(c, VisitAll(c, expiration, visits[..n]).value, visits[n]) then [visits[n].renew as real] else []
  }

  /** Refreshes of one session are at least the TTL minus the threshold apart. */
  lemma {:induction false} RefreshesAreSpaced(c: Settings, expiration: int, start: int, visits: seq<Readings>)
    requires Sound(c) && Consecutive(start, visits) && VisitAll(c, expiration, visits).Some?
    ensures var moments := RefreshMoments(c, expiration, visits);
            && Spaced(moments, (c.ttl - c.threshold) as real)
            && (moments != [] ==>
                  moments[|moments| - 1] == (VisitAll(c, expiration, visits).value - c.ttl) as real)
    decreases |visits|
  {
    if visits != [] {
      var n := |visits| - 1;
      RefreshesAreSpaced(c, expiration, start, visits[..n]);
    }
  }

  /** A window of length w holds at most w / (TTL - threshold) + 1 refreshes. */
  lemma RefreshesInWindow(
    c: Settings, expiration: int, start: int, visits: seq<Readings>, i: nat, j: nat, w: real)
    requires Sound(c) && c.threshold < c.ttl && Consecutive(start, visits) && VisitAll(c, expiration, visits).Some?
    requires var moments := RefreshMoments(c, expiration, visits);
             i < j <= |moments| && moments[j - 1] - moments[i] <= w
    ensures (j - i) as real <= w / (c.ttl - c.threshold) as real + 1.0
  {
    RefreshesAreSpaced(c, expiration, start, visits);
    WindowBound(RefreshMoments(c, expiration, visits), (c.ttl - c.threshold) as real, i, j, w);
  }
}
