/** All sessions and all tokens: what every run keeps, and how one session's requests look within it. */
module SessionStore {
  import opened Common
  import opened Facts
  import opened Sessions

  datatype State = State(
    sessions: map<SessionId, Session>,
    minted: set<Token>,          // every token ever handed out
    issued: set<SessionId>,      // every session id ever generated
    clock: int)                  // the latest clock reading

  datatype Event =
    | Issue(user: UserId, sid: SessionId, now: int)
    | Request(token: Option<Token>, readings: Readings)
    | LogOut(token: Option<Token>, now: int)
    | RevokeAll(user: UserId, now: int)

  /** Only a token that was minted verifies, and only before its exp claim, cut down to the library's grain. */
  function DecodeSessionId(c: Settings, s: State, token: Option<Token>, now: int): Option<SessionId>
  {
    if token.Some? && token.value in s.minted && now < CutDown(c, token.value.exp) then Some(token.value.sid) else None
  }

  /** The user a request is made by, if it is let in. */
  function CurrentUserId(c: Settings, s: State, token: Option<Token>, r: Readings): Option<UserId>
  {
    match DecodeSessionId(c, s, token, r.decode)
    case None => None
    case Some(sid) =>
      if sid !in s.sessions || s.sessions[sid].expiration <= r.check then None else Some(s.sessions[sid].user)
  }

  predicate Enabled(s: State, e: Event)
  {
    match e
    case Issue(_, sid, now) => sid !in s.issued && now >= s.clock
    case Request(_, r) => InOrder(r) && r.decode >= s.clock
    case LogOut(_, now) => now >= s.clock
    case RevokeAll(_, now) => now >= s.clock
  }

  function WithoutUser(sessions: map<SessionId, Session>, user: UserId): map<SessionId, Session>
  {
    map sid | sid in sessions && sessions[sid].user != user :: sessions[sid]
  }

  function Apply(c: Settings, s: State, e: Event): State
  {
    match e
    case Issue(user, sid, now) =>
      s.(sessions := s.sessions[sid := Session(user, now + c.ttl)], minted := s.minted + {Token(sid, now + c.ttl)},
         issued := s.issued + {sid}, clock := now)
    case Request(token, r) =>
      var s1 := s.(clock := r.renew);
      if CurrentUserId(c, s, token, r).None? then s1 else
        var sid := token.value.sid;
        if s.sessions[sid].expiration - r.refresh <= c.threshold then
          s1.(sessions := s.sessions[sid := s.sessions[sid].(expiration := r.renew + c.ttl)],
              minted := s.minted + {Token(sid, r.renew + c.ttl)})
        else s1
    case LogOut(token, now) =>
      var sid := DecodeSessionId(c, s, token, now);
      s.(sessions := if sid.Some? then s.sessions - {sid.value} else s.sessions, clock := now)
    case RevokeAll(user, now) => s.(sessions := WithoutUser(s.sessions, user), clock := now)
  }

  function After(c: Settings, s: State, events: seq<Event>): State
    decreases |events|
  {
    if events == [] then s else
      var n := |events| - 1;
      Apply(c, After(c, s, events[..n]), events[n])
  }

  predicate IsRun(c: Settings, s: State, events: seq<Event>)
    decreases |events|
  {
    events == [] ||
    var n := |events| - 1;
    IsRun(c, s, events[..n]) && Enabled(After(c, s, events[..n]), events[n])
  }

  function Start(clock: int): State
  {
    State(map[], {}, {}, clock)
  }

  ghost predicate Inv(c: Settings, s: State)
  {
    && s.sessions.Keys <= s.issued
    && (forall t :: t in s.minted ==> t.sid in s.issued)
    && (forall t :: t in s.minted && t.sid in s.sessions ==> t.exp <= s.sessions[t.sid].expiration)
    && (forall sid :: sid in s.sessions ==>
          Token(sid, s.sessions[sid].expiration) in s.minted && s.sessions[sid].expiration <= s.clock + c.ttl)
  }

  lemma RequestKeeps(c: Settings, s: State, token: Option<Token>, r: Readings)
    requires Sound(c) && Inv(c, s) && Enabled(s, Request(token, r))
    ensures Inv(c, Apply(c, s, Request(token, r)))
  {
  }

  lemma StepKeeps(c: Settings, s: State, e: Event)
    requires Sound(c) && Inv(c, s) && Enabled(s, e)
    ensures Inv(c, Apply(c, s, e))
  {
    match e
    case Request(token, r) => RequestKeeps(c, s, token, r);
    case Issue(_, _, _) =>
    case LogOut(_, _) =>
    case RevokeAll(_, _) =>
  }

  lemma {:induction false} RunKeeps(c: Settings, s: State, events: seq<Event>)
    requires Sound(c) && Inv(c, s) && IsRun(c, s, events)
    ensures Inv(c, After(c, s, events))
    decreases |events|
  {
    if events != [] {
      RunKeeps(c, s, events[..|events| - 1]);
      StepKeeps(c, After(c, s, events[..|events| - 1]), events[|events| - 1]);
    }
  }

  /**
   On every run: a token minted for a stored session never outlives it, so at one instant the
   session check never turns away a token that the token check accepts.
   */
  lemma TokensNeverOutliveSessions(c: Settings, clock: int, events: seq<Event>, token: Token, now: int)
    requires Sound(c) && IsRun(c, Start(clock), events)
    requires var s := After(c, Start(clock), events); token in s.minted && token.sid in s.sessions
    ensures var s := After(c, Start(clock), events);
            && token.exp <= s.sessions[token.sid].expiration
            && (DecodeSessionId(c, s, Some(token), now).Some? ==>
                  CurrentUserId(c, s, Some(token), Readings(now, now, now, now)) == Some(s.sessions[token.sid].user))
  {
    RunKeeps(c, Start(clock), events);
  }

  /** Logging out with an accepted token removes its session; revoking all removes all of the user's. */
  lemma RemovalRemoves(c: Settings, s: State, token: Token, user: UserId, now: int)
    requires Inv(c, s)
    ensures DecodeSessionId(c, s, Some(token), now).Some? ==>
              var t := Apply(c, s, LogOut(Some(token), now));
              && token.sid !in t.sessions
              && (forall sid :: sid != token.sid ==> (sid in t.sessions <==> sid in s.sessions))
              && (forall sid :: sid in t.sessions ==> t.sessions[sid] == s.sessions[sid])
    ensures var t := Apply(c, s, RevokeAll(user, now));
            && (forall sid :: sid in t.sessions <==> sid in s.sessions && s.sessions[sid].user != user)
            && (forall sid :: sid in t.sessions ==> t.sessions[sid] == s.sessions[sid])
  {
  }

  /** A session that has been removed stays removed, and no token of it is ever let in again. */
  lemma {:induction false} RemovedForGood(c: Settings, s: State, events: seq<Event>, sid: SessionId)
    requires Sound(c) && Inv(c, s) && IsRun(c, s, events) && sid in s.issued && sid !in s.sessions
    ensures var t := After(c, s, events);
            && sid in t.issued && sid !in t.sessions
            && (forall exp, r :: CurrentUserId(c, t, Some(Token(sid, exp)), r) == None)
    decreases |events|
  {
    if events != [] {
      RemovedForGood(c, s, events[..|events| - 1], sid);
    }
  }

  // ----- Whose session it is

  /** The session was issued to this user by some step of the run. */
  predicate IssuedTo(events: seq<Event>, sid: SessionId, user: UserId)
  {
    exists i :: 0 <= i < |events| && events[i].Issue? && events[i].sid == sid && events[i].user == user
  }

  lemma StepKeepsOwner(c: Settings, s: State, e: Event, sid: SessionId)
    requires Enabled(s, e) && sid in Apply(c, s, e).sessions
    ensures if e.Issue? && e.sid == sid then Apply(c, s, e).sessions[sid].user == e.user
            else sid in s.sessions && Apply(c, s, e).sessions[sid].user == s.sessions[sid].user
  {
  }

  /** On every run a stored session belongs to the user it was issued to ... */
  lemma {:induction false} StoredForItsUser(c: Settings, clock: int, events: seq<Event>, sid: SessionId)
    requires IsRun(c, Start(clock), events) && sid in After(c, Start(clock), events).sessions
    ensures IssuedTo(events, sid, After(c, Start(clock), events).sessions[sid].user)
    decreases |events|
  {
    if events != [] {
      var n := |events| - 1;
      var before := After(c, Start(clock), events[..n]);
      StepKeepsOwner(c, before, events[n], sid);
      if sid in before.sessions && !(events[n].Issue? && events[n].sid == sid) {
        StoredForItsUser(c, clock, events[..n], sid);
        var i :| 0 <= i < n && events[..n][i].Issue? && events[..n][i].sid == sid
          && events[..n][i].user == before.sessions[sid].user;
        assert events[i] == events[..n][i];
      } else {
        assert events[n].Issue?;
      }
    }
  }

  lemma {:induction false} IssuedIsKnown(c: Settings, clock: int, events: seq<Event>, i: nat)
    requires IsRun(c, Start(clock), events) && i < |events| && events[i].Issue?
    ensures events[i].sid in After(c, Start(clock), events).issued
    decreases |events|
  {
    var n := |events| - 1;
    if i < n {
      assert events[..n][i] == events[i];
      IssuedIsKnown(c, clock, events[..n], i);
    }
  }

  /** ... and to no other: a session id is issued once. */
  lemma {:induction false} IssuedOnce(c: Settings, clock: int, events: seq<Event>, i: nat, j: nat)
    requires IsRun(c, Start(clock), events) && i < j < |events|
    requires events[i].Issue? && events[j].Issue?
    ensures events[i].sid != events[j].sid
    decreases |events|
  {
    var n := |events| - 1;
    if j < n {
      assert events[..n][i] == events[i] && events[..n][j] == events[j];
      IssuedOnce(c, clock, events[..n], i, j);
    } else {
      assert events[..n][i] == events[i];
      IssuedIsKnown(c, clock, events[..n], i);
    }
  }

  /**
   On every run: a request let in with a token of a session is answered as the user the session was
   issued to, and revoking all of that user's sessions removes it.
   */
  lemma LetInAsIssued(c: Settings, clock: int, events: seq<Event>, i: nat, exp: int, r: Readings, now: int)
    requires Sound(c) && IsRun(c, Start(clock), events) && i < |events| && events[i].Issue?
    ensures var s := After(c, Start(clock), events); var sid, user := events[i].sid, events[i].user;
            && (CurrentUserId(c, s, Some(Token(sid, exp)), r).Some? ==>
                  CurrentUserId(c, s, Some(Token(sid, exp)), r) == Some(user))
            && sid !in Apply(c, s, RevokeAll(user, now)).sessions
  {
    var s, sid := After(c, Start(clock), events), events[i].sid;
    if sid in s.sessions {
      StoredForItsUser(c, clock, events, sid);
      var j :| 0 <= j < |events| && events[j].Issue? && events[j].sid == sid && events[j].user == s.sessions[sid].user;
      if i < j {
        IssuedOnce(c, clock, events, i, j);
      } else if j < i {
        IssuedOnce(c, clock, events, j, i);
      }
    }
  }

  /** A token that was never minted lets nobody in, whatever it claims. */
  lemma ForgedTokensAreRefused(c: Settings, s: State, token: Token, r: Readings)
    requires token !in s.minted
    ensures CurrentUserId(c, s, Some(token), r) == None && CurrentUserId(c, s, None, r) == None
  {
  }

  // ----- One session within a run

  predicate IsVisit(c: Settings, s: State, e: Event, sid: SessionId)
  {
    e.Request? && e.token.Some? && e.token.value.sid == sid && CurrentUserId(c, s, e.token, e.readings).Some?
  }

  /** The requests that were let in with a token of this session. */
  function VisitsOf(c: Settings, s: State, events: seq<Event>, sid: SessionId): seq<Readings>
    decreases |events|
  {
    if events == [] then [] else
      var n := |events| - 1;
      VisitsOf(c, s, events[..n], sid)
      + if IsVisit(c, After(c, s, events[..n]), events[n], sid) then [events[n].readings] else []
  }

  lemma VisitStep(c: Settings, s: State, e: Event, sid: SessionId)
    requires Inv(c, s) && Enabled(s, e) && sid in s.issued && sid in Apply(c, s, e).sessions
    ensures sid in s.sessions
    ensures Apply(c, s, e).sessions[sid].expiration
         == if IsVisit(c, s, e, sid) then Visit(c, s.sessions[sid].expiration, e.readings).GetOr(0)
            else s.sessions[sid].expiration
    ensures IsVisit(c, s, e, sid) ==> Visit(c, s.sessions[sid].expiration, e.readings).Some?
  {
  }

  /** The session's expiry in this state is what the visits made of it. */
  predicate Follows(c: Settings, start: int, expiration: int, visits: seq<Readings>, s: State, sid: SessionId)
  {
    && sid in s.sessions && Consecutive(start, visits) && LastReading(start, visits) <= s.clock
    && VisitAll(c, expiration, visits) == Some(s.sessions[sid].expiration)
  }

  lemma FollowsStep(
    c: Settings, start: int, expiration: int, visits: seq<Readings>, s: State, e: Event, sid: SessionId)
    requires Inv(c, s) && Enabled(s, e) && sid in Apply(c, s, e).sessions
    requires Follows(c, start, expiration, visits, s, sid)
    ensures var visits' := visits + if IsVisit(c, s, e, sid) then [e.readings] else [];
            Follows(c, start, expiration, visits', Apply(c, s, e), sid)
  {
    VisitStep(c, s, e, sid);
    if IsVisit(c, s, e, sid) {
      OneMoreVisit(c, expiration, start, visits, e.readings);
    } else {
      assert visits + [] == visits;
    }
  }

  lemma {:induction false} StaysIssued(c: Settings, s: State, events: seq<Event>, sid: SessionId)
    requires IsRun(c, s, events) && sid in s.issued
    ensures sid in After(c, s, events).issued
    decreases |events|
  {
    if events != [] {
      StaysIssued(c, s, events[..|events| - 1], sid);
    }
  }

  /** As long as it is stored, a session's expiry is what its own visits made of it, whatever else goes on. */
  lemma {:induction false} ExpiryFollowsVisits(c: Settings, s: State, events: seq<Event>, sid: SessionId)
    requires Sound(c) && Inv(c, s) && IsRun(c, s, events) && sid in s.sessions && sid in After(c, s, events).sessions
    ensures Follows(c, s.clock, s.sessions[sid].expiration, VisitsOf(c, s, events, sid), After(c, s, events), sid)
    decreases |events|
  {
    if events != [] {
      var n := |events| - 1;
      var t := After(c, s, events[..n]);
      RunKeeps(c, s, events[..n]);
      StaysIssued(c, s, events[..n], sid);
      VisitStep(c, t, events[n], sid);
      ExpiryFollowsVisits(c, s, events[..n], sid);
      FollowsStep(c, s.clock, s.sessions[sid].expiration, VisitsOf(c, s, events[..n], sid), t, events[n], sid);
    }
  }

  /** With its newest token, a session lets a request in exactly when token and row have both not expired. */
  lemma NewestTokenDecidesByExpiry(c: Settings, s: State, sid: SessionId, r: Readings)
    requires Sound(c) && Inv(c, s) && sid in s.sessions && InOrder(r)
    ensures var expiration := s.sessions[sid].expiration; var token := Some(Token(sid, expiration));
            var t := Apply(c, s, Request(token, r));
            && (CurrentUserId(c, s, token, r).Some? <==>
                  r.decode < CutDown(c, expiration) && Visit(c, expiration, r).Some?)
            && sid in t.sessions && Token(sid, t.sessions[sid].expiration) in t.minted
  {
  }

  /** What the cut costs: the token is refused before the row expires exactly in the last, incomplete unit. */
  lemma RefusedEarlyIff(c: Settings, s: State, sid: SessionId, now: int)
    requires Sound(c) && Inv(c, s) && sid in s.sessions
    ensures var expiration := s.sessions[sid].expiration; var at := Readings(now, now, now, now);
            Visit(c, expiration, at).Some? && CurrentUserId(c, s, Some(Token(sid, expiration)), at).None?
            <==> CutDown(c, expiration) <= now < expiration
  {
  }

  /**
   On any run that leaves a session stored: a request with its newest token is let in when it is made
   within the safe gap of the session's previous visit, less the unit the token check may cut off;
   one made a TTL after the session's latest reading is not.
   */
  lemma NextVisit(c: Settings, s: State, events: seq<Event>, sid: SessionId, r: Readings)
    requires Sound(c) && Inv(c, s) && IsRun(c, s, events)
    requires sid in s.sessions && sid in After(c, s, events).sessions
    requires InOrder(r) && r.decode >= After(c, s, events).clock
    ensures var t := After(c, s, events); var visits := VisitsOf(c, s, events, sid);
            var newest := Some(Token(sid, t.sessions[sid].expiration));
            && (visits != [] && r.check - visits[|visits| - 1].refresh <= SafeGap(c) - (c.grain - 1) ==>
                  CurrentUserId(c, t, newest, r) == Some(t.sessions[sid].user))
            && (r.check >= LastReading(s.clock, visits) + c.ttl ==> CurrentUserId(c, t, newest, r) == None)
  {
    var t, visits := After(c, s, events), VisitsOf(c, s, events, sid);
    RunKeeps(c, s, events);
    ExpiryFollowsVisits(c, s, events, sid);
    NewestTokenDecidesByExpiry(c, t, sid, r);
    ExpiryWithinTtl(c, s.sessions[sid].expiration, s.clock, visits);
    if visits != [] {
      var n := |visits| - 1;
      VisitLeavesSafeGap(c, VisitAll(c, s.sessions[sid].expiration, visits[..n]).value, visits[n]);
    }
  }

  lemma LastOfUnit(n: int, d: nat)
    requires d > 1 && (n + 1) % d == 0
    ensures n % d == d - 1
  {
    var q := (n + 1) / d;
    assert n == (q - 1) * d + (d - 1);
    RemainderIs(n, d, q - 1, d - 1);
  }

  /** The unit has to come off: any longer gap, still within the threshold, can meet a token already refused. */
  lemma LastUnitCanBeLost(c: Settings, t: int, gap: nat)
    requires Sound(c) && c.threshold < c.ttl && (t + c.threshold + 2) % c.grain == 0
    requires SafeGap(c) - (c.grain - 1) < gap <= SafeGap(c)
    ensures var expiration := t + c.threshold + 1;
            && Visit(c, expiration, Readings(t, t, t, t)) == Some(expiration)
            && CutDown(c, expiration) <= t + gap < expiration
  {
    var expiration := t + c.threshold + 1;
    assert c.grain > 1;
    assert expiration % c.grain == c.grain - 1 by { LastOfUnit(expiration, c.grain); }
  }
}
