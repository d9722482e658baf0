/** The session service as it runs: tracked sessions whose expiry is reassigned in place, and staged cookies. */
module AuthService {
  import opened Common
  import opened Clock
  import opened Sessions
  import opened SessionStore

  class AuthSession {
    const id: SessionId
    const user: UserId
    var expiration: int

    constructor (id: SessionId, user: UserId, expiration: int)
      ensures this.id == id && this.user == user && this.expiration == expiration
    {
      this.id, this.user, this.expiration := id, user, expiration;
    }
  }

  datatype Cookie = Untouched | Set(token: Token) | Deleted

  class AuthService {
    const settings: Settings
    const clock: UtcClock
    var stored: map<SessionId, AuthSession>
    var minted: set<Token>
    var issued: set<SessionId>
    var cookie: Cookie

    constructor (settings: Settings, clock: UtcClock)
      ensures this.settings == settings && this.clock == clock && Valid() && View() == Start(clock.now)
    {
      this.settings, this.clock := settings, clock;
      stored, minted, issued, cookie := map[], {}, {}, Untouched;
    }

    predicate Valid()
      reads this
    {
      forall sid :: sid in stored ==> stored[sid].id == sid
    }

    function View(): State
      reads this, stored.Values, clock
    {
      State(map sid | sid in stored :: Session(stored[sid].user, stored[sid].expiration), minted, issued, clock.now)
    }

    method IssueSession(user: UserId, sid: SessionId) returns (ghost now: int)
      requires Valid() && sid !in issued
      modifies this, clock
      ensures Valid() && Enabled(old(View()), Issue(user, sid, now))
      ensures View() == Apply(settings, old(View()), Issue(user, sid, now))
      ensures cookie == Set(Token(sid, now + settings.ttl))
      ensures stored.Keys == old(stored.Keys) + {sid} && fresh(stored[sid])
      ensures stored[sid].user == user && stored[sid].expiration == now + settings.ttl
      ensures forall other :: other in old(stored) && other != sid ==> stored[other] == old(stored[other])
      ensures forall r: Readings ::
                now + settings.ttl > r.check && r.decode < CutDown(settings, now + settings.ttl) ==>
                  CurrentUserId(settings, View(), Some(cookie.token), r) == Some(user)
      ensures fresh(stored.Values - old(stored.Values))
    {
      var reading := clock.Read();
      var session := new AuthSession(sid, user, reading + settings.ttl);
      stored := stored[sid := session];
      issued := issued + {sid};
      var token := Token(sid, session.expiration);
      minted := minted + {token};
      cookie := Set(token);
      now := reading;
    }

    /** The session a cookie names: its token must have been minted and not have expired. */
    method GetSessionId(token: Option<Token>) returns (sid: Option<SessionId>, now: int)
      modifies clock
      ensures now == clock.now >= old(clock.now) && sid == DecodeSessionId(settings, View(), token, now)
    {
      now := clock.Read();
      if token.Some? && token.value in minted && now < CutDown(settings, token.value.exp) {
        sid := Some(token.value.sid);
      } else {
        sid := None;
      }
    }

    /** The state after a refresh decision made at one reading and carried out at another. */
    ghost function Refreshed(s: State, sid: SessionId, refresh: int, renew: int): State
      requires sid in s.sessions
    {
      if s.sessions[sid].expiration - refresh <= settings.threshold then
        s.(sessions := s.sessions[sid := s.sessions[sid].(expiration := renew + settings.ttl)],
           minted := s.minted + {Token(sid, renew + settings.ttl)}, clock := renew)
      else s.(clock := renew)
    }

    method RefreshIfNeeded(session: AuthSession) returns (ghost refresh: int, ghost renew: int)
      requires Valid() && session.id in stored && stored[session.id] == session
      modifies this`minted, this`cookie, session, clock
      ensures old(clock.now) <= refresh <= renew
      ensures View() == Refreshed(old(View()), session.id, refresh, renew)
      ensures cookie == if old(session.expiration) - refresh <= settings.threshold
                        then Set(Token(session.id, renew + settings.ttl)) else old(cookie)
    {
      var reading := clock.Read();
      refresh, renew := reading, reading;
      if session.expiration - reading <= settings.threshold {
        var now := clock.Read();
        renew := now;
        session.expiration := now + settings.ttl;
        var renewed := Token(session.id, session.expiration);
        minted := minted + {renewed};
        cookie := Set(renewed);
      }
    }

    method GetCurrentUserId(token: Option<Token>) returns (user: Option<UserId>, ghost r: Readings)
      requires Valid()
      modifies this, stored.Values, clock
      ensures Valid() && InOrder(r) && r.decode >= old(clock.now)
      ensures user == CurrentUserId(settings, old(View()), token, r)
      ensures View() == Apply(settings, old(View()), Request(token, r))
      ensures stored == old(stored)
      ensures cookie == if user.Some? && Refreshes(settings, old(View()).sessions[token.value.sid].expiration, r)
                        then Set(Token(token.value.sid, r.renew + settings.ttl))
                        else old(cookie)
    {
      var sid, t0 := GetSessionId(token);
      r := Readings(t0, t0, t0, t0);
      if sid.None? || sid.value !in stored { return None, r; }
      var session := stored[sid.value];
      var t1 := clock.Read();
      r := Readings(t0, t1, t1, t1);
      if session.expiration <= t1 { return None, r; }
      ghost var t2, t3 := RefreshIfNeeded(session);
      r := Readings(t0, t1, t2, t3);
      user := Some(session.user);
    }

    method LogoutCurrentSession(token: Option<Token>) returns (ghost now: int)
      requires Valid()
      modifies this, clock
      ensures Valid() && now >= old(clock.now) && View() == Apply(settings, old(View()), LogOut(token, now))
      ensures cookie == Deleted && stored.Values <= old(stored.Values)
      ensures forall sid :: sid in stored ==> sid in old(stored) && stored[sid] == old(stored)[sid]
      ensures forall sid :: sid in old(stored) && sid !in stored ==> token.Some? && token.value.sid == sid
    {
      cookie := Deleted;
      var sid, reading := GetSessionId(token);
      if sid.Some? {
        stored := stored - {sid.value};
      }
      now := reading;
    }

    method RevokeAllSessions(user: UserId)
      requires Valid()
      modifies this`stored
      ensures forall sid :: sid in stored <==> sid in old(stored) && old(stored)[sid].user != user
      ensures forall sid :: sid in stored ==> stored[sid] == old(stored)[sid]
      ensures Valid() && View() == Apply(settings, old(View()), RevokeAll(user, clock.now))
      ensures stored.Values <= old(stored.Values)
    {
      stored := map sid | sid in stored && stored[sid].user != user :: stored[sid];
    }
  }
}
