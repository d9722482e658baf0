/** API keys: issue, authenticate, revoke one and revoke all, as runs over the table of keys. */
module ApiKeys {
  import opened Common
  import opened Facts

  type KeyId = nat
  type UserId = nat
  type KeyHash = nat

  const MIN_DAYS := 1
  const MAX_DAYS := 365
  const MICROSECONDS_PER_DAY: nat := 86_400_000_000

  datatype Key = Key(
    user: UserId, hash: KeyHash, createdAt: int, expiresAt: int,
    revokedAt: Option<int>, useCount: nat, lastUsedAt: Option<int>)

  type Keys = map<KeyId, Key>

  /** What checking the identifier and the password comes to. */
  datatype Login = NoMatch | Account(user: UserId, active: bool)

  datatype IssueError = InvalidCredentials | AccountInactive | LimitExceeded | ExpiryOutOfRange
  datatype RevokeError = KeyNotFound | NotTheOwner

  datatype State = State(keys: Keys, clock: int)

  datatype Event =
    | Issue(login: Login, days: int, id: KeyId, hash: KeyHash, now: int)
    | Authenticate(header: Option<KeyHash>, check: int, use: int)
    | Revoke(caller: UserId, id: KeyId, now: int)
    | RevokeAll(user: UserId, now: int)

  /** A user's keys that are not revoked, expired ones included. */
  function ActiveKeys(keys: Keys, user: UserId): set<KeyId>
  {
    set id | id in keys && keys[id].user == user && keys[id].revokedAt.None?
  }

  function CheckIssue(cap: nat, keys: Keys, login: Login, days: int): Result<UserId, IssueError>
  {
    if login.NoMatch? then Err(InvalidCredentials)
    else if !login.active then Err(AccountInactive)
    else if |ActiveKeys(keys, login.user)| >= cap then Err(LimitExceeded)
    else if !(MIN_DAYS <= days <= MAX_DAYS) then Err(ExpiryOutOfRange)
    else Ok(login.user)
  }

  function NewKey(user: UserId, hash: KeyHash, days: int, now: int): Key
  {
    Key(user, hash, now, now + days * MICROSECONDS_PER_DAY, None, 0, None)
  }

  predicate Accepts(keys: Keys, header: Option<KeyHash>, check: int, id: KeyId)
  {
    id in keys && header == Some(keys[id].hash) && keys[id].revokedAt.None? && check < keys[id].expiresAt
  }

  /** The key a request is let in with, if any. */
  ghost function KeyUsed(keys: Keys, header: Option<KeyHash>, check: int): Option<KeyId>
  {
    if exists id :: Accepts(keys, header, check, id) then
      var id :| Accepts(keys, header, check, id);
      Some(id)
    else None
  }

  function CheckRevoke(keys: Keys, caller: UserId, id: KeyId): Result<(), RevokeError>
  {
    if id !in keys then Err(KeyNotFound)
    else if keys[id].user != caller then Err(NotTheOwner)
    else Ok(())
  }

  function Revoked(key: Key, now: int): Key
  {
    if key.revokedAt.Some? then key else key.(revokedAt := Some(now))
  }

  function AllRevoked(keys: Keys, user: UserId, now: int): Keys
  {
    map id | id in keys :: if keys[id].user == user then Revoked(keys[id], now) else keys[id]
  }

  function Used(key: Key, now: int): Key
  {
    key.(useCount := key.useCount + 1, lastUsedAt := Some(now))
  }

  predicate HashIsNew(keys: Keys, hash: KeyHash)
  {
    forall id :: id in keys ==> keys[id].hash != hash
  }

  /** Ids and key material are random and taken to be new; clock readings never go backwards. */
  predicate Enabled(s: State, e: Event)
  {
    match e
    case Issue(_, _, id, hash, now) => id !in s.keys && HashIsNew(s.keys, hash) && s.clock <= now
    case Authenticate(_, check, use) => s.clock <= check <= use
    case Revoke(_, _, now) => s.clock <= now
    case RevokeAll(_, now) => s.clock <= now
  }

  ghost function Apply(cap: nat, s: State, e: Event): State
  {
    match e
    case Issue(login, days, id, hash, now) =>
      (match CheckIssue(cap, s.keys, login, days)
       case Err(_) => State(s.keys, now)
       case Ok(user) => State(s.keys[id := NewKey(user, hash, days, now)], now))
    case Authenticate(header, check, use) =>
      (match KeyUsed(s.keys, header, check)
       case None => State(s.keys, use)
       case Some(id) => State(s.keys[id := Used(s.keys[id], use)], use))
    case Revoke(caller, id, now) =>
      if CheckRevoke(s.keys, caller, id).Err? then State(s.keys, now)
      else State(s.keys[id := Revoked(s.keys[id], now)], now)
    case RevokeAll(user, now) => State(AllRevoked(s.keys, user, now), now)
  }

  ghost function After(cap: nat, s: State, events: seq<Event>): State
    decreases |events|
  {
    if events == [] then s else
      var n := |events| - 1;
      Apply(cap, After(cap, s, events[..n]), events[n])
  }

  ghost predicate IsRun(cap: nat, s: State, events: seq<Event>)
    decreases |events|
  {
    events == [] ||
    var n := |events| - 1;
    IsRun(cap, s, events[..n]) && Enabled(After(cap, s, events[..n]), events[n])
  }

  // ----- What every run keeps

  ghost predicate UniqueHashes(keys: Keys)
  {
    forall a, b :: a in keys && b in keys && keys[a].hash == keys[b].hash ==> a == b
  }

  ghost predicate WithinCap(cap: nat, keys: Keys)
  {
    forall user :: |ActiveKeys(keys, user)| <= cap
  }

  predicate WellDated(key: Key)
  {
    && MICROSECONDS_PER_DAY <= key.expiresAt - key.createdAt <= 365 * MICROSECONDS_PER_DAY
    && (key.lastUsedAt.None? <==> key.useCount == 0)
    && (key.lastUsedAt.Some? ==> key.createdAt <= key.lastUsedAt.value)
    && (key.revokedAt.Some? ==> key.createdAt <= key.revokedAt.value)
  }

  ghost predicate KeysInv(keys: Keys, clock: int)
  {
    forall id :: id in keys ==> WellDated(keys[id]) && keys[id].createdAt <= clock
  }

  ghost predicate Inv(cap: nat, s: State)
  {
    UniqueHashes(s.keys) && WithinCap(cap, s.keys) && KeysInv(s.keys, s.clock)
  }

  /** The key that is found is the one whose hash was sent, when it is neither revoked nor expired. */
  lemma LetInIff(keys: Keys, header: Option<KeyHash>, check: int, id: KeyId)
    requires UniqueHashes(keys)
    ensures KeyUsed(keys, header, check) == Some(id) <==> Accepts(keys, header, check, id)
  {
    if Accepts(keys, header, check, id) {
      var found := KeyUsed(keys, header, check).value;
      assert Accepts(keys, header, check, found);
    }
  }

  /** When no key is issued, no user gains an active one. */
  lemma FewerActive(cap: nat, before: Keys, after: Keys)
    requires WithinCap(cap, before)
    requires forall user :: ActiveKeys(after, user) <= ActiveKeys(before, user)
    ensures WithinCap(cap, after)
  {
    forall user ensures |ActiveKeys(after, user)| <= cap {
      SubsetSize(ActiveKeys(after, user), ActiveKeys(before, user));
    }
  }

  lemma ActiveAfterIssue(keys: Keys, id: KeyId, key: Key, user: UserId)
    requires id !in keys && key.revokedAt.None?
    ensures id !in ActiveKeys(keys, user)
    ensures ActiveKeys(keys[id := key], user) == ActiveKeys(keys, user) + if user == key.user then {id} else {}
  {
  }

  lemma IssueKeepsCap(cap: nat, keys: Keys, id: KeyId, key: Key)
    requires WithinCap(cap, keys) && id !in keys && |ActiveKeys(keys, key.user)| < cap && key.revokedAt.None?
    ensures WithinCap(cap, keys[id := key])
  {
    var keys' := keys[id := key];
    forall user ensures |ActiveKeys(keys', user)| <= cap {
      ActiveAfterIssue(keys, id, key, user);
    }
  }

  lemma UpdateKeeps(cap: nat, keys: Keys, id: KeyId, key: Key)
    requires UniqueHashes(keys) && WithinCap(cap, keys) && id in keys
    requires key.user == keys[id].user && key.hash == keys[id].hash
    requires keys[id].revokedAt.Some? ==> key.revokedAt.Some?
    ensures UniqueHashes(keys[id := key]) && WithinCap(cap, keys[id := key])
  {
    FewerActive(cap, keys, keys[id := key]);
  }

  lemma StepKeeps(cap: nat, s: State, e: Event)
    requires Inv(cap, s) && Enabled(s, e)
    ensures Inv(cap, Apply(cap, s, e))
  {
    match e
    case Issue(login, days, id, hash, now) =>
      if CheckIssue(cap, s.keys, login, days).Ok? {
        IssueKeepsCap(cap, s.keys, id, NewKey(login.user, hash, days, now));
      }
    case Authenticate(header, check, use) =>
      var found := KeyUsed(s.keys, header, check);
      if found.Some? {
        assert Accepts(s.keys, header, check, found.value);
        UpdateKeeps(cap, s.keys, found.value, Used(s.keys[found.value], use));
      }
    case Revoke(caller, id, now) =>
      if CheckRevoke(s.keys, caller, id).Ok? {
        UpdateKeeps(cap, s.keys, id, Revoked(s.keys[id], now));
      }
    case RevokeAll(user, now) =>
      FewerActive(cap, s.keys, AllRevoked(s.keys, user, now));
  }

  lemma {:induction false} RunKeeps(cap: nat, s: State, events: seq<Event>)
    requires Inv(cap, s) && IsRun(cap, s, events)
    ensures Inv(cap, After(cap, s, events))
    decreases |events|
  {
    if events != [] {
      var n := |events| - 1;
      RunKeeps(cap, s, events[..n]);
      StepKeeps(cap, After(cap, s, events[..n]), events[n]);
    }
  }

  /** On every run no user ever has more than `cap` keys that are not revoked. */
  lemma NeverMoreThanTheCap(cap: nat, clock: int, events: seq<Event>, user: UserId)
    requires IsRun(cap, State(map[], clock), events)
    ensures |ActiveKeys(After(cap, State(map[], clock), events).keys, user)| <= cap
  {
    RunKeeps(cap, State(map[], clock), events);
  }

  /** An expired key holds its slot: a user whose keys all expired can use none, and get none. */
  lemma ExpiredKeysHoldTheirSlots(cap: nat, keys: Keys, user: UserId, days: int, header: Option<KeyHash>, now: int)
    requires |ActiveKeys(keys, user)| >= cap
    requires forall id :: id in ActiveKeys(keys, user) ==> keys[id].expiresAt <= now
    ensures CheckIssue(cap, keys, Account(user, true), days) == Err(LimitExceeded)
    ensures KeyUsed(keys, header, now).Some? ==> keys[KeyUsed(keys, header, now).value].user != user
  {
    assert forall id :: Accepts(keys, header, now, id) && keys[id].user == user ==> id in ActiveKeys(keys, user);
  }

  // ----- One key through a run

  lemma KeysStay(cap: nat, s: State, e: Event, id: KeyId)
    requires Inv(cap, s) && Enabled(s, e) && id in s.keys
    ensures var t := Apply(cap, s, e);
            && id in t.keys
            && t.keys[id].(revokedAt := None, useCount := 0, lastUsedAt := None)
               == s.keys[id].(revokedAt := None, useCount := 0, lastUsedAt := None)
    ensures s.keys[id].revokedAt.Some? ==> Apply(cap, s, e).keys[id] == s.keys[id]
  {
    if e.Authenticate? {
      var found := KeyUsed(s.keys, e.header, e.check);
      assert found.Some? ==> Accepts(s.keys, e.header, e.check, found.value);
    }
  }

  /** Who a key belongs to, what it is known by and when it lapses never change. */
  lemma {:induction false} KeyKeepsItsTerms(cap: nat, s: State, events: seq<Event>, id: KeyId)
    requires Inv(cap, s) && IsRun(cap, s, events) && id in s.keys
    ensures var t := After(cap, s, events);
            && id in t.keys && t.keys[id].user == s.keys[id].user && t.keys[id].hash == s.keys[id].hash
            && t.keys[id].createdAt == s.keys[id].createdAt && t.keys[id].expiresAt == s.keys[id].expiresAt
    decreases |events|
  {
    if events != [] {
      var n := |events| - 1;
      KeyKeepsItsTerms(cap, s, events[..n], id);
      RunKeeps(cap, s, events[..n]);
      KeysStay(cap, After(cap, s, events[..n]), events[n], id);
    }
  }

  /** Exactly who is issued a key, for how long; and every refusal with its reason, the first that applies. */
  lemma IssueSucceedsIff(cap: nat, keys: Keys, login: Login, days: int)
    ensures CheckIssue(cap, keys, login, days).Ok? <==>
              login.Account? && login.active && |ActiveKeys(keys, login.user)| < cap && 1 <= days <= 365
    ensures CheckIssue(cap, keys, login, days).Ok? ==> CheckIssue(cap, keys, login, days).value == login.user
    ensures CheckIssue(cap, keys, login, days).Err? ==>
              CheckIssue(cap, keys, login, days).error == (
                if login.NoMatch? then InvalidCredentials
                else if !login.active then AccountInactive
                else if |ActiveKeys(keys, login.user)| >= cap then LimitExceeded
                else ExpiryOutOfRange)
  {
  }

  /**
   A key issued for a number of days is let in, while it is not revoked, exactly until that many days
   after it was issued, and as the user who logged in -- whatever else happens in between.
   */
  lemma IssuedKeyIsLetInForItsDays(
    cap: nat, s: State, login: Login, days: int, id: KeyId, hash: KeyHash, now: int, events: seq<Event>, check: int)
    requires Inv(cap, s) && Enabled(s, Issue(login, days, id, hash, now))
    requires login.Account? && login.active && |ActiveKeys(s.keys, login.user)| < cap && 1 <= days <= 365
    requires IsRun(cap, Apply(cap, s, Issue(login, days, id, hash, now)), events)
    ensures var t := After(cap, Apply(cap, s, Issue(login, days, id, hash, now)), events);
            && id in t.keys && t.keys[id].user == login.user
            && (t.keys[id].revokedAt == None ==>
                  (KeyUsed(t.keys, Some(hash), check) == Some(id) <==> check < now + days * 86_400_000_000))
            && (t.keys[id].revokedAt.Some? ==> KeyUsed(t.keys, Some(hash), check) == None)
  {
    var s1 := Apply(cap, s, Issue(login, days, id, hash, now));
    StepKeeps(cap, s, Issue(login, days, id, hash, now));
    KeyKeepsItsTerms(cap, s1, events, id);
    RunKeeps(cap, s1, events);
    var t := After(cap, s1, events);
    LetInIff(t.keys, Some(hash), check, id);
    var found := KeyUsed(t.keys, Some(hash), check);
    if found.Some? {
      assert Accepts(t.keys, Some(hash), check, found.value);
    }
  }

  /** A revoke answers in this order: unknown, another's, or done; and touches no other key. */
  lemma RevokeAnswers(cap: nat, s: State, caller: UserId, id: KeyId, now: int)
    ensures CheckRevoke(s.keys, caller, id) ==
              if id !in s.keys then Err(KeyNotFound)
              else if s.keys[id].user != caller then Err(NotTheOwner)
              else Ok(())
    ensures var t := Apply(cap, s, Revoke(caller, id, now));
            && t.keys.Keys == s.keys.Keys
            && (forall other :: other in s.keys && other != id ==> t.keys[other] == s.keys[other])
            && (id in s.keys && (s.keys[id].user != caller || s.keys[id].revokedAt.Some?) ==> t.keys[id] == s.keys[id])
            && (id in s.keys && s.keys[id].user == caller && s.keys[id].revokedAt == None ==>
                  t.keys[id] == s.keys[id].(revokedAt := Some(now)))
  {
  }

  /** Once a key is revoked, nothing about its row changes again: not the moment, not the counter. */
  lemma {:induction false} RevokedForGood(cap: nat, s: State, events: seq<Event>, id: KeyId)
    requires Inv(cap, s) && IsRun(cap, s, events) && id in s.keys && s.keys[id].revokedAt.Some?
    ensures id in After(cap, s, events).keys && After(cap, s, events).keys[id] == s.keys[id]
    decreases |events|
  {
    if events != [] {
      var n := |events| - 1;
      RevokedForGood(cap, s, events[..n], id);
      RunKeeps(cap, s, events[..n]);
      KeysStay(cap, After(cap, s, events[..n]), events[n], id);
    }
  }

  /** A key is revoked by its owner, or when all of its owner's keys are, at the moment the row records. */
  lemma RevokedAloneOrWithAll(cap: nat, s: State, e: Event, id: KeyId)
    requires Inv(cap, s) && Enabled(s, e) && id in s.keys && s.keys[id].revokedAt.None?
    ensures id in Apply(cap, s, e).keys
    ensures var revokedAt := Apply(cap, s, e).keys[id].revokedAt;
            revokedAt.Some? <==> e == Revoke(s.keys[id].user, id, revokedAt.GetOr(0))
                                 || e == RevokeAll(s.keys[id].user, revokedAt.GetOr(0))
  {
    KeysStay(cap, s, e, id);
    if e.Authenticate? {
      var found := KeyUsed(s.keys, e.header, e.check);
      assert found.Some? ==> Accepts(s.keys, e.header, e.check, found.value);
    }
  }

  /** Revoking all leaves no active key, and changes no revoked key and no other user's key. */
  lemma RevokeAllExact(cap: nat, s: State, user: UserId, now: int, other: UserId)
    requires Enabled(s, RevokeAll(user, now)) && other != user
    ensures var t := Apply(cap, s, RevokeAll(user, now));
            && t.keys.Keys == s.keys.Keys
            && ActiveKeys(t.keys, user) == {}
            && ActiveKeys(t.keys, other) == ActiveKeys(s.keys, other)
            && (forall id :: id in ActiveKeys(s.keys, user) ==> t.keys[id] == s.keys[id].(revokedAt := Some(now)))
            && (forall id :: id in s.keys && id !in ActiveKeys(s.keys, user) ==> t.keys[id] == s.keys[id])
  {
  }

  /** Revoking an active key frees exactly one slot of its owner. */
  lemma RevokeFreesASlot(cap: nat, s: State, id: KeyId, now: int, user: UserId)
    requires Enabled(s, Revoke(user, id, now)) && id in ActiveKeys(s.keys, user)
    ensures var t := Apply(cap, s, Revoke(user, id, now));
            |ActiveKeys(t.keys, user)| == |ActiveKeys(s.keys, user)| - 1
    ensures Inv(cap, s) ==>
              CheckIssue(cap, Apply(cap, s, Revoke(user, id, now)).keys, Account(user, true), MAX_DAYS).Ok?
  {
    var t := Apply(cap, s, Revoke(user, id, now));
    assert ActiveKeys(t.keys, user) == ActiveKeys(s.keys, user) - {id};
  }

  // ----- The usage counter

  ghost predicate Uses(s: State, e: Event, id: KeyId)
  {
    e.Authenticate? && KeyUsed(s.keys, e.header, e.check) == Some(id)
  }

  /** How many requests of the run were let in with this key. */
  ghost function Authentications(cap: nat, s: State, events: seq<Event>, id: KeyId): nat
    decreases |events|
  {
    if events == [] then 0 else
      var n := |events| - 1;
      Authentications(cap, s, events[..n], id) + if Uses(After(cap, s, events[..n]), events[n], id) then 1 else 0
  }

  /** When the last of them was recorded. */
  ghost function LastAuthentication(cap: nat, s: State, events: seq<Event>, id: KeyId): Option<int>
    decreases |events|
  {
    if events == [] then None else
      var n := |events| - 1;
      if Uses(After(cap, s, events[..n]), events[n], id) then Some(events[n].use)
      else LastAuthentication(cap, s, events[..n], id)
  }

  lemma UseIsRecorded(cap: nat, s: State, e: Event, id: KeyId)
    requires Inv(cap, s) && Enabled(s, e)
    ensures var t := Apply(cap, s, e);
            id in t.keys ==>
              && (Uses(s, e, id) ==> id in s.keys && t.keys[id] == Used(s.keys[id], e.use))
              && (!Uses(s, e, id) && id in s.keys ==>
                    t.keys[id].useCount == s.keys[id].useCount && t.keys[id].lastUsedAt == s.keys[id].lastUsedAt)
              && (id !in s.keys ==> t.keys[id].useCount == 0 && t.keys[id].lastUsedAt == None)
  {
    if e.Authenticate? {
      var found := KeyUsed(s.keys, e.header, e.check);
      assert found.Some? ==> Accepts(s.keys, e.header, e.check, found.value);
    }
  }

  /** Keys are never dropped, and only stored ones let requests in. */
  lemma OnlyKnownKeys(cap: nat, s: State, e: Event, id: KeyId)
    ensures id in s.keys ==> id in Apply(cap, s, e).keys
    ensures Uses(s, e, id) ==> id in s.keys
  {
    if Uses(s, e, id) {
      assert Accepts(s.keys, e.header, e.check, id);
    }
  }

  lemma {:induction false} UnknownKeyIsUnused(cap: nat, s: State, events: seq<Event>, id: KeyId)
    requires Inv(cap, s) && IsRun(cap, s, events) && id !in After(cap, s, events).keys
    ensures Authentications(cap, s, events, id) == 0 && LastAuthentication(cap, s, events, id) == None
    decreases |events|
  {
    if events != [] {
      var n := |events| - 1;
      var before := After(cap, s, events[..n]);
      RunKeeps(cap, s, events[..n]);
      OnlyKnownKeys(cap, before, events[n], id);
      UnknownKeyIsUnused(cap, s, events[..n], id);
    }
  }

  /** The counter is the number of requests let in with the key, and the timestamp that of the last one. */
  lemma {:induction false} UsageIsTheHistory(cap: nat, clock: int, events: seq<Event>, id: KeyId)
    requires IsRun(cap, State(map[], clock), events) && id in After(cap, State(map[], clock), events).keys
    ensures var key := After(cap, State(map[], clock), events).keys[id];
            && key.useCount == Authentications(cap, State(map[], clock), events, id)
            && key.lastUsedAt == LastAuthentication(cap, State(map[], clock), events, id)
    decreases |events|
  {
    var s := State(map[], clock);
    if events != [] {
      var n := |events| - 1;
      var before := After(cap, s, events[..n]);
      RunKeeps(cap, s, events[..n]);
      UseIsRecorded(cap, before, events[n], id);
      if id in before.keys {
        UsageIsTheHistory(cap, clock, events[..n], id);
      } else {
        UnknownKeyIsUnused(cap, s, events[..n], id);
      }
    }
  }
}
