/** The API key commands as they run: tracked keys updated in place, and one commit that stores them. */
module ApiKeyService {
  import opened Common
  import opened Clock
  import opened ApiKeys

  class ApiKey {
    const id: KeyId
    const user: UserId
    const hash: KeyHash
    const createdAt: int
    const expiresAt: int
    var revokedAt: Option<int>
    var useCount: nat
    var lastUsedAt: Option<int>

    constructor (id: KeyId, user: UserId, hash: KeyHash, createdAt: int, expiresAt: int)
      ensures this.id == id && Row() == Key(user, hash, createdAt, expiresAt, None, 0, None)
    {
      this.id, this.user, this.hash, this.createdAt, this.expiresAt := id, user, hash, createdAt, expiresAt;
      revokedAt, useCount, lastUsedAt := None, 0, None;
    }

    function Row(): Key
      reads this
    {
      Key(user, hash, createdAt, expiresAt, revokedAt, useCount, lastUsedAt)
    }

    predicate IsRevoked()
      reads this
    {
      revokedAt.Some?
    }

    predicate IsExpired(now: int) {
      now >= expiresAt
    }

    method Revoke(now: int)
      modifies this
      ensures Row() == old(Row()).(revokedAt := Some(now))
    {
      revokedAt := Some(now);
    }

    method RecordUse(now: int)
      modifies this
      ensures Row() == Used(old(Row()), now)
    {
      useCount := useCount + 1;
      lastUsedAt := Some(now);
    }
  }

  /** A database session: the keys it tracks, and the rows its last commit stored. */
  class ApiKeyRepository {
    var tracked: map<KeyId, ApiKey>
    var rows: Keys

    constructor ()
      ensures Valid() && rows == map[] && View() == map[]
    {
      tracked, rows := map[], map[];
    }

    predicate Valid()
      reads this
    {
      forall id :: id in tracked ==> tracked[id].id == id
    }

    function View(): Keys
      reads this, tracked.Values
    {
      map id | id in tracked :: tracked[id].Row()
    }

    method Add(key: ApiKey)
      requires Valid()
      modifies this`tracked
      ensures Valid() && tracked == old(tracked)[key.id := key]
    {
      tracked := tracked[key.id := key];
    }

    method GetById(id: KeyId) returns (key: ApiKey?)
      ensures key == if id in tracked then tracked[id] else null
    {
      key := if id in tracked then tracked[id] else null;
    }

    method GetByKeyHash(hash: KeyHash) returns (key: ApiKey?)
      requires Valid()
      ensures key != null ==> key.id in tracked && tracked[key.id] == key && key.hash == hash
      ensures key == null ==> HashIsNew(View(), hash)
    {
      if id :| id in tracked && tracked[id].hash == hash {
        key := tracked[id];
      } else {
        key := null;
      }
    }

    method CountActiveForUser(user: UserId) returns (count: nat)
      ensures count == |ActiveKeys(View(), user)|
    {
      count := |set id | id in tracked && tracked[id].user == user && tracked[id].revokedAt.None?|;
      assert ActiveKeys(View(), user)
          == set id | id in tracked && tracked[id].user == user && tracked[id].revokedAt.None?;
    }

    /** Loads the user's active keys and revokes them one by one. */
    method RevokeAllForUser(user: UserId, clock: UtcClock) returns (now: int)
      requires Valid()
      modifies tracked.Values, clock
      ensures now == clock.now >= old(clock.now)
      ensures View() == AllRevoked(old(View()), user, now)
    {
      now := clock.Read();
      var selected := set id | id in tracked && tracked[id].user == user && tracked[id].revokedAt.None?;
      var left := selected;
      while left != {}
        invariant left <= selected
        invariant forall id :: id in tracked ==>
                    tracked[id].Row() ==
                      if id in selected - left then old(tracked[id].Row()).(revokedAt := Some(now))
                      else old(tracked[id].Row())
        decreases left
        modifies tracked.Values
      {
        var id :| id in left;
        tracked[id].Revoke(now);
        left := left - {id};
      }
    }

    method Commit()
      modifies this`rows
      ensures rows == View()
    {
      rows := View();
    }
  }

  /** What the commands see: everything stored, at the latest clock reading. */
  ghost function StateOf(repository: ApiKeyRepository, clock: UtcClock): State
    reads repository, repository.tracked.Values, clock
  {
    State(repository.View(), clock.now)
  }

  /** The request's session has nothing uncommitted. */
  ghost predicate InSync(repository: ApiKeyRepository)
    reads repository, repository.tracked.Values
  {
    repository.Valid() && repository.rows == repository.View()
  }

  method AddAndCommit(repository: ApiKeyRepository, key: ApiKey)
    requires repository.Valid() && key.id !in repository.tracked
    modifies repository
    ensures InSync(repository) && repository.tracked == old(repository.tracked)[key.id := key]
    ensures repository.View() == old(repository.View())[key.id := key.Row()]
  {
    repository.Add(key);
    repository.Commit();
  }

  method IssueApiKey(
    repository: ApiKeyRepository, clock: UtcClock, cap: nat, login: Login, days: int, id: KeyId, hash: KeyHash)
    returns (result: Result<KeyId, IssueError>)
    requires InSync(repository) && id !in repository.tracked && HashIsNew(repository.View(), hash)
    modifies repository, clock
    ensures InSync(repository) && clock.now >= old(clock.now)
    ensures StateOf(repository, clock)
         == Apply(cap, old(StateOf(repository, clock)), Issue(login, days, id, hash, clock.now))
    ensures result == match CheckIssue(cap, old(repository.View()), login, days)
                      case Err(e) => Err(e)
                      case Ok(_) => Ok(id)
    ensures fresh(repository.tracked.Values - old(repository.tracked.Values))
    ensures if result.Ok? then
              && login.Account? && repository.tracked.Keys == old(repository.tracked.Keys) + {id}
              && (forall other :: other in old(repository.tracked) ==>
                    repository.tracked[other] == old(repository.tracked[other]))
              && repository.rows.Keys == repository.tracked.Keys
              && repository.rows[id].user == login.user && repository.rows[id].hash == hash
              && repository.rows[id].createdAt == clock.now
              && repository.rows[id].expiresAt == clock.now + days * 86_400_000_000
              && repository.rows[id].revokedAt == None && repository.rows[id].useCount == 0
              && repository.rows[id].lastUsedAt == None
            else repository.tracked == old(repository.tracked) && repository.rows == old(repository.rows)
  {
    if login.NoMatch? { return Err(InvalidCredentials); }
    if !login.active { return Err(AccountInactive); }
    var count := repository.CountActiveForUser(login.user);
    if count >= cap { return Err(LimitExceeded); }
    if !(MIN_DAYS <= days <= MAX_DAYS) { return Err(ExpiryOutOfRange); }
    var now := clock.Read();
    var key := new ApiKey(id, login.user, hash, now, now + days * MICROSECONDS_PER_DAY);
    AddAndCommit(repository, key);
    result := Ok(id);
  }

  method RecordUseAndCommit(repository: ApiKeyRepository, key: ApiKey, now: int)
    requires repository.Valid() && key.id in repository.tracked && repository.tracked[key.id] == key
    modifies repository, key
    ensures InSync(repository) && repository.tracked == old(repository.tracked)
    ensures repository.View() == old(repository.View())[key.id := Used(old(key.Row()), now)]
  {
    key.RecordUse(now);
    repository.Commit();
  }

  lemma NoCandidate(keys: Keys, header: Option<KeyHash>, check: int)
    requires header.Some? ==> HashIsNew(keys, header.value)
    ensures KeyUsed(keys, header, check) == None
  {
  }

  /** When a key has the hash that was sent, it alone decides. */
  lemma OnlyCandidate(keys: Keys, header: Option<KeyHash>, check: int, id: KeyId)
    requires UniqueHashes(keys) && id in keys && header == Some(keys[id].hash)
    ensures KeyUsed(keys, header, check)
         == if keys[id].revokedAt.None? && check < keys[id].expiresAt then Some(id) else None
  {
    LetInIff(keys, header, check, id);
    var found := KeyUsed(keys, header, check);
    if found.Some? {
      assert Accepts(keys, header, check, found.value);
    }
  }

  /** The three tests a key has to pass, in order; the clock is read only for the last. */
  method FindValidKey(repository: ApiKeyRepository, clock: UtcClock, header: Option<KeyHash>)
    returns (key: ApiKey?, ghost check: int)
    requires repository.Valid() && UniqueHashes(repository.View())
    modifies clock
    ensures old(clock.now) <= check == clock.now
    ensures key != null ==> key.id in repository.tracked && repository.tracked[key.id] == key
    ensures KeyUsed(repository.View(), header, check) == if key == null then None else Some(key.id)
  {
    ghost var keys := repository.View();
    check := clock.now;
    if header.None? { return null, check; }
    key := repository.GetByKeyHash(header.value);
    if key == null {
      NoCandidate(keys, header, check);
      return null, check;
    }
    assert keys[key.id] == key.Row();
    OnlyCandidate(keys, header, check, key.id);
    if key.IsRevoked() { return null, check; }
    var now := clock.Read();
    check := now;
    OnlyCandidate(keys, header, check, key.id);
    if key.IsExpired(now) { return null, check; }
  }

  method GetCurrentUserId(repository: ApiKeyRepository, clock: UtcClock, ghost cap: nat, header: Option<KeyHash>)
    returns (user: Option<UserId>, ghost check: int)
    requires InSync(repository) && UniqueHashes(repository.View())
    modifies repository, repository.tracked.Values, clock
    ensures InSync(repository) && repository.tracked == old(repository.tracked)
    ensures old(clock.now) <= check <= clock.now
    ensures StateOf(repository, clock)
         == Apply(cap, old(StateOf(repository, clock)), Authenticate(header, check, clock.now))
    ensures var used := KeyUsed(old(repository.View()), header, check);
            user == if used.Some? then Some(old(repository.View())[used.value].user) else None
  {
    ghost var keys := repository.View();
    var key: ApiKey?;
    key, check := FindValidKey(repository, clock, header);
    if key == null { return None, check; }
    assert keys[key.id] == key.Row();
    var now := clock.Read();
    RecordUseAndCommit(repository, key, now);
    user := Some(key.user);
  }

  method RevokeAndCommit(repository: ApiKeyRepository, key: ApiKey, now: int)
    requires repository.Valid() && key.id in repository.tracked && repository.tracked[key.id] == key
    modifies repository, key
    ensures InSync(repository) && repository.tracked == old(repository.tracked)
    ensures repository.View() == old(repository.View())[key.id := old(key.Row()).(revokedAt := Some(now))]
  {
    key.Revoke(now);
    repository.Commit();
  }

  method RevokeApiKey(repository: ApiKeyRepository, clock: UtcClock, ghost cap: nat, caller: UserId, id: KeyId)
    returns (result: Result<(), RevokeError>)
    requires InSync(repository)
    modifies repository, repository.tracked.Values, clock
    ensures InSync(repository) && repository.tracked == old(repository.tracked) && clock.now >= old(clock.now)
    ensures StateOf(repository, clock) == Apply(cap, old(StateOf(repository, clock)), Revoke(caller, id, clock.now))
    ensures result == CheckRevoke(old(repository.View()), caller, id)
  {
    var key := repository.GetById(id);
    if key == null { return Err(KeyNotFound); }
    if key.user != caller { return Err(NotTheOwner); }
    if !key.IsRevoked() {
      var now := clock.Read();
      RevokeAndCommit(repository, key, now);
    }
    result := Ok(());
  }

  method RemoveAllUserAccess(repository: ApiKeyRepository, clock: UtcClock, ghost cap: nat, user: UserId)
    requires InSync(repository)
    modifies repository, repository.tracked.Values, clock
    ensures InSync(repository) && repository.tracked == old(repository.tracked) && clock.now >= old(clock.now)
    ensures StateOf(repository, clock) == Apply(cap, old(StateOf(repository, clock)), RevokeAll(user, clock.now))
  {
    var now := repository.RevokeAllForUser(user, clock);
    repository.Commit();
  }
}
