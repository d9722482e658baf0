/** What every command keeps, and what therefore holds in every reachable state. */
module OrganizationSafety {
  import opened Common
  import opened OrganizationModel

  ghost predicate UniqueRows(ms: Memberships)
  {
    forall o, u, a, b :: IsRowFor(ms, o, u, a) && IsRowFor(ms, o, u, b) ==> a == b
  }

  predicate UniqueUsernames(users: Users)
  {
    forall u, v :: u in users && v in users && users[u].username == users[v].username ==> u == v
  }

  predicate ForeignKeys(db: Tables)
  {
    && (forall id :: id in db.memberships ==>
          && db.memberships[id].organizationId in db.organizations
          && db.memberships[id].userId in db.users
          && db.memberships[id].invitedBy in db.users)
    && (forall o :: o in db.organizations ==> db.organizations[o].createdBy in db.users)
  }

  /** A pending row lapses one TTL after it was sent; an accepted one was accepted before that. */
  predicate WellDated(m: Membership, ttl: nat, clock: int)
  {
    && m.createdAt <= clock
    && match m.acceptedAt
       case None => m.expiresAt == Some(m.createdAt + ttl)
       case Some(at) => m.expiresAt == None && m.createdAt <= at < m.createdAt + ttl && at <= clock
  }

  predicate AllWellDated(ms: Memberships, ttl: nat, clock: int)
  {
    forall id :: id in ms ==> WellDated(ms[id], ttl, clock)
  }

  predicate HasOwner(ms: Memberships, o: OrganizationId)
  {
    exists id :: id in ms && IsAcceptedOwner(ms, o, id)
  }

  predicate AllOwned(organizations: set<OrganizationId>, ms: Memberships)
  {
    forall o :: o in organizations ==> HasOwner(ms, o)
  }

  /** The part of the invariant that the tables carry on their own. */
  ghost predicate TablesInv(db: Tables, ttl: nat, clock: int)
  {
    && UniqueRows(db.memberships) && UniqueUsernames(db.users) && ForeignKeys(db)
    && AllWellDated(db.memberships, ttl, clock) && AllOwned(db.organizations.Keys, db.memberships)
  }

  ghost predicate Inv(w: World, ttl: nat)
  {
    && TablesInv(w.db, ttl, w.clock)
    && w.db.memberships.Keys <= w.issued && w.db.organizations.Keys <= w.issued
  }

  // ----- Lookups under the unique constraints

  lemma RowForIs(ms: Memberships, o: OrganizationId, u: UserId, id: MembershipId)
    requires UniqueRows(ms) && IsRowFor(ms, o, u, id)
    ensures RowFor(ms, o, u) == Some(id)
  {
  }

  lemma RowForIff(ms: Memberships, o: OrganizationId, u: UserId)
    ensures match RowFor(ms, o, u)
            case Some(id) => IsRowFor(ms, o, u, id)
            case None => forall id :: !IsRowFor(ms, o, u, id)
  {
  }

  lemma FindByUsernameIff(users: Users, name: string)
    ensures match FindByUsername(users, name)
            case Some(u) => u in users && users[u].username == name
            case None => forall u :: u in users ==> users[u].username != name
  {
  }

  function Rank(r: Role): nat
  {
    match r case Owner => 2 case Admin => 1 case Member => 0
  }

  lemma HierarchyIsRank(minimum: Role)
    ensures forall r :: CanAccess(Some(r), minimum) <==> Rank(r) >= Rank(minimum)
  {
  }

  /** Passing the role check means holding an accepted row of at least that role. */
  lemma RequireRoleIff(db: Tables, caller: UserId, o: OrganizationId, minimum: Role)
    requires UniqueRows(db.memberships)
    ensures RequireRole(db, caller, o, minimum).Ok? <==>
              && IsActive(db.users, caller)
              && exists id :: IsRowFor(db.memberships, o, caller, id)
                   && db.memberships[id].IsAccepted() && Rank(db.memberships[id].role) >= Rank(minimum)
    ensures RequireRole(db, caller, o, minimum).Ok? ==> RequireRole(db, caller, o, minimum) == Ok(caller)
  {
    RowForIff(db.memberships, o, caller);
    HierarchyIsRank(minimum);
    if id :| IsRowFor(db.memberships, o, caller, id) {
      RowForIs(db.memberships, o, caller, id);
    }
  }

  // ----- Changing one row

  /** Rows that were there before, unchanged, keep the unique constraint. */
  lemma FewerRows(ms: Memberships, ms': Memberships)
    requires UniqueRows(ms) && forall id :: id in ms' ==> id in ms && ms'[id] == ms[id]
    ensures UniqueRows(ms')
  {
    forall o, u, a, b | IsRowFor(ms', o, u, a) && IsRowFor(ms', o, u, b) ensures a == b {
      assert IsRowFor(ms, o, u, a) && IsRowFor(ms, o, u, b);
    }
  }

  lemma PutRow(ms: Memberships, id: MembershipId, m: Membership)
    requires UniqueRows(ms)
    requires forall other :: IsRowFor(ms, m.organizationId, m.userId, other) ==> other == id
    ensures UniqueRows(ms[id := m])
  {
    var ms' := ms[id := m];
    forall o, u, a, b | IsRowFor(ms', o, u, a) && IsRowFor(ms', o, u, b) ensures a == b {
      assert a != id ==> IsRowFor(ms, o, u, a);
      assert b != id ==> IsRowFor(ms, o, u, b);
    }
  }

  lemma AnotherActiveOwner(users: Users, ms: Memberships, o: OrganizationId, id: MembershipId)
    requires |ActiveOwners(users, ms, o)| >= 2
    ensures exists other :: other in ActiveOwners(users, ms, o) && other != id
  {
    var owners := ActiveOwners(users, ms, o);
    assert |owners - {id}| >= 1;
    var other :| other in owners - {id};
    assert other in owners;
  }

  /** An accepted owner's row may lose that standing only while a second, active owner is there. */
  predicate MayLoseOwner(db: Tables, o: OrganizationId, id: MembershipId)
  {
    IsAcceptedOwner(db.memberships, o, id) ==> CountOwners(db, o) >= 2
  }

  lemma OwnersAfterPut(db: Tables, id: MembershipId, m: Membership)
    requires AllOwned(db.organizations.Keys, db.memberships)
    requires id in db.memberships ==> db.memberships[id].organizationId == m.organizationId
    requires (m.role == Owner && m.IsAccepted()) || MayLoseOwner(db, m.organizationId, id)
    ensures AllOwned(db.organizations.Keys, db.memberships[id := m])
  {
    var ms, ms' := db.memberships, db.memberships[id := m];
    forall o | o in db.organizations ensures HasOwner(ms', o) {
      var owner :| owner in ms && IsAcceptedOwner(ms, o, owner);
      if owner != id {
        assert IsAcceptedOwner(ms', o, owner);
      } else if m.role == Owner && m.IsAccepted() {
        assert IsAcceptedOwner(ms', o, id);
      } else {
        AnotherActiveOwner(db.users, ms, o, id);
        var other :| other in ActiveOwners(db.users, ms, o) && other != id;
        assert IsAcceptedOwner(ms', o, other);
      }
    }
  }

  lemma OwnersAfterDelete(db: Tables, id: MembershipId)
    requires AllOwned(db.organizations.Keys, db.memberships) && id in db.memberships
    requires MayLoseOwner(db, db.memberships[id].organizationId, id)
    ensures AllOwned(db.organizations.Keys, db.memberships - {id})
  {
    var ms, ms' := db.memberships, db.memberships - {id};
    forall o | o in db.organizations ensures HasOwner(ms', o) {
      var owner :| owner in ms && IsAcceptedOwner(ms, o, owner);
      if owner != id {
        assert IsAcceptedOwner(ms', o, owner);
      } else {
        AnotherActiveOwner(db.users, ms, o, id);
        var other :| other in ActiveOwners(db.users, ms, o) && other != id;
        assert IsAcceptedOwner(ms', o, other);
      }
    }
  }

  lemma DatesAfterPut(ms: Memberships, clock: int, now: int, ttl: nat, id: MembershipId, m: Membership)
    requires AllWellDated(ms, ttl, clock) && now >= clock && WellDated(m, ttl, now)
    ensures AllWellDated(ms[id := m], ttl, now)
  {
  }

  lemma KeysAfterPut(db: Tables, id: MembershipId, m: Membership)
    requires ForeignKeys(db)
    requires m.organizationId in db.organizations && m.userId in db.users && m.invitedBy in db.users
    ensures ForeignKeys(AddMembership(db, id, m))
  {
  }

  // ----- Writes that keep the tables in order

  /** The conditions under which a write keeps the tables in order. */
  ghost predicate Legal(db: Tables, w: Write, ttl: nat, now: int)
  {
    match w
    case Nothing => true
    case Put(id, m) =>
      && (forall other :: IsRowFor(db.memberships, m.organizationId, m.userId, other) ==> other == id)
      && m.organizationId in db.organizations && m.userId in db.users && m.invitedBy in db.users
      && WellDated(m, ttl, now)
      && (id in db.memberships ==> IsRowFor(db.memberships, m.organizationId, m.userId, id))
      && ((m.role == Owner && m.IsAccepted()) || MayLoseOwner(db, m.organizationId, id))
    case Drop(id) => id in db.memberships && MayLoseOwner(db, db.memberships[id].organizationId, id)
    case Found(o, record, id, m) =>
      && o !in db.organizations && id !in db.memberships
      && m.organizationId == o && IsActive(db.users, m.userId) && m.invitedBy == record.createdBy == m.userId
      && m.role == Owner && m.IsAccepted() && WellDated(m, ttl, now)
    case Dissolve(o) => true
  }

  lemma PutKeeps(db: Tables, clock: int, now: int, ttl: nat, id: MembershipId, m: Membership)
    requires TablesInv(db, ttl, clock) && now >= clock && Legal(db, Put(id, m), ttl, now)
    ensures TablesInv(AddMembership(db, id, m), ttl, now)
  {
    PutRow(db.memberships, id, m);
    DatesAfterPut(db.memberships, clock, now, ttl, id, m);
    KeysAfterPut(db, id, m);
    OwnersAfterPut(db, id, m);
  }

  lemma DropKeeps(db: Tables, clock: int, now: int, ttl: nat, id: MembershipId)
    requires TablesInv(db, ttl, clock) && now >= clock && Legal(db, Drop(id), ttl, now)
    ensures TablesInv(DeleteMembership(db, id), ttl, now)
  {
    FewerRows(db.memberships, db.memberships - {id});
    OwnersAfterDelete(db, id);
  }

  lemma NoRowsYet(db: Tables, o: OrganizationId)
    requires ForeignKeys(db) && o !in db.organizations
    ensures forall u, id :: !IsRowFor(db.memberships, o, u, id)
  {
  }

  lemma FoundKeeps(db: Tables, clock: int, now: int, ttl: nat, w: Write)
    requires TablesInv(db, ttl, clock) && now >= clock && w.Found? && Legal(db, w, ttl, now)
    ensures TablesInv(Commit(db, w), ttl, now)
  {
    var db1 := db.(organizations := db.organizations[w.organization := w.record]);
    NoRowsYet(db, w.organization);
    PutRow(db.memberships, w.id, w.row);
    DatesAfterPut(db.memberships, clock, now, ttl, w.id, w.row);
    KeysAfterPut(db1, w.id, w.row);
    OwnersAfterPut(db, w.id, w.row);
    assert IsAcceptedOwner(Commit(db, w).memberships, w.organization, w.id);
  }

  lemma OwnersAfterCascade(organizations: set<OrganizationId>, ms: Memberships, o: OrganizationId)
    requires AllOwned(organizations, ms)
    ensures AllOwned(organizations - {o}, WithoutOrganization(ms, o))
  {
    forall p | p in organizations - {o} ensures HasOwner(WithoutOrganization(ms, o), p) {
      var owner :| owner in ms && IsAcceptedOwner(ms, p, owner);
      assert IsAcceptedOwner(WithoutOrganization(ms, o), p, owner);
    }
  }

  lemma KeysAfterCascade(db: Tables, clock: int, now: int, ttl: nat, o: OrganizationId)
    requires ForeignKeys(db) && AllWellDated(db.memberships, ttl, clock) && now >= clock
    ensures ForeignKeys(DeleteOrganization(db, o)) && AllWellDated(WithoutOrganization(db.memberships, o), ttl, now)
  {
  }

  lemma DissolveKeeps(db: Tables, clock: int, now: int, ttl: nat, o: OrganizationId)
    requires TablesInv(db, ttl, clock) && now >= clock
    ensures TablesInv(DeleteOrganization(db, o), ttl, now)
  {
    FewerRows(db.memberships, WithoutOrganization(db.memberships, o));
    KeysAfterCascade(db, clock, now, ttl, o);
    OwnersAfterCascade(db.organizations.Keys, db.memberships, o);
    assert DeleteOrganization(db, o).organizations.Keys == db.organizations.Keys - {o};
  }

  lemma TimePasses(db: Tables, clock: int, now: int, ttl: nat)
    requires TablesInv(db, ttl, clock) && now >= clock
    ensures TablesInv(db, ttl, now)
  {
  }

  lemma LegalWriteKeeps(db: Tables, clock: int, now: int, ttl: nat, w: Write)
    requires TablesInv(db, ttl, clock) && now >= clock && Legal(db, w, ttl, now)
    ensures TablesInv(Commit(db, w), ttl, now)
  {
    match w
    case Nothing => TimePasses(db, clock, now, ttl);
    case Put(id, row) => PutKeeps(db, clock, now, ttl, id, row);
    case Drop(id) => DropKeeps(db, clock, now, ttl, id);
    case Found(_, _, _, _) => FoundKeeps(db, clock, now, ttl, w);
    case Dissolve(o) => DissolveKeeps(db, clock, now, ttl, o);
  }

  // ----- Every command commits one legal write

  lemma InviteIsLegal(
    db: Tables, caller: UserId, now: int, ttl: nat, o: OrganizationId, username: Option<string>, role: Role,
    newId: MembershipId)
    requires UniqueRows(db.memberships) && newId !in db.memberships
    ensures Legal(db, WriteOf(ExecInvite(db, caller, now, ttl, o, username, role, newId)), ttl, now)
  {
    var r := ExecInvite(db, caller, now, ttl, o, username, role, newId);
    if r.Ok? {
      var invitee := r.value.response.invitee;
      RequireRoleIff(db, caller, o, Admin);
      RowForIff(db.memberships, o, invitee);
      forall other | IsRowFor(db.memberships, o, invitee, other) ensures other == r.value.write.id {
        RowForIs(db.memberships, o, invitee, other);
      }
    }
  }

  lemma SameRow(ms: Memberships, id: MembershipId)
    requires UniqueRows(ms) && id in ms
    ensures forall other :: IsRowFor(ms, ms[id].organizationId, ms[id].userId, other) ==> other == id
  {
    forall other | IsRowFor(ms, ms[id].organizationId, ms[id].userId, other) ensures other == id {
      assert IsRowFor(ms, ms[id].organizationId, ms[id].userId, id);
    }
  }

  /** Updating a row in place, leaving its organization, user and inviter as they are. */
  lemma UpdateIsLegal(db: Tables, now: int, ttl: nat, id: MembershipId, m: Membership)
    requires UniqueRows(db.memberships) && ForeignKeys(db) && id in db.memberships
    requires m == db.memberships[id].(role := m.role, acceptedAt := m.acceptedAt, expiresAt := m.expiresAt)
    requires WellDated(m, ttl, now)
    requires (m.role == Owner && m.IsAccepted()) || MayLoseOwner(db, m.organizationId, id)
    ensures Legal(db, Put(id, m), ttl, now)
  {
    SameRow(db.memberships, id);
  }

  lemma AcceptIsLegal(db: Tables, clock: int, caller: UserId, now: int, ttl: nat, o: OrganizationId, id: MembershipId)
    requires UniqueRows(db.memberships) && ForeignKeys(db) && AllWellDated(db.memberships, ttl, clock) && now >= clock
    ensures Legal(db, WriteOf(ExecAccept(db, caller, now, o, id)), ttl, now)
  {
    var write := WriteOf(ExecAccept(db, caller, now, o, id));
    if write.Put? {
      UpdateIsLegal(db, now, ttl, id, write.row);
    }
  }

  /** What a successful role change has checked. */
  predicate RoleChangeChecked(db: Tables, o: OrganizationId, id: MembershipId, role: Role, r: Outcome)
  {
    r.Ok? ==>
      && id in db.memberships && db.memberships[id].organizationId == o
      && r.value.write == Put(id, db.memberships[id].(role := role))
      && (role == Owner || MayLoseOwner(db, o, id))
  }

  lemma ChangeRoleChecks(db: Tables, caller: UserId, o: OrganizationId, id: MembershipId, role: Role)
    ensures RoleChangeChecked(db, o, id, role, ExecChangeRole(db, caller, o, id, role))
  {
  }

  lemma NewRoleIsLegal(db: Tables, clock: int, now: int, ttl: nat, id: MembershipId, role: Role)
    requires UniqueRows(db.memberships) && ForeignKeys(db) && AllWellDated(db.memberships, ttl, clock) && now >= clock
    requires id in db.memberships && (role == Owner || MayLoseOwner(db, db.memberships[id].organizationId, id))
    ensures Legal(db, Put(id, db.memberships[id].(role := role)), ttl, now)
  {
    var m := db.memberships[id].(role := role);
    assert WellDated(m, ttl, now);
    if !m.IsAccepted() {
      assert MayLoseOwner(db, m.organizationId, id);
    }
    UpdateIsLegal(db, now, ttl, id, m);
  }

  lemma ChangeRoleIsLegal(
    db: Tables, clock: int, caller: UserId, now: int, ttl: nat, o: OrganizationId, id: MembershipId, role: Role)
    requires UniqueRows(db.memberships) && ForeignKeys(db) && AllWellDated(db.memberships, ttl, clock) && now >= clock
    ensures Legal(db, WriteOf(ExecChangeRole(db, caller, o, id, role)), ttl, now)
  {
    ChangeRoleChecks(db, caller, o, id, role);
    if ExecChangeRole(db, caller, o, id, role).Ok? {
      NewRoleIsLegal(db, clock, now, ttl, id, role);
    }
  }

  lemma RemoveIsLegal(db: Tables, caller: UserId, now: int, ttl: nat, o: OrganizationId, id: MembershipId)
    ensures Legal(db, WriteOf(ExecRemove(db, caller, o, id)), ttl, now)
    ensures Legal(db, WriteOf(ExecDecline(db, caller, o, id)), ttl, now)
  {
  }

  lemma CreateIsLegal(
    w: World, caller: UserId, now: int, ttl: nat, name: Option<string>, o: OrganizationId, id: MembershipId)
    requires Inv(w, ttl) && ttl > 0 && {o, id} !! w.issued
    ensures Legal(w.db, WriteOf(ExecCreate(w.db.users, caller, now, name, o, id)), ttl, now)
  {
  }

  lemma DeleteIsLegal(db: Tables, caller: UserId, now: int, ttl: nat, o: OrganizationId)
    ensures Legal(db, WriteOf(ExecDelete(db, caller, o)), ttl, now)
  {
  }

  lemma MembershipCommandIsLegal(db: Tables, clock: int, caller: UserId, now: int, ttl: nat, c: Command)
    requires UniqueRows(db.memberships) && ForeignKeys(db) && AllWellDated(db.memberships, ttl, clock) && now >= clock
    requires c.Decline? || c.Remove? || c.ChangeRole? || c.Delete?
    ensures Legal(db, WriteOf(Execute(db, caller, now, ttl, c)), ttl, now)
  {
    match c
    case Decline(o, m) => RemoveIsLegal(db, caller, now, ttl, o, m);
    case Remove(o, m) => RemoveIsLegal(db, caller, now, ttl, o, m);
    case ChangeRole(o, m, role) => ChangeRoleIsLegal(db, clock, caller, now, ttl, o, m, role);
    case Delete(o) => DeleteIsLegal(db, caller, now, ttl, o);
  }

  lemma InvitationCommandIsLegal(w: World, caller: UserId, now: int, ttl: nat, c: Command)
    requires Inv(w, ttl) && now >= w.clock && NewIds(c) !! w.issued && (c.Invite? || c.Accept?)
    ensures Legal(w.db, WriteOf(Execute(w.db, caller, now, ttl, c)), ttl, now)
  {
    match c
    case Invite(o, username, role, m) => InviteIsLegal(w.db, caller, now, ttl, o, username, role, m);
    case Accept(o, m) => AcceptIsLegal(w.db, w.clock, caller, now, ttl, o, m);
  }

  lemma CommandIsLegal(w: World, caller: UserId, now: int, ttl: nat, c: Command)
    requires Inv(w, ttl) && ttl > 0 && now >= w.clock && NewIds(c) !! w.issued
    ensures Legal(w.db, WriteOf(Execute(w.db, caller, now, ttl, c)), ttl, now)
  {
    if c.Create? {
      CreateIsLegal(w, caller, now, ttl, c.name, c.newOrganization, c.newMembership);
    } else if c.Invite? || c.Accept? {
      InvitationCommandIsLegal(w, caller, now, ttl, c);
    } else {
      MembershipCommandIsLegal(w.db, w.clock, caller, now, ttl, c);
    }
  }

  lemma CommandKeeps(w: World, now: int, ttl: nat, caller: UserId, c: Command)
    requires Inv(w, ttl) && ttl > 0 && now >= w.clock && NewIds(c) !! w.issued
    ensures TablesInv(Commit(w.db, WriteOf(Execute(w.db, caller, now, ttl, c))), ttl, now)
  {
    CommandIsLegal(w, caller, now, ttl, c);
    LegalWriteKeeps(w.db, w.clock, now, ttl, WriteOf(Execute(w.db, caller, now, ttl, c)));
  }

  /** Identifiers in the tables were there before or were generated for this command. */
  lemma CommandIds(db: Tables, now: int, ttl: nat, caller: UserId, c: Command)
    ensures var db' := Commit(db, WriteOf(Execute(db, caller, now, ttl, c)));
            && db'.memberships.Keys <= db.memberships.Keys + NewIds(c)
            && db'.organizations.Keys <= db.organizations.Keys + NewIds(c)
            && db'.users == db.users
  {
    if c.Invite? && c.username.Some? {
      var invitee := FindByUsername(db.users, c.username.value);
      if invitee.Some? { RowForIff(db.memberships, c.organization, invitee.value); }
    }
  }

  lemma StepKeeps(w: World, e: Event, ttl: nat)
    requires Inv(w, ttl) && ttl > 0 && Enabled(w, e)
    ensures Inv(Next(w, e, ttl), ttl)
  {
    match e.action
    case Run(caller, c) =>
      CommandKeeps(w, e.now, ttl, caller, c);
      CommandIds(w.db, e.now, ttl, caller, c);
    case SetActive(_, _) =>
    case Register(_, _) =>
  }

  lemma {:induction false} RunKeeps(w: World, events: seq<Event>, ttl: nat, i: nat)
    requires Inv(w, ttl) && ttl > 0 && IsRun(w, events, ttl) && i <= |events|
    ensures Inv(Trace(w, events, ttl)[i], ttl)
    decreases i
  {
    if i > 0 {
      RunKeeps(w, events, ttl, i - 1);
      TraceStep(w, events, ttl, i - 1);
      StepKeeps(Trace(w, events, ttl)[i - 1], events[i - 1], ttl);
    }
  }

  /** The invariant of every reachable state, from an empty database. */
  lemma ReachableStates(clock: int, events: seq<Event>, ttl: nat)
    requires ttl > 0 && IsRun(Start(clock), events, ttl)
    ensures var w := After(Start(clock), events, ttl);
            && UniqueRows(w.db.memberships) && ForeignKeys(w.db)
            && AllWellDated(w.db.memberships, ttl, w.clock) && AllOwned(w.db.organizations.Keys, w.db.memberships)
  {
    RunKeeps(Start(clock), events, ttl, |events|);
  }
}
