/** Active owners, the last-owner guard, and who may write which row. */
module OrganizationOwners {
  import opened Common
  import opened OrganizationModel
  import opened OrganizationSafety

  predicate HasActiveOwner(db: Tables, o: OrganizationId)
  {
    ActiveOwners(db.users, db.memberships, o) != {}
  }

  lemma LegalWriteKeepsActiveOwner(db: Tables, w: Write, ttl: nat, now: int, o: OrganizationId)
    requires Legal(db, w, ttl, now) && w != Dissolve(o)
    requires HasActiveOwner(db, o) || (w.Found? && w.organization == o)
    ensures HasActiveOwner(Commit(db, w), o)
  {
    var ms, ms' := db.memberships, Commit(db, w).memberships;
    if w.Found? && w.organization == o {
      assert w.id in ActiveOwners(db.users, ms', o);
    } else {
      var owner :| owner in ActiveOwners(db.users, ms, o);
      if owner in ms' && ms'[owner] == ms[owner] {
        assert owner in ActiveOwners(db.users, ms', o);
      } else if w.Put? && w.row.role == Owner && w.row.IsAccepted() {
        assert owner in ActiveOwners(db.users, ms', o);
      } else {
        AnotherActiveOwner(db.users, ms, o, owner);
        var other :| other in ActiveOwners(db.users, ms, o) && other != owner;
        assert other in ActiveOwners(db.users, ms', o);
      }
    }
  }

  /** No command takes the last active owner away from an organization it leaves in place. */
  lemma CommandsKeepActiveOwner(w: World, caller: UserId, now: int, ttl: nat, c: Command, o: OrganizationId)
    requires Inv(w, ttl) && ttl > 0 && now >= w.clock && NewIds(c) !! w.issued
    requires o in w.db.organizations ==> HasActiveOwner(w.db, o)
    ensures var db' := Commit(w.db, WriteOf(Execute(w.db, caller, now, ttl, c)));
            o in db'.organizations ==> HasActiveOwner(db', o)
  {
    var write := WriteOf(Execute(w.db, caller, now, ttl, c));
    if o in Commit(w.db, write).organizations {
      CommandIsLegal(w, caller, now, ttl, c);
      LegalWriteKeepsActiveOwner(w.db, write, ttl, now, o);
    }
  }

  /** Deactivating an account leaves an active owner exactly when another one is there. */
  lemma DeactivationKeepsActiveOwnerIff(w: World, u: UserId, now: int, ttl: nat, o: OrganizationId)
    requires Enabled(w, Event(now, SetActive(u, false)))
    ensures HasActiveOwner(Next(w, Event(now, SetActive(u, false)), ttl).db, o)
      <==> exists id :: id in ActiveOwners(w.db.users, w.db.memberships, o) && w.db.memberships[id].userId != u
  {
    var users' := Next(w, Event(now, SetActive(u, false)), ttl).db.users;
    var ms := w.db.memberships;
    if HasActiveOwner(Next(w, Event(now, SetActive(u, false)), ttl).db, o) {
      var id :| id in ActiveOwners(users', ms, o);
      assert id in ActiveOwners(w.db.users, ms, o);
    }
    if id :| id in ActiveOwners(w.db.users, ms, o) && ms[id].userId != u {
      assert id in ActiveOwners(users', ms, o);
    }
  }

  lemma NewAccountsKeepActiveOwner(db: Tables, u: UserId, user: User, o: OrganizationId)
    requires HasActiveOwner(db, o) && user.isActive
    ensures HasActiveOwner(db.(users := db.users[u := user]), o)
  {
    var owner :| owner in ActiveOwners(db.users, db.memberships, o);
    assert owner in ActiveOwners(db.users[u := user], db.memberships, o);
  }

  /** The only step that can take away the last active owner is the deactivation of that owner's account. */
  lemma OnlyDeactivationLosesActiveOwner(w: World, e: Event, ttl: nat, o: OrganizationId)
    requires Inv(w, ttl) && ttl > 0 && Enabled(w, e)
    requires o in w.db.organizations && HasActiveOwner(w.db, o)
    ensures o in Next(w, e, ttl).db.organizations && !HasActiveOwner(Next(w, e, ttl).db, o) ==>
              && e.action.SetActive? && !e.action.isActive
              && forall id :: id in ActiveOwners(w.db.users, w.db.memberships, o) ==>
                   w.db.memberships[id].userId == e.action.user
  {
    match e.action
    case Run(caller, c) => CommandsKeepActiveOwner(w, caller, e.now, ttl, c, o);
    case Register(u, name) => NewAccountsKeepActiveOwner(w.db, u, User(name, true), o);
    case SetActive(u, isActive) =>
      if isActive {
        NewAccountsKeepActiveOwner(w.db, u, w.db.users[u].(isActive := true), o);
      } else {
        DeactivationKeepsActiveOwnerIff(w, u, e.now, ttl, o);
      }
  }

  /** Activating the account of an accepted owner gives the organization an active owner. */
  lemma ActivationRestoresOwner(w: World, u: UserId, now: int, ttl: nat, o: OrganizationId, id: MembershipId)
    requires Enabled(w, Event(now, SetActive(u, true)))
    requires IsAcceptedOwner(w.db.memberships, o, id) && w.db.memberships[id].userId == u
    ensures HasActiveOwner(Next(w, Event(now, SetActive(u, true)), ttl).db, o)
  {
    var db' := Next(w, Event(now, SetActive(u, true)), ttl).db;
    assert id in ActiveOwners(db'.users, db'.memberships, o);
  }

  // ----- The last-owner guard

  lemma OwnersWithout(users: Users, ms: Memberships, o: OrganizationId, id: MembershipId)
    ensures ActiveOwners(users, ms - {id}, o) == ActiveOwners(users, ms, o) - {id}
  {
  }

  lemma OwnersWithDemoted(users: Users, ms: Memberships, o: OrganizationId, id: MembershipId, m: Membership)
    requires m.role != Owner
    ensures ActiveOwners(users, ms[id := m], o) == ActiveOwners(users, ms, o) - {id}
  {
  }

  /** Asking for two owners in all is asking for another one, unless the one at stake is not counted. */
  lemma AtMostOne(owners: set<MembershipId>, id: MembershipId)
    ensures |owners| <= 1 <==> owners - {id} == {} || (id !in owners && |owners| == 1)
  {
    if owners - {id} == {} {
      assert owners == {} || owners == {id};
    } else if id in owners {
      assert |owners| == |owners - {id}| + 1;
    } else {
      assert owners - {id} == owners;
    }
  }

  lemma RemovalIsGuarded(db: Tables, caller: UserId, o: OrganizationId, id: MembershipId)
    requires IsAcceptedOwner(db.memberships, o, id)
    requires ExecRemove(db, caller, o, id).Ok? || ExecRemove(db, caller, o, id) == Err(LastOwner)
    ensures ExecRemove(db, caller, o, id) == Err(LastOwner) <==> CountOwners(db, o) <= 1
  {
  }

  lemma DemotionIsGuarded(db: Tables, caller: UserId, o: OrganizationId, id: MembershipId, role: Role)
    requires IsAcceptedOwner(db.memberships, o, id) && role != Owner
    requires ExecChangeRole(db, caller, o, id, role).Ok? || ExecChangeRole(db, caller, o, id, role) == Err(LastOwner)
    ensures ExecChangeRole(db, caller, o, id, role) == Err(LastOwner) <==> CountOwners(db, o) <= 1
  {
  }

  /**
   When an accepted owner is to be removed and every role check passes, the guard refuses exactly
   when removal would leave no active owner, or when the target's account is inactive and there is
   only one active owner: the count leaves the inactive target out but still asks for two.
   */
  lemma LastOwnerGuardExact(db: Tables, caller: UserId, o: OrganizationId, id: MembershipId)
    requires IsAcceptedOwner(db.memberships, o, id)
    requires ExecRemove(db, caller, o, id).Ok? || ExecRemove(db, caller, o, id) == Err(LastOwner)
    ensures ExecRemove(db, caller, o, id) == Err(LastOwner) <==>
              || !HasActiveOwner(DeleteMembership(db, id), o)
              || (!IsActive(db.users, db.memberships[id].userId) && CountOwners(db, o) == 1)
  {
    RemovalIsGuarded(db, caller, o, id);
    OwnersWithout(db.users, db.memberships, o, id);
    AtMostOne(ActiveOwners(db.users, db.memberships, o), id);
  }

  /** The same holds when an accepted owner is to be demoted. */
  lemma DemotionGuardExact(db: Tables, caller: UserId, o: OrganizationId, id: MembershipId, role: Role)
    requires IsAcceptedOwner(db.memberships, o, id) && role != Owner
    requires ExecChangeRole(db, caller, o, id, role).Ok? || ExecChangeRole(db, caller, o, id, role) == Err(LastOwner)
    ensures ExecChangeRole(db, caller, o, id, role) == Err(LastOwner) <==>
              || !HasActiveOwner(AddMembership(db, id, db.memberships[id].(role := role)), o)
              || (!IsActive(db.users, db.memberships[id].userId) && CountOwners(db, o) == 1)
  {
    DemotionIsGuarded(db, caller, o, id, role);
    OwnersWithDemoted(db.users, db.memberships, o, id, db.memberships[id].(role := role));
    AtMostOne(ActiveOwners(db.users, db.memberships, o), id);
  }

  // ----- Who may write which row

  predicate Acts(db: Tables, caller: UserId, o: OrganizationId, id: MembershipId, minimum: Role)
  {
    && IsActive(db.users, caller) && IsRowFor(db.memberships, o, caller, id)
    && db.memberships[id].IsAccepted() && Rank(db.memberships[id].role) >= Rank(minimum)
  }

  /** The caller is an active, accepted member of at least the given role. */
  predicate Holds(db: Tables, caller: UserId, o: OrganizationId, minimum: Role)
  {
    exists id :: id in db.memberships && Acts(db, caller, o, id, minimum)
  }

  lemma HoldsIffRequired(db: Tables, caller: UserId, o: OrganizationId, minimum: Role)
    requires UniqueRows(db.memberships)
    ensures RequireRole(db, caller, o, minimum).Ok? <==> Holds(db, caller, o, minimum)
  {
    RequireRoleIff(db, caller, o, minimum);
    if id :| id in db.memberships && Acts(db, caller, o, id, minimum) {
      assert IsRowFor(db.memberships, o, caller, id);
    }
    if RequireRole(db, caller, o, minimum).Ok? {
      var id :| IsRowFor(db.memberships, o, caller, id)
        && db.memberships[id].IsAccepted() && Rank(db.memberships[id].role) >= Rank(minimum);
      assert Acts(db, caller, o, id, minimum);
    }
  }

  /** The row a write leaves under the given id, if any. */
  function RowAfter(db: Tables, w: Write, id: MembershipId): Option<Membership>
  {
    if id in Commit(db, w).memberships then Some(Commit(db, w).memberships[id]) else None
  }

  /**
   Every row a command changes either belongs to the caller, or the caller is an active ADMIN of its
   organization -- and an OWNER if the row held or gets the OWNER role.  There is one exception:
   re-inviting over an expired OWNER invitation needs no more than the new role does.
   */
  lemma OnlyAuthorizedWrites(db: Tables, caller: UserId, now: int, ttl: nat, c: Command, id: MembershipId)
    requires UniqueRows(db.memberships) && id in db.memberships
    requires RowAfter(db, WriteOf(Execute(db, caller, now, ttl, c)), id) != Some(db.memberships[id])
    requires NewIds(c) !! db.memberships.Keys
    ensures var m := db.memberships[id]; var after := RowAfter(db, WriteOf(Execute(db, caller, now, ttl, c)), id);
            && IsActive(db.users, caller)
            && (m.userId != caller ==>
                  && Holds(db, caller, m.organizationId, Admin)
                  && (after.Some? && after.value.role == Owner ==> Holds(db, caller, m.organizationId, Owner))
                  && (m.role == Owner ==>
                        || Holds(db, caller, m.organizationId, Owner)
                        || (c.Invite? && !m.IsAccepted() && m.IsExpired(now))))
  {
    var m := db.memberships[id];
    var o := m.organizationId;
    HoldsIffRequired(db, caller, o, Admin);
    HoldsIffRequired(db, caller, o, Owner);
    if Holds(db, caller, o, Owner) {
      var row :| row in db.memberships && Acts(db, caller, o, row, Owner);
      assert Acts(db, caller, o, row, Admin);
    }
    if c.Invite? && c.username.Some? {
      var invitee := FindByUsername(db.users, c.username.value);
      if invitee.Some? {
        RowForIff(db.memberships, c.organization, invitee.value);
      }
    }
  }

  /**
   The exception is real: an ADMIN may neither remove nor demote an expired OWNER invitation,
   yet may turn it into an invitation of a lesser role by inviting the same user again.
   */
  lemma AdminReplacesOwnerInvitation(
    db: Tables, caller: UserId, own: MembershipId, now: int, ttl: nat, o: OrganizationId, id: MembershipId,
    role: Role, newId: MembershipId)
    requires UniqueRows(db.memberships) && o in db.organizations && role != Owner
    requires Acts(db, caller, o, own, Admin) && db.memberships[own].role == Admin
    requires GetMembershipById(db.memberships, o, id).Some? && IsActive(db.users, db.memberships[id].userId)
    requires db.memberships[id].role == Owner && !db.memberships[id].IsAccepted() && db.memberships[id].IsExpired(now)
    requires FindByUsername(db.users, db.users[db.memberships[id].userId].username) == Some(db.memberships[id].userId)
    ensures ExecRemove(db, caller, o, id) == Err(CannotManageOwner)
    ensures ExecChangeRole(db, caller, o, id, role) == Err(CannotManageOwner)
    ensures var username := db.users[db.memberships[id].userId].username;
            var write := WriteOf(ExecInvite(db, caller, now, ttl, o, Some(username), role, newId));
            write == Put(id, Membership(o, db.memberships[id].userId, role, caller, now, None, Some(now + ttl)))
  {
    RowForIs(db.memberships, o, caller, own);
    RowForIs(db.memberships, o, db.memberships[id].userId, id);
  }
}
