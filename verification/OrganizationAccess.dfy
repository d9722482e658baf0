/** Exactly when commands succeed, and what someone outside an organization can learn about it. */
module OrganizationAccess {
  import opened Common
  import opened OrganizationModel
  import opened OrganizationSafety
  import opened OrganizationOwners

  /** The caller's roles, as far as they matter to a command. */
  lemma AllRoles(db: Tables, caller: UserId, o: OrganizationId)
    requires UniqueRows(db.memberships)
    ensures forall minimum :: RequireRole(db, caller, o, minimum).Ok? <==> Holds(db, caller, o, minimum)
    ensures Holds(db, caller, o, Owner) ==> Holds(db, caller, o, Admin)
    ensures Holds(db, caller, o, Admin) ==> Holds(db, caller, o, Member)
  {
    forall minimum ensures RequireRole(db, caller, o, minimum).Ok? <==> Holds(db, caller, o, minimum) {
      HoldsIffRequired(db, caller, o, minimum);
    }
    if id :| id in db.memberships && Acts(db, caller, o, id, Owner) {
      assert Acts(db, caller, o, id, Admin);
    }
    if id :| id in db.memberships && Acts(db, caller, o, id, Admin) {
      assert Acts(db, caller, o, id, Member);
    }
  }

  predicate IsRowOf(db: Tables, o: OrganizationId, id: MembershipId)
  {
    id in db.memberships && db.memberships[id].organizationId == o
  }

  /** Leaving takes membership, removing another takes ADMIN, removing an OWNER row OWNER; never the last owner. */
  lemma RemoveSucceedsIff(db: Tables, caller: UserId, o: OrganizationId, id: MembershipId)
    requires UniqueRows(db.memberships)
    ensures ExecRemove(db, caller, o, id).Ok? <==>
              && IsRowOf(db, o, id) && Holds(db, caller, o, Member)
              && (db.memberships[id].userId != caller ==>
                    Holds(db, caller, o, if db.memberships[id].role == Owner then Owner else Admin))
              && (IsAcceptedOwner(db.memberships, o, id) ==> CountOwners(db, o) > 1)
    ensures ExecRemove(db, caller, o, id).Ok? ==>
              && ExecRemove(db, caller, o, id).value.response == Done
              && Commit(db, WriteOf(ExecRemove(db, caller, o, id))) == db.(memberships := db.memberships - {id})
  {
    AllRoles(db, caller, o);
  }

  /** Changing roles takes ADMIN, from or to OWNER takes OWNER; the last owner is never demoted. */
  lemma ChangeRoleSucceedsIff(db: Tables, caller: UserId, o: OrganizationId, id: MembershipId, role: Role)
    requires UniqueRows(db.memberships)
    ensures ExecChangeRole(db, caller, o, id, role).Ok? <==>
              && IsRowOf(db, o, id)
              && Holds(db, caller, o, if db.memberships[id].role == Owner || role == Owner then Owner else Admin)
              && (IsAcceptedOwner(db.memberships, o, id) && role != Owner ==> CountOwners(db, o) > 1)
    ensures ExecChangeRole(db, caller, o, id, role).Ok? ==>
              && ExecChangeRole(db, caller, o, id, role).value.response == Done
              && var db' := Commit(db, WriteOf(ExecChangeRole(db, caller, o, id, role)));
              db' == db.(memberships := db.memberships[id := db.memberships[id].(role := role)])
  {
    AllRoles(db, caller, o);
  }

  /**
   Declining is for the invitee, while the invitation is pending, expired or not; that row goes,
   nothing else changes, no owner is lost, and the organization has no row of the caller any more.
   */
  lemma DeclineSucceedsIff(db: Tables, caller: UserId, o: OrganizationId, id: MembershipId)
    requires UniqueRows(db.memberships)
    ensures ExecDecline(db, caller, o, id).Ok? <==>
              && IsActive(db.users, caller) && IsRowFor(db.memberships, o, caller, id)
              && !db.memberships[id].IsAccepted()
    ensures ExecDecline(db, caller, o, id).Ok? ==>
              var db' := Commit(db, WriteOf(ExecDecline(db, caller, o, id)));
              && ExecDecline(db, caller, o, id).value.response == Done
              && db' == db.(memberships := db.memberships - {id})
              && ActiveOwners(db'.users, db'.memberships, o) == ActiveOwners(db.users, db.memberships, o)
              && RowFor(db'.memberships, o, caller) == None
  {
    if ExecDecline(db, caller, o, id).Ok? {
      assert IsRowFor(db.memberships, o, caller, id);
      RowForIff(db.memberships - {id}, o, caller);
      if other :| IsRowFor(db.memberships - {id}, o, caller, other) {
        assert IsRowFor(db.memberships, o, caller, other);
      }
    }
  }

  /** Deleting takes OWNER, and leaves no trace of the organization and every trace of the others. */
  lemma DeleteSucceedsIff(db: Tables, caller: UserId, o: OrganizationId)
    requires UniqueRows(db.memberships) && ForeignKeys(db)
    ensures ExecDelete(db, caller, o).Ok? <==> Holds(db, caller, o, Owner)
    ensures ExecDelete(db, caller, o).Ok? ==>
              var db' := Commit(db, WriteOf(ExecDelete(db, caller, o)));
              && ExecDelete(db, caller, o).value.response == Done
              && db'.users == db.users && db'.organizations == db.organizations - {o}
              && (forall id :: id in db'.memberships <==> id in db.memberships && !IsRowOf(db, o, id))
              && (forall id :: id in db'.memberships ==> db'.memberships[id] == db.memberships[id])
  {
    AllRoles(db, caller, o);
    if Holds(db, caller, o, Owner) {
      var id :| id in db.memberships && Acts(db, caller, o, id, Owner);
      assert o in db.organizations;
    }
  }

  /** No accepted row: an outsider, or somebody with no more than an invitation. */
  predicate IsOutsider(db: Tables, caller: UserId, o: OrganizationId)
  {
    IsActive(db.users, caller) && !Holds(db, caller, o, Member)
  }

  lemma MembersHold(db: Tables, caller: UserId, o: OrganizationId)
    requires UniqueRows(db.memberships) && IsActive(db.users, caller)
    ensures GetRole(db.memberships, caller, o).Some? ==> Holds(db, caller, o, Member)
  {
    RowForIff(db.memberships, o, caller);
    if GetRole(db.memberships, caller, o).Some? {
      assert Acts(db, caller, o, RowFor(db.memberships, o, caller).value, Member);
    }
  }

  /**
   To an outsider every command that manages an organization answers the same, whatever the
   organization holds and whether it exists at all.
   */
  lemma OutsidersLearnNothing(
    db: Tables, caller: UserId, now: int, ttl: nat, c: Command)
    requires UniqueRows(db.memberships)
    requires (c.Invite? || c.Remove? || c.ChangeRole? || c.Delete?) && IsOutsider(db, caller, c.organization)
    ensures Execute(db, caller, now, ttl, c) == Err(OrganizationNotFound)
  {
    MembersHold(db, caller, c.organization);
  }

  /** An invitation that is not the caller's own cannot be told from one that does not exist, nor be touched. */
  lemma OthersInvitationsAreHidden(db: Tables, caller: UserId, now: int, o: OrganizationId, id: MembershipId)
    requires IsActive(db.users, caller) && !IsRowFor(db.memberships, o, caller, id)
    ensures ExecAccept(db, caller, now, o, id) == ExecDecline(db, caller, o, id) == Err(MembershipNotFound)
    ensures var without := DeleteMembership(db, id);
            && ExecAccept(without, caller, now, o, id) == ExecAccept(db, caller, now, o, id)
            && ExecDecline(without, caller, o, id) == ExecDecline(db, caller, o, id)
  {
  }

  // ----- Creating, inviting and accepting

  /** Founding takes an active account and a valid name; the founder becomes the first accepted OWNER. */
  lemma CreateSucceedsIff(
    db: Tables, caller: UserId, now: int, name: Option<string>, o: OrganizationId, id: MembershipId)
    requires o !in db.organizations && id !in db.memberships
    ensures var r := ExecCreate(db.users, caller, now, name, o, id); var db' := Commit(db, WriteOf(r));
            && (r.Ok? <==> IsActive(db.users, caller) && name.Some?)
            && (r == Err(AuthorizationError) <==> !IsActive(db.users, caller))
            && (r == Err(BusinessTypeError) <==> IsActive(db.users, caller) && name.None?)
            && (r.Err? ==> db' == db)
            && (r.Ok? ==>
                  && r.value.response == Created(o) && db'.users == db.users
                  && db'.organizations == db.organizations[o := db'.organizations[o]]
                  && db'.organizations[o].name == name.value && db'.organizations[o].createdBy == caller
                  && db'.organizations[o].createdAt == now
                  && db'.memberships == db.memberships[id := db'.memberships[id]]
                  && db'.memberships[id].organizationId == o && db'.memberships[id].userId == caller
                  && db'.memberships[id].role == Owner && db'.memberships[id].invitedBy == caller
                  && db'.memberships[id].createdAt == now && db'.memberships[id].acceptedAt == Some(now)
                  && db'.memberships[id].expiresAt == None)
  {
  }

  /** Exactly when an invitation is accepted, was accepted before, has lapsed, or is not the caller's. */
  lemma AcceptSucceedsIff(db: Tables, caller: UserId, now: int, o: OrganizationId, id: MembershipId)
    ensures var r := ExecAccept(db, caller, now, o, id);
            var active, mine := IsActive(db.users, caller), IsRowFor(db.memberships, o, caller, id);
            && (r.Ok? && r.value.response == Done <==>
                  && active && mine && db.memberships[id].acceptedAt == None
                  && (db.memberships[id].expiresAt.Some? ==> now < db.memberships[id].expiresAt.value))
            && (r.Ok? && r.value.response == AlreadyAccepted <==>
                  active && mine && db.memberships[id].acceptedAt.Some?)
            && (r == Err(InvitationExpired) <==>
                  && active && mine && db.memberships[id].acceptedAt == None
                  && db.memberships[id].expiresAt.Some? && db.memberships[id].expiresAt.value <= now)
            && (r == Err(MembershipNotFound) <==> active && !mine)
            && (r == Err(AuthorizationError) <==> !active)
            && (r.Err? || r.value.response == AlreadyAccepted ==> Commit(db, WriteOf(r)) == db)
  {
  }

  /** Accepting dates the row, ends its expiry and changes nothing else; the caller gets the invited role. */
  lemma AcceptJoinsAsInvited(db: Tables, caller: UserId, now: int, o: OrganizationId, id: MembershipId)
    requires UniqueRows(db.memberships)
    requires ExecAccept(db, caller, now, o, id).Ok? && ExecAccept(db, caller, now, o, id).value.response == Done
    ensures var db' := Commit(db, WriteOf(ExecAccept(db, caller, now, o, id)));
            && db'.users == db.users && db'.organizations == db.organizations
            && db'.memberships.Keys == db.memberships.Keys
            && (forall other :: other in db.memberships && other != id ==>
                  db'.memberships[other] == db.memberships[other])
            && db'.memberships[id].organizationId == o && db'.memberships[id].userId == caller
            && db'.memberships[id].role == db.memberships[id].role
            && db'.memberships[id].invitedBy == db.memberships[id].invitedBy
            && db'.memberships[id].createdAt == db.memberships[id].createdAt
            && db'.memberships[id].acceptedAt == Some(now) && db'.memberships[id].expiresAt == None
            && GetRole(db'.memberships, caller, o) == Some(db.memberships[id].role)
  {
    var ms' := Commit(db, WriteOf(ExecAccept(db, caller, now, o, id))).memberships;
    RowForIff(ms', o, caller);
    assert IsRowFor(ms', o, caller, id);
    forall other | IsRowFor(ms', o, caller, other) ensures other == id {
      assert IsRowFor(db.memberships, o, caller, other) && IsRowFor(db.memberships, o, caller, id);
    }
  }

  /** The role a caller needs to invite, and the account a username belongs to. */
  predicate MayInvite(db: Tables, caller: UserId, o: OrganizationId, role: Role)
  {
    Holds(db, caller, o, if role == Owner then Owner else Admin)
  }

  /** No live row: neither a member nor the holder of an invitation that can still be accepted. */
  ghost predicate HasNoLiveRow(db: Tables, o: OrganizationId, invitee: UserId, now: int)
  {
    forall id :: IsRowFor(db.memberships, o, invitee, id) ==>
                   && db.memberships[id].acceptedAt == None
                   && db.memberships[id].expiresAt.Some? && db.memberships[id].expiresAt.value <= now
  }

  lemma OrganizationOfMember(db: Tables, caller: UserId, o: OrganizationId)
    requires ForeignKeys(db) && Holds(db, caller, o, Admin)
    ensures o in db.organizations
  {
    var id :| id in db.memberships && Acts(db, caller, o, id, Admin);
  }

  /** The caller passes the role checks of an invitation exactly when the role is held. */
  lemma InviterChecked(db: Tables, caller: UserId, o: OrganizationId, role: Role)
    requires UniqueRows(db.memberships)
    ensures MayInvite(db, caller, o, role) <==>
              && RequireRole(db, caller, o, Admin) == Ok(caller)
              && (role == Owner ==> RequireOwner(db, caller, o, CannotGrantOwnerRole) == Ok(caller))
    ensures MayInvite(db, caller, o, role) ==> Holds(db, caller, o, Admin)
  {
    AllRoles(db, caller, o);
  }

  lemma NoLiveRowIff(db: Tables, o: OrganizationId, invitee: UserId, now: int)
    requires UniqueRows(db.memberships)
    ensures HasNoLiveRow(db, o, invitee, now) <==>
              var row := RowFor(db.memberships, o, invitee);
              row.Some? ==> !db.memberships[row.value].IsAccepted() && db.memberships[row.value].IsExpired(now)
    ensures forall id: MembershipId ::
              IsRowFor(db.memberships, o, invitee, id) ==> RowFor(db.memberships, o, invitee) == Some(id)
  {
    RowForIff(db.memberships, o, invitee);
    forall id: MembershipId | IsRowFor(db.memberships, o, invitee, id)
      ensures RowFor(db.memberships, o, invitee) == Some(id)
    {
      RowForIs(db.memberships, o, invitee, id);
    }
  }

  lemma Invitee(users: Users, invitee: UserId)
    requires UniqueUsernames(users) && invitee in users
    ensures FindByUsername(users, users[invitee].username) == Some(invitee)
  {
    FindByUsernameIff(users, users[invitee].username);
  }

  /** A role check that succeeds answers the caller. */
  lemma CallerIs(db: Tables, caller: UserId, o: OrganizationId)
    ensures forall minimum :: RequireRole(db, caller, o, minimum).Ok? ==>
              RequireRole(db, caller, o, minimum) == Ok(caller)
  {
  }

  lemma InviteNeedsTheRole(
    db: Tables, caller: UserId, now: int, ttl: nat, o: OrganizationId, username: Option<string>, role: Role,
    newId: MembershipId)
    requires UniqueRows(db.memberships) && !MayInvite(db, caller, o, role)
    ensures ExecInvite(db, caller, now, ttl, o, username, role, newId).Err?
  {
    InviterChecked(db, caller, o, role);
    CallerIs(db, caller, o);
  }

  lemma InviteWithTheRole(
    db: Tables, caller: UserId, now: int, ttl: nat, o: OrganizationId, invitee: UserId, role: Role,
    newId: MembershipId)
    requires UniqueRows(db.memberships) && UniqueUsernames(db.users) && o in db.organizations && invitee in db.users
    requires RequireRole(db, caller, o, Admin) == Ok(caller)
    requires role == Owner ==> RequireOwner(db, caller, o, CannotGrantOwnerRole) == Ok(caller)
    ensures ExecInvite(db, caller, now, ttl, o, Some(db.users[invitee].username), role, newId).Ok?
      <==> db.users[invitee].isActive && HasNoLiveRow(db, o, invitee, now)
  {
    Invitee(db.users, invitee);
    NoLiveRowIff(db, o, invitee, now);
  }

  /** Inviting takes the right role, and an active invitee without a live row. */
  lemma InviteSucceedsIff(
    db: Tables, caller: UserId, now: int, ttl: nat, o: OrganizationId, invitee: UserId, role: Role,
    newId: MembershipId)
    requires UniqueRows(db.memberships) && UniqueUsernames(db.users) && ForeignKeys(db) && invitee in db.users
    ensures ExecInvite(db, caller, now, ttl, o, Some(db.users[invitee].username), role, newId).Ok? <==>
              && MayInvite(db, caller, o, role) && db.users[invitee].isActive
              && HasNoLiveRow(db, o, invitee, now)
  {
    if MayInvite(db, caller, o, role) {
      InviterChecked(db, caller, o, role);
      OrganizationOfMember(db, caller, o);
      InviteWithTheRole(db, caller, now, ttl, o, invitee, role, newId);
    } else {
      InviteNeedsTheRole(db, caller, now, ttl, o, Some(db.users[invitee].username), role, newId);
    }
  }

  /** What a successful invitation writes, and where. */
  lemma InviteWrites(
    db: Tables, caller: UserId, now: int, ttl: nat, o: OrganizationId, invitee: UserId, role: Role,
    newId: MembershipId)
    requires UniqueRows(db.memberships) && UniqueUsernames(db.users) && invitee in db.users
    requires ExecInvite(db, caller, now, ttl, o, Some(db.users[invitee].username), role, newId).Ok?
    ensures var r := ExecInvite(db, caller, now, ttl, o, Some(db.users[invitee].username), role, newId);
            && r.value.response.Invited?
            && var id := r.value.response.membershipId;
            && r == Ok(Success(Put(id, Membership(o, invitee, role, caller, now, None, Some(now + ttl))),
                               Invited(id, invitee, role, now + ttl)))
            && if exists other :: IsRowFor(db.memberships, o, invitee, other) then
                 IsRowFor(db.memberships, o, invitee, id)
               else id == newId
  {
    Invitee(db.users, invitee);
    NoLiveRowIff(db, o, invitee, now);
    RowForIff(db.memberships, o, invitee);
  }

  /**
   The invitation is a new row, or takes the place of the invitee's lapsed one: pending, with the
   new role, inviter and dates.  All other rows, and everything else, stay as they are.
   */
  lemma InviteLeavesAnInvitation(
    db: Tables, caller: UserId, now: int, ttl: nat, o: OrganizationId, invitee: UserId, role: Role,
    newId: MembershipId)
    requires UniqueRows(db.memberships) && UniqueUsernames(db.users) && invitee in db.users
    requires newId !in db.memberships
    requires ExecInvite(db, caller, now, ttl, o, Some(db.users[invitee].username), role, newId).Ok?
    ensures var r := ExecInvite(db, caller, now, ttl, o, Some(db.users[invitee].username), role, newId);
            var db' := Commit(db, WriteOf(r));
            && r.value.response.Invited?
            && var id := r.value.response.membershipId;
            && r.value.response.invitee == invitee && r.value.response.role == role
            && r.value.response.expiresAt == now + ttl
            && (if id in db.memberships then IsRowFor(db.memberships, o, invitee, id)
                else id == newId && !exists other :: IsRowFor(db.memberships, o, invitee, other))
            && db'.users == db.users && db'.organizations == db.organizations
            && db'.memberships.Keys == db.memberships.Keys + {id}
            && (forall other :: other in db.memberships && other != id ==>
                  db'.memberships[other] == db.memberships[other])
            && db'.memberships[id].organizationId == o && db'.memberships[id].userId == invitee
            && db'.memberships[id].role == role && db'.memberships[id].invitedBy == caller
            && db'.memberships[id].createdAt == now && db'.memberships[id].acceptedAt == None
            && db'.memberships[id].expiresAt == Some(now + ttl)
  {
    InviteWrites(db, caller, now, ttl, o, invitee, role, newId);
  }

  // ----- Which refusal comes first

  /** Not logged in, not a member, not enough of one: in this order. */
  lemma RoleAnswers(db: Tables, caller: UserId, o: OrganizationId, minimum: Role)
    requires UniqueRows(db.memberships)
    ensures RequireRole(db, caller, o, minimum) ==
              if !IsActive(db.users, caller) then Err(AuthorizationError)
              else if !Holds(db, caller, o, Member) then Err(OrganizationNotFound)
              else if Holds(db, caller, o, minimum) then Ok(caller)
              else Err(AuthorizationError)
  {
    AllRoles(db, caller, o);
    if IsActive(db.users, caller) {
      MembersHold(db, caller, o);
    }
  }

  lemma InviterRefusals(
    db: Tables, caller: UserId, now: int, ttl: nat, o: OrganizationId, username: Option<string>, role: Role,
    newId: MembershipId)
    requires UniqueRows(db.memberships) && !MayInvite(db, caller, o, role)
    ensures ExecInvite(db, caller, now, ttl, o, username, role, newId)
         == if !IsActive(db.users, caller) then Err(AuthorizationError)
            else if !Holds(db, caller, o, Member) then Err(OrganizationNotFound)
            else if !Holds(db, caller, o, Admin) then Err(AuthorizationError)
            else Err(CannotGrantOwnerRole)
  {
    RoleAnswers(db, caller, o, Admin);
    RoleAnswers(db, caller, o, Owner);
    AllRoles(db, caller, o);
  }

  lemma InviteeRefusals(
    db: Tables, caller: UserId, now: int, ttl: nat, o: OrganizationId, username: Option<string>, role: Role,
    newId: MembershipId)
    requires UniqueRows(db.memberships) && UniqueUsernames(db.users) && ForeignKeys(db)
    requires MayInvite(db, caller, o, role)
    requires ExecInvite(db, caller, now, ttl, o, username, role, newId).Err?
    ensures ExecInvite(db, caller, now, ttl, o, username, role, newId)
         == if username.None? then Err(BusinessTypeError)
            else if forall u :: u in db.users && db.users[u].username == username.value ==> !db.users[u].isActive then
              Err(UnknownInvitee)
            else Err(MembershipAlreadyExists)
  {
    InviterChecked(db, caller, o, role);
    OrganizationOfMember(db, caller, o);
    if username.Some? {
      FindByUsernameIff(db.users, username.value);
    }
  }

  lemma RemoveRefusals(db: Tables, caller: UserId, o: OrganizationId, id: MembershipId)
    requires UniqueRows(db.memberships)
    ensures var r := ExecRemove(db, caller, o, id);
            r.Err? ==>
              r.error == (
              if !IsActive(db.users, caller) then AuthorizationError
              else if !Holds(db, caller, o, Member) then OrganizationNotFound
              else if !IsRowOf(db, o, id) then MembershipNotFound
              else if db.memberships[id].userId != caller && !Holds(db, caller, o, Admin) then AuthorizationError
              else if db.memberships[id].userId != caller && db.memberships[id].role == Owner
                      && !Holds(db, caller, o, Owner) then CannotManageOwner
              else LastOwner)
  {
    RoleAnswers(db, caller, o, Member);
    RoleAnswers(db, caller, o, Admin);
    RoleAnswers(db, caller, o, Owner);
  }

  lemma ChangeRoleRefusals(db: Tables, caller: UserId, o: OrganizationId, id: MembershipId, role: Role)
    requires UniqueRows(db.memberships)
    ensures var r := ExecChangeRole(db, caller, o, id, role);
            r.Err? ==>
              r.error == (
              if !IsActive(db.users, caller) then AuthorizationError
              else if !Holds(db, caller, o, Member) then OrganizationNotFound
              else if !Holds(db, caller, o, Admin) then AuthorizationError
              else if !IsRowOf(db, o, id) then MembershipNotFound
              else if db.memberships[id].role == Owner && !Holds(db, caller, o, Owner) then CannotManageOwner
              else if role == Owner && !Holds(db, caller, o, Owner) then CannotGrantOwnerRole
              else LastOwner)
  {
    RoleAnswers(db, caller, o, Admin);
    RoleAnswers(db, caller, o, Owner);
  }

  lemma DeleteRefusals(db: Tables, caller: UserId, o: OrganizationId)
    requires UniqueRows(db.memberships) && ForeignKeys(db)
    ensures var r := ExecDelete(db, caller, o);
            r.Err? ==>
              r.error == (
              if !IsActive(db.users, caller) || Holds(db, caller, o, Member) then AuthorizationError
              else OrganizationNotFound)
  {
    RoleAnswers(db, caller, o, Owner);
    DeleteSucceedsIff(db, caller, o);
  }
}
