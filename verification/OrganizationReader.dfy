/** The list queries, and their agreement with what the commands will accept. */
module OrganizationReader {
  import opened Common
  import opened OrganizationModel
  import opened OrganizationSafety
  import opened OrganizationOwners

  /** The caller's accepted memberships, joined with their organizations. */
  function ListedMemberships(db: Tables, user: UserId): set<MembershipId>
  {
    set id | id in db.memberships
      && db.memberships[id].userId == user && db.memberships[id].IsAccepted()
      && db.memberships[id].organizationId in db.organizations
  }

  /** The caller's pending, unexpired invitations, joined with organization and inviter. */
  function ListedInvitations(db: Tables, user: UserId, now: int): set<MembershipId>
  {
    set id | id in db.memberships
      && db.memberships[id].userId == user && !db.memberships[id].IsAccepted()
      && db.memberships[id].expiresAt.Some? && db.memberships[id].expiresAt.value > now
      && db.memberships[id].organizationId in db.organizations && db.memberships[id].invitedBy in db.users
  }

  predicate IsMemberOf(db: Tables, user: UserId, o: OrganizationId)
  {
    exists id :: id in ListedMemberships(db, user) && db.memberships[id].organizationId == o
  }

  predicate IsInvitedTo(db: Tables, user: UserId, now: int, o: OrganizationId)
  {
    exists id :: id in ListedInvitations(db, user, now) && db.memberships[id].organizationId == o
  }

  /** An invitation is listed exactly when it is the caller's and accepting it now would join the organization. */
  lemma ListedIffAcceptable(db: Tables, ttl: nat, clock: int, user: UserId, now: int, id: MembershipId)
    requires TablesInv(db, ttl, clock) && IsActive(db.users, user)
    ensures id in ListedInvitations(db, user, now) <==>
              && id in db.memberships
              && var r := ExecAccept(db, user, now, db.memberships[id].organizationId, id);
              r.Ok? && r.value.response == Done
  {
    if id in db.memberships {
      assert WellDated(db.memberships[id], ttl, clock);
    }
  }

  /** An organization is listed exactly when the role check lets its members in. */
  lemma ListedIffMember(db: Tables, user: UserId, o: OrganizationId)
    requires UniqueRows(db.memberships) && ForeignKeys(db) && IsActive(db.users, user)
    ensures IsMemberOf(db, user, o) <==> RequireRole(db, user, o, Member).Ok?
  {
    RequireRoleIff(db, user, o, Member);
    if IsMemberOf(db, user, o) {
      var id :| id in ListedMemberships(db, user) && db.memberships[id].organizationId == o;
      assert IsRowFor(db.memberships, o, user, id) && Rank(db.memberships[id].role) >= Rank(Member);
    }
    if RequireRole(db, user, o, Member).Ok? {
      var id :| IsRowFor(db.memberships, o, user, id)
        && db.memberships[id].IsAccepted() && Rank(db.memberships[id].role) >= Rank(Member);
      assert id in ListedMemberships(db, user);
    }
  }

  lemma LiveRowIsListed(db: Tables, ttl: nat, clock: int, user: UserId, now: int, o: OrganizationId)
    requires TablesInv(db, ttl, clock)
    ensures (IsMemberOf(db, user, o) || IsInvitedTo(db, user, now, o)) <==>
              && var row := RowFor(db.memberships, o, user);
              row.Some? && (db.memberships[row.value].IsAccepted() || !db.memberships[row.value].IsExpired(now))
  {
    RowForIff(db.memberships, o, user);
    var row := RowFor(db.memberships, o, user);
    if row.Some? {
      assert WellDated(db.memberships[row.value], ttl, clock);
      if db.memberships[row.value].IsAccepted() {
        assert row.value in ListedMemberships(db, user);
      } else if !db.memberships[row.value].IsExpired(now) {
        assert row.value in ListedInvitations(db, user, now);
      }
    }
    if IsMemberOf(db, user, o) {
      var id :| id in ListedMemberships(db, user) && db.memberships[id].organizationId == o;
      RowForIs(db.memberships, o, user, id);
    }
    if IsInvitedTo(db, user, now, o) {
      var id :| id in ListedInvitations(db, user, now) && db.memberships[id].organizationId == o;
      RowForIs(db.memberships, o, user, id);
    }
  }

  lemma EntitledToInvite(db: Tables, inviter: UserId, o: OrganizationId, role: Role)
    requires UniqueRows(db.memberships) && ForeignKeys(db)
    requires Holds(db, inviter, o, if role == Owner then Owner else Admin)
    ensures RequireRole(db, inviter, o, Admin) == Ok(inviter) && o in db.organizations
    ensures role == Owner ==> RequireOwner(db, inviter, o, CannotGrantOwnerRole) == Ok(inviter)
  {
    var minimum := if role == Owner then Owner else Admin;
    var id :| id in db.memberships && Acts(db, inviter, o, id, minimum);
    assert Acts(db, inviter, o, id, Admin);
    HoldsIffRequired(db, inviter, o, Admin);
    HoldsIffRequired(db, inviter, o, minimum);
    RequireRoleIff(db, inviter, o, Admin);
    RequireRoleIff(db, inviter, o, minimum);
  }

  /** For an inviter entitled to the role, an active invitee is a conflict exactly when the lists show them. */
  lemma ConflictIffListed(
    db: Tables, ttl: nat, clock: int, inviter: UserId, now: int, o: OrganizationId, username: string, role: Role,
    newId: MembershipId, invitee: UserId)
    requires TablesInv(db, ttl, clock)
    requires Holds(db, inviter, o, if role == Owner then Owner else Admin)
    requires IsActive(db.users, invitee) && db.users[invitee].username == username
    ensures ExecInvite(db, inviter, now, ttl, o, Some(username), role, newId) == Err(MembershipAlreadyExists)
      <==> IsMemberOf(db, invitee, o) || IsInvitedTo(db, invitee, now, o)
    ensures ExecInvite(db, inviter, now, ttl, o, Some(username), role, newId).Ok?
      <==> !IsMemberOf(db, invitee, o) && !IsInvitedTo(db, invitee, now, o)
  {
    LiveRowIsListed(db, ttl, clock, invitee, now, o);
    FindByUsernameIff(db.users, username);
    EntitledToInvite(db, inviter, o, role);
  }
}
