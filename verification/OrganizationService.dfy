/** The organization commands as they run: guarded checks on tracked entities, staged changes, one commit. */
module OrganizationService {
  import opened Common
  import opened OrganizationModel
  import opened OrganizationSafety

  datatype EntityError = InvalidMembershipExpiry

  /** A tracked membership row: an invitation until it is accepted. */
  class OrganizationMembership {
    const id: MembershipId
    const organizationId: OrganizationId
    const userId: UserId
    var role: Role
    var invitedBy: UserId
    var createdAt: int
    var acceptedAt: Option<int>
    var expiresAt: Option<int>

    constructor (id: MembershipId, m: Membership)
      ensures this.id == id && Row() == m
    {
      this.id, organizationId, userId, role := id, m.organizationId, m.userId, m.role;
      invitedBy, createdAt, acceptedAt, expiresAt := m.invitedBy, m.createdAt, m.acceptedAt, m.expiresAt;
    }

    /** Exactly one of accepted_at and expires_at must be set. */
    static method Make(id: MembershipId, m: Membership) returns (r: Result<OrganizationMembership, EntityError>)
      ensures r.Ok? <==> m.acceptedAt.Some? != m.expiresAt.Some?
      ensures r.Ok? ==> fresh(r.value) && r.value.id == id && r.value.Row() == m
    {
      if m.acceptedAt.None? == m.expiresAt.None? {
        return Err(InvalidMembershipExpiry);
      }
      var entity := new OrganizationMembership(id, m);
      r := Ok(entity);
    }

    function Row(): Membership
      reads this
    {
      Membership(organizationId, userId, role, invitedBy, createdAt, acceptedAt, expiresAt)
    }

    method RenewInvitation(role: Role, invitedBy: UserId, now: int, expiresAt: int)
      modifies this
      ensures Row() == Membership(organizationId, userId, role, invitedBy, now, old(acceptedAt), Some(expiresAt))
    {
      this.role, this.invitedBy, createdAt, this.expiresAt := role, invitedBy, now, Some(expiresAt);
    }

    method Accept(now: int)
      modifies this
      ensures Row() == old(Row()).(acceptedAt := Some(now), expiresAt := None)
    {
      acceptedAt, expiresAt := Some(now), None;
    }
  }

  function RowsOf(entities: map<MembershipId, OrganizationMembership>): Memberships
    reads entities.Values
  {
    map id | id in entities :: entities[id].Row()
  }

  lemma RowsWith(entities: map<MembershipId, OrganizationMembership>, m: OrganizationMembership)
    ensures RowsOf(entities[m.id := m]) == RowsOf(entities)[m.id := m.Row()]
  {
  }

  /** One session on the tables: entities are tracked, inserts and deletes wait for the commit. */
  class OrganizationRepository {
    var users: Users
    var organizations: map<OrganizationId, Organization>
    var memberships: map<MembershipId, OrganizationMembership>
    var addedOrganizations: map<OrganizationId, Organization>
    var addedMemberships: map<MembershipId, OrganizationMembership>
    var deletedOrganizations: set<OrganizationId>
    var deletedMemberships: set<MembershipId>

    predicate Valid()
      reads this
    {
      && (forall id :: id in memberships ==> memberships[id].id == id)
      && addedOrganizations == map[] && addedMemberships == map[]
      && deletedOrganizations == {} && deletedMemberships == {}
    }

    function Rows(): Memberships
      reads this, memberships.Values
    {
      RowsOf(memberships)
    }

    function Db(): Tables
      reads this, memberships.Values
    {
      Tables(users, organizations, Rows())
    }

    method GetRole(user: UserId, organization: OrganizationId) returns (role: Option<Role>)
      requires UniqueRows(Rows())
      ensures role == OrganizationModel.GetRole(Rows(), user, organization)
    {
      RowForIff(Rows(), organization, user);
      if id :| id in memberships && memberships[id].organizationId == organization && memberships[id].userId == user
               && memberships[id].acceptedAt.Some? {
        RowForIs(Rows(), organization, user, id);
        role := Some(memberships[id].role);
      } else {
        role := None;
      }
    }

    method GetMembershipById(organization: OrganizationId, id: MembershipId)
      returns (m: Option<OrganizationMembership>)
      ensures m == if id in memberships && memberships[id].organizationId == organization then Some(memberships[id])
                   else None
      ensures OrganizationModel.GetMembershipById(Rows(), organization, id)
           == if m.Some? then Some(m.value.Row()) else None
    {
      m := if id in memberships && memberships[id].organizationId == organization then Some(memberships[id]) else None;
    }

    method GetMembershipForUser(organization: OrganizationId, user: UserId)
      returns (m: Option<OrganizationMembership>)
      requires Valid() && UniqueRows(Rows())
      ensures match RowFor(Rows(), organization, user)
              case Some(id) => id in memberships && m == Some(memberships[id])
              case None => m == None
    {
      RowForIff(Rows(), organization, user);
      if id :| id in memberships && memberships[id].organizationId == organization && memberships[id].userId == user {
        RowForIs(Rows(), organization, user, id);
        m := Some(memberships[id]);
      } else {
        m := None;
      }
    }

    method FindByUsername(username: string) returns (user: Option<UserId>)
      requires UniqueUsernames(users)
      ensures user == OrganizationModel.FindByUsername(users, username)
    {
      FindByUsernameIff(users, username);
      if u :| u in users && users[u].username == username {
        user := Some(u);
      } else {
        user := None;
      }
    }

    method CountOwners(organization: OrganizationId) returns (count: nat)
      ensures count == OrganizationModel.CountOwners(Db(), organization)
    {
      var owners := set id | id in memberships
        && memberships[id].organizationId == organization && memberships[id].role == Owner
        && memberships[id].acceptedAt.Some?
        && memberships[id].userId in users && users[memberships[id].userId].isActive;
      assert owners == ActiveOwners(users, Rows(), organization);
      count := |owners|;
    }

    // ----- Staging and committing

    function Tracked(id: MembershipId): OrganizationMembership
      requires id in memberships.Keys + addedMemberships.Keys
      reads this`memberships, this`addedMemberships
    {
      if id in addedMemberships then addedMemberships[id] else memberships[id]
    }

    /** The entities that will be left once the session commits: deleting an organization cascades. */
    function Kept(): (kept: map<MembershipId, OrganizationMembership>)
      reads this`memberships, this`addedMemberships, this`deletedMemberships, this`deletedOrganizations
      reads memberships.Values, addedMemberships.Values
      ensures kept.Values <= memberships.Values + addedMemberships.Values
    {
      map id | id in memberships.Keys + addedMemberships.Keys && id !in deletedMemberships
        && Tracked(id).organizationId !in deletedOrganizations :: Tracked(id)
    }

    /** The rows as they will be once the session commits. */
    function StagedRows(): Memberships
      reads this`memberships, this`addedMemberships, this`deletedMemberships, this`deletedOrganizations
      reads memberships.Values, addedMemberships.Values
    {
      RowsOf(Kept())
    }

    function Staged(): Tables
      reads this, memberships.Values, addedMemberships.Values
    {
      Tables(users, (organizations + addedOrganizations) - deletedOrganizations, StagedRows())
    }

    /** Nothing is staged yet but changes to tracked entities. */
    predicate Unstaged()
      reads this
    {
      && addedOrganizations == map[] && addedMemberships == map[]
      && deletedOrganizations == {} && deletedMemberships == {}
    }

    lemma UnstagedIsDb()
      requires Unstaged()
      ensures Staged() == Db()
    {
      assert StagedRows() == Rows();
    }

    lemma NothingDeleted()
      requires deletedOrganizations == {} && deletedMemberships == {}
      ensures Kept() == memberships + addedMemberships
    {
    }

    method Add(id: OrganizationId, organization: Organization)
      requires deletedOrganizations == {}
      modifies this`addedOrganizations
      ensures addedOrganizations == old(addedOrganizations)[id := organization]
      ensures Staged() == old(Staged()).(organizations := old(Staged()).organizations[id := organization])
    {
      ghost var rows := StagedRows();
      addedOrganizations := addedOrganizations[id := organization];
      assert StagedRows() == rows;
    }

    method AddMembership(m: OrganizationMembership)
      requires deletedOrganizations == {} && deletedMemberships == {} && addedMemberships == map[]
      modifies this`addedMemberships
      ensures addedMemberships == map[m.id := m]
      ensures Staged() == OrganizationModel.AddMembership(old(Staged()), m.id, m.Row())
    {
      NothingDeleted();
      RowsWith(memberships, m);
      assert memberships + map[] == memberships;
      assert memberships + map[m.id := m] == memberships[m.id := m];
      addedMemberships := map[m.id := m];
      NothingDeleted();
    }

    method DeleteMembership(m: OrganizationMembership)
      requires Unstaged()
      modifies this`deletedMemberships
      ensures deletedMemberships == {m.id}
      ensures Staged() == OrganizationModel.DeleteMembership(old(Db()), m.id)
    {
      ghost var rows := Rows();
      deletedMemberships := {m.id};
      assert Kept() == memberships - {m.id};
      assert StagedRows() == rows - {m.id};
    }

    method Delete(id: OrganizationId)
      requires Unstaged()
      modifies this`deletedOrganizations
      ensures deletedOrganizations == {id}
      ensures Staged() == OrganizationModel.DeleteOrganization(old(Db()), id)
    {
      ghost var rows := Rows();
      deletedOrganizations := {id};
      assert Kept().Keys == WithoutOrganization(rows, id).Keys;
      assert StagedRows() == WithoutOrganization(rows, id);
    }

    method Commit()
      requires forall id :: id in memberships ==> memberships[id].id == id
      requires forall id :: id in addedMemberships ==> addedMemberships[id].id == id
      modifies this
      ensures Valid() && Db() == old(Staged()) && users == old(users)
      ensures memberships.Values <= old(memberships.Values + addedMemberships.Values)
    {
      var kept := Kept();
      ghost var rows := StagedRows();
      assert forall id :: id in kept ==> kept[id].id == id;
      organizations := (organizations + addedOrganizations) - deletedOrganizations;
      memberships := kept;
      addedOrganizations, addedMemberships, deletedOrganizations, deletedMemberships := map[], map[], {}, {};
      assert Rows() == rows;
    }
  }

  function Answer(outcome: Outcome): Result<Response, Error>
  {
    if outcome.Ok? then Ok(outcome.value.response) else Err(outcome.error)
  }

  // ----- Authorization

  method RequireRole(repo: OrganizationRepository, caller: UserId, organization: OrganizationId, minimum: Role)
    returns (r: Result<UserId, Error>)
    requires UniqueRows(repo.Rows())
    ensures r == OrganizationModel.RequireRole(repo.Db(), caller, organization, minimum)
  {
    if !IsActive(repo.users, caller) { return Err(AuthorizationError); }
    var role := repo.GetRole(caller, organization);
    if role == None { return Err(OrganizationNotFound); }
    r := if CanAccess(role, minimum) then Ok(caller) else Err(AuthorizationError);
  }

  method RequireOwner(repo: OrganizationRepository, caller: UserId, organization: OrganizationId, refusal: Error)
    returns (r: Result<UserId, Error>)
    requires UniqueRows(repo.Rows())
    ensures r == OrganizationModel.RequireOwner(repo.Db(), caller, organization, refusal)
  {
    r := RequireRole(repo, caller, organization, Owner);
    if r == Err(AuthorizationError) { r := Err(refusal); }
  }

  // ----- Commands

  method CreateOrganization(
    repo: OrganizationRepository, caller: UserId, now: int, name: Option<string>, newOrganization: OrganizationId,
    newMembership: MembershipId)
    returns (r: Result<Response, Error>)
    requires repo.Valid()
    modifies repo
    ensures var o := ExecCreate(old(repo.users), caller, now, name, newOrganization, newMembership);
            repo.Valid() && repo.Db() == OrganizationModel.Commit(old(repo.Db()), WriteOf(o)) && r == Answer(o)
    ensures fresh(repo.memberships.Values - old(repo.memberships.Values))
  {
    if !IsActive(repo.users, caller) { return Err(AuthorizationError); }
    if name.None? { return Err(BusinessTypeError); }
    var owner := new OrganizationMembership(
      newMembership, Membership(newOrganization, caller, Owner, caller, now, Some(now), None));
    repo.UnstagedIsDb();
    repo.Add(newOrganization, Organization(name.value, caller, now));
    repo.AddMembership(owner);
    repo.Commit();
    r := Ok(Created(newOrganization));
  }

  ghost function InviteChecks(
    db: Tables, caller: UserId, organization: OrganizationId, username: Option<string>, role: Role)
    : Result<UserId, Error>
  {
    var inviter :- OrganizationModel.RequireRole(db, caller, organization, Admin);
    var _ :-
      if role == Owner then OrganizationModel.RequireOwner(db, caller, organization, CannotGrantOwnerRole)
      else Ok(inviter);
    if username.None? then Err(BusinessTypeError) else
      var invitee := OrganizationModel.FindByUsername(db.users, username.value);
      if invitee.None? || !IsActive(db.users, invitee.value) then Err(UnknownInvitee) else Ok(invitee.value)
  }

  /** The checks made of the caller and of the invitee's name. */
  method CheckInviter(
    repo: OrganizationRepository, caller: UserId, organization: OrganizationId, username: Option<string>, role: Role)
    returns (r: Result<UserId, Error>)
    requires UniqueRows(repo.Rows()) && UniqueUsernames(repo.users)
    ensures r == InviteChecks(repo.Db(), caller, organization, username, role)
  {
    var inviter :- RequireRole(repo, caller, organization, Admin);
    if role == Owner {
      var _ :- RequireOwner(repo, caller, organization, CannotGrantOwnerRole);
    }
    if username.None? { return Err(BusinessTypeError); }
    var invitee := repo.FindByUsername(username.value);
    if invitee.None? || !IsActive(repo.users, invitee.value) { return Err(UnknownInvitee); }
    r := Ok(invitee.value);
  }

  /** What an invitation does once its checks have passed. */
  ghost function InviteWrite(
    ms: Memberships, caller: UserId, now: int, ttl: nat, organization: OrganizationId, invitee: UserId, role: Role,
    newMembership: MembershipId): Outcome
  {
    var existing := RowFor(ms, organization, invitee);
    if existing.Some? && (ms[existing.value].IsAccepted() || !ms[existing.value].IsExpired(now)) then
      Err(MembershipAlreadyExists)
    else
      var id := existing.GetOr(newMembership);
      Ok(Success(Put(id, Membership(organization, invitee, role, caller, now, None, Some(now + ttl))),
                 Invited(id, invitee, role, now + ttl)))
  }

  ghost function InviteOutcome(
    checks: Result<UserId, Error>, ms: Memberships, caller: UserId, now: int, ttl: nat, organization: OrganizationId,
    role: Role, newMembership: MembershipId): Outcome
  {
    var invitee :- checks;
    InviteWrite(ms, caller, now, ttl, organization, invitee, role, newMembership)
  }

  lemma InviteAfterChecks(
    db: Tables, caller: UserId, now: int, ttl: nat, organization: OrganizationId, username: Option<string>,
    role: Role, newMembership: MembershipId)
    requires UniqueRows(db.memberships) && ForeignKeys(db)
    ensures ExecInvite(db, caller, now, ttl, organization, username, role, newMembership)
         == InviteOutcome(InviteChecks(db, caller, organization, username, role), db.memberships, caller, now, ttl,
                          organization, role, newMembership)
  {
    RequireRoleIff(db, caller, organization, Admin);
  }

  /** Renew the invitee's lapsed row in place. */
  method RenewAndCommit(repo: OrganizationRepository, row: OrganizationMembership, m: Membership)
    requires repo.Valid() && row.id in repo.memberships && repo.memberships[row.id] == row
    requires m.expiresAt.Some? && m.acceptedAt == row.acceptedAt
    requires row.organizationId == m.organizationId && row.userId == m.userId
    modifies repo, repo.memberships.Values
    ensures repo.Valid() && repo.Db() == OrganizationModel.AddMembership(old(repo.Db()), row.id, m)
    ensures repo.memberships.Values <= old(repo.memberships.Values)
  {
    row.RenewInvitation(m.role, m.invitedBy, m.createdAt, m.expiresAt.value);
    repo.UnstagedIsDb();
    repo.Commit();
  }

  method AddAndCommit(repo: OrganizationRepository, newMembership: MembershipId, m: Membership)
    requires repo.Valid()
    modifies repo
    ensures repo.Valid() && repo.Db() == OrganizationModel.AddMembership(old(repo.Db()), newMembership, m)
    ensures fresh(repo.memberships.Values - old(repo.memberships.Values))
  {
    var invitation := new OrganizationMembership(newMembership, m);
    repo.UnstagedIsDb();
    repo.AddMembership(invitation);
    repo.Commit();
  }

  /** An invitation is written over the invitee's lapsed row, or else as a new row. */
  method WriteInvitation(
    repo: OrganizationRepository, existing: Option<OrganizationMembership>, newMembership: MembershipId, m: Membership)
    returns (id: MembershipId)
    requires repo.Valid() && m.expiresAt.Some? && m.acceptedAt.None?
    requires existing.Some? ==>
               && existing.value.id in repo.memberships && repo.memberships[existing.value.id] == existing.value
               && existing.value.acceptedAt.None?
               && existing.value.organizationId == m.organizationId && existing.value.userId == m.userId
    modifies repo, repo.memberships.Values
    ensures id == if existing.Some? then existing.value.id else newMembership
    ensures repo.Valid() && repo.Db() == OrganizationModel.AddMembership(old(repo.Db()), id, m)
    ensures fresh(repo.memberships.Values - old(repo.memberships.Values))
  {
    if existing.Some? {
      id := existing.value.id;
      RenewAndCommit(repo, existing.value, m);
    } else {
      id := newMembership;
      AddAndCommit(repo, newMembership, m);
    }
  }

  /** Refused by the checks, in conflict with a live row, or else written. */
  method SendInvitation(
    repo: OrganizationRepository, checks: Result<UserId, Error>, caller: UserId, now: int, ttl: nat,
    organization: OrganizationId, role: Role, newMembership: MembershipId)
    returns (r: Result<Response, Error>)
    requires repo.Valid() && UniqueRows(repo.Rows()) && newMembership !in repo.memberships
    modifies repo, repo.memberships.Values
    ensures var o := InviteOutcome(checks, old(repo.Rows()), caller, now, ttl, organization, role, newMembership);
            repo.Valid() && repo.Db() == OrganizationModel.Commit(old(repo.Db()), WriteOf(o)) && r == Answer(o)
    ensures fresh(repo.memberships.Values - old(repo.memberships.Values))
  {
    ghost var rows := repo.Rows();
    var invitee :- checks;
    var existing := repo.GetMembershipForUser(organization, invitee);
    RowForIff(rows, organization, invitee);
    if existing.Some? {
      assert rows[existing.value.id] == existing.value.Row();
      if existing.value.acceptedAt.Some? || !existing.value.Row().IsExpired(now) {
        return Err(MembershipAlreadyExists);
      }
    }
    var invitation := Membership(organization, invitee, role, caller, now, None, Some(now + ttl));
    var id := WriteInvitation(repo, existing, newMembership, invitation);
    r := Ok(Invited(id, invitee, role, now + ttl));
  }

  method InviteOrganizationMember(
    repo: OrganizationRepository, caller: UserId, now: int, ttl: nat, organization: OrganizationId,
    username: Option<string>, role: Role, newMembership: MembershipId)
    returns (r: Result<Response, Error>)
    requires repo.Valid() && UniqueRows(repo.Rows()) && UniqueUsernames(repo.users) && ForeignKeys(repo.Db())
    requires newMembership !in repo.memberships
    modifies repo, repo.memberships.Values
    ensures var o := ExecInvite(old(repo.Db()), caller, now, ttl, organization, username, role, newMembership);
            repo.Valid() && repo.Db() == OrganizationModel.Commit(old(repo.Db()), WriteOf(o)) && r == Answer(o)
    ensures fresh(repo.memberships.Values - old(repo.memberships.Values))
  {
    InviteAfterChecks(repo.Db(), caller, now, ttl, organization, username, role, newMembership);
    var checks := CheckInviter(repo, caller, organization, username, role);
    r := SendInvitation(repo, checks, caller, now, ttl, organization, role, newMembership);
  }

  method AcceptAndCommit(repo: OrganizationRepository, m: OrganizationMembership, now: int)
    requires repo.Valid() && m.id in repo.memberships && repo.memberships[m.id] == m
    modifies repo, repo.memberships.Values
    ensures repo.Valid()
    ensures repo.Db() == OrganizationModel.AddMembership(
              old(repo.Db()), m.id, old(m.Row()).(acceptedAt := Some(now), expiresAt := None))
    ensures repo.memberships.Values <= old(repo.memberships.Values)
  {
    ghost var rows := repo.Rows();
    m.Accept(now);
    assert repo.Rows() == rows[m.id := m.Row()];
    repo.UnstagedIsDb();
    repo.Commit();
  }

  method AcceptOrganizationInvitation(
    repo: OrganizationRepository, caller: UserId, now: int, organization: OrganizationId, id: MembershipId)
    returns (r: Result<Response, Error>)
    requires repo.Valid()
    modifies repo, repo.memberships.Values
    ensures var o := ExecAccept(old(repo.Db()), caller, now, organization, id);
            repo.Valid() && repo.Db() == OrganizationModel.Commit(old(repo.Db()), WriteOf(o)) && r == Answer(o)
    ensures repo.memberships.Values <= old(repo.memberships.Values)
  {
    if !IsActive(repo.users, caller) { return Err(AuthorizationError); }
    var m := repo.GetMembershipById(organization, id);
    if m.None? || m.value.userId != caller { return Err(MembershipNotFound); }
    if m.value.acceptedAt.Some? { return Ok(AlreadyAccepted); }
    if m.value.Row().IsExpired(now) { return Err(InvitationExpired); }
    AcceptAndCommit(repo, m.value, now);
    r := Ok(Done);
  }

  method DropAndCommit(repo: OrganizationRepository, m: OrganizationMembership)
    requires repo.Valid()
    modifies repo
    ensures repo.Valid() && repo.Db() == OrganizationModel.DeleteMembership(old(repo.Db()), m.id)
    ensures repo.memberships.Values <= old(repo.memberships.Values)
  {
    repo.DeleteMembership(m);
    repo.Commit();
  }

  method DeclineOrganizationInvitation(
    repo: OrganizationRepository, caller: UserId, organization: OrganizationId, id: MembershipId)
    returns (r: Result<Response, Error>)
    requires repo.Valid()
    modifies repo
    ensures var o := ExecDecline(old(repo.Db()), caller, organization, id);
            repo.Valid() && repo.Db() == OrganizationModel.Commit(old(repo.Db()), WriteOf(o)) && r == Answer(o)
    ensures repo.memberships.Values <= old(repo.memberships.Values)
  {
    if !IsActive(repo.users, caller) { return Err(AuthorizationError); }
    var m := repo.GetMembershipById(organization, id);
    if m.None? || m.value.userId != caller || m.value.acceptedAt.Some? { return Err(MembershipNotFound); }
    DropAndCommit(repo, m.value);
    r := Ok(Done);
  }

  /** The last-owner guard: an accepted owner while at most one active owner is counted. */
  method IsLastOwner(repo: OrganizationRepository, organization: OrganizationId, target: OrganizationMembership)
    returns (last: bool)
    ensures last <==> target.acceptedAt.Some? && target.role == Owner
                      && OrganizationModel.CountOwners(repo.Db(), organization) <= 1
  {
    if target.acceptedAt.None? || target.role != Owner { return false; }
    var count := repo.CountOwners(organization);
    last := count <= 1;
  }

  /** The checks of a removal: the target, or the error to answer with. */
  method CheckRemoval(
    repo: OrganizationRepository, caller: UserId, organization: OrganizationId, id: MembershipId)
    returns (r: Result<OrganizationMembership, Error>)
    requires repo.Valid() && UniqueRows(repo.Rows())
    ensures ExecRemove(repo.Db(), caller, organization, id)
         == if r.Err? then Err(r.error) else Ok(Success(Drop(id), Done))
    ensures r.Ok? ==> r.value.id == id
  {
    var user :- RequireRole(repo, caller, organization, Member);
    var m := repo.GetMembershipById(organization, id);
    if m.None? { return Err(MembershipNotFound); }
    var target := m.value;
    if target.userId != user {
      var _ :- RequireRole(repo, caller, organization, Admin);
      if target.role == Owner {
        var _ :- RequireOwner(repo, caller, organization, CannotManageOwner);
      }
    }
    var last := IsLastOwner(repo, organization, target);
    if last { return Err(LastOwner); }
    r := Ok(target);
  }

  method RemoveOrganizationMember(
    repo: OrganizationRepository, caller: UserId, organization: OrganizationId, id: MembershipId)
    returns (r: Result<Response, Error>)
    requires repo.Valid() && UniqueRows(repo.Rows())
    modifies repo
    ensures var o := ExecRemove(old(repo.Db()), caller, organization, id);
            repo.Valid() && repo.Db() == OrganizationModel.Commit(old(repo.Db()), WriteOf(o)) && r == Answer(o)
    ensures repo.memberships.Values <= old(repo.memberships.Values)
  {
    var target :- CheckRemoval(repo, caller, organization, id);
    DropAndCommit(repo, target);
    r := Ok(Done);
  }

  /** The checks of a role change: the target, or the error to answer with. */
  method CheckRoleChange(
    repo: OrganizationRepository, caller: UserId, organization: OrganizationId, id: MembershipId, role: Role)
    returns (r: Result<OrganizationMembership, Error>)
    requires repo.Valid() && UniqueRows(repo.Rows())
    ensures r.Ok? ==> id in repo.memberships && r.value == repo.memberships[id]
    ensures ExecChangeRole(repo.Db(), caller, organization, id, role)
         == if r.Err? then Err(r.error) else Ok(Success(Put(id, r.value.Row().(role := role)), Done))
  {
    var _ :- RequireRole(repo, caller, organization, Admin);
    var m := repo.GetMembershipById(organization, id);
    if m.None? { return Err(MembershipNotFound); }
    var target := m.value;
    if target.role == Owner {
      var _ :- RequireOwner(repo, caller, organization, CannotManageOwner);
    } else if role == Owner {
      var _ :- RequireOwner(repo, caller, organization, CannotGrantOwnerRole);
    }
    if role != Owner {
      var last := IsLastOwner(repo, organization, target);
      if last { return Err(LastOwner); }
    }
    r := Ok(target);
  }

  method SetRoleAndCommit(repo: OrganizationRepository, target: OrganizationMembership, role: Role)
    requires repo.Valid() && target.id in repo.memberships && repo.memberships[target.id] == target
    modifies repo, repo.memberships.Values
    ensures repo.Valid()
    ensures repo.Db() == OrganizationModel.AddMembership(old(repo.Db()), target.id, old(target.Row()).(role := role))
    ensures repo.memberships.Values <= old(repo.memberships.Values)
  {
    ghost var rows := repo.Rows();
    target.role := role;
    assert repo.Rows() == rows[target.id := target.Row()];
    repo.UnstagedIsDb();
    repo.Commit();
  }

  method ChangeOrganizationMemberRole(
    repo: OrganizationRepository, caller: UserId, organization: OrganizationId, id: MembershipId, role: Role)
    returns (r: Result<Response, Error>)
    requires repo.Valid() && UniqueRows(repo.Rows())
    modifies repo, repo.memberships.Values
    ensures var o := ExecChangeRole(old(repo.Db()), caller, organization, id, role);
            repo.Valid() && repo.Db() == OrganizationModel.Commit(old(repo.Db()), WriteOf(o)) && r == Answer(o)
    ensures repo.memberships.Values <= old(repo.memberships.Values)
  {
    var target :- CheckRoleChange(repo, caller, organization, id, role);
    SetRoleAndCommit(repo, target, role);
    r := Ok(Done);
  }

  method DissolveAndCommit(repo: OrganizationRepository, organization: OrganizationId)
    requires repo.Valid()
    modifies repo
    ensures repo.Valid() && repo.Db() == OrganizationModel.DeleteOrganization(old(repo.Db()), organization)
    ensures repo.memberships.Values <= old(repo.memberships.Values)
  {
    repo.Delete(organization);
    repo.Commit();
  }

  method DeleteOrganization(repo: OrganizationRepository, caller: UserId, organization: OrganizationId)
    returns (r: Result<Response, Error>)
    requires repo.Valid() && UniqueRows(repo.Rows())
    modifies repo
    ensures var o := ExecDelete(old(repo.Db()), caller, organization);
            repo.Valid() && repo.Db() == OrganizationModel.Commit(old(repo.Db()), WriteOf(o)) && r == Answer(o)
    ensures repo.memberships.Values <= old(repo.memberships.Values)
  {
    var _ :- RequireRole(repo, caller, organization, Owner);
    if organization !in repo.organizations { return Err(OrganizationNotFound); }
    DissolveAndCommit(repo, organization);
    r := Ok(Done);
  }
}
