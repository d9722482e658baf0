/**
 Organizations, their memberships and invitations, and the commands that change them.

 A membership row is an invitation while it is pending and a membership once it is
 accepted.  A command either fails, leaving the tables as they were, or commits once.
 */
module OrganizationModel {
  import opened Common

  type UserId = nat
  type OrganizationId = nat
  type MembershipId = nat

  datatype Role = Owner | Admin | Member

  datatype User = User(username: string, isActive: bool)

  datatype Organization = Organization(name: string, createdBy: UserId, createdAt: int)

  datatype Membership = Membership(
    organizationId: OrganizationId,
    userId: UserId,
    role: Role,
    invitedBy: UserId,
    createdAt: int,
    acceptedAt: Option<int>,
    expiresAt: Option<int>)
  {
    predicate IsAccepted() { acceptedAt.Some? }

    predicate IsExpired(now: int) { expiresAt.Some? && now >= expiresAt.value }
  }

  type Users = map<UserId, User>
  type Memberships = map<MembershipId, Membership>

  datatype Tables = Tables(users: Users, organizations: map<OrganizationId, Organization>, memberships: Memberships)

  datatype Error =
    | AuthorizationError
    | OrganizationNotFound
    | MembershipNotFound
    | MembershipAlreadyExists
    | UnknownInvitee
    | InvitationExpired
    | CannotGrantOwnerRole
    | CannotManageOwner
    | LastOwner
    | BusinessTypeError

  /** What a successful command answers; `Invited` also carries what the invitation event says. */
  datatype Response =
    | Done
    | AlreadyAccepted
    | Created(organizationId: OrganizationId)
    | Invited(membershipId: MembershipId, invitee: UserId, role: Role, expiresAt: int)

  /** Names are validated before the command looks at the tables: a name is None when it is invalid. */
  datatype Command =
    | Create(name: Option<string>, newOrganization: OrganizationId, newMembership: MembershipId)
    | Invite(organization: OrganizationId, username: Option<string>, role: Role, newMembership: MembershipId)
    | Accept(organization: OrganizationId, membership: MembershipId)
    | Decline(organization: OrganizationId, membership: MembershipId)
    | Remove(organization: OrganizationId, membership: MembershipId)
    | ChangeRole(organization: OrganizationId, membership: MembershipId, role: Role)
    | Delete(organization: OrganizationId)

  /** What a command stages and then commits at once. */
  datatype Write =
    | Nothing
    | Put(id: MembershipId, row: Membership)
    | Drop(id: MembershipId)
    | Found(organization: OrganizationId, record: Organization, id: MembershipId, row: Membership)
    | Dissolve(organization: OrganizationId)

  datatype Success = Success(write: Write, response: Response)

  type Outcome = Result<Success, Error>

  // ----- Roles

  const ROLE_HIERARCHY: map<Role, set<Role>> := map[
    Owner := {Owner, Admin, Member},
    Admin := {Admin, Member},
    Member := {Member}]

  predicate CanAccess(memberRole: Option<Role>, minimum: Role)
  {
    memberRole.Some? && memberRole.value in ROLE_HIERARCHY && minimum in ROLE_HIERARCHY[memberRole.value]
  }

  // ----- Queries

  predicate IsRowFor(ms: Memberships, organization: OrganizationId, user: UserId, id: MembershipId)
  {
    id in ms && ms[id].organizationId == organization && ms[id].userId == user
  }

  ghost function RowFor(ms: Memberships, organization: OrganizationId, user: UserId): Option<MembershipId>
  {
    if exists id :: IsRowFor(ms, organization, user, id) then
      var id :| IsRowFor(ms, organization, user, id); Some(id)
    else
      None
  }

  ghost function GetRole(ms: Memberships, user: UserId, organization: OrganizationId): Option<Role>
  {
    var row := RowFor(ms, organization, user);
    if row.Some? && ms[row.value].IsAccepted() then Some(ms[row.value].role) else None
  }

  ghost function FindByUsername(users: Users, username: string): Option<UserId>
  {
    if exists u :: u in users && users[u].username == username then
      var u :| u in users && users[u].username == username; Some(u)
    else
      None
  }

  predicate IsActive(users: Users, user: UserId)
  {
    user in users && users[user].isActive
  }

  predicate IsAcceptedOwner(ms: Memberships, organization: OrganizationId, id: MembershipId)
  {
    id in ms && ms[id].organizationId == organization && ms[id].role == Owner && ms[id].IsAccepted()
  }

  /** The rows counted by the last-owner guard: accepted owners whose account is active. */
  function ActiveOwners(users: Users, ms: Memberships, organization: OrganizationId): set<MembershipId>
  {
    set id | id in ms && IsAcceptedOwner(ms, organization, id) && IsActive(users, ms[id].userId)
  }

  function CountOwners(db: Tables, organization: OrganizationId): nat
  {
    |ActiveOwners(db.users, db.memberships, organization)|
  }

  function GetMembershipById(ms: Memberships, organization: OrganizationId, id: MembershipId): Option<Membership>
  {
    if id in ms && ms[id].organizationId == organization then Some(ms[id]) else None
  }

  // ----- Authorization

  function CurrentUser(users: Users, caller: UserId): Result<UserId, Error>
  {
    if IsActive(users, caller) then Ok(caller) else Err(AuthorizationError)
  }

  ghost function RequireRole(db: Tables, caller: UserId, organization: OrganizationId, minimum: Role)
    : Result<UserId, Error>
  {
    var user :- CurrentUser(db.users, caller);
    var role := GetRole(db.memberships, user, organization);
    if role.None? then Err(OrganizationNotFound)
    else if CanAccess(role, minimum) then Ok(user)
    else Err(AuthorizationError)
  }

  /** Only "a member, but not an owner" becomes the given error. */
  ghost function RequireOwner(db: Tables, caller: UserId, organization: OrganizationId, refusal: Error)
    : Result<UserId, Error>
  {
    var owner := RequireRole(db, caller, organization, Owner);
    if owner == Err(AuthorizationError) then Err(refusal) else owner
  }

  // ----- Commands

  function AddMembership(db: Tables, id: MembershipId, m: Membership): Tables
  {
    db.(memberships := db.memberships[id := m])
  }

  function DeleteMembership(db: Tables, id: MembershipId): Tables
  {
    db.(memberships := db.memberships - {id})
  }

  function WithoutOrganization(ms: Memberships, organization: OrganizationId): Memberships
  {
    map id | id in ms && ms[id].organizationId != organization :: ms[id]
  }

  /** Deleting an organization cascades to its memberships and invitations. */
  function DeleteOrganization(db: Tables, organization: OrganizationId): Tables
  {
    db.(organizations := db.organizations - {organization},
        memberships := WithoutOrganization(db.memberships, organization))
  }

  function Commit(db: Tables, w: Write): Tables
  {
    match w
    case Nothing => db
    case Put(id, row) => AddMembership(db, id, row)
    case Drop(id) => DeleteMembership(db, id)
    case Found(o, record, id, row) => AddMembership(db.(organizations := db.organizations[o := record]), id, row)
    case Dissolve(o) => DeleteOrganization(db, o)
  }

  function ExecCreate(
    users: Users, caller: UserId, now: int, name: Option<string>, newOrganization: OrganizationId,
    newMembership: MembershipId): Outcome
  {
    var user :- CurrentUser(users, caller);
    if name.None? then Err(BusinessTypeError) else
      var owner := Membership(newOrganization, user, Owner, user, now, Some(now), None);
      Ok(Success(Found(newOrganization, Organization(name.value, user, now), newMembership, owner),
                 Created(newOrganization)))
  }

  ghost function ExecInvite(
    db: Tables, caller: UserId, now: int, ttl: nat, organization: OrganizationId, username: Option<string>,
    role: Role, newMembership: MembershipId): Outcome
  {
    var inviter :- RequireRole(db, caller, organization, Admin);
    var _ :- if role == Owner then RequireOwner(db, caller, organization, CannotGrantOwnerRole) else Ok(inviter);
    if username.None? then Err(BusinessTypeError) else
      var invitee := FindByUsername(db.users, username.value);
      if invitee.None? || !IsActive(db.users, invitee.value) then Err(UnknownInvitee) else
        var existing := RowFor(db.memberships, organization, invitee.value);
        if existing.Some?
           && (db.memberships[existing.value].IsAccepted() || !db.memberships[existing.value].IsExpired(now)) then
          Err(MembershipAlreadyExists)
        else if organization !in db.organizations then
          Err(OrganizationNotFound)
        else
          var id := if existing.Some? then existing.value else newMembership;
          Ok(Success(Put(id, Membership(organization, invitee.value, role, inviter, now, None, Some(now + ttl))),
                     Invited(id, invitee.value, role, now + ttl)))
  }

  function ExecAccept(db: Tables, caller: UserId, now: int, organization: OrganizationId, id: MembershipId): Outcome
  {
    var user :- CurrentUser(db.users, caller);
    var m := GetMembershipById(db.memberships, organization, id);
    if m.None? || m.value.userId != user then Err(MembershipNotFound)
    else if m.value.IsAccepted() then Ok(Success(Nothing, AlreadyAccepted))
    else if m.value.IsExpired(now) then Err(InvitationExpired)
    else Ok(Success(Put(id, m.value.(acceptedAt := Some(now), expiresAt := None)), Done))
  }

  function ExecDecline(db: Tables, caller: UserId, organization: OrganizationId, id: MembershipId): Outcome
  {
    var user :- CurrentUser(db.users, caller);
    var m := GetMembershipById(db.memberships, organization, id);
    if m.None? || m.value.userId != user || m.value.IsAccepted() then Err(MembershipNotFound)
    else Ok(Success(Drop(id), Done))
  }

  ghost function ExecRemove(db: Tables, caller: UserId, organization: OrganizationId, id: MembershipId): Outcome
  {
    var user :- RequireRole(db, caller, organization, Member);
    var m := GetMembershipById(db.memberships, organization, id);
    if m.None? then Err(MembershipNotFound) else
      var _ :- if m.value.userId != user then RequireRole(db, caller, organization, Admin) else Ok(user);
      var _ :-
        if m.value.userId != user && m.value.role == Owner then
          RequireOwner(db, caller, organization, CannotManageOwner)
        else Ok(user);
      if m.value.IsAccepted() && m.value.role == Owner && CountOwners(db, organization) <= 1 then Err(LastOwner)
      else Ok(Success(Drop(id), Done))
  }

  ghost function ExecChangeRole(
    db: Tables, caller: UserId, organization: OrganizationId, id: MembershipId, role: Role): Outcome
  {
    var user :- RequireRole(db, caller, organization, Admin);
    var m := GetMembershipById(db.memberships, organization, id);
    if m.None? then Err(MembershipNotFound) else
      var _ :-
        if m.value.role == Owner then RequireOwner(db, caller, organization, CannotManageOwner)
        else if role == Owner then RequireOwner(db, caller, organization, CannotGrantOwnerRole)
        else Ok(user);
      if m.value.IsAccepted() && m.value.role == Owner && role != Owner && CountOwners(db, organization) <= 1 then
        Err(LastOwner)
      else
        Ok(Success(Put(id, m.value.(role := role)), Done))
  }

  ghost function ExecDelete(db: Tables, caller: UserId, organization: OrganizationId): Outcome
  {
    var _ :- RequireRole(db, caller, organization, Owner);
    if organization !in db.organizations then Err(OrganizationNotFound)
    else Ok(Success(Dissolve(organization), Done))
  }

  ghost function Execute(db: Tables, caller: UserId, now: int, ttl: nat, c: Command): Outcome
  {
    match c
    case Create(name, o, m) => ExecCreate(db.users, caller, now, name, o, m)
    case Invite(o, username, role, m) => ExecInvite(db, caller, now, ttl, o, username, role, m)
    case Accept(o, m) => ExecAccept(db, caller, now, o, m)
    case Decline(o, m) => ExecDecline(db, caller, o, m)
    case Remove(o, m) => ExecRemove(db, caller, o, m)
    case ChangeRole(o, m, role) => ExecChangeRole(db, caller, o, m, role)
    case Delete(o) => ExecDelete(db, caller, o)
  }

  /** A failed command commits nothing. */
  function WriteOf(outcome: Outcome): Write
  {
    if outcome.Ok? then outcome.value.write else Nothing
  }

  // ----- Runs

  /** A command, or a step from outside: an account is registered, activated or deactivated. */
  datatype Action =
    | Run(caller: UserId, command: Command)
    | SetActive(user: UserId, isActive: bool)
    | Register(user: UserId, username: string)

  datatype Event = Event(now: int, action: Action)

  /** The tables, the latest clock reading and every identifier generated so far. */
  datatype World = World(db: Tables, clock: int, issued: set<nat>)

  function NewIds(c: Command): set<nat>
  {
    match c
    case Create(_, o, m) => {o, m}
    case Invite(_, _, _, m) => {m}
    case _ => {}
  }

  /** Clock readings do not decrease and generated identifiers are fresh. */
  predicate Enabled(w: World, e: Event)
  {
    && e.now >= w.clock
    && match e.action
       case Run(_, c) => NewIds(c) !! w.issued
       case SetActive(u, _) => u in w.db.users
       case Register(u, name) => u !in w.db.users && forall v :: v in w.db.users ==> w.db.users[v].username != name
  }

  ghost function Next(w: World, e: Event, ttl: nat): World
    requires Enabled(w, e)
  {
    match e.action
    case Run(caller, c) =>
      World(Commit(w.db, WriteOf(Execute(w.db, caller, e.now, ttl, c))), e.now, w.issued + NewIds(c))
    case SetActive(u, isActive) =>
      World(w.db.(users := w.db.users[u := w.db.users[u].(isActive := isActive)]), e.now, w.issued)
    case Register(u, name) => World(w.db.(users := w.db.users[u := User(name, true)]), e.now, w.issued)
  }

  function Start(clock: int): World
  {
    World(Tables(map[], map[], map[]), clock, {})
  }

  ghost predicate IsRun(w: World, events: seq<Event>, ttl: nat)
    decreases |events|
  {
    events == [] || (Enabled(w, events[0]) && IsRun(Next(w, events[0], ttl), events[1..], ttl))
  }

  ghost function After(w: World, events: seq<Event>, ttl: nat): World
    requires IsRun(w, events, ttl)
    decreases |events|
  {
    if events == [] then w else After(Next(w, events[0], ttl), events[1..], ttl)
  }

  /** All the states of a run, from the first to the last. */
  ghost function Trace(w: World, events: seq<Event>, ttl: nat): (worlds: seq<World>)
    requires IsRun(w, events, ttl)
    ensures |worlds| == |events| + 1 && worlds[0] == w && worlds[|events|] == After(w, events, ttl)
    decreases |events|
  {
    if events == [] then [w] else [w] + Trace(Next(w, events[0], ttl), events[1..], ttl)
  }

  lemma {:induction false} TraceStep(w: World, events: seq<Event>, ttl: nat, i: nat)
    requires IsRun(w, events, ttl) && i < |events|
    ensures var worlds := Trace(w, events, ttl);
            Enabled(worlds[i], events[i]) && worlds[i + 1] == Next(worlds[i], events[i], ttl)
    decreases |events|
  {
    if i > 0 {
      TraceStep(Next(w, events[0], ttl), events[1..], ttl, i - 1);
    }
  }
}
