/** Deactivating an account, the step from outside that reaches into organizations and sessions. */
module AccountService {
  import opened Common
  import OrganizationModel
  import opened OrganizationService
  import opened Sessions
  import opened SessionStore
  import AuthService

  datatype PlatformRole = SuperAdmin | PlatformAdmin | PlatformUser

  const ROLE_HIERARCHY: map<PlatformRole, set<PlatformRole>> := map[
    SuperAdmin := {PlatformAdmin, PlatformUser},
    PlatformAdmin := {PlatformUser},
    PlatformUser := {}]

  function Manages(role: PlatformRole): set<PlatformRole>
  {
    if role in ROLE_HIERARCHY then ROLE_HIERARCHY[role] else {}
  }

  type Roles = map<UserId, PlatformRole>

  datatype DeactivationError = NotAuthorized | UserNotFound

  function CheckDeactivation(users: OrganizationModel.Users, roles: Roles, caller: UserId, target: UserId)
    : Result<(), DeactivationError>
    requires users.Keys <= roles.Keys
  {
    if !OrganizationModel.IsActive(users, caller) then Err(NotAuthorized)
    else if PlatformUser !in Manages(roles[caller]) then Err(NotAuthorized)
    else if target !in users then Err(UserNotFound)
    else if roles[target] !in Manages(roles[caller]) then Err(NotAuthorized)
    else Ok(())
  }

  /** Whose sessions the command removes: an inactive caller loses its own, before anything else is looked at. */
  function LosesAccess(users: OrganizationModel.Users, caller: UserId, target: UserId, r: Result<(), DeactivationError>)
    : Option<UserId>
  {
    if !OrganizationModel.IsActive(users, caller) then Some(caller)
    else if r.Ok? then Some(target)
    else None
  }

  method DeactivateUser(
    repo: OrganizationRepository, auth: AuthService.AuthService, roles: Roles, caller: UserId, target: UserId)
    returns (r: Result<(), DeactivationError>)
    requires repo.Valid() && auth.Valid() && repo.users.Keys <= roles.Keys
    modifies repo`users, auth`stored
    ensures repo.Valid() && auth.Valid() && r == CheckDeactivation(old(repo.users), roles, caller, target)
    ensures repo.users == if r.Ok? then old(repo.users)[target := old(repo.users)[target].(isActive := false)]
                          else old(repo.users)
    ensures r.Ok? ==>
              forall sid :: sid in auth.stored <==> sid in old(auth.stored) && old(auth.stored)[sid].user != target
    ensures r.Err? && OrganizationModel.IsActive(old(repo.users), caller) ==> auth.stored == old(auth.stored)
    ensures !OrganizationModel.IsActive(old(repo.users), caller) ==>
              forall sid :: sid in auth.stored <==> sid in old(auth.stored) && old(auth.stored)[sid].user != caller
    ensures auth.View() ==
              match LosesAccess(old(repo.users), caller, target, r)
              case None => old(auth.View())
              case Some(user) => Apply(auth.settings, old(auth.View()), RevokeAll(user, auth.clock.now))
  {
    if !OrganizationModel.IsActive(repo.users, caller) {
      auth.RevokeAllSessions(caller);
      return Err(NotAuthorized);
    }
    if PlatformUser !in Manages(roles[caller]) { return Err(NotAuthorized); }
    if target !in repo.users { return Err(UserNotFound); }
    if roles[target] !in Manages(roles[caller]) { return Err(NotAuthorized); }
    if repo.users[target].isActive {
      repo.users := repo.users[target := repo.users[target].(isActive := false)];
    }
    auth.RevokeAllSessions(target);
    r := Ok(());
  }

  /** Only an account strictly below the caller's can be deactivated: no super admin, and never oneself. */
  lemma OnlySubordinates(users: OrganizationModel.Users, roles: Roles, caller: UserId, target: UserId)
    requires users.Keys <= roles.Keys && CheckDeactivation(users, roles, caller, target).Ok?
    ensures target != caller && roles[target] != SuperAdmin
    ensures CheckDeactivation(users, roles, target, caller).Err?
  {
    match roles[caller]
    case SuperAdmin => assert Manages(SuperAdmin) == {PlatformAdmin, PlatformUser};
    case PlatformAdmin => assert Manages(PlatformAdmin) == {PlatformUser};
    case PlatformUser =>
  }

  function Rank(role: PlatformRole): nat
  {
    match role case SuperAdmin => 2 case PlatformAdmin => 1 case PlatformUser => 0
  }

  lemma ManagesByRank(role: PlatformRole)
    ensures forall other :: other in Manages(role) <==> Rank(other) < Rank(role)
  {
    match role
    case SuperAdmin => assert Manages(SuperAdmin) == {PlatformAdmin, PlatformUser};
    case PlatformAdmin => assert Manages(PlatformAdmin) == {PlatformUser};
    case PlatformUser =>
  }

  /** An active caller may deactivate exactly the existing accounts ranked below; a missing one is told as such. */
  lemma DeactivationSucceedsIff(users: OrganizationModel.Users, roles: Roles, caller: UserId, target: UserId)
    requires users.Keys <= roles.Keys
    ensures CheckDeactivation(users, roles, caller, target).Ok? <==>
              && caller in users && users[caller].isActive
              && target in users && Rank(roles[target]) < Rank(roles[caller])
    ensures CheckDeactivation(users, roles, caller, target) == Err(UserNotFound) <==>
              && caller in users && users[caller].isActive
              && Rank(roles[caller]) > 0 && target !in users
  {
    if caller in users {
      ManagesByRank(roles[caller]);
    }
  }

  /**
   Once an account is deactivated, no token of any session it had is ever let in again, and while it
   stays inactive every organization command it sends is refused.
   */
  lemma DeactivatedUserIsOut(
    c: Settings, s: State, user: UserId, now: int, events: seq<Event>, sid: SessionId,
    db: OrganizationModel.Tables, moment: int, ttl: nat, command: OrganizationModel.Command)
    requires Sound(c) && Inv(c, s) && now >= s.clock && sid in s.sessions && s.sessions[sid].user == user
    requires IsRun(c, Apply(c, s, RevokeAll(user, now)), events)
    ensures var t := After(c, Apply(c, s, RevokeAll(user, now)), events);
            forall exp, r :: CurrentUserId(c, t, Some(Token(sid, exp)), r) == None
    ensures !OrganizationModel.IsActive(db.users, user) ==>
              OrganizationModel.Execute(db, user, moment, ttl, command) == Err(OrganizationModel.AuthorizationError)
  {
    StepKeeps(c, s, RevokeAll(user, now));
    RemovedForGood(c, Apply(c, s, RevokeAll(user, now)), events, sid);
  }
}
