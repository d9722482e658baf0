/** What happens in one organization neither depends on nor touches any other. */
module OrganizationIsolation {
  import opened Common
  import opened OrganizationModel
  import opened OrganizationSafety

  function Addressee(c: Command): OrganizationId
  {
    if c.Create? then c.newOrganization else c.organization
  }

  function RowsOf(ms: Memberships, a: OrganizationId): Memberships
  {
    map id | id in ms && ms[id].organizationId == a :: ms[id]
  }

  /** The tables with nothing but the accounts and organization a. */
  function Slice(db: Tables, a: OrganizationId): Tables
  {
    db.(organizations := map o | o in db.organizations && o == a :: db.organizations[o],
        memberships := RowsOf(db.memberships, a))
  }

  // ----- Queries see only their organization

  lemma RowForIsLocal(ms: Memberships, a: OrganizationId, u: UserId)
    requires UniqueRows(ms)
    ensures RowFor(RowsOf(ms, a), a, u) == RowFor(ms, a, u)
    ensures GetRole(RowsOf(ms, a), u, a) == GetRole(ms, u, a)
  {
    FewerRows(ms, RowsOf(ms, a));
    RowForIff(ms, a, u);
    RowForIff(RowsOf(ms, a), a, u);
    if RowFor(ms, a, u).Some? {
      assert IsRowFor(RowsOf(ms, a), a, u, RowFor(ms, a, u).value);
    }
    if RowFor(RowsOf(ms, a), a, u).Some? {
      assert IsRowFor(ms, a, u, RowFor(RowsOf(ms, a), a, u).value);
    }
  }

  lemma OwnersAreLocal(users: Users, ms: Memberships, a: OrganizationId)
    ensures ActiveOwners(users, RowsOf(ms, a), a) == ActiveOwners(users, ms, a)
  {
  }

  lemma RequireRoleIsLocal(db: Tables, caller: UserId, a: OrganizationId, minimum: Role)
    requires UniqueRows(db.memberships)
    ensures RequireRole(Slice(db, a), caller, a, minimum) == RequireRole(db, caller, a, minimum)
  {
    RowForIsLocal(db.memberships, a, caller);
  }

  lemma AllRolesAreLocal(db: Tables, caller: UserId, a: OrganizationId)
    requires UniqueRows(db.memberships)
    ensures forall minimum :: RequireRole(Slice(db, a), caller, a, minimum) == RequireRole(db, caller, a, minimum)
  {
    forall minimum ensures RequireRole(Slice(db, a), caller, a, minimum) == RequireRole(db, caller, a, minimum) {
      RequireRoleIsLocal(db, caller, a, minimum);
    }
  }

  lemma InviteIsLocal(
    db: Tables, caller: UserId, now: int, ttl: nat, a: OrganizationId, username: Option<string>, role: Role,
    newId: MembershipId)
    requires UniqueRows(db.memberships)
    ensures ExecInvite(Slice(db, a), caller, now, ttl, a, username, role, newId)
         == ExecInvite(db, caller, now, ttl, a, username, role, newId)
  {
    AllRolesAreLocal(db, caller, a);
    if username.Some? {
      var invitee := FindByUsername(db.users, username.value);
      if invitee.Some? {
        RowForIsLocal(db.memberships, a, invitee.value);
        RowForIff(db.memberships, a, invitee.value);
      }
    }
  }

  lemma RemoveIsLocal(db: Tables, caller: UserId, a: OrganizationId, id: MembershipId)
    requires UniqueRows(db.memberships)
    ensures ExecRemove(Slice(db, a), caller, a, id) == ExecRemove(db, caller, a, id)
  {
    AllRolesAreLocal(db, caller, a);
    OwnersAreLocal(db.users, db.memberships, a);
  }

  lemma ChangeRoleIsLocal(db: Tables, caller: UserId, a: OrganizationId, id: MembershipId, role: Role)
    requires UniqueRows(db.memberships)
    ensures ExecChangeRole(Slice(db, a), caller, a, id, role) == ExecChangeRole(db, caller, a, id, role)
  {
    AllRolesAreLocal(db, caller, a);
    OwnersAreLocal(db.users, db.memberships, a);
  }

  /** The outcome of a command depends only on the accounts and on its own organization. */
  lemma CommandIsLocal(db: Tables, caller: UserId, now: int, ttl: nat, c: Command)
    requires UniqueRows(db.memberships)
    ensures Execute(Slice(db, Addressee(c)), caller, now, ttl, c) == Execute(db, caller, now, ttl, c)
  {
    match c
    case Create(_, _, _) =>
    case Invite(o, username, role, m) => InviteIsLocal(db, caller, now, ttl, o, username, role, m);
    case Accept(_, _) =>
    case Decline(_, _) =>
    case Remove(o, m) => RemoveIsLocal(db, caller, o, m);
    case ChangeRole(o, m, role) => ChangeRoleIsLocal(db, caller, o, m, role);
    case Delete(o) => RequireRoleIsLocal(db, caller, o, Owner);
  }

  // ----- Writes stay in their organization

  /** The write concerns organization a only. */
  predicate Within(db: Tables, w: Write, a: OrganizationId)
  {
    match w
    case Nothing => true
    case Put(id, row) => row.organizationId == a && (id in db.memberships ==> db.memberships[id].organizationId == a)
    case Drop(id) => id in db.memberships && db.memberships[id].organizationId == a
    case Found(o, _, id, row) => o == a && row.organizationId == a && id !in db.memberships
    case Dissolve(o) => o == a
  }

  lemma CommandWritesWithin(db: Tables, caller: UserId, now: int, ttl: nat, c: Command)
    requires NewIds(c) !! db.memberships.Keys
    ensures Within(db, WriteOf(Execute(db, caller, now, ttl, c)), Addressee(c))
  {
    if c.Invite? && c.username.Some? {
      var invitee := FindByUsername(db.users, c.username.value);
      if invitee.Some? { RowForIff(db.memberships, c.organization, invitee.value); }
    }
  }

  lemma OtherOrganizationsUntouched(db: Tables, w: Write, a: OrganizationId, b: OrganizationId)
    requires Within(db, w, a) && a != b
    ensures Slice(Commit(db, w), b) == Slice(db, b)
  {
    assert RowsOf(Commit(db, w).memberships, b) == RowsOf(db.memberships, b);
    assert Slice(Commit(db, w), b).organizations == Slice(db, b).organizations;
  }

  lemma WriteCommutesWithSlice(db: Tables, w: Write, a: OrganizationId)
    requires Within(db, w, a)
    ensures Slice(Commit(db, w), a) == Commit(Slice(db, a), w)
  {
    assert RowsOf(Commit(db, w).memberships, a) == Commit(Slice(db, a), w).memberships;
    assert Slice(Commit(db, w), a).organizations == Commit(Slice(db, a), w).organizations;
  }

  /** No command changes the rows or the record of an organization it is not addressed to. */
  lemma CommandsLeaveOthersAlone(w: World, caller: UserId, now: int, ttl: nat, c: Command, b: OrganizationId)
    requires Inv(w, ttl) && NewIds(c) !! w.issued && b != Addressee(c)
    ensures Slice(Commit(w.db, WriteOf(Execute(w.db, caller, now, ttl, c))), b) == Slice(w.db, b)
  {
    CommandWritesWithin(w.db, caller, now, ttl, c);
    OtherOrganizationsUntouched(w.db, WriteOf(Execute(w.db, caller, now, ttl, c)), Addressee(c), b);
  }

  // ----- Whole runs

  /** An account step, or a command addressed to organization a. */
  predicate Concerns(e: Event, a: OrganizationId)
  {
    e.action.Run? ==> Addressee(e.action.command) == a
  }

  function Purge(events: seq<Event>, a: OrganizationId): seq<Event>
  {
    if events == [] then []
    else (if Concerns(events[0], a) then [events[0]] else []) + Purge(events[1..], a)
  }

  /** The outcomes of the commands addressed to organization a, in order. */
  ghost function Outcomes(w: World, events: seq<Event>, ttl: nat, a: OrganizationId): seq<Outcome>
    requires IsRun(w, events, ttl)
    decreases |events|
  {
    if events == [] then [] else
      var e := events[0];
      (if e.action.Run? && Concerns(e, a) then [Execute(w.db, e.action.caller, e.now, ttl, e.action.command)] else [])
      + Outcomes(Next(w, e, ttl), events[1..], ttl, a)
  }

  /** The second world knows the same accounts and the same organization a, and no more besides. */
  predicate Agree(w: World, v: World, a: OrganizationId)
  {
    Slice(w.db, a) == Slice(v.db, a) && v.clock <= w.clock && v.issued <= w.issued
  }

  lemma AccountStepSlices(db: Tables, users: Users, a: OrganizationId)
    ensures Slice(db.(users := users), a) == Slice(db, a).(users := users)
  {
  }

  /** One step addressed to organization a, in two worlds that may differ in everything else. */
  lemma SlicedStep(w: World, v: World, e: Event, ttl: nat, a: OrganizationId)
    requires Inv(w, ttl) && Inv(v, ttl) && Slice(w.db, a) == Slice(v.db, a) && Concerns(e, a)
    requires Enabled(w, e) && Enabled(v, e)
    ensures Slice(Next(w, e, ttl).db, a) == Slice(Next(v, e, ttl).db, a)
    ensures e.action.Run? ==>
              Execute(w.db, e.action.caller, e.now, ttl, e.action.command)
              == Execute(v.db, e.action.caller, e.now, ttl, e.action.command)
  {
    assert w.db.users == Slice(w.db, a).users == Slice(v.db, a).users == v.db.users;
    match e.action
    case Run(caller, c) =>
      CommandIsLocal(w.db, caller, e.now, ttl, c);
      CommandIsLocal(v.db, caller, e.now, ttl, c);
      CommandWritesWithin(w.db, caller, e.now, ttl, c);
      CommandWritesWithin(v.db, caller, e.now, ttl, c);
      WriteCommutesWithSlice(w.db, WriteOf(Execute(w.db, caller, e.now, ttl, c)), a);
      WriteCommutesWithSlice(v.db, WriteOf(Execute(v.db, caller, e.now, ttl, c)), a);
    case SetActive(u, isActive) =>
      AccountStepSlices(w.db, w.db.users[u := w.db.users[u].(isActive := isActive)], a);
      AccountStepSlices(v.db, w.db.users[u := w.db.users[u].(isActive := isActive)], a);
    case Register(u, name) =>
      AccountStepSlices(w.db, w.db.users[u := User(name, true)], a);
      AccountStepSlices(v.db, w.db.users[u := User(name, true)], a);
  }

  /**
   Two worlds that agree on the accounts and on organization a, whatever else is in either: the same
   steps, addressed to a, have the same outcomes and leave the same rows for a in both.
   */
  lemma {:induction false} SameSliceSameOutcomes(w: World, v: World, events: seq<Event>, ttl: nat, a: OrganizationId)
    requires Inv(w, ttl) && Inv(v, ttl) && ttl > 0 && Slice(w.db, a) == Slice(v.db, a)
    requires IsRun(w, events, ttl) && IsRun(v, events, ttl)
    requires forall i :: 0 <= i < |events| ==> Concerns(events[i], a)
    ensures Outcomes(w, events, ttl, a) == Outcomes(v, events, ttl, a)
    ensures Slice(After(w, events, ttl).db, a) == Slice(After(v, events, ttl).db, a)
    decreases |events|
  {
    if events != [] {
      SlicedStep(w, v, events[0], ttl, a);
      StepKeeps(w, events[0], ttl);
      StepKeeps(v, events[0], ttl);
      SameSliceSameOutcomes(Next(w, events[0], ttl), Next(v, events[0], ttl), events[1..], ttl, a);
    }
  }

  lemma AgreedStep(w: World, v: World, e: Event, ttl: nat, a: OrganizationId)
    requires Inv(w, ttl) && Inv(v, ttl) && Agree(w, v, a) && Enabled(w, e) && Concerns(e, a)
    ensures Enabled(v, e) && Agree(Next(w, e, ttl), Next(v, e, ttl), a)
    ensures e.action.Run? ==>
              Execute(w.db, e.action.caller, e.now, ttl, e.action.command)
              == Execute(v.db, e.action.caller, e.now, ttl, e.action.command)
  {
    assert w.db.users == Slice(w.db, a).users == Slice(v.db, a).users == v.db.users;
    SlicedStep(w, v, e, ttl, a);
  }

  lemma PurgedStep(w: World, v: World, e: Event, ttl: nat, a: OrganizationId)
    requires Inv(w, ttl) && Agree(w, v, a) && Enabled(w, e) && !Concerns(e, a)
    ensures Agree(Next(w, e, ttl), v, a)
  {
    CommandsLeaveOthersAlone(w, e.action.caller, e.now, ttl, e.action.command, a);
  }

  /**
   Leave out every command addressed to another organization: what is left is still a run, all
   commands addressed to organization a have the same outcomes, and its tables end up the same.
   */
  lemma {:induction false} NonInterference(w: World, v: World, events: seq<Event>, ttl: nat, a: OrganizationId)
    requires Inv(w, ttl) && Inv(v, ttl) && ttl > 0 && Agree(w, v, a) && IsRun(w, events, ttl)
    ensures IsRun(v, Purge(events, a), ttl)
    ensures Outcomes(w, events, ttl, a) == Outcomes(v, Purge(events, a), ttl, a)
    ensures Slice(After(w, events, ttl).db, a) == Slice(After(v, Purge(events, a), ttl).db, a)
    decreases |events|
  {
    if events != [] {
      var e, rest := events[0], events[1..];
      StepKeeps(w, e, ttl);
      if Concerns(e, a) {
        AgreedStep(w, v, e, ttl, a);
        StepKeeps(v, e, ttl);
        NonInterference(Next(w, e, ttl), Next(v, e, ttl), rest, ttl, a);
        assert Purge(events, a)[0] == e && Purge(events, a)[1..] == Purge(rest, a);
      } else {
        PurgedStep(w, v, e, ttl, a);
        NonInterference(Next(w, e, ttl), v, rest, ttl, a);
        assert Purge(events, a) == Purge(rest, a);
      }
    }
  }
}
