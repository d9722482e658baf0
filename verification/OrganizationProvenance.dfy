/** Every owner can be traced, grant by grant, to the creator of the organization. */
module OrganizationProvenance {
  import opened Common
  import opened OrganizationModel
  import opened OrganizationSafety

  predicate IsOwnerRow(ms: Memberships, o: OrganizationId, id: MembershipId)
  {
    id in ms && ms[id].organizationId == o && ms[id].role == Owner
  }

  /** The step founds the organization and makes this row its creator's. */
  predicate Founds(e: Event, o: OrganizationId, id: MembershipId)
  {
    && e.action.Run? && e.action.command.Create?
    && e.action.command.newOrganization == o && e.action.command.newMembership == id
  }

  /**
   The step puts the OWNER role on the row, by invitation, renewal or promotion, and its caller is
   at that moment an active user whose own accepted row, `granter`, is an OWNER row of the same organization.
   */
  ghost predicate Grants(w: World, e: Event, ttl: nat, o: OrganizationId, id: MembershipId, granter: MembershipId)
  {
    && e.action.Run? && (e.action.command.Invite? || e.action.command.ChangeRole?)
    && e.action.command.role == Owner
    && var write := WriteOf(Execute(w.db, e.action.caller, e.now, ttl, e.action.command));
    && write.Put? && write.id == id && write.row.organizationId == o && write.row.role == Owner
    && IsActive(w.db.users, e.action.caller)
    && IsRowFor(w.db.memberships, o, e.action.caller, granter) && IsAcceptedOwner(w.db.memberships, o, granter)
  }

  /** From the i-th state on, up to the k-th, the row kept the OWNER role. */
  ghost predicate OwnerThroughout(worlds: seq<World>, i: nat, k: nat, o: OrganizationId, id: MembershipId)
    requires k < |worlds|
  {
    forall j :: i <= j <= k ==> IsOwnerRow(worlds[j].db.memberships, o, id)
  }

  /**
   A finite chain of grants that explains why the row is an OWNER row in the k-th state: at some
   step it was founded, or granted by the holder of a row that can itself be traced at that step.
   */
  ghost predicate Traced(worlds: seq<World>, events: seq<Event>, ttl: nat, k: nat, o: OrganizationId, id: MembershipId)
    requires k < |worlds| == |events| + 1
    decreases k, 0
  {
    exists i :: 0 <= i < k && OwnerThroughout(worlds, i + 1, k, o, id) && Link(worlds, events, ttl, i, o, id)
  }

  ghost predicate Link(worlds: seq<World>, events: seq<Event>, ttl: nat, i: nat, o: OrganizationId, id: MembershipId)
    requires i < |events| && |worlds| == |events| + 1
    decreases i, 1
  {
    || Founds(events[i], o, id)
    || exists g :: Grants(worlds[i], events[i], ttl, o, id, g) && Traced(worlds, events, ttl, i, o, g)
  }

  predicate NoIdsReused(w: World)
  {
    w.db.memberships.Keys <= w.issued
  }

  /** Handing out the OWNER role takes an owner, by invitation as by promotion. */
  lemma GrantNeedsOwner(db: Tables, caller: UserId, now: int, ttl: nat, c: Command)
    requires (c.Invite? || c.ChangeRole?) && c.role == Owner && Execute(db, caller, now, ttl, c).Ok?
    ensures RequireRole(db, caller, c.organization, Owner).Ok?
    ensures var write := Execute(db, caller, now, ttl, c).value.write;
            write.Put? && write.row.organizationId == c.organization && write.row.role == Owner
  {
  }

  /** No other write turns a row into an OWNER row. */
  lemma OnlyGrantsMakeOwners(
    db: Tables, caller: UserId, now: int, ttl: nat, c: Command, o: OrganizationId, id: MembershipId)
    requires NewIds(c) !! db.memberships.Keys && !c.Create? && !IsOwnerRow(db.memberships, o, id)
    requires IsOwnerRow(Commit(db, WriteOf(Execute(db, caller, now, ttl, c))).memberships, o, id)
    ensures (c.Invite? || c.ChangeRole?) && c.role == Owner && Execute(db, caller, now, ttl, c).Ok?
    ensures c.organization == o
    ensures var write := Execute(db, caller, now, ttl, c).value.write; write.Put? && write.id == id
  {
    if c.Invite? && c.username.Some? {
      var invitee := FindByUsername(db.users, c.username.value);
      if invitee.Some? { RowForIff(db.memberships, c.organization, invitee.value); }
    }
  }

  lemma CreateMakesItsOwner(
    db: Tables, caller: UserId, now: int, ttl: nat, c: Command, o: OrganizationId, id: MembershipId)
    requires c.Create? && !IsOwnerRow(db.memberships, o, id)
    requires IsOwnerRow(Commit(db, WriteOf(Execute(db, caller, now, ttl, c))).memberships, o, id)
    ensures c.newMembership == id && c.newOrganization == o
  {
  }

  /** A row that is an OWNER row after a step but not before was founded or granted by it. */
  lemma WhereOwnersComeFrom(w: World, e: Event, ttl: nat, o: OrganizationId, id: MembershipId)
    returns (granter: Option<MembershipId>)
    requires UniqueRows(w.db.memberships) && Enabled(w, e)
    requires NoIdsReused(w) && IsOwnerRow(Next(w, e, ttl).db.memberships, o, id) && !IsOwnerRow(w.db.memberships, o, id)
    ensures match granter
            case None => Founds(e, o, id)
            case Some(g) => Grants(w, e, ttl, o, id, g)
  {
    var caller, c := e.action.caller, e.action.command;
    if c.Create? {
      CreateMakesItsOwner(w.db, caller, e.now, ttl, c, o, id);
      granter := None;
    } else {
      OnlyGrantsMakeOwners(w.db, caller, e.now, ttl, c, o, id);
      GrantNeedsOwner(w.db, caller, e.now, ttl, c);
      RequireRoleIff(w.db, caller, c.organization, Owner);
      var g :| IsRowFor(w.db.memberships, c.organization, caller, g)
        && w.db.memberships[g].IsAccepted() && Rank(w.db.memberships[g].role) >= Rank(Owner);
      granter := Some(g);
    }
  }

  /** The states of a run from a database without memberships. */
  ghost predicate IsHistory(worlds: seq<World>, events: seq<Event>, ttl: nat)
  {
    && |worlds| == |events| + 1 && worlds[0].db.memberships == map[]
    && (forall i :: 0 <= i < |worlds| ==> UniqueRows(worlds[i].db.memberships) && NoIdsReused(worlds[i]))
    && (forall i :: 0 <= i < |events| ==>
          Enabled(worlds[i], events[i]) && worlds[i + 1] == Next(worlds[i], events[i], ttl))
  }

  lemma {:induction false} TracedAt(
    worlds: seq<World>, events: seq<Event>, ttl: nat, k: nat, o: OrganizationId, id: MembershipId)
    requires IsHistory(worlds, events, ttl) && k < |worlds| && IsOwnerRow(worlds[k].db.memberships, o, id)
    ensures Traced(worlds, events, ttl, k, o, id)
    decreases k
  {
    var n := k - 1;
    if IsOwnerRow(worlds[n].db.memberships, o, id) {
      TracedAt(worlds, events, ttl, n, o, id);
      var i :| 0 <= i < n && OwnerThroughout(worlds, i + 1, n, o, id) && Link(worlds, events, ttl, i, o, id);
      assert OwnerThroughout(worlds, i + 1, k, o, id);
    } else {
      var granter := WhereOwnersComeFrom(worlds[n], events[n], ttl, o, id);
      if granter.Some? {
        TracedAt(worlds, events, ttl, n, o, granter.value);
      }
      assert Link(worlds, events, ttl, n, o, id);
      assert OwnerThroughout(worlds, n + 1, k, o, id);
    }
  }

  /** On every run from an empty database, every OWNER row of every state can be traced to its founder. */
  lemma OwnersTraceToTheFounder(clock: int, events: seq<Event>, ttl: nat, k: nat, o: OrganizationId, id: MembershipId)
    requires ttl > 0 && IsRun(Start(clock), events, ttl) && k <= |events|
    requires IsOwnerRow(Trace(Start(clock), events, ttl)[k].db.memberships, o, id)
    ensures Traced(Trace(Start(clock), events, ttl), events, ttl, k, o, id)
  {
    var worlds := Trace(Start(clock), events, ttl);
    forall i | 0 <= i < |worlds| ensures UniqueRows(worlds[i].db.memberships) && NoIdsReused(worlds[i]) {
      RunKeeps(Start(clock), events, ttl, i);
    }
    forall i | 0 <= i < |events|
      ensures Enabled(worlds[i], events[i]) && worlds[i + 1] == Next(worlds[i], events[i], ttl)
    {
      TraceStep(Start(clock), events, ttl, i);
    }
    TracedAt(worlds, events, ttl, k, o, id);
  }
}
