/** Runs that reach the surprising states: an organization without an active owner, and a removal refused too often. */
module OrganizationExamples {
  import opened Common
  import opened OrganizationModel
  import opened OrganizationOwners
  import opened OrganizationSafety

  lemma RunFrom(w: World, e: Event, rest: seq<Event>, ttl: nat)
    requires Enabled(w, e) && IsRun(Next(w, e, ttl), rest, ttl)
    ensures IsRun(w, [e] + rest, ttl) && After(w, [e] + rest, ttl) == After(Next(w, e, ttl), rest, ttl)
  {
    assert ([e] + rest)[1..] == rest;
  }

  /** A run followed by a run from where it ended is a run. */
  lemma {:induction false} RunsFollow(w: World, first: seq<Event>, second: seq<Event>, ttl: nat)
    requires IsRun(w, first, ttl) && IsRun(After(w, first, ttl), second, ttl)
    ensures IsRun(w, first + second, ttl) && After(w, first + second, ttl) == After(After(w, first, ttl), second, ttl)
    decreases |first|
  {
    if first == [] {
      assert first + second == second;
    } else {
      assert (first + second)[0] == first[0] && (first + second)[1..] == first[1..] + second;
      RunsFollow(Next(w, first[0], ttl), first[1..], second, ttl);
    }
  }

  // ----- The last active owner can be lost

  /** A founder whose account is deactivated leaves an organization without an active owner. */
  lemma ActiveOwnerCanBeLost(ttl: nat)
    ensures exists events ::
              && IsRun(Start(0), events, ttl)
              && 7 in After(Start(0), events, ttl).db.organizations
              && HasOwner(After(Start(0), events, ttl).db.memberships, 7)
              && !HasActiveOwner(After(Start(0), events, ttl).db, 7)
  {
    var register := Event(0, Register(1, "first"));
    var create := Event(0, Run(1, Create(Some("Org"), 7, 10)));
    var deactivate := Event(0, SetActive(1, false));
    var w1 := Next(Start(0), register, ttl);
    var w2 := Next(w1, create, ttl);
    var w3 := Next(w2, deactivate, ttl);
    assert 10 in w3.db.memberships && IsAcceptedOwner(w3.db.memberships, 7, 10);
    assert ActiveOwners(w3.db.users, w3.db.memberships, 7) == {};
    RunFrom(w2, deactivate, [], ttl);
    RunFrom(w1, create, [deactivate] + [], ttl);
    RunFrom(Start(0), register, [create] + ([deactivate] + []), ttl);
    var events := [register] + ([create] + ([deactivate] + []));
    assert IsRun(Start(0), events, ttl) && After(Start(0), events, ttl) == w3;
  }

  // ----- A deactivated co-owner cannot be removed

  const FIRST := User("first", true)
  const SECOND := User("second", true)
  const FOUNDER := Membership(7, 1, Owner, 1, 0, Some(0), None)
  const CO_OWNER := Membership(7, 2, Owner, 1, 0, Some(0), None)
  const FOUNDED := map[7 := Organization("Org", 1, 0)]

  function Invitation(ttl: nat): Membership
  {
    CO_OWNER.(acceptedAt := None, expiresAt := Some(ttl))
  }

  function WithFounder(users: Users, others: Memberships): Tables
  {
    Tables(users, FOUNDED, map[10 := FOUNDER] + others)
  }

  /** Two accounts, one of which founds an organization. */
  lemma FoundOne(ttl: nat)
    ensures var events := [
              Event(0, Register(1, "first")), Event(0, Register(2, "second")),
              Event(0, Run(1, Create(Some("Org"), 7, 10)))];
            && IsRun(Start(0), events, ttl)
            && After(Start(0), events, ttl) == World(WithFounder(map[1 := FIRST, 2 := SECOND], map[]), 0, {7, 10})
  {
    var first, second := Event(0, Register(1, "first")), Event(0, Register(2, "second"));
    var create := Event(0, Run(1, Create(Some("Org"), 7, 10)));
    var w1 := Next(Start(0), first, ttl);
    var w2 := Next(w1, second, ttl);
    assert w2.db.users == map[1 := FIRST, 2 := SECOND];
    var w3 := Next(w2, create, ttl);
    assert w3.db.memberships == map[10 := FOUNDER] + map[];
    assert w3.issued == {7, 10};
    RunFrom(w2, create, [], ttl);
    RunFrom(w1, second, [create] + [], ttl);
    RunFrom(Start(0), first, [second] + ([create] + []), ttl);
    assert [first] + ([second] + ([create] + [])) == [first, second, create];
  }

  lemma InviteSecond(ttl: nat)
    ensures ExecInvite(WithFounder(map[1 := FIRST, 2 := SECOND], map[]), 1, 0, ttl, 7, Some("second"), Owner, 11)
         == Ok(Success(Put(11, Invitation(ttl)), Invited(11, 2, Owner, ttl)))
  {
    var db := WithFounder(map[1 := FIRST, 2 := SECOND], map[]);
    assert db.memberships == map[10 := FOUNDER];
    assert IsRowFor(db.memberships, 7, 1, 10);
    RowForIs(db.memberships, 7, 1, 10);
    RowForIff(db.memberships, 7, 2);
    FindByUsernameIff(db.users, "second");
    assert db.users[2].username == "second" && db.users[1].username[0] != db.users[2].username[0];
  }

  /** The founder invites a co-owner, who accepts and is then deactivated. */
  lemma LoseCoOwner(ttl: nat)
    requires ttl > 0
    ensures var events := [
              Event(0, Run(1, Invite(7, Some("second"), Owner, 11))), Event(0, Run(2, Accept(7, 11))),
              Event(0, SetActive(2, false))];
            var w := World(WithFounder(map[1 := FIRST, 2 := SECOND], map[]), 0, {7, 10});
            && IsRun(w, events, ttl)
            && After(w, events, ttl).db
               == WithFounder(map[1 := FIRST, 2 := SECOND.(isActive := false)], map[11 := CO_OWNER])
  {
    var invite, accept := Event(0, Run(1, Invite(7, Some("second"), Owner, 11))), Event(0, Run(2, Accept(7, 11)));
    var deactivate := Event(0, SetActive(2, false));
    var users := map[1 := FIRST, 2 := SECOND];
    var w := World(WithFounder(users, map[]), 0, {7, 10});
    InviteSecond(ttl);
    var w1 := Next(w, invite, ttl);
    assert w1.db.memberships == map[10 := FOUNDER, 11 := Invitation(ttl)];
    var w2 := Next(w1, accept, ttl);
    assert w2.db.memberships == map[10 := FOUNDER] + map[11 := CO_OWNER];
    var w3 := Next(w2, deactivate, ttl);
    assert w3.db.users == map[1 := FIRST, 2 := SECOND.(isActive := false)];
    RunFrom(w2, deactivate, [], ttl);
    RunFrom(w1, accept, [deactivate] + [], ttl);
    RunFrom(w, invite, [accept] + ([deactivate] + []), ttl);
    assert [invite] + ([accept] + ([deactivate] + [])) == [invite, accept, deactivate];
  }

  lemma CoOwnerStays()
    ensures var db := WithFounder(map[1 := FIRST, 2 := SECOND.(isActive := false)], map[11 := CO_OWNER]);
            ExecRemove(db, 1, 7, 11) == Err(LastOwner) && HasActiveOwner(DeleteMembership(db, 11), 7)
  {
    var db := WithFounder(map[1 := FIRST, 2 := SECOND.(isActive := false)], map[11 := CO_OWNER]);
    assert UniqueRows(db.memberships);
    assert IsRowFor(db.memberships, 7, 1, 10);
    RowForIs(db.memberships, 7, 1, 10);
    assert ActiveOwners(db.users, db.memberships, 7) == {10};
    assert 10 in ActiveOwners(db.users, db.memberships - {11}, 7);
  }

  /** A run after which an active owner cannot remove a deactivated co-owner, although an active owner would stay. */
  lemma InactiveCoOwnerCannotBeRemoved(ttl: nat)
    requires ttl > 0
    ensures exists events ::
              && IsRun(Start(0), events, ttl)
              && var db := After(Start(0), events, ttl).db;
              && ExecRemove(db, 1, 7, 11) == Err(LastOwner)
              && HasActiveOwner(DeleteMembership(db, 11), 7)
  {
    var found := [
      Event(0, Register(1, "first")), Event(0, Register(2, "second")), Event(0, Run(1, Create(Some("Org"), 7, 10)))];
    var lose := [
      Event(0, Run(1, Invite(7, Some("second"), Owner, 11))), Event(0, Run(2, Accept(7, 11))),
      Event(0, SetActive(2, false))];
    FoundOne(ttl);
    LoseCoOwner(ttl);
    RunsFollow(Start(0), found, lose, ttl);
    CoOwnerStays();
    assert IsRun(Start(0), found + lose, ttl);
  }
}
