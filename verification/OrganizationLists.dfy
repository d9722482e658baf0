/** The three list queries: their rows, their order, and the total each page reports. */
module OrganizationLists {
  import opened Common
  import opened Facts
  import opened OrganizationModel
  import opened OrganizationOwners
  import opened OrganizationSafety
  import opened OrganizationReader
  import opened Pagination

  /** An unknown sorting field has no column. */
  datatype QueryError = SortingError

  /**
   Read one page of a query: `joined` are the rows the select returns, `counted` the rows the
   separate count falls back to when the page is empty.
   */
  ghost predicate Answers(
    joined: set<Pagination.RowId>, counted: set<Pagination.RowId>, column: Option<Column>, order: Order, p: Params,
    answer: Result<(seq<Pagination.RowId>, nat), QueryError>)
  {
    match column
    case None => answer == Err(SortingError)
    case Some(c) =>
      exists full ::
        joined <= c.Keys && IsListing(c, order, joined, full) && answer == Ok(FetchPage(full, |counted|, p))
  }

  /** When the fallback counts the rows of the join, every page -- empty or not -- reports their number. */
  lemma EveryPageReportsTheTotal(
    joined: set<Pagination.RowId>, column: Column, order: Order, p: Params,
    answer: Result<(seq<Pagination.RowId>, nat), QueryError>)
    requires joined <= column.Keys && Answers(joined, joined, Some(column), order, p, answer)
    ensures answer.Ok? && answer.value.1 == |joined|
  {
    var full :| IsListing(column, order, joined, full) && answer == Ok(FetchPage(full, |joined|, p));
    ListingSize(column, order, joined, full);
    TotalsAgreeIff(full, |joined|);
  }

  /** A query has one answer: the rows at the page's places in the one listing, and nothing for an unknown field. */
  lemma AnswerIsThePage(
    joined: set<Pagination.RowId>, counted: set<Pagination.RowId>, column: Option<Column>, order: Order, p: Params,
    answer: Result<(seq<Pagination.RowId>, nat), QueryError>, full: seq<Pagination.RowId>)
    requires Answers(joined, counted, column, order, p, answer)
    requires column.Some? ==> joined <= column.value.Keys && IsListing(column.value, order, joined, full)
    ensures answer.Ok? <==> column.Some?
    ensures answer.Ok? && p.offset >= |full| ==> answer.value.0 == []
    ensures answer.Ok? && p.offset < |full| ==>
              answer.value.0 == if p.offset + p.limit < |full| then full[p.offset..p.offset + p.limit]
                                else full[p.offset..]
  {
    if column.Some? {
      var c := column.value;
      var other :| IsListing(c, order, joined, other) && answer == Ok(FetchPage(other, |counted|, p));
      ListingIsUnique(c, order, joined, full, other);
      assert answer.value.0 == Page(full, p);
    }
  }

  // ----- list_members

  function MemberRows(db: Tables, o: OrganizationId): set<MembershipId>
  {
    set id | id in db.memberships && db.memberships[id].organizationId == o && db.memberships[id].userId in db.users
  }

  function MemberRowsUnjoined(db: Tables, o: OrganizationId): set<MembershipId>
  {
    set id | id in db.memberships && db.memberships[id].organizationId == o
  }

  lemma SameSizeIffSame(part: set<nat>, whole: set<nat>)
    requires part <= whole
    ensures |part| == |whole| <==> part == whole
  {
    SubsetSize(part, whole);
    assert |part| == |whole| ==> whole - part == {};
  }

  /** The count without the join is the count with it exactly when no row lacks its account. */
  lemma MembersCountedIff(db: Tables, o: OrganizationId)
    ensures |MemberRows(db, o)| == |MemberRowsUnjoined(db, o)| <==>
              forall id :: id in db.memberships && db.memberships[id].organizationId == o ==>
                db.memberships[id].userId in db.users
    ensures ForeignKeys(db) ==> MemberRows(db, o) == MemberRowsUnjoined(db, o)
  {
    SameSizeIffSame(MemberRows(db, o), MemberRowsUnjoined(db, o));
    if MemberRows(db, o) == MemberRowsUnjoined(db, o) {
      forall id | id in db.memberships && db.memberships[id].organizationId == o
        ensures db.memberships[id].userId in db.users
      {
        assert id in MemberRowsUnjoined(db, o);
      }
    }
  }

  /** Members and pending invitations alike: every row of the organization is listed, and no other. */
  lemma MembersListed(db: Tables, o: OrganizationId, id: MembershipId)
    requires ForeignKeys(db)
    ensures id in MemberRows(db, o) <==> GetMembershipById(db.memberships, o, id).Some?
  {
  }

  // ----- list_invitations_for_user

  function InvitationsUnjoined(db: Tables, user: UserId, now: int): set<MembershipId>
  {
    set id | id in db.memberships
      && db.memberships[id].userId == user && !db.memberships[id].IsAccepted()
      && db.memberships[id].expiresAt.Some? && db.memberships[id].expiresAt.value > now
  }

  lemma InvitationsCounted(db: Tables, user: UserId, now: int)
    requires ForeignKeys(db)
    ensures ListedInvitations(db, user, now) == InvitationsUnjoined(db, user, now)
  {
  }

  // ----- list_for_user: sorted and identified by organization

  function ListedOrganizations(db: Tables, user: UserId): set<OrganizationId>
  {
    set id | id in ListedMemberships(db, user) :: db.memberships[id].organizationId
  }

  lemma WithoutOne(f: map<nat, nat>, a: nat)
    requires a in f && forall b :: b in f && f[b] == f[a] ==> b == a
    ensures var g := f - {a}; f.Values == g.Values + {f[a]} && f[a] !in g.Values
  {
    var g := f - {a};
    forall v ensures v in f.Values <==> v in g.Values + {f[a]} {
      if v in f.Values {
        var k :| k in f && f[k] == v;
        assert k == a || (k in g && g[k] == v);
      }
    }
  }

  lemma {:induction false} ImageSize(f: map<nat, nat>)
    requires forall a, b :: a in f && b in f && f[a] == f[b] ==> a == b
    ensures |f.Values| == |f.Keys|
    decreases |f.Keys|
  {
    if a :| a in f.Keys {
      var g := f - {a};
      assert g.Keys == f.Keys - {a};
      ImageSize(g);
      WithoutOne(f, a);
    } else {
      assert f.Values == {};
    }
  }

  /** An active user's list holds exactly the organizations in which the user is an accepted member. */
  lemma OrganizationsListed(db: Tables, user: UserId, o: OrganizationId)
    requires UniqueRows(db.memberships) && ForeignKeys(db) && IsActive(db.users, user)
    ensures o in ListedOrganizations(db, user) <==> Holds(db, user, o, Member)
  {
    HoldsIffRequired(db, user, o, Member);
    ListedIffMember(db, user, o);
  }

  /** The join returns each organization once, so counting its rows counts organizations. */
  lemma OrganizationsCounted(db: Tables, user: UserId)
    requires UniqueRows(db.memberships)
    ensures |ListedOrganizations(db, user)| == |ListedMemberships(db, user)|
  {
    var f := map id | id in ListedMemberships(db, user) :: db.memberships[id].organizationId;
    forall a, b | a in f && b in f && f[a] == f[b] ensures a == b {
      assert IsRowFor(db.memberships, f[a], user, a) && IsRowFor(db.memberships, f[a], user, b);
    }
    ImageSize(f);
    assert f.Keys == ListedMemberships(db, user);
    assert f.Values == ListedOrganizations(db, user);
  }

  /** On every page of every list, empty or not, the total is the number of rows the list has. */
  lemma TotalsOfAllLists(
    db: Tables, user: UserId, o: OrganizationId, now: int, column: Column, order: Order, p: Params,
    members: Result<(seq<Pagination.RowId>, nat), QueryError>,
    invitations: Result<(seq<Pagination.RowId>, nat), QueryError>,
    mine: Result<(seq<Pagination.RowId>, nat), QueryError>)
    requires UniqueRows(db.memberships) && ForeignKeys(db)
    requires db.memberships.Keys <= column.Keys && db.organizations.Keys <= column.Keys
    requires Answers(MemberRows(db, o), MemberRowsUnjoined(db, o), Some(column), order, p, members)
    requires Answers(
               ListedInvitations(db, user, now), InvitationsUnjoined(db, user, now), Some(column), order, p,
               invitations)
    requires Answers(ListedOrganizations(db, user), ListedOrganizations(db, user), Some(column), order, p, mine)
    ensures members.Ok? && members.value.1 == |MemberRowsUnjoined(db, o)|
    ensures invitations.Ok? && invitations.value.1 == |ListedInvitations(db, user, now)|
    ensures mine.Ok? && mine.value.1 == |ListedMemberships(db, user)|
  {
    MembersCountedIff(db, o);
    InvitationsCounted(db, user, now);
    OrganizationsCounted(db, user);
    EveryPageReportsTheTotal(MemberRows(db, o), column, order, p, members);
    EveryPageReportsTheTotal(ListedInvitations(db, user, now), column, order, p, invitations);
    EveryPageReportsTheTotal(ListedOrganizations(db, user), column, order, p, mine);
  }
}
