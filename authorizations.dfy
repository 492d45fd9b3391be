/** `AuthorizationService`: permits with a validity period, stamped with
    their creation time, listed with filters that reach into the creator's
    role. */
module AuthorizationService {
  import opened Common
  import opened Entities
  import opened Tables
  import opened Pagination
  import opened Repository

  /** `CreateAuthrizationDto`. */
  datatype NewAuthorization = NewAuthorization(name: string, description: string, location: string, startDate: int, endDate: int)

  /** `UpdateAuthorizationDto`: the period cannot be patched. */
  datatype AuthorizationPatch = AuthorizationPatch(
    name: Option<string>,
    description: Option<string>,
    location: Option<string>,
    status: Option<Status>)

  /** `FindAuthorizationDto`. A given date is a `Date` object, always truthy. */
  datatype AuthorizationFilter = AuthorizationFilter(
    paging: Paging,
    name: Option<string>,
    status: Option<string>,
    createdByUserId: Option<int>,
    userRole: Option<string>,
    startDate: Option<int>,
    endDate: Option<int>,
    creationDate: Option<int>)

  /** `Object.assign(authorization, dto)`. */
  function MergeAuthorization(a: Authorization, p: AuthorizationPatch): (r: Authorization)
    ensures r.id == a.id && r.createdByUserId == a.createdByUserId
    ensures r.startDate == a.startDate && r.endDate == a.endDate && r.creationDate == a.creationDate
    ensures r.status == p.status.GetOr(a.status)
  {
    a.(name := p.name.GetOr(a.name),
       description := p.description.GetOr(a.description),
       location := p.location.GetOr(a.location),
       status := p.status.GetOr(a.status))
  }

  /** `createAuthorization`: `creation_date` is `now`, the status PENDING. */
  method CreateAuthorization(db: Db, userId: int, dto: NewAuthorization, now: int) returns (r: Result<WithCreator<Authorization>>)
    requires db.Valid()
    modifies db
    ensures db.Valid()
    ensures userId !in old(db.users) ==> r == Err(ServerError("User not found")) && db.State() == old(db.State())
    ensures userId in old(db.users) ==>
              var a := Authorization(old(db.nextAuthorizationId), dto.name, dto.description, dto.location,
                                     dto.startDate, dto.endDate, now, Pending, userId);
              && r == Ok(WithCreator(a, Public(old(db.users)[userId])))
              && db.State() == old(db.State()).(authorizations := old(db.authorizations)[a.id := a], nextAuthorizationId := a.id + 1)
  {
    if userId !in db.users {
      return Err(ServerError("User not found"));
    }
    ghost var s := db.State();
    var user := db.users[userId];
    var a := Authorization(db.nextAuthorizationId, dto.name, dto.description, dto.location,
                           dto.startDate, dto.endDate, now, Pending, userId);
    db.authorizations := db.authorizations[a.id := a];
    db.nextAuthorizationId := db.nextAuthorizationId + 1;
    r := Ok(WithCreator(a, Public(user)));
    assert db.State() == s.(authorizations := s.authorizations[a.id := a], nextAuthorizationId := a.id + 1);
    InsertAuthorizationKeepsValid(s, a);
  }

  /** `updateAuthorization`: the patch is applied and saved; no mail is sent. */
  method UpdateAuthorization(db: Db, id: int, patch: AuthorizationPatch) returns (r: Result<Joined<Authorization>>)
    requires db.Valid()
    modifies db
    ensures db.Valid()
    ensures id !in old(db.authorizations) ==> r == Err(NotFound("Authorization not found")) && db.State() == old(db.State())
    ensures id in old(db.authorizations) ==>
              var merged := MergeAuthorization(old(db.authorizations)[id], patch);
              && r == Ok(Joined(merged, old(db.users)[merged.createdByUserId]))
              && db.State() == old(db.State()).(authorizations := old(db.authorizations)[id := merged])
  {
    if id !in db.authorizations {
      return Err(NotFound("Authorization not found"));
    }
    ghost var s := db.State();
    var merged := MergeAuthorization(db.authorizations[id], patch);
    db.authorizations := db.authorizations[id := merged];
    r := Ok(Joined(merged, db.users[merged.createdByUserId]));
    assert db.State() == s.(authorizations := s.authorizations[id := merged]);
    ReplaceAuthorizationKeepsValid(s, merged);
  }

  /** `deleteAuthorization`. */
  method DeleteAuthorization(db: Db, id: int) returns (r: Result<()>)
    requires db.Valid()
    modifies db
    ensures db.Valid()
    ensures id !in old(db.authorizations) ==> r == Err(NotFound("Authorization not found")) && db.State() == old(db.State())
    ensures id in old(db.authorizations) && IsTerminal(old(db.authorizations)[id].status) ==>
              r == Err(BadRequest("Can't delete an authorization with ACCEPTED or REJECTED status.")) && db.State() == old(db.State())
    ensures id in old(db.authorizations) && !IsTerminal(old(db.authorizations)[id].status) && AuthorizationReferenced(old(db.State()), id) ==>
              r == Err(ForeignKeyViolation) && db.State() == old(db.State())
    ensures id in old(db.authorizations) && !IsTerminal(old(db.authorizations)[id].status) && !AuthorizationReferenced(old(db.State()), id) ==>
              r == Ok(()) && db.State() == old(db.State()).(authorizations := old(db.authorizations) - {id})
  {
    if id !in db.authorizations {
      return Err(NotFound("Authorization not found"));
    }
    var a := db.authorizations[id];
    if a.status == Accepted || a.status == Rejected {
      return Err(BadRequest("Can't delete an authorization with ACCEPTED or REJECTED status."));
    }
    if AuthorizationReferenced(db.State(), id) {
      return Err(ForeignKeyViolation);
    }
    ghost var s := db.State();
    db.authorizations := db.authorizations - {id};
    r := Ok(());
    assert db.State() == s.(authorizations := s.authorizations - {id});
    RemoveAuthorizationKeepsValid(s, id);
  }

  /** `findOne`, without relations. */
  function FindOne(db: Db, id: int): (r: Result<Authorization>)
    requires db.Valid()
    reads db
    ensures r.Ok? <==> id in db.authorizations
    ensures r.Ok? ==> r.value == db.authorizations[id] && r.value.id == id
    ensures r.Err? ==> r.error == NotFound("Authorization not found")
  {
    if id in db.authorizations then Ok(db.authorizations[id]) else Err(NotFound("Authorization not found"))
  }

  /** One `andWhere` of the query builder; `RoleIs` tests the joined creator. */
  datatype AuthorizationCriterion =
    | NameLike(name: string)
    | StatusIs(status: string)
    | CreatorIs(userId: int)
    | RoleIs(role: string)
    | StartsFrom(startDate: int)
    | EndsBy(endDate: int)
    | CreatedOn(creationDate: int)

  predicate Holds(j: Joined<Authorization>, c: AuthorizationCriterion) {
    match c
    case NameLike(n) => Contains(j.record.name, n)
    case StatusIs(st) => StatusName(j.record.status) == st
    case CreatorIs(u) => j.record.createdByUserId == u
    case RoleIs(role) => j.createdBy.role == role
    case StartsFrom(d) => j.record.startDate >= d
    case EndsBy(d) => j.record.endDate <= d
    case CreatedOn(d) => j.record.creationDate == d
  }

  predicate HoldsAll(j: Joined<Authorization>, cs: seq<AuthorizationCriterion>) {
    AllHold(j, cs, Holds)
  }

  /** What the filter asks of an authorization's name, status and creator. */
  predicate OwnerMatches(j: Joined<Authorization>, f: AuthorizationFilter) {
    && (HasText(f.name) ==> Contains(j.record.name, f.name.value))
    && (HasText(f.status) ==> StatusName(j.record.status) == f.status.value)
    && (HasNumber(f.createdByUserId) ==> j.record.createdByUserId == f.createdByUserId.value)
    && (HasText(f.userRole) ==> j.createdBy.role == f.userRole.value)
  }

  /** What the filter asks of an authorization's dates. */
  predicate DatesMatch(j: Joined<Authorization>, f: AuthorizationFilter) {
    && (f.startDate.Some? ==> j.record.startDate >= f.startDate.value)
    && (f.endDate.Some? ==> j.record.endDate <= f.endDate.value)
    && (f.creationDate.Some? ==> j.record.creationDate == f.creationDate.value)
  }

  /** What the filter asks of an authorization and its creator. */
  predicate AuthorizationMatches(j: Joined<Authorization>, f: AuthorizationFilter) {
    OwnerMatches(j, f) && DatesMatch(j, f)
  }

  function Creator(a: Authorization): int {
    a.createdByUserId
  }

  lemma RowsHaveCreators(s: DbState)
    requires ValidState(s)
    ensures forall i :: 0 <= i < |Rows(s.authorizations, 1, s.nextAuthorizationId)| ==>
              Creator(Rows(s.authorizations, 1, s.nextAuthorizationId)[i]) in s.users
  {
    forall i | 0 <= i < |Rows(s.authorizations, 1, s.nextAuthorizationId)| {
      RowsFromTable(s.authorizations, 1, s.nextAuthorizationId, i);
    }
  }

  function JoinedRows(s: DbState): seq<Joined<Authorization>>
    requires ValidState(s)
  {
    RowsHaveCreators(s);
    JoinCreators(s.users, Rows(s.authorizations, 1, s.nextAuthorizationId), Creator)
  }

  function Matching(s: DbState, f: AuthorizationFilter): seq<Joined<Authorization>>
    requires ValidState(s)
  {
    Filter(JoinedRows(s), j => AuthorizationMatches(j, f))
  }

  /** A joined row is listed exactly when its authorization is stored, it
      carries that authorization's creator, and it satisfies the filter. */
  lemma MatchingExactly(s: DbState, f: AuthorizationFilter, x: Joined<Authorization>)
    requires ValidState(s)
    ensures x in Matching(s, f) <==>
            && x.record in s.authorizations.Values
            && x.record.createdByUserId in s.users
            && x.createdBy == s.users[x.record.createdByUserId]
            && AuthorizationMatches(x, f)
  {
    RowsHaveCreators(s);
    FilterMembership(JoinedRows(s), j => AuthorizationMatches(j, f), x);
    JoinMembership(s.users, Rows(s.authorizations, 1, s.nextAuthorizationId), Creator, x);
    RowsMembership(s.authorizations, 1, s.nextAuthorizationId, x.record);
    if x.record in s.authorizations.Values {
      var k :| k in s.authorizations && s.authorizations[k] == x.record;
    }
  }

  /** Filtering by role selects exactly the authorizations whose creator,
      as stored, has that role. */
  lemma RoleFilterUsesCreator(s: DbState, f: AuthorizationFilter, x: Joined<Authorization>)
    requires ValidState(s) && HasText(f.userRole) && x in Matching(s, f)
    ensures x.record.createdByUserId in s.users && s.users[x.record.createdByUserId].role == f.userRole.value
  {
    MatchingExactly(s, f, x);
  }

  /** The first four `andWhere` calls of `findAll`, one per truthy filter. */
  method OwnerCriteria(f: AuthorizationFilter) returns (criteria: seq<AuthorizationCriterion>)
    ensures forall j :: HoldsAll(j, criteria) == OwnerMatches(j, f)
  {
    criteria := [];
    if HasText(f.name) {
      AllHoldSnoc(criteria, NameLike(f.name.value), Holds);
      criteria := criteria + [NameLike(f.name.value)];
    }
    if HasText(f.status) {
      AllHoldSnoc(criteria, StatusIs(f.status.value), Holds);
      criteria := criteria + [StatusIs(f.status.value)];
    }
    if HasNumber(f.createdByUserId) {
      AllHoldSnoc(criteria, CreatorIs(f.createdByUserId.value), Holds);
      criteria := criteria + [CreatorIs(f.createdByUserId.value)];
    }
    if HasText(f.userRole) {
      AllHoldSnoc(criteria, RoleIs(f.userRole.value), Holds);
      criteria := criteria + [RoleIs(f.userRole.value)];
    }
  }

  /** The last three `andWhere` calls of `findAll`, one per given date. */
  method DateCriteria(f: AuthorizationFilter) returns (criteria: seq<AuthorizationCriterion>)
    ensures forall j :: HoldsAll(j, criteria) == DatesMatch(j, f)
  {
    criteria := [];
    if f.startDate.Some? {
      AllHoldSnoc(criteria, StartsFrom(f.startDate.value), Holds);
      criteria := criteria + [StartsFrom(f.startDate.value)];
    }
    if f.endDate.Some? {
      AllHoldSnoc(criteria, EndsBy(f.endDate.value), Holds);
      criteria := criteria + [EndsBy(f.endDate.value)];
    }
    if f.creationDate.Some? {
      AllHoldSnoc(criteria, CreatedOn(f.creationDate.value), Holds);
      criteria := criteria + [CreatedOn(f.creationDate.value)];
    }
  }

  /** The whole `andWhere` chain of `findAll`, in the source's order. */
  method Criteria(f: AuthorizationFilter) returns (criteria: seq<AuthorizationCriterion>)
    ensures forall j :: HoldsAll(j, criteria) == AuthorizationMatches(j, f)
  {
    var owner := OwnerCriteria(f);
    var dates := DateCriteria(f);
    AllHoldAppend(owner, dates, Holds);
    criteria := owner + dates;
  }

  /** `findAll`. */
  method FindAll(db: Db, f: AuthorizationFilter) returns (r: Page<Joined<Authorization>>)
    requires db.Valid() && f.paging.Valid()
    ensures r == Paginate(Matching(db.State(), f), f.paging.PageNo(), f.paging.Limit(), f.paging.order.GetOr(Asc))
    ensures forall x :: x in r.data ==> x.record in db.authorizations.Values && AuthorizationMatches(x, f)
  {
    var criteria := Criteria(f);
    var rows := JoinedRows(db.State());
    FilterExtensional(rows, j => HoldsAll(j, criteria), j => AuthorizationMatches(j, f));
    r := Paginate(Filter(rows, j => HoldsAll(j, criteria)), f.paging.PageNo(), f.paging.Limit(), f.paging.order.GetOr(Asc));
    forall x | x in r.data ensures x.record in db.authorizations.Values && AuthorizationMatches(x, f) {
      MatchingExactly(db.State(), f, x);
    }
  }
}
