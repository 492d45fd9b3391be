/** `DemandeService`: citizens' requests, created with the current time as
    their date, updated without notification, deleted only while PENDING. */
module DemandeService {
  import opened Common
  import opened Entities
  import opened Tables
  import opened Pagination
  import opened Repository

  /** `CreateDemandeDto`; the date is not part of it. */
  datatype NewDemande = NewDemande(name: string, location: string, description: string, demandeType: string)

  /** `UpdateDemandeDto`. */
  datatype DemandePatch = DemandePatch(
    name: Option<string>,
    location: Option<string>,
    description: Option<string>,
    demandeType: Option<string>,
    status: Option<Status>)

  /** `FindDemandeDto`. `userRole` is declared but `findAll` never reads it.
      `createdByUserId` has no `@Type(() => Number)`, so it arrives as the
      raw query-string text. */
  datatype DemandeFilter = DemandeFilter(
    paging: Paging,
    name: Option<string>,
    status: Option<string>,
    demandeType: Option<string>,
    userRole: Option<string>,
    createdByUserId: Option<string>)

  /** `Object.assign(demande, dto)`. */
  function MergeDemande(d: Demande, p: DemandePatch): (r: Demande)
    ensures r.id == d.id && r.createdByUserId == d.createdByUserId && r.date == d.date
    ensures r.status == p.status.GetOr(d.status)
  {
    d.(name := p.name.GetOr(d.name),
       location := p.location.GetOr(d.location),
       description := p.description.GetOr(d.description),
       demandeType := p.demandeType.GetOr(d.demandeType),
       status := p.status.GetOr(d.status))
  }

  /** `createDemande`: the date is `now`, the status PENDING. */
  method CreateDemande(db: Db, userId: int, dto: NewDemande, now: int) returns (r: Result<WithCreator<Demande>>)
    requires db.Valid()
    modifies db
    ensures db.Valid()
    ensures userId !in old(db.users) ==> r == Err(ServerError("User not found")) && db.State() == old(db.State())
    ensures userId in old(db.users) ==>
              var d := Demande(old(db.nextDemandeId), dto.name, dto.description, dto.location, now, dto.demandeType, Pending, userId);
              && r == Ok(WithCreator(d, Public(old(db.users)[userId])))
              && db.State() == old(db.State()).(demandes := old(db.demandes)[d.id := d], nextDemandeId := d.id + 1)
  {
    if userId !in db.users {
      return Err(ServerError("User not found"));
    }
    ghost var s := db.State();
    var user := db.users[userId];
    var d := Demande(db.nextDemandeId, dto.name, dto.description, dto.location, now, dto.demandeType, Pending, userId);
    db.demandes := db.demandes[d.id := d];
    db.nextDemandeId := db.nextDemandeId + 1;
    r := Ok(WithCreator(d, Public(user)));
    assert db.State() == s.(demandes := s.demandes[d.id := d], nextDemandeId := d.id + 1);
    InsertDemandeKeepsValid(s, d);
  }

  /** `updateDemande`: the patch is applied and saved; no mail is sent. */
  method UpdateDemande(db: Db, id: int, patch: DemandePatch) returns (r: Result<Joined<Demande>>)
    requires db.Valid()
    modifies db
    ensures db.Valid()
    ensures id !in old(db.demandes) ==> r == Err(NotFound("Demande not found")) && db.State() == old(db.State())
    ensures id in old(db.demandes) ==>
              var merged := MergeDemande(old(db.demandes)[id], patch);
              && r == Ok(Joined(merged, old(db.users)[merged.createdByUserId]))
              && db.State() == old(db.State()).(demandes := old(db.demandes)[id := merged])
  {
    if id !in db.demandes {
      return Err(NotFound("Demande not found"));
    }
    ghost var s := db.State();
    var merged := MergeDemande(db.demandes[id], patch);
    db.demandes := db.demandes[id := merged];
    r := Ok(Joined(merged, db.users[merged.createdByUserId]));
    assert db.State() == s.(demandes := s.demandes[id := merged]);
    ReplaceDemandeKeepsValid(s, merged);
  }

  /** `deleteDemande`. */
  method DeleteDemande(db: Db, id: int) returns (r: Result<()>)
    requires db.Valid()
    modifies db
    ensures db.Valid()
    ensures id !in old(db.demandes) ==> r == Err(NotFound("Demande not found")) && db.State() == old(db.State())
    ensures id in old(db.demandes) && IsTerminal(old(db.demandes)[id].status) ==>
              r == Err(BadRequest("Can't delete an demand with ACCEPTED or REJECTED status.")) && db.State() == old(db.State())
    ensures id in old(db.demandes) && !IsTerminal(old(db.demandes)[id].status) && DemandeReferenced(old(db.State()), id) ==>
              r == Err(ForeignKeyViolation) && db.State() == old(db.State())
    ensures id in old(db.demandes) && !IsTerminal(old(db.demandes)[id].status) && !DemandeReferenced(old(db.State()), id) ==>
              r == Ok(()) && db.State() == old(db.State()).(demandes := old(db.demandes) - {id})
  {
    if id !in db.demandes {
      return Err(NotFound("Demande not found"));
    }
    var d := db.demandes[id];
    if d.status == Accepted || d.status == Rejected {
      return Err(BadRequest("Can't delete an demand with ACCEPTED or REJECTED status."));
    }
    if DemandeReferenced(db.State(), id) {
      return Err(ForeignKeyViolation);
    }
    ghost var s := db.State();
    db.demandes := db.demandes - {id};
    r := Ok(());
    assert db.State() == s.(demandes := s.demandes - {id});
    RemoveDemandeKeepsValid(s, id);
  }

  /** `findOne`, with the creator relation. */
  function FindOne(db: Db, id: int): (r: Result<Joined<Demande>>)
    requires db.Valid()
    reads db
    ensures r.Ok? <==> id in db.demandes
    ensures r.Ok? ==> r.value.record == db.demandes[id] && r.value.record.id == id
    ensures r.Ok? ==> r.value.createdBy.id == r.value.record.createdByUserId
    ensures r.Ok? ==> r.value.createdBy == db.users[db.demandes[id].createdByUserId]
    ensures r.Err? ==> r.error == NotFound("Demande not found")
  {
    if id in db.demandes then Ok(Joined(db.demandes[id], db.users[db.demandes[id].createdByUserId]))
    else Err(NotFound("Demande not found"))
  }

  /** One `andWhere` of the query builder. */
  datatype DemandeCriterion = NameLike(name: string) | StatusIs(status: string) | TypeIs(demandeType: string) | CreatorIs(userId: string)

  predicate Holds(j: Joined<Demande>, c: DemandeCriterion) {
    match c
    case NameLike(n) => Contains(j.record.name, n)
    case StatusIs(st) => StatusName(j.record.status) == st
    case TypeIs(t) => j.record.demandeType == t
    case CreatorIs(u) => j.record.createdByUserId == SqlNumber(u)
  }

  predicate HoldsAll(j: Joined<Demande>, cs: seq<DemandeCriterion>) {
    AllHold(j, cs, Holds)
  }

  /** What the filter asks of a demande: each truthy filter holds. */
  predicate DemandeMatches(j: Joined<Demande>, f: DemandeFilter) {
    && (HasText(f.name) ==> Contains(j.record.name, f.name.value))
    && (HasText(f.status) ==> StatusName(j.record.status) == f.status.value)
    && (HasText(f.demandeType) ==> j.record.demandeType == f.demandeType.value)
    && (HasText(f.createdByUserId) ==> j.record.createdByUserId == SqlNumber(f.createdByUserId.value))
  }

  function Creator(d: Demande): int {
    d.createdByUserId
  }

  lemma RowsHaveCreators(s: DbState)
    requires ValidState(s)
    ensures forall i :: 0 <= i < |Rows(s.demandes, 1, s.nextDemandeId)| ==>
              Creator(Rows(s.demandes, 1, s.nextDemandeId)[i]) in s.users
  {
    forall i | 0 <= i < |Rows(s.demandes, 1, s.nextDemandeId)| {
      RowsFromTable(s.demandes, 1, s.nextDemandeId, i);
    }
  }

  /** The demandes joined with their creators, in primary-key order. */
  function JoinedRows(s: DbState): seq<Joined<Demande>>
    requires ValidState(s)
  {
    RowsHaveCreators(s);
    JoinCreators(s.users, Rows(s.demandes, 1, s.nextDemandeId), Creator)
  }

  function Matching(s: DbState, f: DemandeFilter): seq<Joined<Demande>>
    requires ValidState(s)
  {
    Filter(JoinedRows(s), j => DemandeMatches(j, f))
  }

  /** A joined row is listed exactly when its demande is stored, it carries
      that demande's creator, and it satisfies the filter. */
  lemma MatchingExactly(s: DbState, f: DemandeFilter, x: Joined<Demande>)
    requires ValidState(s)
    ensures x in Matching(s, f) <==>
            && x.record in s.demandes.Values
            && x.record.createdByUserId in s.users
            && x.createdBy == s.users[x.record.createdByUserId]
            && DemandeMatches(x, f)
  {
    RowsHaveCreators(s);
    FilterMembership(JoinedRows(s), j => DemandeMatches(j, f), x);
    JoinMembership(s.users, Rows(s.demandes, 1, s.nextDemandeId), Creator, x);
    RowsMembership(s.demandes, 1, s.nextDemandeId, x.record);
    if x.record in s.demandes.Values {
      var k :| k in s.demandes && s.demandes[k] == x.record;
    }
  }

  /** The `userRole` field of the filter changes nothing. */
  lemma UserRoleIgnored(s: DbState, f: DemandeFilter, role: Option<string>)
    requires ValidState(s)
    ensures Matching(s, f.(userRole := role)) == Matching(s, f)
  {
    var g := f.(userRole := role);
    FilterExtensional(JoinedRows(s), j => DemandeMatches(j, g), j => DemandeMatches(j, f));
    assert Matching(s, g) == Filter(JoinedRows(s), j => DemandeMatches(j, g));
  }

  /** The text of a user id selects that user's demandes. */
  lemma CreatorTextSelectsCreator(j: Joined<Demande>, f: DemandeFilter, n: nat)
    requires f.createdByUserId == Some(NatToString(n))
    ensures DemandeMatches(j, f) <==> DemandeMatches(j, f.(createdByUserId := None)) && j.record.createdByUserId == n
  {
    SqlNumberOfDecimal(n);
  }

  /** The text "0" is truthy, so the filter applies, and no stored demande's
      creator has id 0: nothing is selected. */
  lemma ZeroCreatorTextSelectsNothing(s: DbState, f: DemandeFilter)
    requires ValidState(s) && f.createdByUserId == Some("0")
    ensures Matching(s, f) == []
  {
    assert SqlNumber("0") == 0 by {
      assert LeadingDigits("0") == 1;
      assert "0"[..1] == "0";
      assert DecimalValue("0") == DecimalValue("0"[..0]) * 10 + DigitValue('0');
    }
    if Matching(s, f) != [] {
      var x := Matching(s, f)[0];
      MatchingExactly(s, f, x);
      assert false;
    }
  }

  /** The `andWhere` chain of `findAll`, one criterion per truthy filter. */
  method Criteria(f: DemandeFilter) returns (criteria: seq<DemandeCriterion>)
    ensures forall j :: HoldsAll(j, criteria) == DemandeMatches(j, f)
  {
    criteria := [];
    if HasText(f.name) {
      AllHoldSnoc(criteria, NameLike(f.name.value), Holds);
      criteria := criteria + [NameLike(f.name.value)];
    }
    if HasText(f.status) {
      AllHoldSnoc(criteria, StatusIs(f.status.value), Holds);
      criteria := criteria + [StatusIs(f.status.value)];
    }
    if HasText(f.demandeType) {
      AllHoldSnoc(criteria, TypeIs(f.demandeType.value), Holds);
      criteria := criteria + [TypeIs(f.demandeType.value)];
    }
    if HasText(f.createdByUserId) {
      AllHoldSnoc(criteria, CreatorIs(f.createdByUserId.value), Holds);
      criteria := criteria + [CreatorIs(f.createdByUserId.value)];
    }
  }

  /** `findAll`. */
  method FindAll(db: Db, f: DemandeFilter) returns (r: Page<Joined<Demande>>)
    requires db.Valid() && f.paging.Valid()
    ensures r == Paginate(Matching(db.State(), f), f.paging.PageNo(), f.paging.Limit(), f.paging.order.GetOr(Asc))
    ensures forall x :: x in r.data ==> x.record in db.demandes.Values && DemandeMatches(x, f)
  {
    var criteria := Criteria(f);
    var rows := JoinedRows(db.State());
    FilterExtensional(rows, j => HoldsAll(j, criteria), j => DemandeMatches(j, f));
    r := Paginate(Filter(rows, j => HoldsAll(j, criteria)), f.paging.PageNo(), f.paging.Limit(), f.paging.order.GetOr(Asc));
    forall x | x in r.data ensures x.record in db.demandes.Values && DemandeMatches(x, f) {
      MatchingExactly(db.State(), f, x);
    }
  }
}
