/** `EventService`: creating, updating (with the status-change mail),
    deleting and listing events. */
module EventService {
  import opened Common
  import opened Entities
  import opened Tables
  import opened Pagination
  import opened Repository

  /** `CreateEventDto`. */
  datatype NewEvent = NewEvent(name: string, location: string, description: string, date: int, eventType: string)

  /** `UpdateEventDto`: every field optional. `photo` is not a column. */
  datatype EventPatch = EventPatch(
    name: Option<string>,
    location: Option<string>,
    description: Option<string>,
    photo: Option<string>,
    date: Option<int>,
    eventType: Option<string>,
    status: Option<Status>)

  /** `FindEventDto`: paging and the four filters. */
  datatype EventFilter = EventFilter(
    paging: Paging,
    name: Option<string>,
    status: Option<Status>,
    eventType: Option<string>,
    createdByUserId: Option<int>)

  const StatusSubject := "تحديث حالة الحدث"

  /** `path.join(__dirname, '..', 'mailer', 'templates', ...)`, relative to
      the compiled source root. */
  const StatusTemplate := "mailer/templates/event-status-change.html"

  /** `Object.assign(event, dto)`: each field the patch carries replaces the
      stored one; the identity and the creator stay. */
  function MergeEvent(e: Event, p: EventPatch): (r: Event)
    ensures r.id == e.id && r.createdByUserId == e.createdByUserId
    ensures p.status.Some? ==> r.status == p.status.value
    ensures p.status.None? ==> r.status == e.status
  {
    e.(name := p.name.GetOr(e.name),
       location := p.location.GetOr(e.location),
       description := p.description.GetOr(e.description),
       date := p.date.GetOr(e.date),
       eventType := p.eventType.GetOr(e.eventType),
       status := p.status.GetOr(e.status))
  }

  /** Applying the same patch twice is applying it once. */
  lemma MergeIdempotent(e: Event, p: EventPatch)
    ensures MergeEvent(MergeEvent(e, p), p) == MergeEvent(e, p)
  {
  }

  /** `firstName || ' ' || lastName`: the first operand that is not empty,
      and `' '` is never empty, so `lastName` never reaches the mail. */
  function RecipientName(firstName: string, lastName: string): (r: string)
    ensures r == if firstName != "" then firstName else " "
  {
    OrElse(OrElse(firstName, " "), lastName)
  }

  /** The mail `updateEvent` sends for a patch applied to a stored event: one
      to the creator exactly when the patch sets the status to ACCEPTED or
      REJECTED, none otherwise. */
  function StatusChangeMails(stored: Event, patch: EventPatch, creator: User, formatDate: int -> string): (r: seq<MailRequest>)
    ensures |r| <= 1
    ensures r != [] <==> patch.status.Some? && IsTerminal(patch.status.value)
    ensures r != [] ==> r[0].to == creator.email && r[0].subject == StatusSubject && r[0].templatePath == StatusTemplate
    ensures r != [] ==> r[0].context.Keys == {"name", "eventName", "status", "eventDate", "eventLocation"}
    ensures r != [] ==> r[0].context["status"] == StatusName(patch.status.value)
    ensures r != [] ==> r[0].context["eventName"] == MergeEvent(stored, patch).name
    ensures r != [] ==> r[0].context["name"] == RecipientName(creator.firstName, creator.lastName)
    ensures r != [] ==> r[0].context["eventDate"] == formatDate(MergeEvent(stored, patch).date)
    ensures r != [] ==> r[0].context["eventLocation"] == MergeEvent(stored, patch).location
  {
    var merged := MergeEvent(stored, patch);
    if patch.status == Some(Accepted) || patch.status == Some(Rejected) then
      [MailRequest(creator.email, StatusSubject, StatusTemplate,
                   map["name" := RecipientName(creator.firstName, creator.lastName),
                       "eventName" := merged.name,
                       "status" := StatusName(merged.status),
                       "eventDate" := formatDate(merged.date),
                       "eventLocation" := merged.location])]
    else []
  }

  /** `createEvent`: the creator must exist; the new event is PENDING and is
      returned with its creator. */
  method CreateEvent(db: Db, userId: int, dto: NewEvent) returns (r: Result<WithCreator<Event>>)
    requires db.Valid()
    modifies db
    ensures db.Valid()
    ensures userId !in old(db.users) ==> r == Err(ServerError("User not found")) && db.State() == old(db.State())
    ensures userId in old(db.users) ==>
              var e := Event(old(db.nextEventId), dto.name, dto.location, dto.description, dto.date, dto.eventType, Pending, userId);
              && r == Ok(WithCreator(e, Public(old(db.users)[userId])))
              && db.State() == old(db.State()).(events := old(db.events)[e.id := e], nextEventId := e.id + 1)
  {
    if userId !in db.users {
      return Err(ServerError("User not found"));
    }
    ghost var s := db.State();
    var user := db.users[userId];
    var e := Event(db.nextEventId, dto.name, dto.location, dto.description, dto.date, dto.eventType, Pending, userId);
    db.events := db.events[e.id := e];
    db.nextEventId := db.nextEventId + 1;
    r := Ok(WithCreator(e, Public(user)));
    assert db.State() == s.(events := s.events[e.id := e], nextEventId := e.id + 1);
    InsertEventKeepsValid(s, e);
  }

  /** `updateEvent`: an unknown id is NotFound; otherwise the patch is
      applied, the status mail (if any) is handed to the mailer before the
      save, and the event is returned with its creator. */
  method UpdateEvent(db: Db, eventId: int, patch: EventPatch, formatDate: int -> string) returns (r: Result<Joined<Event>>)
    requires db.Valid()
    modifies db
    ensures db.Valid()
    ensures eventId !in old(db.events) ==> r == Err(NotFound("Event not found")) && db.State() == old(db.State())
    ensures eventId in old(db.events) ==>
              var merged := MergeEvent(old(db.events)[eventId], patch);
              var creator := old(db.users)[merged.createdByUserId];
              && r == Ok(Joined(merged, creator))
              && db.State() == old(db.State()).(events := old(db.events)[eventId := merged],
                                                outbox := old(db.outbox) + StatusChangeMails(old(db.events)[eventId], patch, creator, formatDate))
  {
    if eventId !in db.events {
      return Err(NotFound("Event not found"));
    }
    ghost var s := db.State();
    var stored := db.events[eventId];
    var merged := MergeEvent(stored, patch);
    var creator := db.users[merged.createdByUserId];
    db.outbox := db.outbox + StatusChangeMails(stored, patch, creator, formatDate);
    db.events := db.events[eventId := merged];
    r := Ok(Joined(merged, creator));
    assert db.State() == s.(events := s.events[eventId := merged], outbox := db.outbox);
    ReplaceEventKeepsValid(s, merged, db.outbox);
  }

  /** `deleteEvent`: only an existing event that is still PENDING is removed;
      one that comments or documents still point at is refused by MySQL. */
  method DeleteEvent(db: Db, eventId: int) returns (r: Result<()>)
    requires db.Valid()
    modifies db
    ensures db.Valid()
    ensures eventId !in old(db.events) ==> r == Err(NotFound("Event not found")) && db.State() == old(db.State())
    ensures eventId in old(db.events) && IsTerminal(old(db.events)[eventId].status) ==>
              r == Err(BadRequest("Can't delete an event with ACCEPTED or REJECTED status.")) && db.State() == old(db.State())
    ensures eventId in old(db.events) && !IsTerminal(old(db.events)[eventId].status) && EventReferenced(old(db.State()), eventId) ==>
              r == Err(ForeignKeyViolation) && db.State() == old(db.State())
    ensures eventId in old(db.events) && !IsTerminal(old(db.events)[eventId].status) && !EventReferenced(old(db.State()), eventId) ==>
              r == Ok(()) && db.State() == old(db.State()).(events := old(db.events) - {eventId})
  {
    if eventId !in db.events {
      return Err(NotFound("Event not found"));
    }
    var e := db.events[eventId];
    if e.status == Accepted || e.status == Rejected {
      return Err(BadRequest("Can't delete an event with ACCEPTED or REJECTED status."));
    }
    if EventReferenced(db.State(), eventId) {
      return Err(ForeignKeyViolation);
    }
    ghost var s := db.State();
    db.events := db.events - {eventId};
    r := Ok(());
    assert db.State() == s.(events := s.events - {eventId});
    RemoveEventKeepsValid(s, eventId);
  }

  /** `findOne`. */
  function FindOne(db: Db, eventId: int): (r: Result<Event>)
    requires db.Valid()
    reads db
    ensures r.Ok? <==> eventId in db.events
    ensures r.Ok? ==> r.value == db.events[eventId] && r.value.id == eventId
    ensures r.Err? ==> r.error == NotFound("Event not found")
  {
    if eventId in db.events then Ok(db.events[eventId]) else Err(NotFound("Event not found"))
  }

  /** One `andWhere` of the query builder. */
  datatype EventCriterion = NameLike(name: string) | StatusIs(status: Status) | TypeIs(eventType: string) | CreatorIs(userId: int)

  predicate Holds(e: Event, c: EventCriterion) {
    match c
    case NameLike(n) => Contains(e.name, n)
    case StatusIs(s) => e.status == s
    case TypeIs(t) => e.eventType == t
    case CreatorIs(u) => e.createdByUserId == u
  }

  predicate HoldsAll(e: Event, cs: seq<EventCriterion>) {
    AllHold(e, cs, Holds)
  }

  /** What the filter asks of an event: each filter that is given (truthy)
      holds, and the others say nothing. */
  predicate EventMatches(e: Event, f: EventFilter) {
    && (HasText(f.name) ==> Contains(e.name, f.name.value))
    && (f.status.Some? ==> e.status == f.status.value)
    && (HasText(f.eventType) ==> e.eventType == f.eventType.value)
    && (HasNumber(f.createdByUserId) ==> e.createdByUserId == f.createdByUserId.value)
  }

  /** The matching events in primary-key order. */
  function Matching(s: DbState, f: EventFilter): seq<Event> {
    Filter(Rows(s.events, 1, s.nextEventId), e => EventMatches(e, f))
  }

  /** An event is listed among the matches exactly when it is stored and
      satisfies the filter. */
  lemma MatchingExactly(s: DbState, f: EventFilter, x: Event)
    requires ValidState(s)
    ensures x in Matching(s, f) <==> x in s.events.Values && EventMatches(x, f)
  {
    FilterRowsMembership(s.events, 1, s.nextEventId, e => EventMatches(e, f), x);
    if x in s.events.Values {
      var k :| k in s.events && s.events[k] == x;
    }
  }

  /** The `andWhere` chain of `findAll`, one criterion per truthy filter. */
  method Criteria(f: EventFilter) returns (criteria: seq<EventCriterion>)
    ensures forall e :: HoldsAll(e, criteria) == EventMatches(e, f)
  {
    criteria := [];
    if HasText(f.name) {
      AllHoldSnoc(criteria, NameLike(f.name.value), Holds);
      criteria := criteria + [NameLike(f.name.value)];
    }
    if f.status.Some? {
      AllHoldSnoc(criteria, StatusIs(f.status.value), Holds);
      criteria := criteria + [StatusIs(f.status.value)];
    }
    if HasText(f.eventType) {
      AllHoldSnoc(criteria, TypeIs(f.eventType.value), Holds);
      criteria := criteria + [TypeIs(f.eventType.value)];
    }
    if HasNumber(f.createdByUserId) {
      AllHoldSnoc(criteria, CreatorIs(f.createdByUserId.value), Holds);
      criteria := criteria + [CreatorIs(f.createdByUserId.value)];
    }
  }

  /** `findAll`: the criteria are added one `andWhere` at a time, then the
      page of matches is cut out. */
  method FindAll(db: Db, f: EventFilter) returns (r: Page<Event>)
    requires db.Valid() && f.paging.Valid()
    ensures r == Paginate(Matching(db.State(), f), f.paging.PageNo(), f.paging.Limit(), f.paging.order.GetOr(Asc))
    ensures forall x :: x in r.data ==> x in db.events.Values && EventMatches(x, f)
  {
    var criteria := Criteria(f);
    var rows := Rows(db.events, 1, db.nextEventId);
    FilterExtensional(rows, e => HoldsAll(e, criteria), e => EventMatches(e, f));
    r := Paginate(Filter(rows, e => HoldsAll(e, criteria)), f.paging.PageNo(), f.paging.Limit(), f.paging.order.GetOr(Asc));
    forall x | x in r.data ensures x in db.events.Values && EventMatches(x, f) {
      MatchingExactly(db.State(), f, x);
    }
  }
}
