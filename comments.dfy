/** `CommentService`: comments written by a user and attached to any of an
    event, a demande and an authorization, each reference checked on its own. */
module CommentService {
  import opened Common
  import opened Entities
  import opened Tables
  import opened Pagination
  import opened Repository

  /** `CreateCommentDto`. */
  datatype NewComment = NewComment(commentText: string, eventId: Option<int>, demandeId: Option<int>, authorizationId: Option<int>)

  /** `FindAllCommentsDto`; `sortOrder` defaults to DESC here. */
  datatype CommentFilter = CommentFilter(
    paging: Paging,
    eventId: Option<int>,
    demandeId: Option<int>,
    authorizationId: Option<int>,
    userId: Option<int>)

  /** The `findAll` result, which also echoes `limit`. */
  datatype CommentPage = CommentPage(data: seq<Joined<Comment>>, total: nat, page: int, limit: int, totalPages: nat)

  /** `if (eventId)` with a positive lookup and not a missing one. */
  predicate Missing<T>(ref: Option<int>, table: map<int, T>) {
    HasNumber(ref) && ref.value !in table
  }

  /** The reference the saved comment keeps: a falsy id is never assigned. */
  function Kept(ref: Option<int>): Option<int> {
    if HasNumber(ref) then ref else None
  }

  /** `createComment`: the author first, then the event, the demande and the
      authorization, each only when its id is truthy; the first missing one
      is reported and nothing is saved. */
  method CreateComment(db: Db, userId: int, dto: NewComment, now: int) returns (r: Result<Comment>)
    requires db.Valid()
    modifies db
    ensures db.Valid()
    ensures userId !in old(db.users) ==> r == Err(ServerError("User not found")) && db.State() == old(db.State())
    ensures userId in old(db.users) && Missing(dto.eventId, old(db.events)) ==>
              r == Err(NotFound("Event not found")) && db.State() == old(db.State())
    ensures userId in old(db.users) && !Missing(dto.eventId, old(db.events)) && Missing(dto.demandeId, old(db.demandes)) ==>
              r == Err(NotFound("Demande not found")) && db.State() == old(db.State())
    ensures userId in old(db.users) && !Missing(dto.eventId, old(db.events)) && !Missing(dto.demandeId, old(db.demandes))
              && Missing(dto.authorizationId, old(db.authorizations)) ==>
              r == Err(NotFound("Authorization not found")) && db.State() == old(db.State())
    ensures userId in old(db.users) && !Missing(dto.eventId, old(db.events)) && !Missing(dto.demandeId, old(db.demandes))
              && !Missing(dto.authorizationId, old(db.authorizations)) ==>
              var c := Comment(old(db.nextCommentId), dto.commentText, now, userId,
                               Kept(dto.eventId), Kept(dto.demandeId), Kept(dto.authorizationId));
              && r == Ok(c)
              && db.State() == old(db.State()).(comments := old(db.comments)[c.id := c], nextCommentId := c.id + 1)
  {
    if userId !in db.users {
      return Err(ServerError("User not found"));
    }
    var eventId: Option<int> := None;
    if HasNumber(dto.eventId) {
      if dto.eventId.value !in db.events {
        return Err(NotFound("Event not found"));
      }
      eventId := dto.eventId;
    }
    var demandeId: Option<int> := None;
    if HasNumber(dto.demandeId) {
      if dto.demandeId.value !in db.demandes {
        return Err(NotFound("Demande not found"));
      }
      demandeId := dto.demandeId;
    }
    var authorizationId: Option<int> := None;
    if HasNumber(dto.authorizationId) {
      if dto.authorizationId.value !in db.authorizations {
        return Err(NotFound("Authorization not found"));
      }
      authorizationId := dto.authorizationId;
    }
    var c := Comment(db.nextCommentId, dto.commentText, now, userId, eventId, demandeId, authorizationId);
    SaveComment(db, c);
    r := Ok(c);
  }

  /** `commentRepository.save(comment)` for a new comment: it is stored
      under the next key and nothing else changes. */
  method SaveComment(db: Db, c: Comment)
    requires db.Valid() && c.id == db.nextCommentId && CommentRefsHold(db.State(), c)
    modifies db`comments, db`nextCommentId
    ensures db.Valid()
    ensures db.State() == old(db.State()).(comments := old(db.comments)[c.id := c], nextCommentId := c.id + 1)
  {
    ghost var s := db.State();
    db.comments := db.comments[c.id := c];
    db.nextCommentId := db.nextCommentId + 1;
    InsertCommentKeepsValid(s, c);
  }

  function NotFoundMessage(id: int): string {
    "Comment with ID " + IntToString(id) + " not found"
  }

  /** `findOne`, with the author relation. */
  function FindOne(db: Db, id: int): (r: Result<Joined<Comment>>)
    requires db.Valid()
    reads db
    ensures r.Ok? <==> id in db.comments
    ensures r.Ok? ==> r.value.record == db.comments[id] && r.value.record.id == id
    ensures r.Ok? ==> r.value.createdBy.id == r.value.record.userId
    ensures r.Ok? ==> r.value.createdBy == db.users[db.comments[id].userId]
    ensures r.Err? ==> r.error == NotFound(NotFoundMessage(id))
  {
    if id in db.comments then Ok(Joined(db.comments[id], db.users[db.comments[id].userId]))
    else Err(NotFound(NotFoundMessage(id)))
  }

  /** `updateComment`: `findOne`, then `Object.assign` of the new text. */
  method UpdateComment(db: Db, id: int, commentText: Option<string>) returns (r: Result<Joined<Comment>>)
    requires db.Valid()
    modifies db
    ensures db.Valid()
    ensures id !in old(db.comments) ==> r == Err(NotFound(NotFoundMessage(id))) && db.State() == old(db.State())
    ensures id in old(db.comments) ==>
              var c := old(db.comments)[id].(commentText := commentText.GetOr(old(db.comments)[id].commentText));
              && r == Ok(Joined(c, old(db.users)[c.userId]))
              && db.State() == old(db.State()).(comments := old(db.comments)[id := c])
  {
    var found := FindOne(db, id);
    if found.Err? {
      return Err(found.error);
    }
    ghost var s := db.State();
    var c := found.value.record.(commentText := commentText.GetOr(found.value.record.commentText));
    db.comments := db.comments[id := c];
    r := Ok(Joined(c, found.value.createdBy));
    assert db.State() == s.(comments := s.comments[id := c]);
    ReplaceCommentKeepsValid(s, c);
  }

  /** `deleteComment`: `findOne`, then `remove`, which MySQL refuses while a
      document still points at the comment. */
  method DeleteComment(db: Db, id: int) returns (r: Result<()>)
    requires db.Valid()
    modifies db
    ensures db.Valid()
    ensures id !in old(db.comments) ==> r == Err(NotFound(NotFoundMessage(id))) && db.State() == old(db.State())
    ensures id in old(db.comments) && CommentReferenced(old(db.State()), id) ==>
              r == Err(ForeignKeyViolation) && db.State() == old(db.State())
    ensures id in old(db.comments) && !CommentReferenced(old(db.State()), id) ==>
              r == Ok(()) && db.State() == old(db.State()).(comments := old(db.comments) - {id})
  {
    var found := FindOne(db, id);
    if found.Err? {
      return Err(found.error);
    }
    if CommentReferenced(db.State(), id) {
      return Err(ForeignKeyViolation);
    }
    ghost var s := db.State();
    db.comments := db.comments - {id};
    r := Ok(());
    assert db.State() == s.(comments := s.comments - {id});
    RemoveCommentKeepsValid(s, id);
  }

  /** `FindOptionsWhere<Comment>`: column name to required value. */
  type Where = map<string, int>

  const FilterColumns: set<string> := {"eventId", "demandeId", "authorizationId", "userId"}

  /** The value of a filterable column of a comment. */
  function Column(c: Comment, name: string): Option<int> {
    if name == "eventId" then c.eventId
    else if name == "demandeId" then c.demandeId
    else if name == "authorizationId" then c.authorizationId
    else if name == "userId" then Some(c.userId)
    else None
  }

  predicate WhereHolds(c: Comment, w: Where) {
    forall k :: k in w ==> Column(c, k) == Some(w[k])
  }

  /** Setting one more where field conjoins its equality. */
  lemma WhereAdd(w: Where, k: string, v: int)
    requires k !in w
    ensures forall c :: WhereHolds(c, w[k := v]) == (WhereHolds(c, w) && Column(c, k) == Some(v))
  {
    forall c ensures WhereHolds(c, w[k := v]) == (WhereHolds(c, w) && Column(c, k) == Some(v)) {
      if WhereHolds(c, w[k := v]) {
        assert Column(c, k) == Some(w[k := v][k]);
        forall k' | k' in w ensures Column(c, k') == Some(w[k']) {
          assert w[k := v][k'] == w[k'];
        }
      }
    }
  }

  /** What the filter asks of a comment: each truthy id matches. */
  predicate CommentMatches(c: Comment, f: CommentFilter) {
    && (HasNumber(f.eventId) ==> c.eventId == f.eventId)
    && (HasNumber(f.demandeId) ==> c.demandeId == f.demandeId)
    && (HasNumber(f.authorizationId) ==> c.authorizationId == f.authorizationId)
    && (HasNumber(f.userId) ==> Some(c.userId) == f.userId)
  }

  /** The `where` object of `findAll`, filled one truthy filter at a time. */
  method BuildWhere(f: CommentFilter) returns (w: Where)
    ensures w.Keys <= FilterColumns
    ensures "eventId" in w <==> HasNumber(f.eventId)
    ensures "demandeId" in w <==> HasNumber(f.demandeId)
    ensures "authorizationId" in w <==> HasNumber(f.authorizationId)
    ensures "userId" in w <==> HasNumber(f.userId)
    ensures forall c :: WhereHolds(c, w) == CommentMatches(c, f)
  {
    w := map[];
    if HasNumber(f.eventId) {
      WhereAdd(w, "eventId", f.eventId.value);
      w := w["eventId" := f.eventId.value];
    }
    if HasNumber(f.demandeId) {
      WhereAdd(w, "demandeId", f.demandeId.value);
      w := w["demandeId" := f.demandeId.value];
    }
    if HasNumber(f.authorizationId) {
      WhereAdd(w, "authorizationId", f.authorizationId.value);
      w := w["authorizationId" := f.authorizationId.value];
    }
    if HasNumber(f.userId) {
      WhereAdd(w, "userId", f.userId.value);
      w := w["userId" := f.userId.value];
    }
  }

  function Author(c: Comment): int {
    c.userId
  }

  lemma RowsHaveAuthors(s: DbState)
    requires ValidState(s)
    ensures forall i :: 0 <= i < |Rows(s.comments, 1, s.nextCommentId)| ==>
              Author(Rows(s.comments, 1, s.nextCommentId)[i]) in s.users
  {
    forall i | 0 <= i < |Rows(s.comments, 1, s.nextCommentId)| {
      RowsFromTable(s.comments, 1, s.nextCommentId, i);
    }
  }

  /** The comments joined with their authors, in primary-key order. */
  function JoinedRows(s: DbState): seq<Joined<Comment>>
    requires ValidState(s)
  {
    RowsHaveAuthors(s);
    JoinCreators(s.users, Rows(s.comments, 1, s.nextCommentId), Author)
  }

  function Matching(s: DbState, f: CommentFilter): seq<Joined<Comment>>
    requires ValidState(s)
  {
    Filter(JoinedRows(s), (j: Joined<Comment>) => CommentMatches(j.record, f))
  }

  /** A joined row is listed exactly when its comment is stored, it carries
      the comment's author, and it satisfies the filter. */
  lemma MatchingExactly(s: DbState, f: CommentFilter, x: Joined<Comment>)
    requires ValidState(s)
    ensures x in Matching(s, f) <==>
            && x.record in s.comments.Values
            && x.record.userId in s.users
            && x.createdBy == s.users[x.record.userId]
            && CommentMatches(x.record, f)
  {
    RowsHaveAuthors(s);
    FilterMembership(JoinedRows(s), (j: Joined<Comment>) => CommentMatches(j.record, f), x);
    JoinMembership(s.users, Rows(s.comments, 1, s.nextCommentId), Author, x);
    RowsMembership(s.comments, 1, s.nextCommentId, x.record);
    if x.record in s.comments.Values {
      var k :| k in s.comments && s.comments[k] == x.record;
    }
  }

  /** `findAll`: newest first unless asked otherwise. */
  method FindAll(db: Db, f: CommentFilter) returns (r: CommentPage)
    requires db.Valid() && f.paging.Valid()
    ensures var p := Paginate(Matching(db.State(), f), f.paging.PageNo(), f.paging.Limit(), f.paging.order.GetOr(Desc));
            r == CommentPage(p.data, p.total, p.page, f.paging.Limit(), p.totalPages)
    ensures forall x :: x in r.data ==> x.record in db.comments.Values && CommentMatches(x.record, f)
  {
    var w := BuildWhere(f);
    var rows := JoinedRows(db.State());
    FilterExtensional(rows, (j: Joined<Comment>) => WhereHolds(j.record, w), (j: Joined<Comment>) => CommentMatches(j.record, f));
    var limit := f.paging.Limit();
    var p := Paginate(Filter(rows, (j: Joined<Comment>) => WhereHolds(j.record, w)), f.paging.PageNo(), limit, f.paging.order.GetOr(Desc));
    r := CommentPage(p.data, p.total, p.page, limit, p.totalPages);
    forall x | x in r.data ensures x.record in db.comments.Values && CommentMatches(x.record, f) {
      MatchingExactly(db.State(), f, x);
    }
  }
}
