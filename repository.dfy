/** The in-memory stand-in for the TypeORM repositories: one keyed table per
    entity with its auto-increment counter, the mails handed to the mailer,
    and the upload directory that `saveFile` writes into. */
module Repository {
  import opened Common
  import opened Entities
  import opened Tables

  /** A snapshot of every field of `Db`, so that a method can state its
      whole new state as an update of the old one. */
  datatype DbState = DbState(
    users: map<int, User>,
    events: map<int, Event>,
    demandes: map<int, Demande>,
    authorizations: map<int, Authorization>,
    comments: map<int, Comment>,
    documents: map<int, Document>,
    nextUserId: int,
    nextEventId: int,
    nextDemandeId: int,
    nextAuthorizationId: int,
    nextCommentId: int,
    nextDocumentId: int,
    outbox: seq<MailRequest>,
    files: map<string, seq<byte>>)

  /** A nullable foreign key: unset, or the key of a row of `m`. */
  predicate RefersTo<T>(fk: Option<int>, m: map<int, T>) {
    fk.None? || fk.value in m
  }

  /** Primary keys are generated from 1 upwards and every row carries its
      key; every foreign key holds, as the MySQL constraints that TypeORM
      creates for each `@ManyToOne` enforce. */
  ghost predicate ValidState(s: DbState) {
    KeysValid(s) && CreatorsValid(s) && CommentRefsValid(s) && DocumentRefsValid(s)
  }

  /** Every key lies in `[1, next)` of its table and is the row's `id`. */
  ghost predicate KeysValid(s: DbState) {
    && (forall k :: k in s.users ==> 1 <= k < s.nextUserId && s.users[k].id == k)
    && (forall k :: k in s.events ==> 1 <= k < s.nextEventId && s.events[k].id == k)
    && (forall k :: k in s.demandes ==> 1 <= k < s.nextDemandeId && s.demandes[k].id == k)
    && (forall k :: k in s.authorizations ==> 1 <= k < s.nextAuthorizationId && s.authorizations[k].id == k)
    && (forall k :: k in s.comments ==> 1 <= k < s.nextCommentId && s.comments[k].id == k)
    && (forall k :: k in s.documents ==> 1 <= k < s.nextDocumentId && s.documents[k].id == k)
    && s.nextUserId >= 1 && s.nextEventId >= 1 && s.nextDemandeId >= 1
    && s.nextAuthorizationId >= 1 && s.nextCommentId >= 1 && s.nextDocumentId >= 1
  }

  /** Every event, demande, authorization and comment has a stored user. */
  ghost predicate CreatorsValid(s: DbState) {
    && (forall k :: k in s.events ==> s.events[k].createdByUserId in s.users)
    && (forall k :: k in s.demandes ==> s.demandes[k].createdByUserId in s.users)
    && (forall k :: k in s.authorizations ==> s.authorizations[k].createdByUserId in s.users)
    && (forall k :: k in s.comments ==> s.comments[k].userId in s.users)
  }

  /** The optional owners of every comment exist. */
  ghost predicate CommentRefsValid(s: DbState) {
    && (forall k :: k in s.comments ==> RefersTo(s.comments[k].eventId, s.events))
    && (forall k :: k in s.comments ==> RefersTo(s.comments[k].demandeId, s.demandes))
    && (forall k :: k in s.comments ==> RefersTo(s.comments[k].authorizationId, s.authorizations))
  }

  /** The optional owners of every document exist. */
  ghost predicate DocumentRefsValid(s: DbState) {
    && (forall k :: k in s.documents ==> RefersTo(s.documents[k].eventId, s.events))
    && (forall k :: k in s.documents ==> RefersTo(s.documents[k].demandeId, s.demandes))
    && (forall k :: k in s.documents ==> RefersTo(s.documents[k].authorizationId, s.authorizations))
    && (forall k :: k in s.documents ==> RefersTo(s.documents[k].commentId, s.comments))
  }

  /** The error a `remove` of a still-referenced row ends in: MySQL errno 1451,
      which `QueryFailedExceptionFilter` answers with status 409. */
  const ForeignKeyViolation := Conflict("Foreign key constraint violation")

  predicate EventReferenced(s: DbState, id: int) {
    || (exists k :: k in s.comments && s.comments[k].eventId == Some(id))
    || (exists k :: k in s.documents && s.documents[k].eventId == Some(id))
  }

  predicate DemandeReferenced(s: DbState, id: int) {
    || (exists k :: k in s.comments && s.comments[k].demandeId == Some(id))
    || (exists k :: k in s.documents && s.documents[k].demandeId == Some(id))
  }

  predicate AuthorizationReferenced(s: DbState, id: int) {
    || (exists k :: k in s.comments && s.comments[k].authorizationId == Some(id))
    || (exists k :: k in s.documents && s.documents[k].authorizationId == Some(id))
  }

  predicate CommentReferenced(s: DbState, id: int) {
    exists k :: k in s.documents && s.documents[k].commentId == Some(id)
  }

  predicate UserReferenced(s: DbState, id: int) {
    || (exists k :: k in s.events && s.events[k].createdByUserId == id)
    || (exists k :: k in s.demandes && s.demandes[k].createdByUserId == id)
    || (exists k :: k in s.authorizations && s.authorizations[k].createdByUserId == id)
    || (exists k :: k in s.comments && s.comments[k].userId == id)
  }

  /** `findOne({ where: { email } })`: the first user, in key order, with
      that email. */
  function UserByEmail(users: map<int, User>, email: string, lo: int, hi: int): (r: Option<User>)
    ensures r.Some? ==> r.value.email == email && exists k :: lo <= k < hi && k in users && users[k] == r.value
    ensures r.None? <==> forall k :: lo <= k < hi && k in users ==> users[k].email != email
    decreases hi - lo
  {
    if lo >= hi then None
    else if lo in users && users[lo].email == email then Some(users[lo])
    else UserByEmail(users, email, lo + 1, hi)
  }

  function FindUserByEmail(s: DbState, email: string): Option<User> {
    UserByEmail(s.users, email, 1, s.nextUserId)
  }

  /** Under the invariant, the lookup finds a user exactly when some stored
      user has that email. */
  lemma FindUserByEmailComplete(s: DbState, email: string)
    requires ValidState(s)
    ensures FindUserByEmail(s, email).None? <==> forall k :: k in s.users ==> s.users[k].email != email
    ensures FindUserByEmail(s, email).Some? ==> var u := FindUserByEmail(s, email).value; u.id in s.users && s.users[u.id] == u
  {
    if FindUserByEmail(s, email).Some? {
      var u := FindUserByEmail(s, email).value;
      var k :| 1 <= k < s.nextUserId && k in s.users && s.users[k] == u;
    }
  }

  /** `leftJoinAndSelect('x.createdBy', ...)`: each row paired with its
      creator's row. */
  function JoinCreators<T>(users: map<int, User>, rows: seq<T>, creator: T -> int): (r: seq<Joined<T>>)
    requires forall i :: 0 <= i < |rows| ==> creator(rows[i]) in users
    ensures |r| == |rows|
    ensures forall i :: 0 <= i < |rows| ==> r[i] == Joined(rows[i], users[creator(rows[i])])
  {
    if rows == [] then []
    else [Joined(rows[0], users[creator(rows[0])])] + JoinCreators(users, rows[1..], creator)
  }

  /** A joined row is produced exactly for an input row and its creator. */
  lemma JoinMembership<T>(users: map<int, User>, rows: seq<T>, creator: T -> int, x: Joined<T>)
    requires forall i :: 0 <= i < |rows| ==> creator(rows[i]) in users
    ensures x in JoinCreators(users, rows, creator) <==>
            x.record in rows && creator(x.record) in users && x.createdBy == users[creator(x.record)]
  {
    var r := JoinCreators(users, rows, creator);
    if x in r {
      var i :| 0 <= i < |r| && r[i] == x;
    }
    if x.record in rows && creator(x.record) in users && x.createdBy == users[creator(x.record)] {
      var i :| 0 <= i < |rows| && rows[i] == x.record;
      assert r[i] == x;
    }
  }

  /** Replacing a stored event by one with the same key and an existing
      creator keeps the invariant. */
  lemma ReplaceEventKeepsValid(s: DbState, e: Event, outbox: seq<MailRequest>)
    requires ValidState(s) && e.id in s.events && e.createdByUserId in s.users
    ensures ValidState(s.(events := s.events[e.id := e], outbox := outbox))
  {
  }

  /** Inserting an event under the next key, with an existing creator. */
  lemma InsertEventKeepsValid(s: DbState, e: Event)
    requires ValidState(s) && e.id == s.nextEventId && e.createdByUserId in s.users
    ensures ValidState(s.(events := s.events[e.id := e], nextEventId := e.id + 1))
  {
  }

  /** Removing an event nothing points at. */
  lemma RemoveEventKeepsValid(s: DbState, id: int)
    requires ValidState(s) && !EventReferenced(s, id)
    ensures ValidState(s.(events := s.events - {id}))
  {
    var t := s.(events := s.events - {id});
    forall k | k in t.comments ensures RefersTo(t.comments[k].eventId, t.events) {
      assert t.comments[k].eventId != Some(id);
    }
    forall k | k in t.documents ensures RefersTo(t.documents[k].eventId, t.events) {
      assert t.documents[k].eventId != Some(id);
    }
  }

  lemma ReplaceDemandeKeepsValid(s: DbState, d: Demande)
    requires ValidState(s) && d.id in s.demandes && d.createdByUserId in s.users
    ensures ValidState(s.(demandes := s.demandes[d.id := d]))
  {
  }

  lemma InsertDemandeKeepsValid(s: DbState, d: Demande)
    requires ValidState(s) && d.id == s.nextDemandeId && d.createdByUserId in s.users
    ensures ValidState(s.(demandes := s.demandes[d.id := d], nextDemandeId := d.id + 1))
  {
  }

  lemma RemoveDemandeKeepsValid(s: DbState, id: int)
    requires ValidState(s) && !DemandeReferenced(s, id)
    ensures ValidState(s.(demandes := s.demandes - {id}))
  {
    var t := s.(demandes := s.demandes - {id});
    forall k | k in t.comments ensures RefersTo(t.comments[k].demandeId, t.demandes) {
      assert t.comments[k].demandeId != Some(id);
    }
    forall k | k in t.documents ensures RefersTo(t.documents[k].demandeId, t.demandes) {
      assert t.documents[k].demandeId != Some(id);
    }
  }

  lemma ReplaceAuthorizationKeepsValid(s: DbState, a: Authorization)
    requires ValidState(s) && a.id in s.authorizations && a.createdByUserId in s.users
    ensures ValidState(s.(authorizations := s.authorizations[a.id := a]))
  {
  }

  lemma InsertAuthorizationKeepsValid(s: DbState, a: Authorization)
    requires ValidState(s) && a.id == s.nextAuthorizationId && a.createdByUserId in s.users
    ensures ValidState(s.(authorizations := s.authorizations[a.id := a], nextAuthorizationId := a.id + 1))
  {
  }

  lemma RemoveAuthorizationKeepsValid(s: DbState, id: int)
    requires ValidState(s) && !AuthorizationReferenced(s, id)
    ensures ValidState(s.(authorizations := s.authorizations - {id}))
  {
    var t := s.(authorizations := s.authorizations - {id});
    forall k | k in t.comments ensures RefersTo(t.comments[k].authorizationId, t.authorizations) {
      assert t.comments[k].authorizationId != Some(id);
    }
    forall k | k in t.documents ensures RefersTo(t.documents[k].authorizationId, t.authorizations) {
      assert t.documents[k].authorizationId != Some(id);
    }
  }

  /** A comment whose author exists and whose owner references hold. */
  predicate CommentRefsHold(s: DbState, c: Comment) {
    && c.userId in s.users
    && RefersTo(c.eventId, s.events)
    && RefersTo(c.demandeId, s.demandes)
    && RefersTo(c.authorizationId, s.authorizations)
  }

  lemma InsertCommentKeepsValid(s: DbState, c: Comment)
    requires ValidState(s) && c.id == s.nextCommentId && CommentRefsHold(s, c)
    ensures ValidState(s.(comments := s.comments[c.id := c], nextCommentId := c.id + 1))
  {
  }

  lemma ReplaceCommentKeepsValid(s: DbState, c: Comment)
    requires ValidState(s) && c.id in s.comments && CommentRefsHold(s, c)
    ensures ValidState(s.(comments := s.comments[c.id := c]))
  {
  }

  lemma RemoveCommentKeepsValid(s: DbState, id: int)
    requires ValidState(s) && !CommentReferenced(s, id)
    ensures ValidState(s.(comments := s.comments - {id}))
  {
    var t := s.(comments := s.comments - {id});
    forall k | k in t.documents ensures RefersTo(t.documents[k].commentId, t.comments) {
      assert t.documents[k].commentId != Some(id);
    }
  }

  /** A document whose owner references hold. */
  predicate DocumentRefsHold(s: DbState, d: Document) {
    && RefersTo(d.eventId, s.events)
    && RefersTo(d.demandeId, s.demandes)
    && RefersTo(d.authorizationId, s.authorizations)
    && RefersTo(d.commentId, s.comments)
  }

  /** Inserting a document under the next key; the blob store may change too. */
  lemma InsertDocumentKeepsValid(s: DbState, d: Document, files: map<string, seq<byte>>)
    requires ValidState(s) && d.id == s.nextDocumentId && DocumentRefsHold(s, d)
    ensures ValidState(s.(documents := s.documents[d.id := d], nextDocumentId := d.id + 1, files := files))
  {
  }

  lemma ReplaceUserKeepsValid(s: DbState, u: User)
    requires ValidState(s) && u.id in s.users
    ensures ValidState(s.(users := s.users[u.id := u]))
  {
  }

  lemma InsertUserKeepsValid(s: DbState, u: User)
    requires ValidState(s) && u.id == s.nextUserId
    ensures ValidState(s.(users := s.users[u.id := u], nextUserId := u.id + 1))
  {
  }

  lemma RemoveUserKeepsValid(s: DbState, id: int)
    requires ValidState(s) && !UserReferenced(s, id)
    ensures ValidState(s.(users := s.users - {id}))
  {
    var t := s.(users := s.users - {id});
    forall k | k in t.events ensures t.events[k].createdByUserId in t.users {
      assert t.events[k].createdByUserId != id;
    }
    forall k | k in t.demandes ensures t.demandes[k].createdByUserId in t.users {
      assert t.demandes[k].createdByUserId != id;
    }
    forall k | k in t.authorizations ensures t.authorizations[k].createdByUserId in t.users {
      assert t.authorizations[k].createdByUserId != id;
    }
    forall k | k in t.comments ensures t.comments[k].userId in t.users {
      assert t.comments[k].userId != id;
    }
  }

  class Db {
    var users: map<int, User>
    var events: map<int, Event>
    var demandes: map<int, Demande>
    var authorizations: map<int, Authorization>
    var comments: map<int, Comment>
    var documents: map<int, Document>
    var nextUserId: int
    var nextEventId: int
    var nextDemandeId: int
    var nextAuthorizationId: int
    var nextCommentId: int
    var nextDocumentId: int
    /** Every `sendMail` call, in call order. */
    var outbox: seq<MailRequest>
    /** The upload directory: path to bytes, as `writeFileSync` leaves it. */
    var files: map<string, seq<byte>>

    function State(): DbState
      reads this
    {
      DbState(users, events, demandes, authorizations, comments, documents,
              nextUserId, nextEventId, nextDemandeId, nextAuthorizationId, nextCommentId, nextDocumentId,
              outbox, files)
    }

    ghost predicate Valid()
      reads this
    {
      ValidState(State())
    }

    constructor ()
      ensures Valid()
      ensures State() == DbState(map[], map[], map[], map[], map[], map[], 1, 1, 1, 1, 1, 1, [], map[])
    {
      users, events, demandes, authorizations, comments, documents := map[], map[], map[], map[], map[], map[];
      nextUserId, nextEventId, nextDemandeId, nextAuthorizationId, nextCommentId, nextDocumentId := 1, 1, 1, 1, 1, 1;
      outbox, files := [], map[];
    }
  }
}
