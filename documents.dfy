/** `DocumentService`: a file attached to exactly one event, demande,
    authorization or comment, chosen by an entity-type string. The uploads
    directory is the `files` map of the repository. */
module DocumentService {
  import opened Common
  import opened Entities
  import opened Tables
  import opened Repository

  /** The four kinds of owner a document can have. */
  datatype OwnerKind = EventOwner | DemandeOwner | AuthorizationOwner | CommentOwner

  /** The `entityType` route segment naming a kind. */
  function KindName(k: OwnerKind): string {
    match k
    case EventOwner => "event"
    case DemandeOwner => "demande"
    case AuthorizationOwner => "authorization"
    case CommentOwner => "comment"
  }

  /** The `switch (entityType)`: only the four exact names are recognised. */
  function ParseOwnerKind(entityType: string): (r: Option<OwnerKind>)
    ensures r.Some? <==> entityType == "event" || entityType == "demande" || entityType == "authorization" || entityType == "comment"
  {
    if entityType == "event" then Some(EventOwner)
    else if entityType == "demande" then Some(DemandeOwner)
    else if entityType == "authorization" then Some(AuthorizationOwner)
    else if entityType == "comment" then Some(CommentOwner)
    else None
  }

  /** Parsing and naming are inverse to each other. */
  lemma KindNameRoundTrip(k: OwnerKind, entityType: string)
    ensures ParseOwnerKind(KindName(k)) == Some(k)
    ensures ParseOwnerKind(entityType).Some? ==> KindName(ParseOwnerKind(entityType).value) == entityType
  {
  }

  /** The entity name in the not-found message. */
  function OwnerLabel(k: OwnerKind): string {
    match k
    case EventOwner => "Event"
    case DemandeOwner => "Demande"
    case AuthorizationOwner => "Authorization"
    case CommentOwner => "Comment"
  }

  /** The owner column of `d` that belongs to kind `k`. */
  function OwnerOf(d: Document, k: OwnerKind): Option<int> {
    match k
    case EventOwner => d.eventId
    case DemandeOwner => d.demandeId
    case AuthorizationOwner => d.authorizationId
    case CommentOwner => d.commentId
  }

  /** `findOneBy({ id })` on the repository of kind `k` finds a row. */
  predicate OwnerExists(s: DbState, k: OwnerKind, id: int) {
    match k
    case EventOwner => id in s.events
    case DemandeOwner => id in s.demandes
    case AuthorizationOwner => id in s.authorizations
    case CommentOwner => id in s.comments
  }

  /** The part of `Express.Multer.File` the service reads. */
  datatype UploadedFile = UploadedFile(originalName: string, mimeType: string, buffer: seq<byte>)

  /** `${Date.now()}-${file.originalname}`: for a non-negative clock the
      leading digits spell the timestamp, and the original name follows a
      dash. */
  function StoredFileName(now: int, originalName: string): (r: string)
    ensures now >= 0 ==> r[..LeadingDigits(r)] == NatToString(now)
    ensures EndsWith(r, "-" + originalName)
  {
    var r := IntToString(now) + "-" + originalName;
    PrefixAndSuffix(IntToString(now), "-" + originalName);
    assert r == IntToString(now) + ("-" + originalName);
    if now >= 0 then
      LeadingDigitsOfNumber(NatToString(now), originalName);
      r
    else r
  }

  /** `join(__dirname, '..', 'uploads', fileName)`, relative to the build directory. */
  function StoredPath(now: int, originalName: string): string {
    "uploads/" + StoredFileName(now, originalName)
  }

  /** Two uploads at different instants, or of files with different names,
      are stored under different names. */
  lemma StoredFileNameInjective(t1: int, n1: string, t2: int, n2: string)
    requires t1 >= 0 && t2 >= 0
    requires StoredFileName(t1, n1) == StoredFileName(t2, n2)
    ensures t1 == t2 && n1 == n2
  {
    var a, b := NatToString(t1), NatToString(t2);
    var x := StoredFileName(t1, n1);
    assert x == a + "-" + n1 && x == b + "-" + n2;
    LeadingDigitsOfNumber(a, n1);
    LeadingDigitsOfNumber(b, n2);
    assert a == x[..|a|] == b;
    NatToStringInjective(t1, t2);
    assert n1 == x[|a| + 1..] == n2;
  }

  lemma {:induction false} LeadingDigitsOfNumber(digits: string, rest: string)
    requires forall i :: 0 <= i < |digits| ==> IsDigit(digits[i])
    ensures LeadingDigits(digits + "-" + rest) == |digits|
  {
    if digits != [] {
      assert (digits + "-" + rest)[1..] == digits[1..] + "-" + rest;
      LeadingDigitsOfNumber(digits[1..], rest);
    }
  }

  function NotFoundMessage(k: OwnerKind, id: int): string {
    OwnerLabel(k) + " with ID " + IntToString(id) + " not found"
  }

  /** The document `uploadDocument` saves: only `filePath`, `uploadDate` and
      the owner column of its kind are assigned. */
  function NewDocument(id: int, path: string, uploadDate: int, k: OwnerKind, entityId: int): (d: Document)
    ensures d.id == id && d.filePath == path && d.uploadDate == uploadDate
    ensures d.originalFileName.None? && d.fileSize.None? && d.mimeType.None?
    ensures forall k' :: OwnerOf(d, k') == if k' == k then Some(entityId) else None
  {
    var d := Document(id, path, None, None, None, uploadDate, None, None, None, None);
    match k
    case EventOwner => d.(eventId := Some(entityId))
    case DemandeOwner => d.(demandeId := Some(entityId))
    case AuthorizationOwner => d.(authorizationId := Some(entityId))
    case CommentOwner => d.(commentId := Some(entityId))
  }

  /** `uploadDocument`: the file is written first, whatever follows; then the
      entity type is dispatched, the owner looked up, and the document saved.
      `writeTime` is the `Date.now()` of the file name and `uploadTime` the
      `new Date()` of the row. */
  method UploadDocument(db: Db, file: UploadedFile, entityType: string, entityId: int, writeTime: int, uploadTime: int)
    returns (r: Result<Document>)
    requires db.Valid()
    modifies db
    ensures db.Valid()
    ensures db.files == old(db.files)[StoredPath(writeTime, file.originalName) := file.buffer]
    ensures ParseOwnerKind(entityType).None? ==>
              r == Err(BadRequest("Invalid entity type"))
              && db.State() == old(db.State()).(files := db.files)
    ensures ParseOwnerKind(entityType).Some? && !OwnerExists(old(db.State()), ParseOwnerKind(entityType).value, entityId) ==>
              r == Err(NotFound(NotFoundMessage(ParseOwnerKind(entityType).value, entityId)))
              && db.State() == old(db.State()).(files := db.files)
    ensures ParseOwnerKind(entityType).Some? && OwnerExists(old(db.State()), ParseOwnerKind(entityType).value, entityId) ==>
              var d := NewDocument(old(db.nextDocumentId), StoredPath(writeTime, file.originalName), uploadTime,
                                   ParseOwnerKind(entityType).value, entityId);
              && r == Ok(d)
              && db.State() == old(db.State()).(documents := old(db.documents)[d.id := d], nextDocumentId := d.id + 1, files := db.files)
  {
    ghost var s := db.State();
    var path := StoredPath(writeTime, file.originalName);
    db.files := db.files[path := file.buffer];
    WriteKeepsValid(s, db.files);
    ghost var written := db.State();
    assert written == s.(files := db.files);
    var parsed := ParseOwnerKind(entityType);
    if parsed.None? {
      return Err(BadRequest("Invalid entity type"));
    }
    var kind := parsed.value;
    var found := OwnerExists(db.State(), kind, entityId);
    if !found {
      return Err(NotFound(NotFoundMessage(kind, entityId)));
    }
    var d := NewDocument(db.nextDocumentId, path, uploadTime, kind, entityId);
    SaveDocument(db, d);
    r := Ok(d);
  }

  /** `documentRepository.save(document)` for a new document: it is stored
      under the next key and nothing else changes. */
  method SaveDocument(db: Db, d: Document)
    requires db.Valid() && d.id == db.nextDocumentId && DocumentRefsHold(db.State(), d)
    modifies db`documents, db`nextDocumentId
    ensures db.Valid()
    ensures db.State() == old(db.State()).(documents := old(db.documents)[d.id := d], nextDocumentId := d.id + 1)
  {
    ghost var s := db.State();
    db.documents := db.documents[d.id := d];
    db.nextDocumentId := db.nextDocumentId + 1;
    InsertDocumentKeepsValid(s, d, s.files);
  }

  /** Writing a blob touches no table. */
  lemma WriteKeepsValid(s: DbState, files: map<string, seq<byte>>)
    requires ValidState(s)
    ensures ValidState(s.(files := files))
  {
  }

  /** The documents whose owner column of kind `k` holds `id`, by primary key. */
  function Listing(s: DbState, k: OwnerKind, id: int): seq<Document> {
    Filter(Rows(s.documents, 1, s.nextDocumentId), d => OwnerOf(d, k) == Some(id))
  }

  /** Under a valid state, a document is listed exactly when it is stored with that owner. */
  lemma ListingExactly(s: DbState, k: OwnerKind, id: int)
    requires ValidState(s)
    ensures forall x :: x in Listing(s, k, id) <==> x in s.documents.Values && OwnerOf(x, k) == Some(id)
  {
    forall x ensures x in Listing(s, k, id) <==> x in s.documents.Values && OwnerOf(x, k) == Some(id) {
      ListedExactly(s, k, id, x);
    }
  }

  lemma ListedExactly(s: DbState, k: OwnerKind, id: int, x: Document)
    requires ValidState(s)
    ensures x in Listing(s, k, id) <==> x in s.documents.Values && OwnerOf(x, k) == Some(id)
  {
    FilterRowsMembership(s.documents, 1, s.nextDocumentId, d => OwnerOf(d, k) == Some(id), x);
    if x in s.documents.Values {
      var key :| key in s.documents && s.documents[key] == x;
    }
  }

  /** TypeORM's error for a `where` on a column `Document` does not have. */
  function UnknownPropertyMessage(entityType: string): string {
    "Property \"" + entityType + "Id\" was not found in \"Document\". Make sure your query is correct."
  }

  /** `getDocumentsByEntity`: `find({ where: { [entityType + 'Id']: entityId } })`. */
  function DocumentsByEntity(db: Db, entityType: string, entityId: int): (r: Result<seq<Document>>)
    requires db.Valid()
    reads db
    ensures r.Ok? <==> ParseOwnerKind(entityType).Some?
    ensures r.Err? ==> r.error == ServerError(UnknownPropertyMessage(entityType))
    ensures r.Ok? ==> forall x :: x in r.value <==>
              x in db.documents.Values && OwnerOf(x, ParseOwnerKind(entityType).value) == Some(entityId)
  {
    match ParseOwnerKind(entityType)
    case None => Err(ServerError(UnknownPropertyMessage(entityType)))
    case Some(k) =>
      ListingExactly(db.State(), k, entityId);
      Ok(Listing(db.State(), k, entityId))
  }

  /** A newly saved document is listed under its owner and under no other
      owner of any kind. */
  lemma UploadedListedUnderItsOwner(s: DbState, path: string, uploadDate: int, k: OwnerKind, entityId: int)
    requires ValidState(s) && OwnerExists(s, k, entityId)
    ensures var d := NewDocument(s.nextDocumentId, path, uploadDate, k, entityId);
            var t := s.(documents := s.documents[d.id := d], nextDocumentId := d.id + 1);
            && d in Listing(t, k, entityId)
            && forall k', id :: (k' != k || id != entityId) ==> d !in Listing(t, k', id)
  {
    var d := NewDocument(s.nextDocumentId, path, uploadDate, k, entityId);
    var t := s.(documents := s.documents[d.id := d], nextDocumentId := d.id + 1);
    InsertDocumentKeepsValid(s, d, s.files);
    assert t == s.(documents := s.documents[d.id := d], nextDocumentId := d.id + 1, files := s.files);
    ListingExactly(t, k, entityId);
    assert d in t.documents.Values by {
      assert t.documents[d.id] == d;
    }
    forall k', id | k' != k || id != entityId ensures d !in Listing(t, k', id) {
      ListingExactly(t, k', id);
      assert OwnerOf(d, k') != Some(id);
    }
  }
}
