/** `UserService`: accounts, their password-change rules, admin creation
    by a super admin, the profile photo stored as a `data:` URL, and the
    filtered user list. */
module UserService {
  import opened Common
  import opened Entities
  import opened Tables
  import opened Pagination
  import opened Repository
  import DataUri

  /** `CreateUserDto`. */
  datatype NewUser = NewUser(
    firstName: string,
    lastName: string,
    email: string,
    password: string,
    role: string,
    birthDate: string,
    phoneNumber: string,
    cin: Option<string>,
    idAssociation: Option<string>,
    job: string,
    profilePhoto: Option<string>)

  /** The row `create` saves: the DTO's columns, the password hashed and
      `previousPassword` set to that same hash; `locked` and `createdAt`
      take their column defaults. */
  function NewUserRow(id: int, dto: NewUser, now: int): (u: User)
    ensures u.id == id && u.email == dto.email && u.role == dto.role && !u.locked && u.createdAt == now
    ensures Compare(dto.password, u.password) && u.previousPassword == Some(u.password)
  {
    User(id, dto.firstName, dto.lastName, dto.email, Hashed(dto.password), Some(Hashed(dto.password)),
         dto.role, dto.birthDate, Some(dto.phoneNumber), dto.cin, dto.idAssociation, Some(dto.job),
         dto.profilePhoto, false, now)
  }

  /** `create`: the new user is saved under the next key and returned
      without its password columns. */
  method Create(db: Db, dto: NewUser, now: int) returns (r: PublicUser)
    requires db.Valid()
    modifies db
    ensures db.Valid()
    ensures var u := NewUserRow(old(db.nextUserId), dto, now);
            && r == Public(u)
            && db.State() == old(db.State()).(users := old(db.users)[u.id := u], nextUserId := u.id + 1)
  {
    ghost var s := db.State();
    var u := NewUserRow(db.nextUserId, dto, now);
    db.users := db.users[u.id := u];
    db.nextUserId := db.nextUserId + 1;
    r := Public(u);
    assert db.State() == s.(users := s.users[u.id := u], nextUserId := u.id + 1);
    InsertUserKeepsValid(s, u);
  }

  function NotFoundMessage(id: int): string {
    "User with ID " + IntToString(id) + " not found"
  }

  /** `findOne`. */
  function FindOne(db: Db, id: int): (r: Result<PublicUser>)
    reads db
    ensures r.Ok? <==> id in db.users
    ensures r.Ok? ==> r.value == Public(db.users[id]) && r.value.id == db.users[id].id
    ensures r.Err? ==> r.error == NotFound(NotFoundMessage(id))
  {
    if id in db.users then Ok(Public(db.users[id])) else Err(NotFound(NotFoundMessage(id)))
  }

  /** `UpdateUserDto`: only these properties pass the whitelisting pipe. */
  datatype UserPatch = UserPatch(
    firstName: Option<string>,
    lastName: Option<string>,
    email: Option<string>,
    password: Option<string>,
    previousPassword: Option<string>,
    role: Option<string>,
    birthDate: Option<string>,
    phoneNumber: Option<string>,
    job: Option<string>,
    profilePhoto: Option<string>,
    locked: Option<bool>)

  const OldPasswordRequired := "Old password is required to update the password."
  const OldPasswordIncorrect := "Old password is incorrect."
  const PasswordReused := "You have used this password before. Please choose a different password."

  /** The password checks of `update`, against the stored hash: the hash
      that replaces the new password in the DTO, `None` when no (truthy) new
      password is given, or the first check that fails. */
  function PasswordChange(stored: Secret, p: UserPatch): (r: Result<Option<Secret>>)
    ensures r == Ok(None) <==> !HasText(p.password)
    ensures r.Err? ==> HasText(p.password) && r.error.Conflict?
    ensures r.Ok? && r.value.Some? ==>
              && HasText(p.previousPassword) && Compare(p.previousPassword.value, stored)
              && !Compare(p.password.value, stored)
              && Compare(p.password.value, r.value.value)
    ensures (HasText(p.password) && HasText(p.previousPassword) && Compare(p.previousPassword.value, stored)
             && !Compare(p.password.value, stored)) ==> r.Ok?
  {
    if !HasText(p.password) then Ok(None)
    else if !HasText(p.previousPassword) then Err(Conflict(OldPasswordRequired))
    else if !Compare(p.previousPassword.value, stored) then Err(Conflict(OldPasswordIncorrect))
    else if Compare(p.password.value, stored) then Err(Conflict(PasswordReused))
    else Ok(Some(Hashed(p.password.value)))
  }

  /** A successful change to a new password leaves the old one unusable. */
  lemma ChangedPasswordReplacesOld(stored: Secret, p: UserPatch)
    requires PasswordChange(stored, p).Ok? && PasswordChange(stored, p).value.Some?
    ensures var h := PasswordChange(stored, p).value.value;
            Compare(p.password.value, h) && !Compare(p.previousPassword.value, h)
  {
  }

  /** `Object.assign(user, dto)`: each property present in the DTO replaces
      the column, `password` by its hash when one was computed; every other
      value, `previousPassword` included, is stored as given. */
  function Assign(u: User, p: UserPatch, hashed: Option<Secret>): (r: User)
    ensures r.id == u.id && r.cin == u.cin && r.idAssociation == u.idAssociation && r.createdAt == u.createdAt
    ensures r.password == if hashed.Some? then hashed.value else if p.password.Some? then Plain(p.password.value) else u.password
    ensures r.previousPassword == if p.previousPassword.Some? then Some(Plain(p.previousPassword.value)) else u.previousPassword
  {
    u.(firstName := p.firstName.GetOr(u.firstName),
       lastName := p.lastName.GetOr(u.lastName),
       email := p.email.GetOr(u.email),
       password := if hashed.Some? then hashed.value else if p.password.Some? then Plain(p.password.value) else u.password,
       previousPassword := if p.previousPassword.Some? then Some(Plain(p.previousPassword.value)) else u.previousPassword,
       role := p.role.GetOr(u.role),
       birthDate := p.birthDate.GetOr(u.birthDate),
       phoneNumber := if p.phoneNumber.Some? then p.phoneNumber else u.phoneNumber,
       job := if p.job.Some? then p.job else u.job,
       profilePhoto := if p.profilePhoto.Some? then p.profilePhoto else u.profilePhoto,
       locked := p.locked.GetOr(u.locked))
  }

  /** The patch with no properties. */
  const EmptyPatch := UserPatch(None, None, None, None, None, None, None, None, None, None, None)

  /** A patch without properties changes nothing, and applying a patch
      twice is applying it once. */
  lemma AssignLaws(u: User, p: UserPatch, hashed: Option<Secret>)
    ensures Assign(u, EmptyPatch, None) == u
    ensures Assign(Assign(u, p, hashed), p, hashed) == Assign(u, p, hashed)
  {
  }

  /** `update`: the lookup, the password checks in order, then the merge and
      the save. A failed check saves nothing. */
  method Update(db: Db, id: int, p: UserPatch) returns (r: Result<PublicUser>)
    requires db.Valid()
    modifies db
    ensures db.Valid()
    ensures id !in old(db.users) ==> r == Err(NotFound("User not found.")) && db.State() == old(db.State())
    ensures id in old(db.users) && PasswordChange(old(db.users)[id].password, p).Err? ==>
              r == Err(PasswordChange(old(db.users)[id].password, p).error) && db.State() == old(db.State())
    ensures id in old(db.users) && PasswordChange(old(db.users)[id].password, p).Ok? ==>
              var u := Assign(old(db.users)[id], p, PasswordChange(old(db.users)[id].password, p).value);
              && r == Ok(Public(u))
              && db.State() == old(db.State()).(users := old(db.users)[id := u])
  {
    if id !in db.users {
      return Err(NotFound("User not found."));
    }
    var user := db.users[id];
    var hashed: Option<Secret> := None;
    if HasText(p.password) {
      if !HasText(p.previousPassword) {
        return Err(Conflict(OldPasswordRequired));
      }
      if !Compare(p.previousPassword.value, user.password) {
        return Err(Conflict(OldPasswordIncorrect));
      }
      if Compare(p.password.value, user.password) {
        return Err(Conflict(PasswordReused));
      }
      hashed := Some(Hashed(p.password.value));
    }
    ghost var s := db.State();
    var u := Assign(user, p, hashed);
    db.users := db.users[id := u];
    r := Ok(Public(u));
    assert db.State() == s.(users := s.users[id := u]);
    ReplaceUserKeepsValid(s, u);
  }

  /** `remove`: `findOne`, then the delete, which MySQL refuses while an
      event, demande, authorization or comment still names the user. */
  method Remove(db: Db, id: int) returns (r: Result<()>)
    requires db.Valid()
    modifies db
    ensures db.Valid()
    ensures id !in old(db.users) ==> r == Err(NotFound(NotFoundMessage(id))) && db.State() == old(db.State())
    ensures id in old(db.users) && UserReferenced(old(db.State()), id) ==>
              r == Err(ForeignKeyViolation) && db.State() == old(db.State())
    ensures id in old(db.users) && !UserReferenced(old(db.State()), id) ==>
              r == Ok(()) && db.State() == old(db.State()).(users := old(db.users) - {id})
  {
    var found := FindOne(db, id);
    if found.Err? {
      return Err(found.error);
    }
    if UserReferenced(db.State(), id) {
      return Err(ForeignKeyViolation);
    }
    ghost var s := db.State();
    db.users := db.users - {id};
    r := Ok(());
    assert db.State() == s.(users := s.users - {id});
    RemoveUserKeepsValid(s, id);
  }

  /** `CreateAdminDto`. */
  datatype NewAdmin = NewAdmin(
    firstName: string,
    lastName: string,
    email: string,
    password: string,
    role: string,
    birthDate: string,
    phoneNumber: Option<string>,
    profilePhoto: Option<string>)

  /** The `{ user: { id, email, role } }` that `createAdmin` returns. */
  datatype AdminCreated = AdminCreated(id: int, email: string, role: string)

  /** The row `createAdmin` saves: the DTO with its password replaced by the
      hash; `previousPassword`, `cin`, `idAssociation` and `job` stay unset. */
  function NewAdminRow(id: int, dto: NewAdmin, now: int): (u: User)
    ensures u.id == id && u.email == dto.email && u.role == dto.role && !u.locked && u.createdAt == now
    ensures Compare(dto.password, u.password) && u.previousPassword.None?
  {
    User(id, dto.firstName, dto.lastName, dto.email, Hashed(dto.password), None, dto.role, dto.birthDate,
         dto.phoneNumber, None, None, None, dto.profilePhoto, false, now)
  }

  /** `createAdmin`: only a SUPER_ADMIN may create, and only with an email
      nobody uses yet. */
  method CreateAdmin(db: Db, creator: User, dto: NewAdmin, now: int) returns (r: Result<AdminCreated>)
    requires db.Valid()
    modifies db
    ensures db.Valid()
    ensures creator.role != "SUPER_ADMIN" ==>
              r == Err(Unauthorized("Only SUPER_ADMIN can create admins")) && db.State() == old(db.State())
    ensures creator.role == "SUPER_ADMIN" && FindUserByEmail(old(db.State()), dto.email).Some? ==>
              r == Err(BadRequest("Email already in use")) && db.State() == old(db.State())
    ensures creator.role == "SUPER_ADMIN" && FindUserByEmail(old(db.State()), dto.email).None? ==>
              var u := NewAdminRow(old(db.nextUserId), dto, now);
              && r == Ok(AdminCreated(u.id, dto.email, dto.role))
              && db.State() == old(db.State()).(users := old(db.users)[u.id := u], nextUserId := u.id + 1)
  {
    if creator.role != "SUPER_ADMIN" {
      return Err(Unauthorized("Only SUPER_ADMIN can create admins"));
    }
    var existing := FindUserByEmail(db.State(), dto.email);
    if existing.Some? {
      return Err(BadRequest("Email already in use"));
    }
    ghost var s := db.State();
    var u := NewAdminRow(db.nextUserId, dto, now);
    db.users := db.users[u.id := u];
    db.nextUserId := db.nextUserId + 1;
    r := Ok(AdminCreated(u.id, u.email, u.role));
    assert db.State() == s.(users := s.users[u.id := u], nextUserId := u.id + 1);
    InsertUserKeepsValid(s, u);
  }

  /** No two users share an email. */
  predicate EmailsUnique(users: map<int, User>) {
    forall j, k :: j in users && k in users && users[j].email == users[k].email ==> j == k
  }

  /** The email check of `createAdmin` keeps emails unique. */
  lemma AdminKeepsEmailsUnique(s: DbState, dto: NewAdmin, now: int)
    requires ValidState(s) && EmailsUnique(s.users) && FindUserByEmail(s, dto.email).None?
    ensures var u := NewAdminRow(s.nextUserId, dto, now);
            EmailsUnique(s.users[u.id := u])
  {
    FindUserByEmailComplete(s, dto.email);
  }

  /** The part of the uploaded file `uploadProfilePhoto` reads. */
  datatype PhotoFile = PhotoFile(mimeType: string, buffer: seq<byte>)

  /** `uploadProfilePhoto`: the photo column becomes the file as a base64
      `data:` URL, which reads back as the file's type and bytes. */
  method UploadProfilePhoto(db: Db, id: int, file: PhotoFile) returns (r: Result<PublicUser>)
    requires db.Valid()
    modifies db
    ensures db.Valid()
    ensures id !in old(db.users) ==> r == Err(NotFound("User not found.")) && db.State() == old(db.State())
    ensures id in old(db.users) ==>
              var u := old(db.users)[id].(profilePhoto := Some(DataUri.Build(file.mimeType, file.buffer)));
              && r == Ok(Public(u))
              && db.State() == old(db.State()).(users := old(db.users)[id := u])
    ensures id in old(db.users) ==> DataUri.Parse(db.users[id].profilePhoto.value) == Some((file.mimeType, file.buffer))
  {
    if id !in db.users {
      return Err(NotFound("User not found."));
    }
    ghost var s := db.State();
    var u := db.users[id].(profilePhoto := Some(DataUri.Build(file.mimeType, file.buffer)));
    db.users := db.users[id := u];
    r := Ok(Public(u));
    assert db.State() == s.(users := s.users[id := u]);
    ReplaceUserKeepsValid(s, u);
    DataUri.ParseBuild(file.mimeType, file.buffer);
  }

  /** `FindUserDto`. */
  datatype UserFilter = UserFilter(
    paging: Paging,
    firstName: Option<string>,
    lastName: Option<string>,
    email: Option<string>,
    role: Option<string>,
    birthDate: Option<string>,
    cin: Option<string>,
    idAssociation: Option<string>,
    job: Option<string>)

  /** One `andWhere` of the query builder. */
  datatype UserCriterion =
    | FirstNameLike(firstName: string)
    | LastNameLike(lastName: string)
    | EmailLike(email: string)
    | RoleIs(role: string)
    | BirthDateIs(birthDate: string)
    | CinIs(cin: string)
    | IdAssociationIs(idAssociation: string)
    | JobLike(job: string)

  predicate Holds(u: User, c: UserCriterion) {
    match c
    case FirstNameLike(x) => Contains(u.firstName, x)
    case LastNameLike(x) => Contains(u.lastName, x)
    case EmailLike(x) => Contains(u.email, x)
    case RoleIs(x) => u.role == x
    case BirthDateIs(x) => u.birthDate == x
    case CinIs(x) => u.cin == Some(x)
    case IdAssociationIs(x) => u.idAssociation == Some(x)
    case JobLike(x) => u.job.Some? && Contains(u.job.value, x)
  }

  predicate HoldsAll(u: User, cs: seq<UserCriterion>) {
    AllHold(u, cs, Holds)
  }

  /** The filters on who the user is: substring matches on the names and
      the email, equality on the role, each only when given. */
  predicate IdentityMatches(u: User, f: UserFilter) {
    && (HasText(f.firstName) ==> Contains(u.firstName, f.firstName.value))
    && (HasText(f.lastName) ==> Contains(u.lastName, f.lastName.value))
    && (HasText(f.email) ==> Contains(u.email, f.email.value))
    && (HasText(f.role) ==> u.role == f.role.value)
  }

  /** The filters on the profile: equality on the birth date, the cin and
      the association id, a substring match on the job. A user without a
      cin, association id or job fails that filter. */
  predicate ProfileMatches(u: User, f: UserFilter) {
    && (HasText(f.birthDate) ==> u.birthDate == f.birthDate.value)
    && (HasText(f.cin) ==> u.cin == f.cin)
    && (HasText(f.idAssociation) ==> u.idAssociation == f.idAssociation)
    && (HasText(f.job) ==> u.job.Some? && Contains(u.job.value, f.job.value))
  }

  /** What the filter asks of a user: every given filter holds. */
  predicate UserMatches(u: User, f: UserFilter) {
    IdentityMatches(u, f) && ProfileMatches(u, f)
  }

  function Matching(s: DbState, f: UserFilter): seq<User> {
    Filter(Rows(s.users, 1, s.nextUserId), u => UserMatches(u, f))
  }

  /** A user is listed among the matches exactly when stored and matching. */
  lemma MatchingExactly(s: DbState, f: UserFilter, x: User)
    requires ValidState(s)
    ensures x in Matching(s, f) <==> x in s.users.Values && UserMatches(x, f)
  {
    FilterRowsMembership(s.users, 1, s.nextUserId, u => UserMatches(u, f), x);
    if x in s.users.Values {
      var k :| k in s.users && s.users[k] == x;
    }
  }

  /** The first four `andWhere` calls of `findAll`, one per truthy filter. */
  method IdentityCriteria(f: UserFilter) returns (criteria: seq<UserCriterion>)
    ensures forall u :: HoldsAll(u, criteria) == IdentityMatches(u, f)
  {
    criteria := [];
    if HasText(f.firstName) {
      AllHoldSnoc(criteria, FirstNameLike(f.firstName.value), Holds);
      criteria := criteria + [FirstNameLike(f.firstName.value)];
    }
    if HasText(f.lastName) {
      AllHoldSnoc(criteria, LastNameLike(f.lastName.value), Holds);
      criteria := criteria + [LastNameLike(f.lastName.value)];
    }
    if HasText(f.email) {
      AllHoldSnoc(criteria, EmailLike(f.email.value), Holds);
      criteria := criteria + [EmailLike(f.email.value)];
    }
    if HasText(f.role) {
      AllHoldSnoc(criteria, RoleIs(f.role.value), Holds);
      criteria := criteria + [RoleIs(f.role.value)];
    }
  }

  /** The last four `andWhere` calls of `findAll`, one per truthy filter. */
  method ProfileCriteria(f: UserFilter) returns (criteria: seq<UserCriterion>)
    ensures forall u :: HoldsAll(u, criteria) == ProfileMatches(u, f)
  {
    criteria := [];
    if HasText(f.birthDate) {
      AllHoldSnoc(criteria, BirthDateIs(f.birthDate.value), Holds);
      criteria := criteria + [BirthDateIs(f.birthDate.value)];
    }
    if HasText(f.cin) {
      AllHoldSnoc(criteria, CinIs(f.cin.value), Holds);
      criteria := criteria + [CinIs(f.cin.value)];
    }
    if HasText(f.idAssociation) {
      AllHoldSnoc(criteria, IdAssociationIs(f.idAssociation.value), Holds);
      criteria := criteria + [IdAssociationIs(f.idAssociation.value)];
    }
    if HasText(f.job) {
      AllHoldSnoc(criteria, JobLike(f.job.value), Holds);
      criteria := criteria + [JobLike(f.job.value)];
    }
  }

  /** The whole `andWhere` chain of `findAll`, in the source's order. */
  method Criteria(f: UserFilter) returns (criteria: seq<UserCriterion>)
    ensures forall u :: HoldsAll(u, criteria) == UserMatches(u, f)
  {
    var identity := IdentityCriteria(f);
    var profile := ProfileCriteria(f);
    AllHoldAppend(identity, profile, Holds);
    criteria := identity + profile;
  }

  /** `findAll`: the rows come from the query builder, not through
      `documentMapping`, so they keep their password columns. */
  method FindAll(db: Db, f: UserFilter) returns (r: Page<User>)
    requires db.Valid() && f.paging.Valid()
    ensures r == Paginate(Matching(db.State(), f), f.paging.PageNo(), f.paging.Limit(), f.paging.order.GetOr(Asc))
    ensures forall x :: x in r.data ==> x in db.users.Values && UserMatches(x, f)
  {
    var criteria := Criteria(f);
    var rows := Rows(db.users, 1, db.nextUserId);
    FilterExtensional(rows, u => HoldsAll(u, criteria), u => UserMatches(u, f));
    r := Paginate(Filter(rows, u => HoldsAll(u, criteria)), f.paging.PageNo(), f.paging.Limit(), f.paging.order.GetOr(Asc));
    forall x | x in r.data ensures x in db.users.Values && UserMatches(x, f) {
      MatchingExactly(db.State(), f, x);
    }
  }
}
