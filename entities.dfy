/** The rows of the database, one datatype per TypeORM entity, and the
    values the services return or hand to the mailer. Dates are integer
    timestamps; columns the services can leave unset are `Option`s. */
module Entities {
  import opened Common

  /** A stored password column. bcrypt is abstract: `Hashed(p)` is any hash
      of `p`, and `Plain(t)` is text stored as given. */
  datatype Secret = Hashed(plain: string) | Plain(text: string)

  /** `bcrypt.compare(plain, stored)`: true exactly for a hash of `plain`. */
  predicate Compare(plain: string, stored: Secret) {
    stored == Hashed(plain)
  }

  /** `src/users/user.entity.ts`. `role` is the stored string: `update`
      copies any string into it. */
  datatype User = User(
    id: int,
    firstName: string,
    lastName: string,
    email: string,
    password: Secret,
    previousPassword: Option<Secret>,
    role: string,
    birthDate: string,
    phoneNumber: Option<string>,
    cin: Option<string>,
    idAssociation: Option<string>,
    job: Option<string>,
    profilePhoto: Option<string>,
    locked: bool,
    createdAt: int)

  /** A user without `password` and `previousPassword`: what the services
      return after deleting them or after `documentMapping`, whose
      `plainToClass` drops the two `@Exclude({ toClassOnly: true })` columns. */
  datatype PublicUser = PublicUser(
    id: int,
    firstName: string,
    lastName: string,
    email: string,
    role: string,
    birthDate: string,
    phoneNumber: Option<string>,
    cin: Option<string>,
    idAssociation: Option<string>,
    job: Option<string>,
    profilePhoto: Option<string>,
    locked: bool,
    createdAt: int)

  function Public(u: User): PublicUser {
    PublicUser(u.id, u.firstName, u.lastName, u.email, u.role, u.birthDate, u.phoneNumber,
               u.cin, u.idAssociation, u.job, u.profilePhoto, u.locked, u.createdAt)
  }

  /** `src/event/event.entity.ts`; `status` defaults to PENDING. */
  datatype Event = Event(
    id: int,
    name: string,
    location: string,
    description: string,
    date: int,
    eventType: string,
    status: Status,
    createdByUserId: int)

  /** `src/demande/demande.entity.ts`; `status` defaults to PENDING. */
  datatype Demande = Demande(
    id: int,
    name: string,
    description: string,
    location: string,
    date: int,
    demandeType: string,
    status: Status,
    createdByUserId: int)

  /** `src/authorization/authorization.entity.ts`; `status` defaults to PENDING. */
  datatype Authorization = Authorization(
    id: int,
    name: string,
    description: string,
    location: string,
    startDate: int,
    endDate: int,
    creationDate: int,
    status: Status,
    createdByUserId: int)

  /** `src/comment/comment.entity.ts`: each owner reference is optional. */
  datatype Comment = Comment(
    id: int,
    commentText: string,
    createdAt: int,
    userId: int,
    eventId: Option<int>,
    demandeId: Option<int>,
    authorizationId: Option<int>)

  /** `src/documents/documents.entity.ts`: four nullable owner columns. */
  datatype Document = Document(
    id: int,
    filePath: string,
    originalFileName: Option<string>,
    fileSize: Option<int>,
    mimeType: Option<string>,
    uploadDate: int,
    eventId: Option<int>,
    demandeId: Option<int>,
    authorizationId: Option<int>,
    commentId: Option<int>)

  /** The argument of `MailerService.sendMail` as the services build it. */
  datatype MailRequest = MailRequest(
    to: string,
    subject: string,
    templatePath: string,
    context: map<string, string>)

  /** A row returned with its `createdBy` relation after the service deleted
      the two password properties from it. */
  datatype WithCreator<T> = WithCreator(record: T, createdBy: PublicUser)

  /** A row returned with its `createdBy` relation as loaded. `documentMapping`
      does not strip a nested user: the relation carries no `@Type`, so
      `plainToClass` leaves it a plain object with every column. */
  datatype Joined<T> = Joined(record: T, createdBy: User)
}
