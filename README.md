# Municipality requests back end: a verified model of its service rules

The back end lets citizens and organisations submit events, demandes and
authorizations. They comment on them and attach documents, and administrators
accept or reject them. This project models the rules in the NestJS services
behind that workflow, stated against an in-memory repository, and proves
properties about them.

- **Repository** (`repository.dfy`). The class `Db` holds one `map<int, _>`
  per table (users, events, demandes, authorizations, comments, documents).
  - Each table has an auto-increment counter, as `@PrimaryGeneratedColumn`
    provides.
  - `files` is a map from path to bytes, for the blob store that `saveFile`
    writes.
  - `outbox` is the sequence of mail requests handed to
    `MailerService.sendMail`.
  - `Db.Valid()` is the invariant every operation keeps: keys lie in
    `[1, next)`, every row's id is its key, and every foreign key that the
    entity files declare with `@ManyToOne` points at an existing row.
  - A delete that would break a foreign key fails as MySQL does
    (`ForeignKeyViolation`) and changes nothing.
- **Request workflow** (`events.dfy`, `demandes.dfy`, `authorizations.dfy`).
  - Creation stamping.
  - The `Object.assign` partial-update merge.
  - The status guard on deletion: ACCEPTED or REJECTED blocks it.
  - The status-change mail of `updateEvent`.
  - `findOne`.
  - `findAll`: `andWhere` criteria built step by step, then paginated.
- **Document attachment** (`documents.dfy`).
  - The `entityType` dispatch to one of four owner foreign keys.
  - The stored file name `<timestamp>-<originalname>`.
  - The upload's order of effects.
  - `getDocumentsByEntity`.
- **Comments** (`comments.dfy`).
  - Creation with independently checked, optional owner references.
  - The `where` object of `findAll`, and update or delete through `findOne`.
- **Users and authentication** (`users.dfy`, `auth.dfy`, `seed.dfy`).
  - Password-change rules and admin creation.
  - The profile-photo data URI: RFC 2397 around base64 as in section 4 of
    RFC 4648 (`datauri.dfy`, `base64.dfy`).
  - The order of credential checks at login, and the token payload.
  - The forgot and reset password flows.
  - The idempotent role seed.
- **Pure helpers.**
  - Mail template `{{key}}` substitution and `from`/`html` defaulting
    (`mailer.dfy`).
  - The MySQL errno to HTTP response mapping, with its key, value, column and
    table extraction (`exception_filter.dfy`).
  - The `MaxTotalFileSize` validator (`total_file_size.dfy`).
  - Pagination arithmetic (`pagination.dfy`).
- **Abstractions.**
  - bcrypt becomes `Secret = Hashed(plain) | Plain(text)`, where
    `compare(p, s)` holds iff `s == Hashed(p)`.
  - JWT signing and verification, template file reads and date formatting are
    function parameters.
  - `Date.now()` is an integer parameter.
  - A mail "sent" is a request appended to `outbox`.

Services that change state are methods on `Db` with `modifies db`. Each one's
`ensures` gives the whole new state, `db.State()`, for every outcome, error
outcomes included. Queries and pure helpers are functions. Lemmas relate them
to reference predicates.

## Model

| member | source | states |
|---|---|---|
| EventService.MergeEvent | src/event/event.service.ts:69 | patch fields replace the stored ones; id and creator are kept; the status is the patch's when present, else the old one |
| EventService.MergeIdempotent | src/event/event.service.ts:69 | applying the same patch twice is applying it once |
| EventService.RecipientName | src/event/event.service.ts:87 | the greeting is `firstName` when non-empty, else `' '`; `lastName` never appears |
| EventService.StatusChangeMails | src/event/event.service.ts:77-94 | at most one mail, sent iff the patch sets ACCEPTED or REJECTED, whatever the previous status; it goes to the creator's email, with the template and subject fixed, exactly five context keys: `name` is the recipient name (`firstName`, else `' '`), `eventName`, `status`, `eventLocation` and the formatted `eventDate` come from the merged event |
| EventService.CreateEvent | src/event/event.service.ts:30-55 | a missing user gives an error and no change; otherwise a PENDING event with the next id and `createdByUserId` = user is inserted, and it is returned with the creator stripped of password fields |
| EventService.UpdateEvent | src/event/event.service.ts:57-98 | an unknown id gives NotFound, no save and no mail; otherwise the merged event replaces the row and the outbox grows by exactly the status-change mail; nothing else changes |
| EventService.DeleteEvent | src/event/event.service.ts:100-119 | unknown id gives NotFound; ACCEPTED or REJECTED gives BadRequest with the row kept; a referenced row gives the foreign-key error; otherwise only that event is removed |
| EventService.FindOne | src/event/event.service.ts:121-131 | Ok iff the id is stored, returning that row; NotFound otherwise |
| EventService.Criteria | src/event/event.service.ts:152-158 | the `andWhere` conditions built hold for an event iff the truthy filters all match it (name substring, status, type, creator equality) |
| EventService.MatchingExactly | src/event/event.service.ts:133-160 | an event is selected iff it is stored and matches the filters |
| EventService.FindAll | src/event/event.service.ts:133-170 | the result is the matching events paginated with the DTO defaults, and every returned event is stored and matches |
| DemandeService.MergeDemande | src/demande/demande.service.ts:104-113 | the patch replaces present fields; id, creator and date are kept; status taken from the patch when present |
| DemandeService.CreateDemande | src/demande/demande.service.ts:27-52 | a missing user gives an error and no change; otherwise a PENDING demande dated `now` with `createdByUserId` = user is inserted and returned with a password-free creator |
| DemandeService.UpdateDemande | src/demande/demande.service.ts:95-114 | unknown id gives NotFound and no change; otherwise only the merged row changes, and the outbox is untouched even when the status changes |
| DemandeService.DeleteDemande | src/demande/demande.service.ts:116-135 | NotFound, BadRequest for a terminal status (row kept), foreign-key error, or removal of exactly that demande |
| DemandeService.FindOne | src/demande/demande.service.ts:137-148 | Ok iff the id is stored, with the stored row and exactly the stored user row of its creator; NotFound otherwise |
| DemandeService.Criteria | src/demande/demande.service.ts:75-81 | the conditions hold iff the truthy filters all match: name substring, status, type, and the creator id equal to MySQL's numeric reading of the raw `createdByUserId` text |
| DemandeService.CreatorTextSelectsCreator | src/demande/demande.service.ts:78-81 | the decimal text of a user id selects exactly that user's demandes, with the other filters unchanged |
| DemandeService.ZeroCreatorTextSelectsNothing | src/demande/demande.service.ts:78-81 | the text `"0"` is truthy, so the filter applies, and it selects no demande |
| DemandeService.MatchingExactly | src/demande/demande.service.ts:54-83 | a joined row is selected iff its demande is stored, it carries that demande's creator and it matches |
| DemandeService.UserRoleIgnored | src/demande/demande.service.ts:54-81 | the destructured `userRole` filter never changes the selection |
| DemandeService.FindAll | src/demande/demande.service.ts:54-93 | matching rows paginated; every returned row is stored and matches |
| AuthorizationService.MergeAuthorization | src/authorization/authorization.service.ts:115-125 | the patch replaces present fields; id, creator and the three dates are kept; status from the patch when present |
| AuthorizationService.CreateAuthorization | src/authorization/authorization.service.ts:25-51 | a missing user gives an error and no change; otherwise a PENDING row with `creation_date` = now and the creator is inserted and returned without password fields |
| AuthorizationService.UpdateAuthorization | src/authorization/authorization.service.ts:106-126 | unknown id gives NotFound and no change; otherwise only the merged row changes, with no mail |
| AuthorizationService.DeleteAuthorization | src/authorization/authorization.service.ts:128-147 | NotFound, BadRequest for a terminal status (row kept), foreign-key error, or removal of exactly that record |
| AuthorizationService.FindOne | src/authorization/authorization.service.ts:149-158 | Ok iff the id is stored, returning that row; NotFound otherwise |
| AuthorizationService.OwnerCriteria | src/authorization/authorization.service.ts:77-84 | the owner conditions hold iff name substring, status, creator id and creator role all match where truthy |
| AuthorizationService.DateCriteria | src/authorization/authorization.service.ts:85-92 | the date conditions hold iff `start_date >=`, `end_date <=` and `creation_date` equality hold where given |
| AuthorizationService.Criteria | src/authorization/authorization.service.ts:77-92 | all conditions together hold iff owner and date filters both match |
| Tables.AllHoldSnoc | src/event/event.service.ts:152-158 | one more `andWhere` call conjoins its condition |
| Tables.AllHoldAppend | src/authorization/authorization.service.ts:77-92 | two chains of `andWhere` calls one after the other conjoin |
| AuthorizationService.MatchingExactly | src/authorization/authorization.service.ts:53-94 | a joined row is selected iff its record is stored, it carries that record's creator and it matches |
| AuthorizationService.RoleFilterUsesCreator | src/authorization/authorization.service.ts:84 | under a `userRole` filter every selected record's creator has that role |
| AuthorizationService.FindAll | src/authorization/authorization.service.ts:53-104 | matching rows paginated, page returned as given; every returned row is stored and matches |
| DocumentService.ParseOwnerKind | src/documents/document.service.ts:56-85 | an owner kind is recognised iff the string is exactly `event`, `demande`, `authorization` or `comment` |
| DocumentService.KindNameRoundTrip | src/documents/document.service.ts:56-85 | parsing and naming owner kinds are inverse |
| DocumentService.StoredFileName | src/documents/document.service.ts:39 | for a non-negative clock the leading digits of the stored name spell the timestamp, and the name ends with a dash and the original name |
| DocumentService.StoredFileNameInjective | src/documents/document.service.ts:39 | distinct (timestamp, original name) pairs give distinct stored names |
| DocumentService.NewDocument | src/documents/document.service.ts:88-110 | the new document has the saved path and `uploadDate` = now; name, size and MIME type stay unset; exactly the owner pair of the given kind is set, to the entity id |
| DocumentService.UploadDocument | src/documents/document.service.ts:47-113 | the file is written first, in every outcome; an unknown type gives BadRequest "Invalid entity type"; a missing owner gives NotFound naming kind and id; in those cases no document row is added; otherwise exactly one new document is inserted; no size check anywhere |
| DocumentService.SaveDocument | src/documents/document.service.ts:112 | the new document is inserted under the next id and nothing else changes |
| DocumentService.ListingExactly | src/documents/document.service.ts:115-121 | a document is listed iff it is stored and its owner id of that kind equals the id |
| DocumentService.DocumentsByEntity | src/documents/document.service.ts:115-121 | Ok iff the type names an owner column, listing exactly the documents whose `<type>Id` is the id; otherwise the unknown-property error |
| DocumentService.UploadedListedUnderItsOwner | src/documents/document.service.ts:93-121 | a document that an upload creates is then listed under its owner |
| CommentService.CreateComment | src/comment/comment.service.ts:28-78 | a missing user fails before any owner check; the event, demande and authorization references are checked in that order, the first missing one gives NotFound; on every failure nothing changes; otherwise a comment with the caller as author and the given text is inserted |
| CommentService.SaveComment | src/comment/comment.service.ts:77 | the comment is inserted under the next id and nothing else changes |
| CommentService.FindOne | src/comment/comment.service.ts:123-134 | Ok iff the id is stored, with the stored row and exactly the stored user row of its author; otherwise NotFound naming the id |
| CommentService.UpdateComment | src/comment/comment.service.ts:136-145 | unknown id gives NotFound and no change; otherwise only the merged comment changes |
| CommentService.DeleteComment | src/comment/comment.service.ts:147-151 | unknown id gives NotFound and no change; a referenced comment gives the foreign-key error; otherwise exactly that comment is removed |
| CommentService.WhereAdd | src/comment/comment.service.ts:98-102 | adding a column to the `where` object adds one equality conjunct |
| CommentService.BuildWhere | src/comment/comment.service.ts:98-102 | each of the four columns is present iff its filter is truthy, and the map holds for a comment iff every truthy filter matches |
| CommentService.MatchingExactly | src/comment/comment.service.ts:104-110 | a joined row is selected iff its comment is stored, carries its author and matches the filters |
| CommentService.FindAll | src/comment/comment.service.ts:80-121 | matching rows newest-first, paginated with the defaults, `limit` echoed; every returned row is stored and matches |
| UserService.NewUserRow | src/users/user.service.ts:29-34 | the stored password is the hash of the given one and `previousPassword` is that same hash; the row is unlocked |
| UserService.Create | src/users/user.service.ts:29-36 | exactly that row is inserted under the next id; the result has no password fields |
| UserService.FindOne | src/users/user.service.ts:93-99 | Ok iff the id is stored, returning the password-free row; NotFound otherwise |
| UserService.PasswordChange | src/users/user.service.ts:111-137 | no password gives no change; a password without `previousPassword`, a `previousPassword` not matching the stored hash, or a password equal to the current one gives Conflict; otherwise the new hash |
| UserService.ChangedPasswordReplacesOld | src/users/user.service.ts:126-136 | an accepted change stores a hash that the new password matches and the old password does not |
| UserService.Assign | src/users/user.service.ts:139 | only `password` is hashed; `previousPassword` and every other present field are copied as given; id and `createdAt` kept |
| UserService.AssignLaws | src/users/user.service.ts:139 | an empty DTO changes nothing, and assigning twice equals assigning once |
| UserService.Update | src/users/user.service.ts:101-142 | unknown id gives NotFound; a conflict leaves the state unchanged; otherwise only that user is replaced by the assigned row |
| UserService.Remove | src/users/user.service.ts:144-147 | NotFound and no change for an unknown id; the foreign-key error for a referenced user; otherwise exactly that user is removed |
| UserService.NewAdminRow | src/users/user.service.ts:169-173 | the admin row carries the hashed password, the given email and role, and no previous password |
| UserService.CreateAdmin | src/users/user.service.ts:152-178 | a creator other than SUPER_ADMIN gives Unauthorized; an email in use gives BadRequest; both leave the state unchanged; otherwise one row is inserted and the result carries only id, email and role |
| UserService.AdminKeepsEmailsUnique | src/users/user.service.ts:166-173 | the email check keeps emails unique across users |
| UserService.UploadProfilePhoto | src/users/user.service.ts:180-194 | unknown id gives NotFound; otherwise only `profile_photo` changes, and parsing it as a data URI gives back the MIME type and the exact bytes |
| UserService.IdentityCriteria | src/users/user.service.ts:61-71 | the conditions hold iff firstName, lastName and email substrings and role equality match where truthy |
| UserService.ProfileCriteria | src/users/user.service.ts:72-76 | the conditions hold iff birthDate, cin and idAssociation equality and job substring match where truthy |
| UserService.Criteria | src/users/user.service.ts:61-76 | all conditions hold iff both groups match |
| UserService.MatchingExactly | src/users/user.service.ts:38-78 | a user is selected iff stored and matching |
| UserService.FindAll | src/users/user.service.ts:38-91 | matching users paginated; every returned user is stored and matches |
| AuthService.ValidateUser | src/auth/auth.service.ts:28-39 | a locked account is refused with "Your account is locked." whatever the password; otherwise success iff the user exists and the password matches, returning the stored user; every other failure is "Invalid credentials" |
| AuthService.Login | src/auth/auth.service.ts:41-58 | both tokens sign the payload `{email, sub: id, role}`, the refresh token for 7 days; the user part has only id, email, firstName, lastName |
| AuthService.LoginNamesValidatedUser | src/auth/auth.service.ts:28-58 | after a successful validation, login names that stored user |
| AuthService.ForgotPassword | src/auth/auth.service.ts:60-88 | an unknown email gives NotFound with no mail and no change; otherwise only the outbox grows, by the reset mail to that address |
| AuthService.ResetMail | src/auth/auth.service.ts:77-85 | the reset mail goes to the email and carries exactly `name` and `resetToken` |
| AuthService.ResetPassword | src/auth/auth.service.ts:90-107 | a bad token or a missing user both fold into BadRequest "Invalid or expired token" with no change; otherwise only that user's password becomes the hash of the new one |
| AuthService.ResetThenValidate | src/auth/auth.service.ts:28-39 | after a reset, credential validation accepts the new password for that email |
| Mailer.Lookup | src/mailer/mailer.service.ts:37 | the replacement is the empty text or one of the context's values |
| Mailer.Render | src/mailer/mailer.service.ts:36-38 | every character of the rendered text comes from the template or from a context value; with no non-empty value to substitute, the result is never longer than the template |
| Mailer.PlaceholderReplaced | src/mailer/mailer.service.ts:36-38 | a `{{key}}` with a word key becomes the context value, or `''` when the key or the whole context is missing, and rendering continues after it |
| Mailer.NoPlaceholderUnchanged | src/mailer/mailer.service.ts:36 | text with no well-formed placeholder is kept as is |
| Mailer.NoOpenerUnchanged | src/mailer/mailer.service.ts:36 | text without `{{` is kept as is |
| Mailer.SpacedPlaceholderKept | src/mailer/mailer.service.ts:36 | `{{ name }}` is not a placeholder and is left untouched |
| Mailer.EmptyPlaceholderKept | src/mailer/mailer.service.ts:36 | `{{}}` is left untouched |
| Mailer.SinglePass | src/mailer/mailer.service.ts:36-38 | substituted values are not rescanned |
| Mailer.DefaultFromUnconfigured | src/mailer/mailer.service.ts:44-47 | without configuration the sender is `"Default Name" <noreply@example.com>` |
| Mailer.DefaultFrom | src/mailer/mailer.service.ts:44-47 | the sender is `"name" <email>`, the name and the address each taken from their own setting or their own fallback |
| Mailer.ComposeMail | src/mailer/mailer.service.ts:23-54 | fails iff a template path is given and reading it fails, with "Failed to read email template: …"; `from` is the given one or the default; an explicit `html` wins, else the rendered template, else none |
| Mailer.QueuedMailComposed | src/mailer/mailer.service.ts:32-53 | a request queued by a service (template and context, no `from` or `html`) becomes a mail from the default sender whose body is the rendered template, or fails with the read error |
| ExceptionFilter.CreateErrorResponse | src/utils/exception-filter.ts:41-112 | 409 iff errno is 1062, 1451 or 1452; 400 iff 1054, 1364 or 1406; 500 otherwise, with "Database error: " plus the code name or "Unknown error", and the detail only in development |
| ExceptionFilter.DuplicateEntryResponse | src/utils/exception-filter.ts:48-56 | for a MySQL duplicate-entry message the response names the formatted key and quotes the value |
| ExceptionFilter.KeyFound | src/utils/exception-filter.ts:114-125 | the `for key '` pattern captures the key of such a message |
| ExceptionFilter.MatchAtStart | src/utils/exception-filter.ts:114-125 | the lazy `'(.+?)'` pattern captures up to the first closing quote after at least one character |
| ExceptionFilter.ExtractDuplicatedKey | src/utils/exception-filter.ts:114-125 | `column` is the leftmost capture after `for key '`, and `value` the leftmost capture after `Duplicate entry '`, each 'unknown' when no position yields a capture |
| ExceptionFilter.FirstMatch | src/utils/exception-filter.ts:116-117 | a match is the capture at the leftmost position where the opener occurs and a capture follows; no match means no position yields a capture |
| ExceptionFilter.FormatColumnName | src/utils/exception-filter.ts:127-136 | an `IDX_` name reads "unique constraint"; any other name loses one `UQ_` or `FK_` prefix and has each `_` turned into a space and each letter lower-cased |
| ExceptionFilter.FormatColumnNameLaws | src/utils/exception-filter.ts:127-136 | the formatted name holds no `_`, and formatting it again changes nothing |
| ExceptionFilter.SplitLowerJoin | src/utils/exception-filter.ts:132-135 | split on `_`, lowercase each word, join with spaces is the same as mapping `_` to space and lowercasing |
| ExceptionFilter.SpacedFixed | src/utils/exception-filter.ts:127-136 | a name already lowercase with no `_` is returned unchanged |
| ExceptionFilter.ConstraintMessageNamesTable | src/utils/exception-filter.ts:138-142 | the sentence names the table after the first ``REFERENCES ` `` |
| ExceptionFilter.ConstraintMessageFallback | src/utils/exception-filter.ts:138-142 | with no ``REFERENCES ` `` the sentence names 'referenced' |
| ExceptionFilter.FormatConstraintMessage | src/utils/exception-filter.ts:138-142 | the fixed sentence ending in a quoted table: the leftmost capture after ``REFERENCES ` ``, or 'referenced' when no position yields one |
| TotalFileSize.Validate | src/common/decorators/total-file-size.decorator.ts:19-24 | a missing value is valid; a list is valid iff the sum of sizes, missing ones counted as 0, is at most maxSizeInMB·1024·1024, the bound included |
| TotalFileSize.TotalAppend | src/common/decorators/total-file-size.decorator.ts:20-23 | the total of a concatenation is the sum of the totals |
| TotalFileSize.TotalPermutation | src/common/decorators/total-file-size.decorator.ts:20-23 | reordering the documents does not change the total |
| TotalFileSize.ValidateOrderIndependent | src/common/decorators/total-file-size.decorator.ts:20-24 | validity does not depend on order |
| TotalFileSize.RemoveKeepsValid | src/common/decorators/total-file-size.decorator.ts:20-24 | removing a document of non-negative size from a valid list keeps it valid |
| TotalFileSize.DefaultMessage | src/common/decorators/total-file-size.decorator.ts:26-28 | the message starts with "Total file size cannot exceed " and ends in "MB" |
| TotalFileSize.DefaultMessageInjective | src/common/decorators/total-file-size.decorator.ts:26-28 | the message "Total file size cannot exceed <n>MB" determines n |
| UserRoleSeed.Seed | src/seeds/user-role.seed.ts:25-47 | the loop takes the state to the reference fold over the six roles in order |
| UserRoleSeed.SeedKeepsValid | src/seeds/user-role.seed.ts:25-47 | seeding keeps the repository invariant |
| UserRoleSeed.SeedKeepsExistingUsers | src/seeds/user-role.seed.ts:27-31 | every user already stored is still stored and unmodified |
| UserRoleSeed.SeedCoversRoles | src/seeds/user-role.seed.ts:16-26 | afterwards every role's `lowercase(role)@example.com` user exists |
| UserRoleSeed.SeedTwiceAddsNothing | src/seeds/user-role.seed.ts:25-47 | a second seed, at any time, leaves the state as the first left it |
| UserRoleSeed.SeededNewUsers | src/seeds/user-role.seed.ts:32-45 | every added user has a fresh id and is the seed row of one role at its list index |
| UserRoleSeed.SeedNewUserProfile | src/seeds/user-role.seed.ts:32-45 | an added user has a fresh id, the email and role of one role of the list and phone `123456789<index>` for its index, the hash of 'password' as password and as `previousPassword`, and `locked` false |
| UserRoleSeed.SeededKeepsEmailsUnique | src/seeds/user-role.seed.ts:27-45 | seeding keeps emails unique |
| UserRoleSeed.FoundIffHasEmail | src/seeds/user-role.seed.ts:27-29 | the lookup by email finds a user iff one has that email |
| Pagination.TotalPages | src/event/event.service.ts:162 | the page count is the ceiling: total ≤ pages·limit, and pages−1 full pages hold fewer than total rows |
| Pagination.RowOnPage | src/event/event.service.ts:164-165 | with skip = (page−1)·limit, row k lies in page k/limit + 1 and in no other page |
| Pagination.PageNonEmptyIffWithinTotal | src/demande/demande.service.ts:85-92 | a page starts inside the rows iff its number is at most the page count |
| Pagination.Paginate | src/comment/comment.service.ts:104-120 | the page is the window of `limit` rows after skipping (page−1)·limit of the matches, in ascending order or reversed for DESC; total and page echoed; non-empty iff page ≤ totalPages |
| Pagination.RowInItsPage | src/authorization/authorization.service.ts:96-103 | every matching row appears on its page |
| DataUri.ParseBuild | src/users/user.service.ts:190 | the `data:<type>;base64,<data>` URI parses back to the type and the encoded data |
| Base64.Encode | src/users/user.service.ts:189 | the encoding has length 4·⌈n/3⌉ and uses only the alphabet and padding |
| Base64.EncodeTestVectors | src/users/user.service.ts:189 | the encoding agrees with the seven test vectors of section 10 of RFC 4648, from `""` to `Zm9vYmFy` |
| Base64.DecodeEncode | src/users/user.service.ts:189 | decoding the encoding gives back the bytes |
| Repository.FindUserByEmailComplete | src/users/user.service.ts:149-151 | the lookup by email finds a stored user with that email iff one exists |
| Repository.InsertCommentKeepsValid | src/comment/comment.entity.ts:28-52 | inserting a comment whose author and owners exist keeps the invariant |
| Repository.InsertDocumentKeepsValid | src/documents/documents.entity.ts:35-59 | inserting a document whose owner references exist keeps the invariant |
| Repository.RemoveEventKeepsValid | src/event/event.entity.ts:45-56 | removing an event no comment or document references keeps the invariant |
| Repository.RemoveUserKeepsValid | src/users/user.entity.ts:17 | removing a user no row references keeps the invariant |

## Left out

- `sortBy` columns other than `id` are not modelled. Rows come back in ascending key order, and DESC reverses that order. Comments use `createdAt DESC`, modelled as reversed key order, which matches insertion order.
- String comparison is exact. `LIKE '%x%'` is a case-sensitive substring test, with no `%` or `_` wildcards inside the filter value. The `=` filters on status, type and role are exact equality, and so is the email lookup behind `validateUser`, `forgotPassword`, `createAdmin` and the seed. MySQL's default collation, and the `utf8_general_ci` columns of the demande and authorization entities, compare case-insensitively.
- `DemandeService.Criteria`: MySQL's conversion of the `createdByUserId` text to a number is read as the value of its leading decimal digits, 0 when there are none. Leading spaces, a sign, a fraction and an exponent are not modelled.
- Unique constraints (email, phone number, cin, idAssociation) and NOT NULL columns are not enforced by `Db`. The only uniqueness fact modelled is the email check of `createAdmin` and the seed. NOT NULL columns without a default have consequences. `uploadDocument` never sets `originalFileName` (src/documents/documents.entity.ts:22-23). `createAdmin` sets neither `previousPassword` (src/users/user.entity.ts:34-35) nor `job` (src/users/user.entity.ts:58-59). Under MySQL's default strict `sql_mode`, those inserts fail with errno 1364, which the exception filter answers with 400 "Missing required field". `profile_photo` is NOT NULL without a default (src/users/user.entity.ts:61-62), yet optional in `CreateUserDto` (src/users/dto/create-user.dto.ts:51-53) and `CreateAdminDto` (src/users/dto/create-admin.dto.ts:40-42). `UserService.Create` and `UserService.CreateAdmin` without a photo store `None` in the model, where the source fails with errno 1364. `location` is optional in the event and demande create DTOs (src/event/dto/create-event.dto.ts:16-17, src/demande/dto/create-demande.dto.ts:10-11). So are `description`, `location`, `start_date` and `end_date` in the authorization create DTO (src/authorization/dto/create-authorization.dto.ts:8-18). All of them map to NOT NULL columns. The model's `NewEvent`, `NewDemande` and `NewAuthorization` make these fields mandatory, so an omitted field, which fails with errno 1364 in the source, has no counterpart. Under MySQL's default strict `sql_mode`, these inserts fail with errno 1364, which the exception filter answers with 400 "Missing required field". The success paths of `DocumentService.UploadDocument`, `UserService.Create` and `UserService.CreateAdmin` therefore describe a server running without strict mode.
- A delete that MySQL refuses for a foreign key returns `ForeignKeyViolation`, the error the exception filter produces for errno 1451. The repository call raising it is not modelled.
- `createAdmin`'s second guard, at src/users/user.service.ts:157-164, can never fire after the first. It has no branch in the model.
- bcrypt salts and cost, JWT signing and expiry, the nodemailer transport, the real file system (`mkdir`, path normalisation) and `Date.now()` are left out. They are parameters, `outbox` or `files`.
- The mail request exists in the model; the fact that it is not awaited does not. `UpdateEvent` puts it in `outbox` before the save. The model has no transport failure. In the source, `forgotPassword` awaits `sendMail` (src/auth/auth.service.ts:77), so a failure there is thrown to the caller. `updateEvent` does not await it (src/event/event.service.ts:82), so a rejection there, including "Failed to read email template", is an unhandled rejection, which by default ends the process on Node 15 and later.
- The base64 decoder exists only to state the round trip. It checks characters and padding, not the lenient decoding Node does.
- The template context is a `map<string, string>`, so the JavaScript `key in context` prototype lookup and `String(value)` of non-strings are not modelled.
- Lowercasing is ASCII only, both in `formatColumnName` and in the seed's emails.
- `UserService.UploadProfilePhoto`: column widths are not modelled. `profile_photo` is `varchar` with no length (src/users/user.entity.ts:61-62), and the schema is synchronised from the entities (src/app.module.ts:33), so the column is VARCHAR(255). A data URI longer than 255 characters, which is any photo above about 175 bytes, is rejected under strict `sql_mode` with errno 1406. The exception filter answers that with 400 "Data too long" (src/utils/exception-filter.ts:88-98). Without strict mode the value is truncated. In either case the round trip the contract states holds of the value written, not of a real photo as it is stored.
- `TotalFileSize.Validate`: `maxSizeInMB` is an integer and each `fileSize` an optional integer. A non-array value, NaN and fractional sizes are not modelled.
- `TotalFileSize.RemoveKeepsValid`: requires the removed size to be non-negative. The source does not reject negative sizes, and removing one can break validity.
- `ExceptionFilter.DuplicateEntryResponse`: stated only for values that hold no quote and no `for key '`. For other values the lazy pattern captures a different text, and the general function covers that case.
- `UserRoleSeed.Seed`: every seeded row gets the same `now`. The lemmas are stated for any role list, and `Seed` applies them to the six roles.
- Phone-number uniqueness of seeded users is not checked.
- The statistics service, the controllers (among them "No file uploaded"), the role guards, `documentMapping`'s JSON round trip, date formatting, the module wiring and the unregistered all-exceptions filter are not part of this model. Only their effect on returned users, the removal of password fields, is kept.
- Quota enforcement, document fetch, archive export and document deletion are not modelled. The services implement none of them: `uploadDocument` has no size check, and no delete or export method exists.
- `getDocumentsByEntity` with an unknown type is modelled as TypeORM's unknown-property error for `<type>Id`. The error text is approximated.
