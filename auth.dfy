/** `AuthService`: the credential check, the login response, and the
    password-reset mail and token. JWT signing and verification are
    parameters; bcrypt is `Compare`/`Hashed`. */
module AuthService {
  import opened Common
  import opened Entities
  import opened Repository

  const AccountLocked := "Your account is locked."
  const InvalidCredentials := "Invalid credentials"

  /** `validateUser` on a snapshot of the repository: a locked account is
      refused before its password is compared; an unknown email and a wrong
      password give the same error. */
  function ValidateUser(s: DbState, email: string, password: string): (r: Result<User>)
    requires ValidState(s)
    ensures r.Ok? <==> FindUserByEmail(s, email).Some? && !FindUserByEmail(s, email).value.locked
                       && Compare(password, FindUserByEmail(s, email).value.password)
    ensures r.Ok? ==> r.value.id in s.users && s.users[r.value.id] == r.value && r.value.email == email
    ensures FindUserByEmail(s, email).Some? && FindUserByEmail(s, email).value.locked ==> r == Err(Unauthorized(AccountLocked))
    ensures r.Err? && r.error != Unauthorized(AccountLocked) ==> r.error == Unauthorized(InvalidCredentials)
  {
    FindUserByEmailComplete(s, email);
    var user := FindUserByEmail(s, email);
    if user.Some? && user.value.locked then Err(Unauthorized(AccountLocked))
    else if user.None? then Err(Unauthorized(InvalidCredentials))
    else if !Compare(password, user.value.password) then Err(Unauthorized(InvalidCredentials))
    else Ok(user.value)
  }

  /** The JWT claims of both login tokens. */
  datatype TokenPayload = TokenPayload(email: string, sub: int, role: string)

  /** The `user` part of the login response. */
  datatype LoginUser = LoginUser(id: int, email: string, firstName: string, lastName: string)

  datatype LoginResponse = LoginResponse(accessToken: string, refreshToken: string, user: LoginUser)

  /** `login`: both tokens carry the same claims; the access token expires
      after the configured `JWT_EXPIRATION`, the refresh token after 7 days.
      `sign(payload, expiresIn)` is `jwtService.sign`. */
  function Login(user: User, sign: (TokenPayload, Option<string>) -> string, jwtExpiration: Option<string>): (r: LoginResponse)
    ensures r.accessToken == sign(TokenPayload(user.email, user.id, user.role), jwtExpiration)
    ensures r.refreshToken == sign(TokenPayload(user.email, user.id, user.role), Some("7d"))
    ensures r.user == LoginUser(user.id, user.email, user.firstName, user.lastName)
  {
    var payload := TokenPayload(user.email, user.id, user.role);
    LoginResponse(sign(payload, jwtExpiration), sign(payload, Some("7d")),
                  LoginUser(user.id, user.email, user.firstName, user.lastName))
  }

  /** The claims issued after a successful credential check name a stored,
      unlocked user with that email, and that user's role. */
  lemma LoginNamesValidatedUser(s: DbState, email: string, password: string,
                                sign: (TokenPayload, Option<string>) -> string, jwtExpiration: Option<string>)
    requires ValidState(s) && ValidateUser(s, email, password).Ok?
    ensures var r := Login(ValidateUser(s, email, password).value, sign, jwtExpiration);
            exists p :: r.accessToken == sign(p, jwtExpiration)
                        && p.sub in s.users && s.users[p.sub].email == email
                        && s.users[p.sub].role == p.role && !s.users[p.sub].locked
  {
    var u := ValidateUser(s, email, password).value;
    var p := TokenPayload(u.email, u.id, u.role);
    assert Login(u, sign, jwtExpiration).accessToken == sign(p, jwtExpiration);
  }

  const ResetSubject := "Password Reset Request"
  const ResetTemplate := "mailer/templates/reset-password-template.html"

  /** `forgotPassword`: one reset mail to a known address, carrying a token
      for the user's id; `signReset(id)` is the 15-minute `jwtService.sign`
      of `{ id }`. The mail is awaited, so it is requested before the
      response. */
  method ForgotPassword(db: Db, email: string, signReset: int -> string) returns (r: Result<string>)
    requires db.Valid()
    modifies db
    ensures db.Valid()
    ensures FindUserByEmail(old(db.State()), email).None? ==>
              r == Err(NotFound("User not found")) && db.State() == old(db.State())
    ensures FindUserByEmail(old(db.State()), email).Some? ==>
              var u := FindUserByEmail(old(db.State()), email).value;
              && r == Ok("Reset password email sent")
              && db.State() == old(db.State()).(outbox := old(db.outbox) + [ResetMail(email, u, signReset(u.id))])
  {
    var user := FindUserByEmail(db.State(), email);
    if user.None? {
      return Err(NotFound("User not found"));
    }
    ghost var s := db.State();
    var token := signReset(user.value.id);
    db.outbox := db.outbox + [ResetMail(email, user.value, token)];
    r := Ok("Reset password email sent");
    assert db.State() == s.(outbox := s.outbox + [ResetMail(email, user.value, token)]);
  }

  /** The request `forgotPassword` hands to the mailer. */
  function ResetMail(email: string, u: User, token: string): (m: MailRequest)
    ensures m.to == email && m.subject == ResetSubject && m.templatePath == ResetTemplate
    ensures m.context.Keys == {"name", "resetToken"}
    ensures m.context["name"] == u.firstName && m.context["resetToken"] == token
  {
    MailRequest(email, ResetSubject, ResetTemplate, map["name" := u.firstName, "resetToken" := token])
  }

  const InvalidToken := "Invalid or expired token"

  /** `resetPassword`: `verify(token)` is the `id` claim of a valid,
      unexpired token. A bad token and an unknown user are both folded into
      the same BadRequest. Only the password column changes. */
  method ResetPassword(db: Db, token: string, newPassword: string, verify: string -> Option<int>) returns (r: Result<string>)
    requires db.Valid()
    modifies db
    ensures db.Valid()
    ensures (verify(token).None? || verify(token).value !in old(db.users)) ==>
              r == Err(BadRequest(InvalidToken)) && db.State() == old(db.State())
    ensures verify(token).Some? && verify(token).value in old(db.users) ==>
              var id := verify(token).value;
              && r == Ok("Password successfully reset")
              && db.State() == old(db.State()).(users := old(db.users)[id := old(db.users)[id].(password := Hashed(newPassword))])
  {
    var decoded := verify(token);
    if decoded.None? || decoded.value !in db.users {
      return Err(BadRequest(InvalidToken));
    }
    ghost var s := db.State();
    var id := decoded.value;
    var u := db.users[id].(password := Hashed(newPassword));
    db.users := db.users[id := u];
    r := Ok("Password successfully reset");
    assert db.State() == s.(users := s.users[id := u]);
    ReplaceUserKeepsValid(s, u);
  }

  /** Changing one user's password does not change which row an email
      lookup finds. */
  lemma {:induction false} LookupAfterPasswordChange(m: map<int, User>, id: int, password: Secret, email: string, lo: int, hi: int)
    requires id in m && forall k :: k in m ==> m[k].id == k
    ensures var m' := m[id := m[id].(password := password)];
            UserByEmail(m', email, lo, hi) ==
              match UserByEmail(m, email, lo, hi)
              case None => None
              case Some(x) => Some(if x.id == id then m'[id] else x)
    decreases hi - lo
  {
    if lo < hi {
      LookupAfterPasswordChange(m, id, password, email, lo + 1, hi);
    }
  }

  /** After a reset, the user signs in with the new password, provided the
      account is not locked and no earlier row has the same email. */
  lemma ResetThenValidate(s: DbState, id: int, newPassword: string)
    requires ValidState(s) && id in s.users && !s.users[id].locked
    requires FindUserByEmail(s, s.users[id].email) == Some(s.users[id])
    ensures var t := s.(users := s.users[id := s.users[id].(password := Hashed(newPassword))]);
            ValidState(t) && ValidateUser(t, s.users[id].email, newPassword).Ok?
  {
    var u := s.users[id].(password := Hashed(newPassword));
    var t := s.(users := s.users[id := u]);
    ReplaceUserKeepsValid(s, u);
    LookupAfterPasswordChange(s.users, id, Hashed(newPassword), u.email, 1, s.nextUserId);
    assert FindUserByEmail(t, u.email) == Some(u);
  }
}
