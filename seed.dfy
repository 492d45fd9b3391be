/** `UserRoleSeed.seed`: one demo account per role, created only when no user
    has the role's email yet. The bcrypt hash of `'password'` is
    `Hashed("password")`; one clock reading `now` stands for the creation
    time of every row the run saves. */
module UserRoleSeed {
  import opened Common
  import opened Entities
  import opened Repository
  import UserService

  /** The roles, in the order `seed` walks them. */
  const Roles: seq<string> :=
    ["SUPER_ADMIN", "PERMISSION_ADMIN", "CONTESTATION_ADMIN", "DEMANDE_ADMIN", "CITIZEN", "ORGANIZATION"]

  /** `${role.toLowerCase()}@example.com`. */
  function SeedEmail(role: string): string {
    Lower(role) + "@example.com"
  }

  /** The user saved for the role at `index` of the list. */
  function SeedRow(id: int, role: string, index: nat, now: int): User {
    var name := Lower(role);
    User(id, name + "_first", name + "_last", SeedEmail(role), Hashed("password"), Some(Hashed("password")),
         role, "1990-01-01", Some("123456789" + NatToString(index)), None, None, Some("Job"),
         Some("profile_photo.png"), false, now)
  }

  /** The users table with its auto-increment counter: all that a run reads
      and writes. */
  datatype UserTable = UserTable(users: map<int, User>, nextId: int)

  function TableOf(s: DbState): UserTable {
    UserTable(s.users, s.nextUserId)
  }

  /** `findOne({ where: { email } })` on the table. */
  function Lookup(t: UserTable, email: string): Option<User> {
    UserByEmail(t.users, email, 1, t.nextId)
  }

  /** One iteration of the loop: look the email up, save a new user when it
      is not found. */
  function SeedStep(t: UserTable, roles: seq<string>, index: nat, now: int): UserTable
    requires index < |roles|
  {
    if Lookup(t, SeedEmail(roles[index])).Some? then t
    else UserTable(t.users[t.nextId := SeedRow(t.nextId, roles[index], index, now)], t.nextId + 1)
  }

  /** The table after the first `n` iterations. */
  function Seeded(t: UserTable, roles: seq<string>, n: nat, now: int): UserTable
    requires n <= |roles|
  {
    if n == 0 then t else SeedStep(Seeded(t, roles, n - 1, now), roles, n - 1, now)
  }

  /** The repository after a run over `roles`: only the users table and its
      counter change. */
  function AfterSeed(s: DbState, roles: seq<string>, now: int): DbState {
    var t := Seeded(TableOf(s), roles, |roles|, now);
    s.(users := t.users, nextUserId := t.nextId)
  }

  /** `seed()`. */
  method Seed(db: Db, now: int)
    requires db.Valid()
    modifies db
    ensures db.Valid()
    ensures db.State() == AfterSeed(old(db.State()), Roles, now)
  {
    ghost var start := db.State();
    var roles := Roles;
    for index := 0 to |roles|
      invariant TableOf(db.State()) == Seeded(TableOf(start), roles, index, now)
      modifies db`users, db`nextUserId
    {
      ghost var t := TableOf(db.State());
      var role := roles[index];
      var email := Lower(role) + "@example.com";
      var existing := FindUserByEmail(db.State(), email);
      assert existing == Lookup(t, SeedEmail(roles[index]));
      if existing.None? {
        var user := SeedRow(db.nextUserId, role, index, now);
        db.users := db.users[user.id := user];
        db.nextUserId := db.nextUserId + 1;
      }
      assert TableOf(db.State()) == SeedStep(t, roles, index, now);
    }
    SeedKeepsValid(start, roles, now);
  }

  /** Some user has the email. */
  predicate HasEmail(users: map<int, User>, email: string) {
    exists k :: k in users && users[k].email == email
  }

  /** The part of the repository invariant on the users table: keys lie in
      `[1, nextId)` and every row carries its key. */
  predicate Keyed(t: UserTable) {
    t.nextId >= 1 && forall k :: k in t.users ==> 1 <= k < t.nextId && t.users[k].id == k
  }

  /** The lookup finds a user exactly when one has the email. */
  lemma FoundIffHasEmail(t: UserTable, email: string)
    requires Keyed(t)
    ensures Lookup(t, email).Some? <==> HasEmail(t.users, email)
  {
    if Lookup(t, email).Some? {
      var k :| 1 <= k < t.nextId && k in t.users && t.users[k] == Lookup(t, email).value;
    }
  }

  /** Rows kept, and the counter not lowered, from one table to another. */
  predicate Grows(t: UserTable, u: UserTable) {
    t.nextId <= u.nextId && forall k :: k in t.users ==> k in u.users && u.users[k] == t.users[k]
  }

  /** An iteration keeps the rows and the keying of the table and leaves the
      role's email taken. */
  lemma SeedStepKeeps(t: UserTable, roles: seq<string>, index: nat, now: int)
    requires Keyed(t) && index < |roles|
    ensures Keyed(SeedStep(t, roles, index, now)) && Grows(t, SeedStep(t, roles, index, now))
    ensures HasEmail(SeedStep(t, roles, index, now).users, SeedEmail(roles[index]))
  {
    var email := SeedEmail(roles[index]);
    FoundIffHasEmail(t, email);
    if Lookup(t, email).None? {
      assert SeedStep(t, roles, index, now).users[t.nextId].email == email;
    }
  }

  /** After `n` iterations the old rows are kept and the table is still
      keyed. */
  lemma {:induction false} SeededGrows(t: UserTable, roles: seq<string>, n: nat, now: int)
    requires Keyed(t) && n <= |roles|
    ensures Keyed(Seeded(t, roles, n, now)) && Grows(t, Seeded(t, roles, n, now))
  {
    if n > 0 {
      SeededGrows(t, roles, n - 1, now);
      SeedStepKeeps(Seeded(t, roles, n - 1, now), roles, n - 1, now);
    }
  }

  lemma HasEmailGrows(t: UserTable, u: UserTable, email: string)
    requires Grows(t, u) && HasEmail(t.users, email)
    ensures HasEmail(u.users, email)
  {
    var k :| k in t.users && t.users[k].email == email;
    assert u.users[k].email == email;
  }

  /** After `n` iterations the email of each of the first `n` roles belongs
      to some user. */
  lemma {:induction false} SeededCovers(t: UserTable, roles: seq<string>, n: nat, now: int, i: nat)
    requires Keyed(t) && i < n <= |roles|
    ensures HasEmail(Seeded(t, roles, n, now).users, SeedEmail(roles[i]))
  {
    SeededGrows(t, roles, n - 1, now);
    var p := Seeded(t, roles, n - 1, now);
    SeedStepKeeps(p, roles, n - 1, now);
    if i < n - 1 {
      SeededCovers(t, roles, n - 1, now, i);
      HasEmailGrows(p, Seeded(t, roles, n, now), SeedEmail(roles[i]));
    }
  }

  /** A change of the users table that keeps its rows and its keying keeps
      the repository invariant. */
  lemma UsersGrowKeepsValid(s: DbState, t: UserTable)
    requires ValidState(s) && Keyed(t) && Grows(TableOf(s), t)
    ensures ValidState(s.(users := t.users, nextUserId := t.nextId))
  {
  }

  /** A run keeps the repository invariant. */
  lemma SeedKeepsValid(s: DbState, roles: seq<string>, now: int)
    requires ValidState(s)
    ensures ValidState(AfterSeed(s, roles, now))
  {
    SeededGrows(TableOf(s), roles, |roles|, now);
    UsersGrowKeepsValid(s, Seeded(TableOf(s), roles, |roles|, now));
  }

  /** An existing user is never modified by a run. */
  lemma SeedKeepsExistingUsers(s: DbState, roles: seq<string>, now: int, k: int)
    requires ValidState(s) && k in s.users
    ensures k in AfterSeed(s, roles, now).users && AfterSeed(s, roles, now).users[k] == s.users[k]
  {
    SeededGrows(TableOf(s), roles, |roles|, now);
  }

  /** After a run, `findOne` finds each role's email. */
  lemma SeedCoversRoles(s: DbState, roles: seq<string>, now: int, i: int)
    requires ValidState(s) && 0 <= i < |roles|
    ensures FindUserByEmail(AfterSeed(s, roles, now), SeedEmail(roles[i])).Some?
  {
    var t := Seeded(TableOf(s), roles, |roles|, now);
    SeededGrows(TableOf(s), roles, |roles|, now);
    SeededCovers(TableOf(s), roles, |roles|, now, i);
    FoundIffHasEmail(t, SeedEmail(roles[i]));
  }

  /** Iterations over a table in which every role's email is taken change
      nothing. */
  lemma {:induction false} SeededWhenAllPresent(t: UserTable, roles: seq<string>, n: nat, now: int)
    requires n <= |roles|
    requires forall i :: 0 <= i < |roles| ==> Lookup(t, SeedEmail(roles[i])).Some?
    ensures Seeded(t, roles, n, now) == t
  {
    if n > 0 {
      SeededWhenAllPresent(t, roles, n - 1, now);
    }
  }

  /** Running `seed` a second time changes nothing. */
  lemma SeedTwiceAddsNothing(s: DbState, roles: seq<string>, now: int, later: int)
    requires ValidState(s)
    ensures AfterSeed(AfterSeed(s, roles, now), roles, later) == AfterSeed(s, roles, now)
  {
    var s1 := AfterSeed(s, roles, now);
    forall i | 0 <= i < |roles| ensures Lookup(TableOf(s1), SeedEmail(roles[i])).Some? {
      SeedCoversRoles(s, roles, now, i);
    }
    SeededWhenAllPresent(TableOf(s1), roles, |roles|, later);
  }

  /** Every user a run adds is the demo profile of one of the roles, saved
      under a key at or above the old counter. */
  lemma {:induction false} SeededNewUsers(t: UserTable, roles: seq<string>, n: nat, now: int, k: int)
    requires Keyed(t) && n <= |roles|
    requires k in Seeded(t, roles, n, now).users && k !in t.users
    ensures t.nextId <= k
    ensures exists i :: 0 <= i < n && Seeded(t, roles, n, now).users[k] == SeedRow(k, roles[i], i, now)
  {
    if n > 0 {
      SeededGrows(t, roles, n - 1, now);
      var p := Seeded(t, roles, n - 1, now);
      SeedStepKeeps(p, roles, n - 1, now);
      if k in p.users {
        SeededNewUsers(t, roles, n - 1, now, k);
        var i :| 0 <= i < n - 1 && p.users[k] == SeedRow(k, roles[i], i, now);
        assert Seeded(t, roles, n, now).users[k] == SeedRow(k, roles[i], i, now);
      } else {
        assert Seeded(t, roles, n, now).users[k] == SeedRow(k, roles[n - 1], n - 1, now);
      }
    }
  }

  /** The demo profile of a user a run adds: the hash of `'password'` as both
      password and previous password, the email and phone number of its
      role's position, unlocked. */
  lemma SeedNewUserProfile(s: DbState, roles: seq<string>, now: int, k: int)
    requires ValidState(s)
    requires k in AfterSeed(s, roles, now).users && k !in s.users
    ensures var u := AfterSeed(s, roles, now).users[k];
            && u.id == k && k >= s.nextUserId
            && Compare("password", u.password) && u.previousPassword == Some(u.password)
            && !u.locked && u.createdAt == now
            && exists i :: 0 <= i < |roles| && u.email == SeedEmail(roles[i]) && u.role == roles[i]
                                           && u.phoneNumber == Some("123456789" + NatToString(i))
  {
    SeededNewUsers(TableOf(s), roles, |roles|, now, k);
  }

  /** An iteration keeps emails unique: a role whose email is taken is
      skipped. */
  lemma SeedStepKeepsEmailsUnique(t: UserTable, roles: seq<string>, index: nat, now: int)
    requires Keyed(t) && index < |roles| && UserService.EmailsUnique(t.users)
    ensures UserService.EmailsUnique(SeedStep(t, roles, index, now).users)
  {
    FoundIffHasEmail(t, SeedEmail(roles[index]));
  }

  /** A run keeps emails unique. */
  lemma {:induction false} SeededKeepsEmailsUnique(t: UserTable, roles: seq<string>, n: nat, now: int)
    requires Keyed(t) && n <= |roles| && UserService.EmailsUnique(t.users)
    ensures UserService.EmailsUnique(Seeded(t, roles, n, now).users)
  {
    if n > 0 {
      SeededKeepsEmailsUnique(t, roles, n - 1, now);
      SeededGrows(t, roles, n - 1, now);
      SeedStepKeepsEmailsUnique(Seeded(t, roles, n - 1, now), roles, n - 1, now);
    }
  }
}
