/** The user service (server/src/Cloudy.Infrastructure/Services/UserService.cs) over the
    `users` table, whose user names and e-mail addresses are each unique and at most 50
    and 100 characters long
    (server/src/Cloudy.Infrastructure/Data/Configurations/UserConfiguration.cs).

    A user is a record of id, user name, e-mail and password hash. The password hasher is
    two functions fixed when the service is created: `hashPassword` and `verifyPassword`. */
module UserAccounts {
  import opened Wrappers
  import opened Exceptions
  import opened Persistence

  datatype UserRow = UserRow(id: int, username: string, email: string, passwordHash: string)
  datatype UserDto = UserDto(id: int, username: string, email: string)
  datatype RegisterRequest = RegisterRequest(username: string, email: string, password: string)
  datatype LoginRequest = LoginRequest(usernameOrEmail: string, password: string)

  /** `PasswordVerificationResult`. */
  datatype Verification = Failed | Success | SuccessRehashNeeded

  const EMAIL_IN_USE: string := "Email already in use."

  function UserId(u: UserRow): int {
    u.id
  }

  function WithUserId(u: UserRow, id: int): UserRow {
    u.(id := id)
  }

  /** Users are not soft-deleted: every row is visible. */
  predicate Always(u: UserRow) {
    true
  }

  /** The lengths of the `Username` and `Email` columns. */
  const MAX_USERNAME: nat := 50
  const MAX_EMAIL: nat := 100

  predicate DistinctUsers(rows: seq<UserRow>) {
    forall i, j :: 0 <= i < j < |rows| ==> rows[i].username != rows[j].username && rows[i].email != rows[j].email
  }

  predicate FitsColumns(u: UserRow) {
    |u.username| <= MAX_USERNAME && |u.email| <= MAX_EMAIL
  }

  /** What the database checks of the `users` table at save: both unique indexes, and
      every user name and e-mail address within its column. */
  predicate UserConstraints(rows: seq<UserRow>) {
    DistinctUsers(rows) && forall i :: 0 <= i < |rows| ==> FitsColumns(rows[i])
  }

  ghost predicate Ready(t: Table<UserRow>)
    reads t
  {
    t.Valid()
    && (forall u :: t.idOf(u) == UserId(u))
    && (forall u, id :: t.withId(u, id) == WithUserId(u, id))
    && (forall u :: t.visible(u) == Always(u))
    && (forall rows :: t.constraints(rows) == UserConstraints(rows))
    && t.pending == map[] && t.added == [] && UserConstraints(t.rows)
  }

  method NewUserTable() returns (t: Table<UserRow>)
    ensures fresh(t) && Ready(t) && t.rows == [] && t.commits == 0
  {
    t := new Table(UserId, WithUserId, Always, UserConstraints);
  }

  function ToDto(u: UserRow): (d: UserDto)
    ensures d.id == u.id && d.username == u.username && d.email == u.email
  {
    UserDto(u.id, u.username, u.email)
  }

  /** `GetByEmailAsync(email)`: the row with that e-mail address. */
  function ByEmail(rows: seq<UserRow>, email: string): (r: Option<UserRow>)
    ensures r.None? <==> forall i :: 0 <= i < |rows| ==> rows[i].email != email
    ensures r.Some? ==> r.value in rows && r.value.email == email
  {
    if rows == [] then None
    else if rows[0].email == email then Some(rows[0])
    else ByEmail(rows[1..], email)
  }

  /** `GetByUsernameOrEmailAsync(input)`: a row whose user name or e-mail address is the
      input. The repository's query is not part of this model and names no order; this
      model takes the first match in id order, and its contract promises only some match. */
  function ByUsernameOrEmail(rows: seq<UserRow>, input: string): (r: Option<UserRow>)
    ensures r.None? <==> forall i :: 0 <= i < |rows| ==> rows[i].username != input && rows[i].email != input
    ensures r.Some? ==> r.value in rows && (r.value.username == input || r.value.email == input)
  {
    if rows == [] then None
    else if rows[0].username == input || rows[0].email == input then Some(rows[0])
    else ByUsernameOrEmail(rows[1..], input)
  }

  /** Under unique e-mail addresses, the row found by e-mail is the only one with it. */
  lemma {:induction false} ByEmailIsTheOne(rows: seq<UserRow>, i: int)
    requires DistinctUsers(rows) && 0 <= i < |rows|
    ensures ByEmail(rows, rows[i].email) == Some(rows[i])
  {
    if i > 0 {
      assert rows[0].email != rows[i].email;
      assert rows[1..][i - 1] == rows[i];
      ByEmailIsTheOne(rows[1..], i - 1);
    }
  }

  /** A newly registered user is found by their e-mail address, unless an earlier user has
      that address as user name. */
  lemma {:induction false} NewUserFoundByEmail(rows: seq<UserRow>, u: UserRow)
    requires forall i :: 0 <= i < |rows| ==> rows[i].username != u.email && rows[i].email != u.email
    ensures ByUsernameOrEmail(rows + [u], u.email) == Some(u)
  {
    if rows != [] {
      assert (rows + [u])[1..] == rows[1..] + [u];
      NewUserFoundByEmail(rows[1..], u);
    }
  }

  /** Two users can both match one login input: an earlier user whose user name is a later
      user's e-mail address. The lookup then returns one of them; with this model's
      first-in-id-order reading it is the earlier one, so the later user cannot log in by
      e-mail. */
  lemma UsernameShadowsEmail()
    ensures var earlier := UserRow(1, "bob@example.com", "bob@work.example", "h1");
            var later := UserRow(2, "bob", "bob@example.com", "h2");
            && UserConstraints([earlier, later])
            && earlier.username == later.email
            && ByUsernameOrEmail([earlier, later], "bob@example.com") == Some(earlier)
  {
  }

  class UserService {
    const users: Table<UserRow>
    /** `HashPassword(user, password)`; the hasher sees the user's name and e-mail. */
    const hashPassword: (UserRow, string) -> string
    /** `VerifyHashedPassword(user, hash, password)`. */
    const verifyPassword: (UserRow, string, string) -> Verification

    ghost predicate Valid()
      reads this, users
    {
      Ready(users)
    }

    constructor (users: Table<UserRow>, hashPassword: (UserRow, string) -> string,
                 verifyPassword: (UserRow, string, string) -> Verification)
      requires Ready(users)
      ensures Valid() && this.users == users
      ensures this.hashPassword == hashPassword && this.verifyPassword == verifyPassword
    {
      this.users, this.hashPassword, this.verifyPassword := users, hashPassword, verifyPassword;
    }

    /** The hash stored for a registration: computed for a user with an empty hash. */
    function HashFor(req: RegisterRequest): string
      reads this
    {
      hashPassword(UserRow(0, req.username, req.email, ""), req.password)
    }

    /** `RegisterAsync(dto)`: a taken e-mail address is refused and nothing is added;
        otherwise the user is added and saved, which fails when the user name is taken or
        the user name or e-mail address is too long for its column. */
    method Register(req: RegisterRequest) returns (r: Result<UserDto, Exception>)
      requires Valid()
      modifies users
      ensures Valid()
      ensures ByEmail(old(users.rows), req.email).Some? ==>
                r == Err(InvalidOperationException(EMAIL_IN_USE))
                && users.rows == old(users.rows) && users.commits == old(users.commits)
      ensures var u := UserRow(|old(users.rows)| + 1, req.username, req.email, HashFor(req));
              ByEmail(old(users.rows), req.email).None? ==>
                users.commits == old(users.commits) + 1
                && if |req.username| <= MAX_USERNAME && |req.email| <= MAX_EMAIL
                      && forall i :: 0 <= i < |old(users.rows)| ==> old(users.rows)[i].username != req.username
                   then r == Ok(ToDto(u)) && users.rows == old(users.rows) + [u]
                   else r == Err(DbUpdateException) && users.rows == old(users.rows)
    {
      var existing := ByEmail(users.rows, req.email);
      if existing.Some? {
        return Err(InvalidOperationException(EMAIL_IN_USE));
      }
      var temp := UserRow(0, req.username, req.email, "");
      var hash := hashPassword(temp, req.password);
      var user := UserRow(0, req.username, req.email, hash);
      ghost var u := UserRow(|users.rows| + 1, req.username, req.email, hash);
      users.Add(user);
      assert users.Saved() == users.rows + [u];
      DistinctAfterAppend(users.rows, u);
      FitsAfterAppend(users.rows, u);
      var thrown := users.SaveChanges();
      if thrown.Some? {
        return Err(thrown.value);
      }
      return Ok(ToDto(users.rows[|users.rows| - 1]));
    }

    /** `AuthenticateAsync(dto)`: null when nobody matches or the password is refused; a
        password that verifies, with or without a rehash needed, yields the user. */
    method Authenticate(req: LoginRequest) returns (r: Option<UserDto>)
      requires Valid()
      ensures var found := ByUsernameOrEmail(users.rows, req.usernameOrEmail);
              r.None? <==> found.None? || verifyPassword(found.value, found.value.passwordHash, req.password) == Failed
      ensures r.Some? ==> r.value == ToDto(ByUsernameOrEmail(users.rows, req.usernameOrEmail).value)
    {
      var user := ByUsernameOrEmail(users.rows, req.usernameOrEmail);
      if user.None? {
        return None;
      }
      var ok := verifyPassword(user.value, user.value.passwordHash, req.password);
      if ok == Failed {
        return None;
      }
      return Some(ToDto(user.value));
    }

    /** `GetByIdAsync(id)`: null exactly when no user has that id. */
    method GetById(id: int) returns (r: Option<UserDto>)
      requires Valid()
      ensures r.Some? <==> 1 <= id <= |users.rows|
      ensures r.Some? ==> r.value == ToDto(users.rows[id - 1]) && r.value.id == id
    {
      var user := users.Find(id);
      if user.None? {
        return None;
      }
      return Some(ToDto(user.value));
    }
  }

  /** A new user keeps every row within its columns exactly when the new row fits. */
  lemma FitsAfterAppend(rows: seq<UserRow>, u: UserRow)
    requires forall i :: 0 <= i < |rows| ==> FitsColumns(rows[i])
    ensures (forall i :: 0 <= i < |rows| + 1 ==> FitsColumns((rows + [u])[i])) <==> FitsColumns(u)
  {
    var next := rows + [u];
    assert next[|rows|] == u;
    if FitsColumns(u) {
      forall i | 0 <= i < |next|
        ensures FitsColumns(next[i])
      {
        if i < |rows| {
          assert next[i] == rows[i];
        }
      }
    }
  }

  /** Appending a user with an unused e-mail address keeps both indexes unique exactly when
      the user name is unused too. */
  lemma DistinctAfterAppend(rows: seq<UserRow>, u: UserRow)
    requires DistinctUsers(rows) && forall i :: 0 <= i < |rows| ==> rows[i].email != u.email
    ensures DistinctUsers(rows + [u]) <==> forall i :: 0 <= i < |rows| ==> rows[i].username != u.username
  {
    var next := rows + [u];
    if forall i :: 0 <= i < |rows| ==> rows[i].username != u.username {
      forall a, b | 0 <= a < b < |next|
        ensures next[a].username != next[b].username && next[a].email != next[b].email
      {
        assert next[a] == rows[a];
        if b < |rows| {
          assert next[b] == rows[b];
        }
      }
    } else {
      var i :| 0 <= i < |rows| && rows[i].username == u.username;
      assert next[i] == rows[i] && next[|rows|] == u;
    }
  }
}
