/**
  * The /api/auth routes: login, the current user (/me), and registration
  * of a new user by an administrator.
  *
  * bcrypt is two parameters: `hash` turns a password into the stored hash,
  * `passwordMatches(password, hash)` is the comparison. JWT signing is a
  * parameter `sign` from claims to a token. Request texts are strings
  * where "" stands for an absent field, as `!x` treats both alike.
  */
module AuthRoutes {
  import opened Common
  import opened Types
  import opened Database
  import opened Http
  import opened Auth

  /** A user as the API shows it: never the password hash. */
  datatype PublicUser = PublicUser(id: string, username: string, role: Role, fullName: string, email: Option<string>)

  function PublicOf(u: User): PublicUser
  {
    PublicUser(u.id, u.username, u.role, u.fullName, u.email)
  }

  /** The token payload of a user. */
  function ClaimsOf(u: User): Claims
  {
    Claims(u.id, u.username, u.role)
  }

  // =====================================================================
  // POST /api/auth/login
  // =====================================================================

  datatype LoginBody = LoginBody(token: string, user: PublicUser)

  const CredentialsRequired := "Username and password are required"
  const InvalidCredentials := "Invalid credentials"

  /** SELECT * FROM users WHERE username = ? */
  function FindByUsername(us: seq<User>, name: string): (r: Option<User>)
    ensures r.None? <==> name !in KeySet(us, Username)
    ensures r.Some? ==> r.value in us && r.value.username == name
  {
    var i := IndexOf(us, Username, name);
    if i.Some? then Some(us[i.value]) else None
  }

  /**
    * 400 before any lookup when a credential is missing; 401 with one and
    * the same message for an unknown user and for a wrong password;
    * otherwise the token signed over the user's id, username and role, and
    * the user without the hash.
    */
  function Login(us: seq<User>, username: string, password: string,
                 passwordMatches: (string, string) -> bool, sign: Claims -> string): (r: Reply<LoginBody>)
    ensures username == "" || password == "" <==> r == Err(400, CredentialsRequired)
    ensures r.Err? && r.status != 400 ==> r == Err(401, InvalidCredentials)
    ensures username != "" && password != "" &&
            (forall u :: u in us && u.username == username ==> !passwordMatches(password, u.passwordHash)) ==>
              r == Err(401, InvalidCredentials)
    ensures r.Ok? ==>
              && r.status == 200
              && exists u :: u in us && u.username == username && passwordMatches(password, u.passwordHash) &&
                             r.body == LoginBody(sign(ClaimsOf(u)), PublicOf(u))
  {
    if username == "" || password == "" then Err(400, CredentialsRequired)
    else
      match FindByUsername(us, username)
      case None => Err(401, InvalidCredentials)
      case Some(u) =>
        if !passwordMatches(password, u.passwordHash) then Err(401, InvalidCredentials)
        else Ok(200, LoginBody(sign(ClaimsOf(u)), PublicOf(u)))
  }

  /** With usernames unique, login succeeds exactly for a user of that name whose hash matches the password. */
  lemma LoginSucceedsIff(us: seq<User>, username: string, password: string,
                         passwordMatches: (string, string) -> bool, sign: Claims -> string)
    requires UniqueKey(us, Username)
    ensures Login(us, username, password, passwordMatches, sign).Ok? <==>
            username != "" && password != "" &&
            exists u :: u in us && u.username == username && passwordMatches(password, u.passwordHash)
  {
    if username != "" && password != "" {
      var found := FindByUsername(us, username);
      if u :| u in us && u.username == username && passwordMatches(password, u.passwordHash) {
        var i :| 0 <= i < |us| && us[i] == u;
        assert username in KeySet(us, Username) by { assert Username(us[i]) == username; }
        var j :| 0 <= j < |us| && us[j] == found.value;
        assert us[i].username == us[j].username;
      }
    }
  }

  // =====================================================================
  // GET /api/auth/me
  // =====================================================================

  const UserNotFound := "User not found"

  /** The authenticated user's row, looked up again by id: 404 when it is gone. */
  function Me(us: seq<User>, user: Claims): (r: Reply<PublicUser>)
    ensures r.Err? <==> user.id !in KeySet(us, UserId)
    ensures r.Err? ==> r == Err(404, UserNotFound)
    ensures r.Ok? ==> r.status == 200 && exists u :: u in us && u.id == user.id && r.body == PublicOf(u)
  {
    var i := IndexOf(us, UserId, user.id);
    if i.None? then Err(404, UserNotFound) else Ok(200, PublicOf(us[i.value]))
  }

  // =====================================================================
  // POST /api/auth/register (admin only)
  // =====================================================================

  datatype RegisterInput = RegisterInput(username: string, password: string, role: string, fullName: string, email: string)

  /** The 201 body echoes the request without the password; role is the text that was sent. */
  datatype RegisterEcho = RegisterEcho(id: string, username: string, role: string, fullName: string, email: string)

  const MissingUserFields := "Missing required fields"
  const UsernameTaken := "Username already exists"

  predicate MissingUserRequired(b: RegisterInput)
  {
    b.username == "" || b.password == "" || b.role == "" || b.fullName == ""
  }

  /** The row the INSERT writes, or None when the role fails the CHECK. The password is stored only as its hash. */
  function NewUser(b: RegisterInput, id: string, now: string, hash: string -> string): (r: Option<User>)
    ensures r.None? <==> ParseRole(b.role).None?
    ensures r.Some? ==> && r.value.id == id && r.value.username == b.username
                        && r.value.passwordHash == hash(b.password)
                        && RoleName(r.value.role) == b.role
                        && r.value.fullName == b.fullName
                        && r.value.email == NullIfEmpty(b.email)
  {
    match ParseRole(b.role)
    case None => None
    case Some(role) => Some(User(id, b.username, hash(b.password), role, b.fullName, NullIfEmpty(b.email), now, now))
  }

  /**
    * The handler behind the guards: 400, then 409 for a taken username,
    * each writing nothing; then the INSERT, which fails with 500 on a role
    * outside the CHECK or a taken id, and else appends the user and
    * answers 201 with the echo.
    */
  method Register(db: Store, b: RegisterInput, id: string, now: string, hash: string -> string)
    returns (r: Reply<RegisterEcho>)
    requires db.Valid()
    modifies db
    ensures db.Valid()
    ensures MissingUserRequired(b) ==> r == Err(400, MissingUserFields) && db.Tables() == old(db.Tables())
    ensures !MissingUserRequired(b) && b.username in KeySet(old(db.users), Username) ==>
              r == Err(409, UsernameTaken) && db.Tables() == old(db.Tables())
    ensures !MissingUserRequired(b) && b.username !in KeySet(old(db.users), Username) ==>
              if NewUser(b, id, now, hash).Some? && id !in KeySet(old(db.users), UserId) then
                && r == Ok(201, RegisterEcho(id, b.username, b.role, b.fullName, b.email))
                && db.users == old(db.users) + [NewUser(b, id, now, hash).value]
                && db.programs == old(db.programs) && db.studies == old(db.studies) && db.milestones == old(db.milestones)
              else
                r == Err(500, InternalError) && db.Tables() == old(db.Tables())
  {
    if MissingUserRequired(b) {
      return Err(400, MissingUserFields);
    }
    if IndexOf(db.users, Username, b.username).Some? {
      return Err(409, UsernameTaken);
    }
    var row := NewUser(b, id, now, hash);
    if row.None? {
      return Err(500, InternalError);
    }
    var ok := db.InsertUser(row.value);
    if !ok {
      return Err(500, InternalError);
    }
    r := Ok(201, RegisterEcho(id, b.username, b.role, b.fullName, b.email));
  }

  /**
    * The route as mounted: authenticate, authorize('admin'), then the
    * handler. A request that is not from an administrator changes nothing;
    * one that is gets exactly the handler's three outcomes.
    */
  method RegisterRoute(db: Store, header: Option<string>, verify: string -> Option<Claims>,
                       b: RegisterInput, id: string, now: string, hash: string -> string)
    returns (r: Reply<RegisterEcho>)
    requires db.Valid()
    modifies db
    ensures db.Valid()
    ensures Guard(header, verify, AdminRoles).Deny? ==>
              && r == Err(Guard(header, verify, AdminRoles).status, Guard(header, verify, AdminRoles).error)
              && db.Tables() == old(db.Tables())
    ensures r.Ok? ==> Guard(header, verify, AdminRoles).Next? && Guard(header, verify, AdminRoles).user.role == Admin
    ensures r.Ok? ==> |db.users| == |old(db.users)| + 1 && db.users[|old(db.users)|].passwordHash == hash(b.password)
    ensures Guard(header, verify, AdminRoles).Next? && MissingUserRequired(b) ==>
              r == Err(400, MissingUserFields) && db.Tables() == old(db.Tables())
    ensures Guard(header, verify, AdminRoles).Next? && !MissingUserRequired(b)
            && b.username in KeySet(old(db.users), Username) ==>
              r == Err(409, UsernameTaken) && db.Tables() == old(db.Tables())
    ensures Guard(header, verify, AdminRoles).Next? && !MissingUserRequired(b)
            && b.username !in KeySet(old(db.users), Username) ==>
              if NewUser(b, id, now, hash).Some? && id !in KeySet(old(db.users), UserId) then
                && r == Ok(201, RegisterEcho(id, b.username, b.role, b.fullName, b.email))
                && db.users == old(db.users) + [NewUser(b, id, now, hash).value]
                && db.programs == old(db.programs) && db.studies == old(db.studies) && db.milestones == old(db.milestones)
              else
                r == Err(500, InternalError) && db.Tables() == old(db.Tables())
  {
    var g := Guard(header, verify, AdminRoles);
    if g.Deny? {
      return Err(g.status, g.error);
    }
    GuardPasses(header, verify, AdminRoles);
    r := Register(db, b, id, now, hash);
  }
}
