/**
  * The two Express middlewares that guard the API: `authenticate` reads
  * the bearer token of the Authorization header and attaches the claims it
  * carries to the request, `authorize(...roles)` lets a request through
  * only when the attached user has one of the roles.
  *
  * JWT verification is a parameter `verify`: it answers the claims a token
  * was signed with, or None when the signature or expiry check fails.
  */
module Auth {
  import opened Common
  import opened Types

  /** The token payload and `req.user`: exactly id, username and role. */
  datatype Claims = Claims(id: string, username: string, role: Role)

  /** What a middleware does: call `next` with `req.user` set, or answer an error and stop. */
  datatype Gate = Next(user: Claims) | Deny(status: int, error: string)

  const AuthenticationRequired := "Authentication required"
  const InvalidToken := "Invalid or expired token"
  const InsufficientPermissions := "Insufficient permissions"

  const BearerPrefix := "Bearer "

  predicate StartsWith(s: string, prefix: string)
  {
    prefix <= s
  }

  /** `authHeader.split(' ')[1]`; the prefix guarantees there is a second word. */
  function BearerToken(h: string): (t: string)
    requires StartsWith(h, BearerPrefix)
    ensures ' ' !in t
  {
    var rest := h[|BearerPrefix|..];
    assert h == "Bearer" + [' '] + rest;
    SplitAfterPrefix("Bearer", ' ', rest);
    Split(h, ' ')[1]
  }

  /** The token is the text after "Bearer " up to the next space (or the end). */
  lemma BearerTokenIsNextWord(h: string)
    requires StartsWith(h, BearerPrefix)
    ensures BearerToken(h) == UpTo(h[7..], ' ')
    ensures BearerToken(h) <= h[7..]
    ensures ' ' !in h[7..] ==> BearerToken(h) == h[7..]
  {
    var rest := h[7..];
    assert h == "Bearer" + [' '] + rest;
    SplitAfterPrefix("Bearer", ' ', rest);
    SplitFirstPiece(rest, ' ');
  }

  /**
    * `authenticate`: no header, an empty one, or one without the "Bearer "
    * prefix is refused before any verification; a token that fails
    * verification is refused; otherwise the request goes on with the
    * decoded claims as its user.
    */
  function Authenticate(header: Option<string>, verify: string -> Option<Claims>): (r: Gate)
    ensures r == Deny(401, AuthenticationRequired) <==> header.None? || !StartsWith(header.value, BearerPrefix)
    ensures r == Deny(401, InvalidToken) <==>
              header.Some? && StartsWith(header.value, BearerPrefix) && verify(BearerToken(header.value)).None?
    ensures r.Next? <==>
              header.Some? && StartsWith(header.value, BearerPrefix) && verify(BearerToken(header.value)).Some?
    ensures r.Next? ==> Some(r.user) == verify(BearerToken(header.value))
    ensures r.Deny? ==> r.status == 401
  {
    if header.None? || header.value == "" || !StartsWith(header.value, BearerPrefix) then
      Deny(401, AuthenticationRequired)
    else
      match verify(BearerToken(header.value))
      case None => Deny(401, InvalidToken)
      case Some(c) => Next(c)
  }

  /**
    * `authorize(...roles)`: 401 when no user is attached, 403 when the
    * user's role is not among the roles, otherwise on with the same user.
    */
  function Authorize(user: Option<Claims>, roles: seq<Role>): (r: Gate)
    ensures user.None? <==> r == Deny(401, AuthenticationRequired)
    ensures r.Next? <==> user.Some? && user.value.role in roles
    ensures r.Next? ==> r.user == user.value
    ensures user.Some? && user.value.role !in roles <==> r == Deny(403, InsufficientPermissions)
  {
    if user.None? then Deny(401, AuthenticationRequired)
    else if user.value.role !in roles then Deny(403, InsufficientPermissions)
    else Next(user.value)
  }

  /** `authenticate` followed by `authorize(...roles)`, as the routes chain them. */
  function Guard(header: Option<string>, verify: string -> Option<Claims>, roles: seq<Role>): Gate
  {
    var a := Authenticate(header, verify);
    if a.Deny? then a else Authorize(Some(a.user), roles)
  }

  /**
    * A guarded handler runs exactly for a verified token whose role is
    * listed; the 403 case is reached only after authentication succeeded.
    */
  lemma GuardPasses(header: Option<string>, verify: string -> Option<Claims>, roles: seq<Role>)
    ensures var g := Guard(header, verify, roles);
            && (g.Next? <==> header.Some? && StartsWith(header.value, BearerPrefix)
                              && verify(BearerToken(header.value)).Some?
                              && verify(BearerToken(header.value)).value.role in roles)
            && (g.Next? ==> Some(g.user) == verify(BearerToken(header.value)))
            && (g == Deny(403, InsufficientPermissions) ==> Authenticate(header, verify).Next?)
            && (g.Deny? ==> g.status == 401 || g.status == 403)
  {
    var a := Authenticate(header, verify);
    if a.Next? {
      assert Some(a.user) == verify(BearerToken(header.value));
    }
  }

  /** The roles the routes declare: creating and updating programs, studies and milestones. */
  const EditorRoles: seq<Role> := [Admin, PortfolioManager]
  /** Deleting programs, studies and milestones, and registering users. */
  const AdminRoles: seq<Role> := [Admin]

  /**
    * A viewer's request never reaches a create, update or delete handler,
    * a portfolio manager's never reaches a delete or register handler,
    * and an administrator with a valid token reaches them all.
    */
  lemma RouteRoles(header: Option<string>, verify: string -> Option<Claims>)
    ensures Guard(header, verify, EditorRoles).Next? ==> Guard(header, verify, EditorRoles).user.role != Viewer
    ensures Guard(header, verify, AdminRoles).Next? ==> Guard(header, verify, AdminRoles).user.role == Admin
    ensures Authenticate(header, verify).Next? && Authenticate(header, verify).user.role == Admin ==>
              Guard(header, verify, EditorRoles).Next? && Guard(header, verify, AdminRoles).Next?
    ensures Authenticate(header, verify).Next? && Authenticate(header, verify).user.role == Viewer ==>
              Guard(header, verify, EditorRoles) == Deny(403, InsufficientPermissions)
  {
    GuardPasses(header, verify, EditorRoles);
    GuardPasses(header, verify, AdminRoles);
  }
}
