/** The `protect` gate in front of protected routes: it takes a bearer token
    from the Authorization header, verifies it, checks that the driver it
    names still exists, and records who the caller is on the request. */
module AuthMiddleware {
  import opened Common
  import opened Query
  import opened Schema
  import opened Text
  import opened Jwt

  /** What protect leaves on `req.user`. */
  datatype User = User(id: string, role: string)

  /** `next()` after setting req.user, or `next(error)`. */
  datatype Gate = Granted(user: User) | Denied(code: int, message: string)

  /** The parts of the request protect reads and writes. */
  class Request {
    var authorization: Option<string>
    var user: Option<User>

    constructor (authorization: Option<string>)
      ensures this.authorization == authorization && user == None
    {
      this.authorization := authorization;
      user := None;
    }
  }

  const NotLoggedIn := "You are not logged in! Please log in to get access."
  const UserGone := "The user belonging to this token no longer exists."
  const DefaultRole := "driver"

  /** The token of an Authorization header that starts with "Bearer": the
      second space-separated field, when it is there and non-empty. */
  function BearerToken(header: Option<string>): (token: Option<string>)
    ensures token.Some? ==> header.Some? && StartsWith(header.value, "Bearer")
    ensures token.Some? ==> token.value != "" && ' ' !in token.value
    ensures header.None? || !StartsWith(header.value, "Bearer") ==> token.None?
  {
    if header.Some? && header.value != "" && StartsWith(header.value, "Bearer") then
      var parts := Split(header.value, ' ');
      if |parts| > 1 && parts[1] != "" then Some(parts[1]) else None
    else None
  }

  /** "Bearer <token>", optionally followed by more space-separated text,
      yields exactly the token. */
  lemma BearerTokenRoundTrip(token: string, rest: string)
    requires token != "" && ' ' !in token
    requires rest == "" || rest[0] == ' '
    ensures BearerToken(Some("Bearer " + token + rest)) == Some(token)
  {
    var h := "Bearer " + token + rest;
    assert h[..6] == "Bearer";
    assert h == "Bearer" + [' '] + (token + rest);
    SplitAfter("Bearer", ' ', token + rest);
    if rest == "" {
      assert token + rest == token;
      SplitWhole(token, ' ');
    } else {
      assert token + rest == token + [' '] + rest[1..];
      SplitAfter(token, ' ', rest[1..]);
    }
  }

  /** "Bearer" alone, and a double space after it, give no token. */
  lemma BearerWithoutToken(rest: string)
    ensures BearerToken(Some("Bearer")) == None
    ensures BearerToken(Some("Bearer  " + rest)) == None
  {
    assert "Bearer"[..6] == "Bearer";
    var h := "Bearer  " + rest;
    assert h[..6] == "Bearer";
    assert h == "Bearer" + [' '] + ("" + [' '] + rest);
    SplitAfter("Bearer", ' ', "" + [' '] + rest);
    SplitAfter("", ' ', rest);
  }

  /** `decoded.role || 'driver'`. */
  function RoleOf(c: Claims): (role: string)
    ensures role != ""
    ensures c.role.Some? && c.role.value != "" ==> role == c.role.value
    ensures c.role.None? || c.role.value == "" ==> role == DefaultRole
  {
    if Truthy(c.role) then c.role.value else DefaultRole
  }

  /** The decision protect takes. `verify` stands for jwt.verify with the
      server's secret; the rejection status is the error handler's. */
  function Authenticate(header: Option<string>, drivers: seq<Driver>, verify: string -> Decoded): (g: Gate)
    ensures BearerToken(header).None? ==> g == Denied(401, NotLoggedIn)
    ensures g.Denied? ==> g.code == 401
    ensures g.Granted? <==>
              && BearerToken(header).Some?
              && verify(BearerToken(header).value).Verified?
              && Where(drivers, DriverKey, verify(BearerToken(header).value).claims.id) != []
    ensures g.Granted? ==>
              var claims := verify(BearerToken(header).value).claims;
              && g.user.id == claims.id
              && (exists d :: d in drivers && d.driverId == g.user.id)
              && g.user.role == RoleOf(claims)
    ensures BearerToken(header).Some? && verify(BearerToken(header).value).Verified? && g.Denied? ==>
              g.message == UserGone
  {
    match BearerToken(header)
    case None => Denied(401, NotLoggedIn)
    case Some(token) =>
      match verify(token)
      case Rejected(reason) => Denied(401, reason)
      case Verified(claims) =>
        var rows := Where(drivers, DriverKey, claims.id);
        if rows == [] then Denied(401, UserGone)
        else Granted(User(rows[0].driverId, RoleOf(claims)))
  }

  /** Without a token the drivers table is not consulted. */
  lemma NoTokenNoLookup(header: Option<string>, ds1: seq<Driver>, ds2: seq<Driver>, verify: string -> Decoded)
    requires BearerToken(header).None?
    ensures Authenticate(header, ds1, verify) == Authenticate(header, ds2, verify)
  {
  }

  /** The middleware: req.user is set exactly when access is granted. */
  method Protect(req: Request, drivers: seq<Driver>, verify: string -> Decoded) returns (g: Gate)
    modifies req`user
    ensures g == Authenticate(req.authorization, drivers, verify)
    ensures req.user == if g.Granted? then Some(g.user) else old(req.user)
  {
    g := Authenticate(req.authorization, drivers, verify);
    if g.Granted? {
      req.user := Some(g.user);
    }
  }
}
