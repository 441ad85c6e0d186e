/** server/simple-auth.ts: one hard-coded administrator, JWT login, and the
    `authenticateToken` gate in front of the protected routes. bcrypt's
    `compareSync` and jsonwebtoken's `sign`/`verify` are parameters: only
    what the module does with their answers is modelled. */
module SimpleAuth {
  import opened Text

  /** The token payload `{ userId, username, role }`. */
  datatype Claims = Claims(userId: int, username: string, role: string)

  /** `adminUser`; its bcrypt hash is salted at start-up, so it is a parameter. */
  datatype AdminUser = AdminUser(id: int, username: string, password: string, role: string)

  const AdminName: string := "admin"
  const AdminRole: string := "admin"
  const AdminId: int := 1

  function Admin(passwordHash: string): AdminUser
  {
    AdminUser(AdminId, AdminName, passwordHash, AdminRole)
  }

  /** The payload every issued token carries. */
  const AdminClaims: Claims := Claims(AdminId, AdminName, AdminRole)

  datatype LoginResult = LoginResult(user: AdminUser, token: string)

  /** `loginUser`: a result only for the name "admin" with a password that
      matches the stored hash; the token signs the administrator's claims. */
  function LoginUser(username: string, password: string, passwordHash: string,
                     compare: (string, string) -> bool, sign: Claims -> string): (r: Option<LoginResult>)
    ensures r.Some? <==> username == AdminName && compare(password, passwordHash)
    ensures r.Some? ==> r.value.user.id == 1 && r.value.user.username == "admin" && r.value.user.role == "admin"
    ensures r.Some? ==> r.value.token == sign(Claims(1, "admin", "admin"))
  {
    if username == AdminName && compare(password, passwordHash) then
      Some(LoginResult(Admin(passwordHash), sign(AdminClaims)))
    else None
  }

  /** `authHeader && authHeader.split(' ')[1]`, with `None` for every falsy
      outcome: no header, an empty header, no space, or nothing after it. */
  function BearerToken(header: Option<string>): (r: Option<string>)
    ensures header.None? ==> r.None?
    ensures header.Some? && ' ' !in header.value ==> r.None?
    ensures r.Some? ==> r.value != "" && ' ' !in r.value
    ensures r.Some? ==> header.Some? && SecondSegment(header.value, ' ') == r
  {
    match header
    case None => None
    case Some(h) =>
      match SecondSegment(h, ' ')
      case None => None
      case Some(t) => if t == "" then None else Some(t)
  }

  /** What `authenticateToken` does with a request. */
  datatype Gate = Unauthorized | Forbidden | Pass(user: Claims)

  function GateStatus(g: Gate): (code: int)
    ensures g.Pass? <==> code == 200
  {
    match g
    case Unauthorized => 401
    case Forbidden => 403
    case Pass(_) => 200
  }

  /** 401 without a token, 403 when `verify` rejects it, otherwise the
      decoded payload is attached to the request and the handler runs. */
  function AuthenticateToken(header: Option<string>, verify: string -> Option<Claims>): (g: Gate)
    ensures g.Unauthorized? <==> BearerToken(header).None?
    ensures g.Forbidden? <==> BearerToken(header).Some? && verify(BearerToken(header).value).None?
    ensures g.Pass? ==> verify(BearerToken(header).value) == Some(g.user)
  {
    match BearerToken(header)
    case None => Unauthorized
    case Some(t) =>
      match verify(t)
      case None => Forbidden
      case Some(c) => Pass(c)
  }

  /** `getCurrentUser`: the decoded payload, or null on any failure. */
  function GetCurrentUser(token: string, verify: string -> Option<Claims>): (r: Option<Claims>)
    ensures r.Some? ==> verify(token) == r
    ensures r.None? <==> verify(token).None?
  {
    verify(token)
  }

  /** A header "<scheme> <token>" hands the gate exactly that token. */
  lemma BearerTokenOfHeader(scheme: string, token: string, rest: string)
    requires ' ' !in scheme && ' ' !in token && token != ""
    requires rest == [] || rest[0] == ' '
    ensures BearerToken(Some(scheme + " " + token + rest)) == Some(token)
  {
    assert scheme + " " + token + rest == scheme + [' '] + token + rest;
    SecondSegmentOf(scheme, ' ', token, rest);
  }

  /** "Bearer" with nothing or a single space after it is refused as
      unauthenticated, as is a header with two spaces before the token. */
  lemma EmptyBearerUnauthorized(token: string)
    ensures AuthenticateToken(Some("Bearer"), (t: string) => Some(AdminClaims)).Unauthorized?
    ensures AuthenticateToken(Some("Bearer "), (t: string) => Some(AdminClaims)).Unauthorized?
    ensures AuthenticateToken(Some("Bearer  " + token), (t: string) => Some(AdminClaims)).Unauthorized?
  {
    SecondSegmentOf("Bearer", ' ', "", []);
    assert "Bearer " == "Bearer" + [' '] + "" + [];
    var h := "Bearer  " + token;
    assert h == "Bearer" + [' '] + "" + ([' '] + token);
    SecondSegmentOf("Bearer", ' ', "", [' '] + token);
  }

  /** Logging in and presenting the token as "Bearer <token>" passes the
      gate with the administrator's claims, provided `verify` accepts what
      `sign` produced and signed tokens are non-empty and hold no space. */
  lemma LoginThenAuthenticate(password: string, passwordHash: string,
                              compare: (string, string) -> bool,
                              sign: Claims -> string, verify: string -> Option<Claims>)
    requires compare(password, passwordHash)
    requires forall c :: verify(sign(c)) == Some(c)
    requires forall c :: sign(c) != "" && ' ' !in sign(c)
    ensures var r := LoginUser("admin", password, passwordHash, compare, sign);
      && r.Some?
      && AuthenticateToken(Some("Bearer " + r.value.token), verify) == Pass(AdminClaims)
  {
    var token := sign(AdminClaims);
    var h := "Bearer " + token;
    BearerTokenOfHeader("Bearer", token, "");
    assert "Bearer" + " " + token + "" == h;
    assert BearerToken(Some(h)) == Some(token);
  }

  /** The gate and `getCurrentUser` agree on every well-formed header. */
  lemma GateAgreesWithGetCurrentUser(token: string, verify: string -> Option<Claims>)
    requires token != "" && ' ' !in token
    ensures var g := AuthenticateToken(Some("Bearer " + token), verify);
      && (g.Pass? <==> GetCurrentUser(token, verify).Some?)
      && (g.Pass? ==> GetCurrentUser(token, verify) == Some(g.user))
  {
    var h := "Bearer " + token;
    BearerTokenOfHeader("Bearer", token, "");
    assert "Bearer" + " " + token + "" == h;
    assert BearerToken(Some(h)) == Some(token);
  }
}
