/**
 * The access-control middleware: bearer-token authentication and the three role
 * checks. Each is a decision over the request; none changes any state.
 */
module Rbac {
  import opened Common
  import opened Text
  import opened Models

  /** The payload a verified token carries, as signed at login. */
  datatype Claims = Claims(sub: int, email: string, role: string)

  /** `jwt.verify` with the server's secret: the payload, or `None` for a bad or expired token. */
  type Verifier = string -> Option<Claims>

  /** What a middleware does with a request. */
  datatype Decision =
    | Continue(user: Claims)
    | Unauthorized(error: string)   // 401
    | Forbidden(error: string)      // 403

  function DecisionStatus(d: Decision): int {
    match d
    case Continue(_) => 200
    case Unauthorized(_) => 401
    case Forbidden(_) => 403
  }

  const TOKEN_REQUIRED := "Access token required"
  const TOKEN_INVALID := "Invalid or expired token"
  const AUTH_REQUIRED := "Authentication required"
  const ADMIN_REQUIRED := "Admin access required"
  const VOLUNTEER_OR_ADMIN_REQUIRED := "Volunteer or admin access required"
  const OWN_RESOURCES_ONLY := "You can only access your own resources"

  /**
   * `authHeader && authHeader.split(" ")[1]`: the second space-separated part of the
   * `Authorization` header, when there is one and it is not empty.
   */
  function BearerToken(header: Option<string>): (token: Option<string>)
    ensures token.Some? ==> token.value != "" && ' ' !in token.value
    ensures token.Some? ==> header.Some? && ' ' in header.value
  {
    if !TruthyText(header) then None
    else
      var parts := Split(header.value, ' ');
      if |parts| >= 2 && parts[1] != "" then
        assert ' ' in header.value by {
          if ' ' !in header.value {
            SplitNoSep(header.value, ' ');
          }
        }
        Some(parts[1])
      else None
  }

  /** The usual header `Bearer <token>` yields the token. */
  lemma BearerTokenOfScheme(scheme: string, token: string)
    requires ' ' !in scheme && ' ' !in token && token != ""
    ensures BearerToken(Some(scheme + " " + token)) == Some(token)
  {
    assert Join([scheme, token], ' ') == scheme + " " + token by {
      assert [scheme, token][1..] == [token];
    }
    SplitJoin([scheme, token], ' ');
  }

  /** A header without a space, or a scheme with nothing after its space (`"Bearer "`), carries no token. */
  lemma BearerTokenMissing(h: string)
    requires ' ' !in h
    ensures BearerToken(Some(h)) == None
    ensures BearerToken(Some(h + " ")) == None
  {
    SplitNoSep(h, ' ');
    assert Join([h, ""], ' ') == h + " " by {
      assert [h, ""][1..] == [""];
    }
    SplitJoin([h, ""], ' ');
  }

  /** The header `authFetch` sends with every request: the stored token as a bearer token. */
  function BearerHeader(token: string): Option<string> {
    Some("Bearer " + token)
  }

  /** A bearer header built from a token authenticates as the claims the token verifies to. */
  lemma BearerHeaderAuthenticates(token: string, verify: Verifier, c: Claims)
    requires token != "" && ' ' !in token && verify(token) == Some(c)
    ensures AuthenticateToken(BearerHeader(token), verify) == Continue(c)
  {
    BearerTokenOfScheme("Bearer", token);
    assert "Bearer" + " " + token == "Bearer " + token;
  }

  /** `authenticateToken`: 401 without a token, 403 when verification fails, otherwise the claims go on. */
  function AuthenticateToken(header: Option<string>, verify: Verifier): (d: Decision)
    ensures BearerToken(header).None? <==> d == Unauthorized(TOKEN_REQUIRED)
    ensures BearerToken(header).Some? && verify(BearerToken(header).value).None? <==> d == Forbidden(TOKEN_INVALID)
    ensures d.Continue? <==> BearerToken(header).Some? && verify(BearerToken(header).value).Some?
    ensures d.Continue? ==> verify(BearerToken(header).value) == Some(d.user)
  {
    match BearerToken(header)
    case None => Unauthorized(TOKEN_REQUIRED)
    case Some(token) =>
      match verify(token)
      case None => Forbidden(TOKEN_INVALID)
      case Some(claims) => Continue(claims)
  }

  /** `requireAdmin`: 401 without an authenticated user, 403 for any role but admin. */
  function RequireAdmin(user: Option<Claims>): (d: Decision)
    ensures user.None? <==> d == Unauthorized(AUTH_REQUIRED)
    ensures d.Continue? <==> user.Some? && user.value.role == "admin"
    ensures d.Continue? ==> d.user == user.value
    ensures user.Some? && user.value.role != "admin" <==> d == Forbidden(ADMIN_REQUIRED)
  {
    match user
    case None => Unauthorized(AUTH_REQUIRED)
    case Some(u) => if u.role != "admin" then Forbidden(ADMIN_REQUIRED) else Continue(u)
  }

  /** `requireVolunteerOrAdmin`: the request goes on exactly for the two known roles. */
  function RequireVolunteerOrAdmin(user: Option<Claims>): (d: Decision)
    ensures user.None? <==> d == Unauthorized(AUTH_REQUIRED)
    ensures d.Continue? <==> user.Some? && user.value.role in ROLES
    ensures d.Continue? ==> d.user == user.value
    ensures user.Some? && user.value.role !in ROLES <==> d == Forbidden(VOLUNTEER_OR_ADMIN_REQUIRED)
  {
    match user
    case None => Unauthorized(AUTH_REQUIRED)
    case Some(u) =>
      if !(u.role in ["volunteer", "admin"]) then Forbidden(VOLUNTEER_OR_ADMIN_REQUIRED) else Continue(u)
  }

  /** Every request an admin check lets through, the volunteer-or-admin check lets through too. */
  lemma AdminIsVolunteerOrAdmin(user: Option<Claims>)
    ensures RequireAdmin(user).Continue? ==> RequireVolunteerOrAdmin(user).Continue?
  {
  }


  /** `params[f] || body[f] || query[f]`: the first truthy one, otherwise the last. */
  function OwnerField(params: Field, body: Field, query: Field): (f: Field)
    ensures TruthyField(params) ==> f == params
    ensures !TruthyField(params) && TruthyField(body) ==> f == body
    ensures !TruthyField(params) && !TruthyField(body) ==> f == query
  {
    if TruthyField(params) then params else if TruthyField(body) then body else query
  }

  /**
   * `parseInt(value)` with no radix, a number being read through its decimal text; `None`
   * for NaN. A text starting with `0x` is read in base 16.
   */
  function ParseField(f: Field): (r: Option<int>)
    ensures f.Num? ==> r == Some(f.n)
    ensures f.Absent? ==> r.None?
    ensures f.Str? ==> r == ParseIntNoRadix(f.s)
  {
    match f
    case Absent => None
    case Str(s) => ParseIntNoRadix(s)
    case Num(n) => ParseIntNoRadixIntToString(n); ParseIntNoRadix(IntToString(n))
  }

  /**
   * `requireOwnerOrAdmin(field)`: an admin always goes on; anyone else only when their
   * `sub` equals the integer read from the owner field.
   */
  function RequireOwnerOrAdmin(user: Option<Claims>, params: Field, body: Field, query: Field): (d: Decision)
    ensures user.None? <==> d == Unauthorized(AUTH_REQUIRED)
    ensures d.Continue? <==> user.Some? && (user.value.role == "admin"
                                            || ParseField(OwnerField(params, body, query)) == Some(user.value.sub))
    ensures d.Continue? ==> d.user == user.value
    ensures d.Forbidden? ==> d.error == OWN_RESOURCES_ONLY
  {
    match user
    case None => Unauthorized(AUTH_REQUIRED)
    case Some(u) =>
      var owner := OwnerField(params, body, query);
      if u.role == "admin" || ParseField(owner) == Some(u.sub) then Continue(u) else Forbidden(OWN_RESOURCES_ONLY)
  }

  /** Without any owner field, only an admin goes on. */
  lemma OwnerMissingDeniesNonAdmin(u: Claims)
    requires u.role != "admin"
    ensures RequireOwnerOrAdmin(Some(u), Absent, Absent, Absent) == Forbidden(OWN_RESOURCES_ONLY)
  {
  }

  /** A truthy path parameter decides alone: the body and the query cannot override it. */
  lemma OwnerParamsTakePrecedence(u: Claims, params: Field, body: Field, body2: Field, query: Field, query2: Field)
    requires TruthyField(params)
    ensures RequireOwnerOrAdmin(Some(u), params, body, query) == RequireOwnerOrAdmin(Some(u), params, body2, query2)
  {
  }

  /** A user may act on the resource whose owner field is their own id, written as text. */
  lemma OwnerOwnIdAccepted(u: Claims)
    ensures RequireOwnerOrAdmin(Some(u), Str(IntToString(u.sub)), Absent, Absent).Continue?
  {
    ParseIntNoRadixIntToString(u.sub);
  }

  /** A hexadecimal owner id names the user with that value: `"0x1a"` is user 26. */
  lemma OwnerHexIdAccepted(u: Claims)
    requires u.sub == 26
    ensures RequireOwnerOrAdmin(Some(u), Str("0x1a"), Absent, Absent).Continue?
  {
    ParseIntNoRadixHex();
  }
}
