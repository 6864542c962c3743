/** The authentication and authorization middleware. Token verification is
    a parameter (`verify` answers the decoded claims, or `None` where the
    library throws); the user look-up is the set of existing user ids. */
module Auth {
  import opened Wrappers
  import opened Text
  import opened Http

  /** The decoded token payload the middleware stores as `req.user`. */
  datatype Claims = Claims(userId: Option<int>, role: Option<string>)

  /** `authenticate` either calls `next()` with `req.user` set, or answers. */
  datatype AuthResult = Authenticated(user: Claims) | Denied(status: StatusCode)

  const BearerPrefix: string := "Bearer "

  /** `req.header('Authorization')?.replace('Bearer ', '')`: an absent header
      gives no token; otherwise the first occurrence of "Bearer " is cut out. */
  function ExtractToken(header: Option<string>): (token: Option<string>)
    ensures header.None? <==> token.None?
    ensures header.Some? && IndexOf(header.value, BearerPrefix).None? ==> token == header
  {
    match header
    case None => None
    case Some(h) => Some(RemoveFirst(h, BearerPrefix))
  }

  lemma BearerHeaderGivesRest(t: string)
    ensures ExtractToken(Some(BearerPrefix + t)) == Some(t)
  {
    var h := BearerPrefix + t;
    assert h[0..|BearerPrefix|] == BearerPrefix;
    assert OccursAt(h, BearerPrefix, 0);
    assert IndexOf(h, BearerPrefix) == Some(0);
    assert h[..0] + h[|BearerPrefix|..] == t;
  }

  /** The cut is of the first occurrence wherever it is, not only of a prefix. */
  lemma BearerCutAnywhere()
    ensures ExtractToken(Some("xBearer y")) == Some("xy")
  {
    var h := "xBearer y";
    assert h[0..7][0] == 'x' != BearerPrefix[0];
    assert !OccursAt(h, BearerPrefix, 0);
    assert h[1..8] == BearerPrefix;
    assert OccursAt(h, BearerPrefix, 1);
    assert IndexOf(h, BearerPrefix) == Some(1);
    assert h[..1] + h[8..] == "xy";
  }

  function Authenticate(header: Option<string>, verify: string -> Option<Claims>, userIds: set<int>): (r: AuthResult)
    ensures (ExtractToken(header).None? || ExtractToken(header).value == "") ==> r == Denied(Unauthorized401)
    ensures r.Authenticated? <==>
      && ExtractToken(header).Some? && ExtractToken(header).value != ""
      && verify(ExtractToken(header).value).Some?
      && verify(ExtractToken(header).value).value.userId.Some?
      && verify(ExtractToken(header).value).value.userId.value in userIds
    ensures r.Authenticated? ==> r.user == verify(ExtractToken(header).value).value
    ensures r.Denied? ==> r.status in {Unauthorized401, BadRequest400}
    ensures r.Denied? && r.status == BadRequest400 <==>
      ExtractToken(header).Some? && ExtractToken(header).value != "" && verify(ExtractToken(header).value).None?
  {
    var token := ExtractToken(header);
    if token.None? || token.value == "" then Denied(Unauthorized401)
    else
      match verify(token.value)
      case None => Denied(BadRequest400)
      case Some(decoded) =>
        if decoded.userId.Some? && decoded.userId.value in userIds then Authenticated(decoded)
        else Denied(Unauthorized401)
  }

  /** The argument of `authorize`: one role name or an array of them. */
  datatype RoleSpec = One(role: string) | Many(roles: seq<string>)

  /** `roles = []` when `authorize()` is called without an argument. */
  const NoRoles: RoleSpec := Many([])

  /** `if (typeof roles === 'string') roles = [roles]`. */
  function RoleList(spec: RoleSpec): (roles: seq<string>)
    ensures spec.One? ==> roles == [spec.role]
    ensures spec.Many? ==> roles == spec.roles
  {
    match spec
    case One(r) => [r]
    case Many(rs) => rs
  }

  /** `authorize(roles)` applied to `req.user`: `next()` iff the user's role
      is one of the roles, otherwise 403. A missing role never matches. */
  function Authorize(spec: RoleSpec, user: Claims): (g: Gate)
    ensures g.Next? <==> user.role.Some? && user.role.value in RoleList(spec)
    ensures g.Halt? ==> g.status == Forbidden403
  {
    if user.role.Some? && user.role.value in RoleList(spec) then Next else Halt(Forbidden403)
  }

  lemma OneRoleIsSingletonList(role: string, user: Claims)
    ensures Authorize(One(role), user) == Authorize(Many([role]), user)
  {
  }

  lemma NoRolesDeniesEveryone(user: Claims)
    ensures Authorize(NoRoles, user) == Halt(Forbidden403)
  {
  }
}
