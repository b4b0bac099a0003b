/** The request guard: `authenticate` reads a token from the `Authorization`
    header and lets the request through with the token's claims, or answers
    401; `checkRole` and `isAdmin` answer 403 to a user whose role is not
    allowed. Token verification is an input (`verify`). */
module Guard {
  import opened Wrappers
  import opened JsText

  /** The decoded token payload, `{ id, role }`; a payload without a role has `role == None`. */
  datatype Claims = Claims(id: string, role: Option<string>)

  /** The outcome of verifying a token: its payload, or the error thrown. */
  datatype Verdict = Decoded(claims: Claims) | TokenExpired | TokenInvalid

  /** A JSON error response. */
  datatype Response = Response(status: int, error: string, isExpired: Option<bool>)

  /** What a middleware does with a request: answer it, pass it on with
      `next()`, or throw (Express then hands the error to its error handler). */
  datatype Step = Send(response: Response) | Next | Throw(name: string)

  /** `req.headers.authorization?.split(' ')[1]`: the second space-separated
      word, `None` when the header is absent or has a single word. */
  function TokenOf(header: Option<string>): Option<string> {
    match header
    case None => None
    case Some(h) =>
      var parts := Split(h, ' ');
      if |parts| > 1 then Some(parts[1]) else None
  }

  /** The step `authenticate` takes and the claims it stores in `req.user`. */
  function AuthStep(header: Option<string>, verify: string -> Verdict): (Step, Option<Claims>) {
    var token := TokenOf(header);
    if !Truthy(token) then (Send(Response(401, "No autorizado", Some(false))), None)
    else match verify(token.value)
      case Decoded(c) => (Next, Some(c))
      case TokenExpired => (Send(Response(401, "Token expirado", Some(true))), None)
      case TokenInvalid => (Send(Response(401, "Token inválido", Some(false))), None)
  }

  /** The role check shared by `checkRole` and `isAdmin`: reading the role of
      an unset `req.user` throws a TypeError; a role outside `allowed` gets 403
      with `message`. */
  function RoleStep(allowed: seq<string>, user: Option<Claims>, message: string): (r: Step)
    ensures r.Send? <==> user.Some? && (user.value.role.None? || user.value.role.value !in allowed)
    ensures r.Send? ==> r.response == Response(403, message, None)
    ensures r.Throw? <==> user.None?
  {
    match user
    case None => Throw("TypeError")
    case Some(c) =>
      if c.role.None? || c.role.value !in allowed then Send(Response(403, message, None)) else Next
  }

  /** `isAdmin`'s own test: the role differs from 'admin'. */
  function AdminStep(user: Option<Claims>): Step {
    match user
    case None => Throw("TypeError")
    case Some(c) =>
      if c.role != Some("admin") then Send(Response(403, "Acceso denegado - Se requiere rol de administrador", None))
      else Next
  }

  /** The request/response pair a middleware works on. */
  class Exchange {
    var user: Option<Claims>
    var steps: seq<Step>

    constructor (user: Option<Claims>)
      ensures this.user == user && steps == []
    {
      this.user := user;
      steps := [];
    }

    /** `authenticate`: exactly one step is taken, and `req.user` is set only when the request goes on. */
    method Authenticate(header: Option<string>, verify: string -> Verdict)
      modifies this
      ensures steps == old(steps) + [AuthStep(header, verify).0]
      ensures AuthStep(header, verify).0.Next? ==> user == AuthStep(header, verify).1
      ensures !AuthStep(header, verify).0.Next? ==> user == old(user)
    {
      var token := TokenOf(header);
      if !Truthy(token) {
        steps := steps + [Send(Response(401, "No autorizado", Some(false)))];
        return;
      }
      match verify(token.value)
      case Decoded(c) =>
        user := Some(c);
        steps := steps + [Next];
      case TokenExpired =>
        steps := steps + [Send(Response(401, "Token expirado", Some(true)))];
      case TokenInvalid =>
        steps := steps + [Send(Response(401, "Token inválido", Some(false)))];
    }

    /** `checkRole(allowedRoles)`: one step, and `req.user` untouched. */
    method CheckRole(allowed: seq<string>)
      modifies this`steps
      ensures steps == old(steps) + [RoleStep(allowed, user, "Acceso denegado")]
    {
      steps := steps + [RoleStep(allowed, user, "Acceso denegado")];
    }

    /** `isAdmin`: one step, and `req.user` untouched. */
    method IsAdmin()
      modifies this`steps
      ensures steps == old(steps) + [AdminStep(user)]
    {
      steps := steps + [AdminStep(user)];
    }
  }

  /** A request goes on exactly when the header's token is non-empty and verifies;
      the claims stored are then the token's payload. */
  lemma AuthProceedsIff(header: Option<string>, verify: string -> Verdict)
    ensures AuthStep(header, verify).0.Next? <==>
      Truthy(TokenOf(header)) && verify(TokenOf(header).value).Decoded?
    ensures AuthStep(header, verify).0.Next? ==>
      AuthStep(header, verify).1 == Some(verify(TokenOf(header).value).claims)
    ensures AuthStep(header, verify).0.Send? || AuthStep(header, verify).0.Next?
  {
  }

  /** Every refusal of `authenticate` is a 401, and it says the token expired
      exactly when verification reported expiry. */
  lemma AuthRefusals(header: Option<string>, verify: string -> Verdict)
    requires AuthStep(header, verify).0.Send?
    ensures AuthStep(header, verify).0.response.status == 401
    ensures AuthStep(header, verify).0.response.isExpired ==
      Some(Truthy(TokenOf(header)) && verify(TokenOf(header).value).TokenExpired?)
  {
  }

  /** The token is whatever follows the first space up to the next one: the
      scheme name before it is never checked. */
  lemma TokenAfterAnyScheme(scheme: string, rest: string)
    requires ' ' !in scheme
    ensures TokenOf(Some(scheme + [' '] + rest)) == Some(FirstPart(rest, ' '))
  {
    SplitAround(scheme, rest, ' ');
    SplitWithoutSeparator(scheme, ' ');
  }

  /** "Bearer <token>" yields the token. */
  lemma BearerToken(token: string)
    requires ' ' !in token
    ensures TokenOf(Some("Bearer " + token)) == Some(token)
  {
    assert "Bearer " + token == "Bearer" + [' '] + token;
    TokenAfterAnyScheme("Bearer", token);
    SplitWithoutSeparator(token, ' ');
  }

  /** An absent header, a header of one word, and "Bearer " with nothing after
      it are all refused with 401 and `isExpired` false, whatever `verify` says. */
  lemma MissingTokenRefused(verify: string -> Verdict, word: string)
    requires ' ' !in word
    ensures AuthStep(None, verify).0 == Send(Response(401, "No autorizado", Some(false)))
    ensures AuthStep(Some(word), verify).0 == Send(Response(401, "No autorizado", Some(false)))
    ensures AuthStep(Some("Bearer "), verify).0 == Send(Response(401, "No autorizado", Some(false)))
  {
    SplitWithoutSeparator(word, ' ');
    BearerToken("");
    assert "Bearer " + "" == "Bearer ";
  }

  /** `isAdmin` takes the same decision as `checkRole(['admin'])`; only the 403 message differs. */
  lemma IsAdminIsCheckRoleAdmin(user: Option<Claims>)
    ensures AdminStep(user) == RoleStep(["admin"], user, "Acceso denegado - Se requiere rol de administrador")
  {
    if user.Some? && user.value.role.Some? {
      assert user.value.role.value in ["admin"] <==> user.value.role.value == "admin";
    }
  }
}
