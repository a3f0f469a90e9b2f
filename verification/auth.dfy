/** The two Express middlewares that guard protected routes:
    `authenticateUser` (a bearer token in the Authorization header that the
    token library accepts) and `requireAdmin` (the verified claims carry
    role "admin"). The token library's `verify` is an oracle parameter:
    given the token it yields the decoded claims, or None where it throws. */
module Auth {
  import opened Wrappers
  import opened Json
  import opened Strings

  /** The decoded token payload as `verify` returns it. */
  datatype Claims = Claims(id: Option<Json>, name: Option<Json>, role: Option<Json>)

  /** What a middleware sees of a request: the Authorization header, the
      claims attached so far (`req.user`) and everything else, `body`. */
  datatype Request<B> = Request(authorization: Option<string>, user: Option<Claims>, body: B)

  /** A middleware either ends the request with a status and a JSON
      `{message}` body, or calls `next()` once with the request it leaves. */
  datatype Outcome<B> = Reject(status: int, message: string) | Continue(req: Request<B>)

  const BearerPrefix: string := "Bearer "
  const NoToken: string := "No token provided"
  const InvalidToken: string := "Invalid token"
  const AdminOnly: string := "Admin access only"

  /** The header is present, non-empty and starts with "Bearer " (case
      sensitive, one space). */
  predicate HasBearer(header: Option<string>) {
    header.Some? && BearerPrefix <= header.value
  }

  /** `auth.split(" ")[1]`: the text after "Bearer " up to the next space
      or the end of the header. */
  function BearerToken(header: string): (token: string)
    requires BearerPrefix <= header
    ensures var rest := header[|BearerPrefix|..];
      && token <= rest
      && ' ' !in token
      && (|token| == |rest| || rest[|token|] == ' ')
  {
    var rest := header[|BearerPrefix|..];
    assert header == "Bearer" + [' '] + rest;
    SplitAfterPiece("Bearer", rest, ' ');
    FirstPiece(rest, ' ');
    Split(header, ' ')[1]
  }

  /** `authenticateUser`. */
  function Authenticate<B>(req: Request<B>, verify: string -> Option<Claims>): (o: Outcome<B>)
    ensures o == Reject(401, NoToken) <==> !HasBearer(req.authorization)
    ensures o == Reject(401, InvalidToken) <==>
      HasBearer(req.authorization) && verify(BearerToken(req.authorization.value)).None?
    ensures o.Continue? <==>
      HasBearer(req.authorization) && verify(BearerToken(req.authorization.value)).Some?
    ensures o.Continue? ==>
      && o.req.user.Some?
      && o.req.user == verify(BearerToken(req.authorization.value))
      && o.req.authorization == req.authorization
      && o.req.body == req.body
  {
    if !HasBearer(req.authorization) then Reject(401, NoToken)
    else
      match verify(BearerToken(req.authorization.value))
      case None => Reject(401, InvalidToken)
      case Some(claims) => Continue(req.(user := Some(claims)))
  }

  /** `requireAdmin`; it runs after `authenticateUser`, so claims are
      attached (it would throw on `req.user.role` otherwise). The role must
      be exactly the string "admin". */
  function RequireAdmin<B>(req: Request<B>): (o: Outcome<B>)
    requires req.user.Some?
    ensures o.Continue? <==> req.user.value.role == Some(JString("admin"))
    ensures o.Continue? ==> o.req == req
    ensures o.Reject? ==> o == Reject(403, AdminOnly)
  {
    if req.user.value.role != Some(JString("admin")) then Reject(403, AdminOnly)
    else Continue(req)
  }

  /** The chain `authenticateUser, requireAdmin` in front of every
      admin-only route. The route runs exactly when the header carries a
      token the library accepts and whose claims have role "admin", and it
      then sees the request with those claims attached and nothing else
      changed; a valid token with any other role (a customer's) gets 403. */
  function AdminGuard<B>(req: Request<B>, verify: string -> Option<Claims>): (o: Outcome<B>)
    ensures o.Continue? <==>
      && HasBearer(req.authorization)
      && verify(BearerToken(req.authorization.value)).Some?
      && verify(BearerToken(req.authorization.value)).value.role == Some(JString("admin"))
    ensures o.Continue? ==> o.req == req.(user := verify(BearerToken(req.authorization.value)))
    ensures !HasBearer(req.authorization) ==> o == Reject(401, NoToken)
    ensures (HasBearer(req.authorization) && verify(BearerToken(req.authorization.value)).None?)
      ==> o == Reject(401, InvalidToken)
    ensures (&& HasBearer(req.authorization)
             && verify(BearerToken(req.authorization.value)).Some?
             && verify(BearerToken(req.authorization.value)).value.role != Some(JString("admin")))
      ==> o == Reject(403, AdminOnly)
  {
    match Authenticate(req, verify)
    case Reject(status, message) => Reject(status, message)
    case Continue(r) => RequireAdmin(r)
  }

  /** The header a client sends: "Bearer " followed by the token. */
  function BearerHeader(token: string): string {
    BearerPrefix + token
  }

  /** A token without spaces survives the round trip through the header. */
  lemma {:induction false} BearerTokenRoundTrip(token: string)
    requires ' ' !in token
    ensures BearerPrefix <= BearerHeader(token)
    ensures BearerToken(BearerHeader(token)) == token
  {
    var h := BearerHeader(token);
    assert h[|BearerPrefix|..] == token;
  }

  /** A well-formed header passes the authentication gate exactly when the
      token library accepts its token, and then carries that token's claims. */
  lemma {:induction false} AuthenticateWellFormed<B>(token: string, body: B, verify: string -> Option<Claims>)
    requires ' ' !in token
    ensures var o := Authenticate(Request(Some(BearerHeader(token)), None, body), verify);
      && (o.Continue? <==> verify(token).Some?)
      && (o.Continue? ==> o.req == Request(Some(BearerHeader(token)), verify(token), body))
      && (o.Reject? ==> o == Reject(401, InvalidToken))
  {
    BearerTokenRoundTrip(token);
  }
}
