/**
 * `requireAuth`: checks for a `Bearer` Authorization header, verifies the
 * token, and on success copies the token's claims onto the request before
 * passing control on. Token verification (a signed-JWT check) is a
 * parameter: it yields the payload, or None where the library throws.
 */
module AuthMiddleware {
  import opened Common

  const BearerPrefix: string := "Bearer "

  /** The claims a verified token carries. */
  datatype JwtPayload = JwtPayload(userId: int, email: string, isAdmin: bool)

  /** What an Express middleware does: write an error reply, or call `next()` once. */
  datatype Gate = Reject(status: nat, error: string) | Next

  /**
   * The token of a `Bearer` header: the header with its leading "Bearer "
   * removed, then trimmed; None when the header is missing, empty or uses
   * another scheme.
   */
  function BearerToken(header: Option<string>): (token: Option<string>)
    ensures token.Some? <==> header.Some? && StartsWith(header.value, BearerPrefix)
    ensures token.Some? ==> token.value == [] || (!IsWhitespace(token.value[0]) && !IsWhitespace(token.value[|token.value| - 1]))
  {
    if header == None || header == Some("") || !StartsWith(header.value, BearerPrefix) then None
    else
      var rest := header.value[|BearerPrefix|..];
      TrimEnds(rest);
      Some(Trim(rest))
  }

  /** The token a client sends is the token the middleware verifies. */
  lemma BearerTokenRoundTrip(token: string)
    requires token == [] || (!IsWhitespace(token[0]) && !IsWhitespace(token[|token| - 1]))
    ensures BearerToken(Some(BearerPrefix + token)) == Some(token)
  {
    var h := BearerPrefix + token;
    assert h[..|BearerPrefix|] == BearerPrefix;
    assert h[|BearerPrefix|..] == token;
    TrimNoop(token);
  }

  /** The scheme is matched case-sensitively: "bearer " is not accepted. */
  lemma SchemeIsCaseSensitive(token: string)
    ensures BearerToken(Some("bearer " + token)) == None
  {
    assert ("bearer " + token)[0] == 'b';
  }

  /** The decision `requireAuth` takes, in its order. */
  function Authenticate(header: Option<string>, verify: string -> Option<JwtPayload>): (g: Gate)
    ensures g == Reject(401, "Authorization header missing or invalid") <==> BearerToken(header).None?
    ensures g == Reject(401, "Invalid or expired token")
            <==> BearerToken(header).Some? && verify(BearerToken(header).value).None?
    ensures g == Next <==> BearerToken(header).Some? && verify(BearerToken(header).value).Some?
  {
    match BearerToken(header)
    case None => Reject(401, "Authorization header missing or invalid")
    case Some(token) =>
      if verify(token).None? then Reject(401, "Invalid or expired token") else Next
  }

  /** The request fields the middleware reads and writes. */
  class Request {
    const authorization: Option<string>
    var userId: Option<int>
    var userEmail: Option<string>
    var isAdmin: Option<bool>

    /** A request as it arrives: no user fields set yet. */
    constructor (authorization: Option<string>)
      ensures this.authorization == authorization
      ensures userId == None && userEmail == None && isAdmin == None
    {
      this.authorization := authorization;
      userId, userEmail, isAdmin := None, None, None;
    }
  }

  /**
   * `requireAuth(request, response, next)`: the returned gate is the reply
   * written or the single call to `next()`; the request's user fields are
   * filled from the verified claims exactly when `next()` is called.
   */
  method RequireAuth(request: Request, verify: string -> Option<JwtPayload>) returns (g: Gate)
    modifies request
    ensures g == Authenticate(request.authorization, verify)
    ensures g.Next? ==>
              var claims := verify(BearerToken(request.authorization).value).value;
              && request.userId == Some(claims.userId)
              && request.userEmail == Some(claims.email)
              && request.isAdmin == Some(claims.isAdmin)
    ensures g.Reject? ==> unchanged(request)
  {
    var header := request.authorization;
    if header == None || header == Some("") || !StartsWith(header.value, BearerPrefix) {
      return Reject(401, "Authorization header missing or invalid");
    }
    var token := Trim(header.value[|BearerPrefix|..]);
    var payload := verify(token);
    if payload.None? {
      return Reject(401, "Invalid or expired token");
    }
    request.userId := Some(payload.value.userId);
    request.userEmail := Some(payload.value.email);
    request.isAdmin := Some(payload.value.isAdmin);
    g := Next;
  }
}
