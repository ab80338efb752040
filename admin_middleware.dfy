/**
 * `requireAdmin`: run after `requireAuth`, it lets a request through only
 * when the request carries a user identifier and that user is an admin.
 */
module AdminMiddleware {
  import opened Common
  import opened AuthMiddleware

  /** JavaScript truthiness of `request.userId`: undefined and 0 are falsy. */
  predicate HasUser(userId: Option<int>)
  {
    userId.Some? && userId.value != 0
  }

  /** The three-way decision of `requireAdmin`. */
  function RequireAdmin(userId: Option<int>, isAdmin: Option<bool>): (g: Gate)
    ensures g == Reject(401, "Unauthorized") <==> !HasUser(userId)
    ensures g == Reject(403, "Admin privileges required") <==> HasUser(userId) && isAdmin != Some(true)
    ensures g == Next <==> HasUser(userId) && isAdmin == Some(true)
  {
    if !HasUser(userId) then Reject(401, "Unauthorized")
    else if isAdmin != Some(true) then Reject(403, "Admin privileges required")
    else Next
  }

  /** The 401 check comes first: a request without a user never gets 403. */
  lemma NoUserNeverForbidden(isAdmin: Option<bool>)
    ensures RequireAdmin(None, isAdmin) == Reject(401, "Unauthorized")
    ensures RequireAdmin(Some(0), isAdmin) == Reject(401, "Unauthorized")
  {
  }

  /**
   * The admin routes run `requireAuth` then `requireAdmin` on a request that
   * arrives with no user fields; the first reject ends the chain.
   */
  function AdminChain(header: Option<string>, verify: string -> Option<JwtPayload>): Gate
  {
    match Authenticate(header, verify)
    case Reject(status, error) => Reject(status, error)
    case Next =>
      var claims := verify(BearerToken(header).value).value;
      RequireAdmin(Some(claims.userId), Some(claims.isAdmin))
  }

  /**
   * An admin route is reached exactly when the bearer token verifies to
   * claims with a non-zero user identifier and the admin flag set; every
   * other request is answered 401 or 403.
   */
  lemma AdminRouteReached(header: Option<string>, verify: string -> Option<JwtPayload>)
    ensures AdminChain(header, verify) == Next
            <==> && BearerToken(header).Some?
                 && verify(BearerToken(header).value).Some?
                 && verify(BearerToken(header).value).value.userId != 0
                 && verify(BearerToken(header).value).value.isAdmin
    ensures AdminChain(header, verify).Reject? ==> AdminChain(header, verify).status in {401, 403}
    ensures AdminChain(header, verify) == Reject(403, "Admin privileges required")
            ==> verify(BearerToken(header).value).Some? && !verify(BearerToken(header).value).value.isAdmin
  {
  }

  /** The chain run on a request object agrees with `AdminChain`. */
  method RunAdminChain(request: Request, verify: string -> Option<JwtPayload>) returns (g: Gate)
    modifies request
    ensures g == AdminChain(request.authorization, verify)
  {
    g := RequireAuth(request, verify);
    if g.Next? {
      g := RequireAdmin(request.userId, request.isAdmin);
    }
  }
}
