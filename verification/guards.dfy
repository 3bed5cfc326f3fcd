/** The two navigation guards (src/router/guards/authGuard.ts and
    roleGuard.ts). Each reads the target route's meta flags and the auth
    store's flags and calls `next` exactly once; the call is modelled as the
    returned `Navigation`. */
module RouteGuards {
  import opened Text

  /** Route meta flags; an absent flag is false. */
  datatype RouteMeta = RouteMeta(requiresAuth: bool, requiresVerified: bool, requiresAdmin: bool)

  datatype Route = Route(fullPath: string, meta: RouteMeta)

  /** The one `next` call: `next()` or `next(target)`, where the target may
      carry a `redirect` query. */
  datatype Navigation =
    | Proceed
    | Redirect(path: string, redirectQuery: Option<string>)

  const LoginPath: string := "/login"
  const PendingVerificationPath: string := "/pending-verification"
  const HomePath: string := "/"

  /** May the user pass the authentication check? */
  predicate AuthAdmits(meta: RouteMeta, isAuthenticated: bool, isVerified: bool) {
    !meta.requiresAuth || (isAuthenticated && (!meta.requiresVerified || isVerified))
  }

  /** `authGuard`: a protected route needs a signed-in user, who is sent to
      the login page with the intended path as `redirect`; a route that also
      needs verification sends an unverified user to the waiting page. */
  function AuthGuard(to: Route, isAuthenticated: bool, isVerified: bool): (r: Navigation)
    ensures r == Proceed <==> AuthAdmits(to.meta, isAuthenticated, isVerified)
    ensures r.Redirect? ==> to.meta.requiresAuth
    ensures r.Redirect? && r.path == LoginPath <==> to.meta.requiresAuth && !isAuthenticated
    ensures r.Redirect? && r.path == LoginPath ==> r.redirectQuery == Some(to.fullPath)
    ensures r.Redirect? && r.path != LoginPath ==> r == Redirect(PendingVerificationPath, None)
  {
    if to.meta.requiresAuth then
      if !isAuthenticated then Redirect(LoginPath, Some(to.fullPath))
      else if to.meta.requiresVerified && !isVerified then Redirect(PendingVerificationPath, None)
      else Proceed
    else Proceed
  }

  /** Without `requiresAuth` the verification flag is never consulted. */
  lemma VerifiedFlagNeedsAuthFlag(to: Route, isAuthenticated: bool, isVerified: bool, requiresVerified: bool)
    requires !to.meta.requiresAuth
    ensures AuthGuard(to.(meta := to.meta.(requiresVerified := requiresVerified)), isAuthenticated, isVerified) == Proceed
  {
  }

  /** A signed-in, verified user passes every authentication check. */
  lemma VerifiedUserAlwaysAdmitted(to: Route)
    ensures AuthGuard(to, true, true) == Proceed
  {
  }

  /** `roleGuard`: an admin-only route sends everybody but an admin home. */
  function RoleGuard(to: Route, isAdmin: bool): (r: Navigation)
    ensures r == Proceed <==> !to.meta.requiresAdmin || isAdmin
    ensures r != Proceed ==> r == Redirect(HomePath, None)
  {
    if to.meta.requiresAdmin && !isAdmin then Redirect(HomePath, None) else Proceed
  }
}
