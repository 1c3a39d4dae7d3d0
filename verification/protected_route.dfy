/** The route guard: what a protected page renders for the auth context's state. */
module ProtectedRouteGuard {
  import opened Common
  import opened ClientData
  import opened AuthContextProvider

  datatype Rendered = Spinner | RedirectToLogin | AccessDenied | Children

  /** The guard's if-chain: loading first, then the missing user, then the admin check. */
  function Guard(loading: bool, user: Option<SessionUser>, requireAdmin: bool): Rendered
  {
    if loading then Spinner
    else if user.None? then RedirectToLogin
    else if requireAdmin && user.value.role != "admin" then AccessDenied
    else Children
  }

  /** The page renders exactly for a signed-in user once loading is over, and for an admin
      when the route requires one; each other outcome has its one cause. */
  lemma GuardOutcomes(loading: bool, user: Option<SessionUser>, requireAdmin: bool)
    ensures Guard(loading, user, requireAdmin) == Spinner <==> loading
    ensures Guard(loading, user, requireAdmin) == RedirectToLogin <==> !loading && user.None?
    ensures Guard(loading, user, requireAdmin) == AccessDenied <==> !loading && user.Some? && requireAdmin && !IsAdminUser(user)
    ensures Guard(loading, user, requireAdmin) == Children <==> !loading && user.Some? && (!requireAdmin || IsAdminUser(user))
  {
  }

  /** Without `requireAdmin` the role plays no part. */
  lemma RoleIrrelevant(loading: bool, u1: SessionUser, u2: SessionUser)
    ensures Guard(loading, Some(u1), false) == Guard(loading, Some(u2), false)
  {
  }

  /** Read against the auth context: an admin route renders exactly when loading is over
      and `isAdmin()` holds, any other protected route exactly when `isAuthenticated`
      holds. */
  lemma GuardOfSession(session: Session)
    ensures Guard(session.loading, session.user, true) == Children <==> !session.loading && session.IsAdmin()
    ensures Guard(session.loading, session.user, false) == Children <==> !session.loading && session.IsAuthenticated()
    ensures session.IsAdmin() ==> session.IsAuthenticated()
  {
  }
}
