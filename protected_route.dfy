/**
 * The client route guard: a spinner while the session loads, the login page without a
 * user, the profile page for a non-admin on an admin route, and the route itself otherwise.
 */
module ProtectedRoute {
  import opened Wrappers
  import opened UserModel
  import opened ClientSession

  datatype View = Spinner | RedirectTo(path: string) | RenderChild

  /** `ProtectedRoute({ adminOnly })`, given the session's `user` and `loading`. */
  function Guard(loading: bool, user: Option<SessionUser>, adminOnly: bool): (v: View)
    ensures loading ==> v == Spinner
    ensures !loading && user.None? ==> v == RedirectTo("/login")
    ensures v == RedirectTo("/profile") <==> !loading && user.Some? && adminOnly && user.value.role != Admin
    ensures v == RenderChild <==> !loading && user.Some? && (!adminOnly || user.value.role == Admin)
  {
    if loading then Spinner
    else if user.None? then RedirectTo("/login")
    else if adminOnly && user.value.role != Admin then RedirectTo("/profile")
    else RenderChild
  }

  /** A route that is not admin-only admits every logged-in role, and an admin-only route
      admits exactly the admins. */
  lemma GuardAdmits(user: SessionUser)
    ensures Guard(false, Some(user), false) == RenderChild
    ensures Guard(false, Some(user), true) == RenderChild <==> user.role == Admin
  {
  }
}
