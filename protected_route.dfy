/**
 * The route guard in front of the admin pages: a chain of guarded returns
 * deciding between the loading placeholder, a redirect to the login page
 * and the protected children.
 */
module ProtectedRoute {
  import opened Wrappers

  /** The signed-in user; the role may be missing. */
  datatype User = User(role: Option<string>)

  /**
   * What the guard does. `Fails` is the `TypeError` thrown when an admin-only
   * route reads the role of an authenticated but absent user.
   */
  datatype Outcome = Loading | RedirectToLogin(url: string) | Fails | RenderChildren

  /** The login page, under the configured front-end URL. */
  function LoginUrl(frontendUrl: string): string {
    frontendUrl + "/auth/login"
  }

  predicate IsAdmin(user: Option<User>) {
    user.Some? && user.value.role == Some("admin")
  }

  /** `ProtectedRoute`. */
  function Decide(loading: bool, isAuthenticated: bool, user: Option<User>, adminOnly: bool, frontendUrl: string)
    : (r: Outcome)
    ensures r == Loading <==> loading
    ensures !loading && isAuthenticated && adminOnly && user.Some? && !IsAdmin(user) ==>
              r == RedirectToLogin(LoginUrl(frontendUrl))
    ensures !loading && !isAuthenticated ==> r == RedirectToLogin(LoginUrl(frontendUrl))
    ensures r.RedirectToLogin? ==> r.url == LoginUrl(frontendUrl)
    ensures r.RedirectToLogin? && isAuthenticated ==> adminOnly && !IsAdmin(user)
    ensures r == Fails <==> !loading && isAuthenticated && adminOnly && user.None?
    ensures r == RenderChildren <==> !loading && isAuthenticated && (!adminOnly || IsAdmin(user))
  {
    if loading then Loading
    else if !isAuthenticated then RedirectToLogin(LoginUrl(frontendUrl))
    else if adminOnly && user.None? then Fails
    else if adminOnly && user.value.role != Some("admin") then RedirectToLogin(LoginUrl(frontendUrl))
    else RenderChildren
  }

  /** Outside admin-only routes the user record is never consulted: any two
      users get the same outcome. */
  lemma UserIrrelevantOffAdminRoutes(loading: bool, isAuthenticated: bool, u1: Option<User>, u2: Option<User>,
                                     frontendUrl: string)
    ensures Decide(loading, isAuthenticated, u1, false, frontendUrl)
         == Decide(loading, isAuthenticated, u2, false, frontendUrl)
  {
  }
}
