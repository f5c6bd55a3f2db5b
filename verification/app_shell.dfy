/** The application shell: which of the two navigation bars is shown,
    derived from the current route and the published admin. */
module AppShell {
  import opened Js
  import opened Text
  import Auth

  /** The two flags the shell keeps up to date. */
  datatype Shell = Shell(isAdminRoute: bool, isLoggedIn: bool)

  /** The flags before any navigation or admin has been seen. */
  function Initial(): (r: Shell)
    ensures !r.isAdminRoute && !r.isLoggedIn
  {
    Shell(false, false)
  }

  /** A finished navigation: the route is an admin route when its URL
      starts with `/admin`; the login flag is kept. */
  function OnNavigationEnd(sh: Shell, url: string): (r: Shell)
    ensures r.isAdminRoute <==> StartsWith(url, "/admin")
    ensures r.isLoggedIn == sh.isLoggedIn
  {
    sh.(isAdminRoute := StartsWith(url, "/admin"))
  }

  /** A newly published admin: signed in when it is not `null`; the route
      flag is kept. */
  function OnAdminChanged(sh: Shell, admin: Value): (r: Shell)
    ensures r.isLoggedIn <==> admin != Null
    ensures r.isAdminRoute == sh.isAdminRoute
  {
    sh.(isLoggedIn := admin != Null)
  }

  predicate ShowAdminNavbar(sh: Shell) {
    sh.isAdminRoute && sh.isLoggedIn
  }

  predicate ShowUserNavbar(sh: Shell) {
    !sh.isAdminRoute || !sh.isLoggedIn
  }

  /** In every state exactly one of the two bars is shown. */
  lemma ExactlyOneNavbar(sh: Shell)
    ensures ShowAdminNavbar(sh) != ShowUserNavbar(sh)
  {
  }

  /** The shell's login flag follows the session: after the session's admin
      is published, the shell agrees with `isLoggedIn`, and the admin bar is
      shown exactly on admin routes of a signed-in session. */
  lemma ShellFollowsSession(sh: Shell, s: Auth.Session, url: string)
    ensures OnAdminChanged(sh, Auth.CurrentAdmin(s)).isLoggedIn == Auth.IsLoggedIn(s)
    ensures ShowAdminNavbar(OnAdminChanged(OnNavigationEnd(sh, url), Auth.CurrentAdmin(s)))
            <==> StartsWith(url, "/admin") && Auth.IsLoggedIn(s)
  {
  }

  /** The prefix test is textual: `/administrator` counts as an admin
      route, `/Admin` and `/shop/admin` do not. */
  lemma AdminPrefixIsTextual(sh: Shell)
    ensures OnNavigationEnd(sh, "/administrator").isAdminRoute
    ensures !OnNavigationEnd(sh, "/Admin").isAdminRoute
    ensures !OnNavigationEnd(sh, "/shop/admin").isAdminRoute
  {
    assert "/administrator"[..6] == "/admin";
    assert "/Admin"[1] != "/admin"[1];
    assert "/shop/admin"[1] != "/admin"[1];
  }

  /** Signing out while on an admin page brings the user bar back. */
  lemma LogoutShowsUserNavbar(sh: Shell, s: Auth.Session)
    ensures ShowUserNavbar(OnAdminChanged(sh, Auth.CurrentAdmin(Auth.Logout(s))))
  {
  }
}
