/** The guard around every admin page (src/app/admin/layout.tsx): the
    redirect its effect issues, and what it renders, from the signed-in user,
    whether that user is still loading, and the current path. */
module AdminLayout {
  import opened Types

  /** The signed-in user, as far as the guard looks at it. */
  datatype User = User(email: Option<string>)

  /** `!!user?.email`. */
  predicate IsAdmin(user: Option<User>) {
    user.Some? && Truthy(user.value.email)
  }

  const LoginPath := "/login"
  const AdminPath := "/admin"

  /** What the effect does: nothing, or `router.replace(path)`. */
  datatype Redirect = Stay | ReplaceWith(path: string)

  /** The effect: nothing while the user loads; a non-admin anywhere but the
      login page goes to it; an admin on the login page goes to the admin
      home. */
  function RedirectFor(user: Option<User>, isUserLoading: bool, pathname: string): (r: Redirect)
    ensures isUserLoading ==> r == Stay
    ensures r.ReplaceWith? ==> r.path == LoginPath || r.path == AdminPath
    ensures !isUserLoading && !IsAdmin(user) && pathname != LoginPath ==> r == ReplaceWith(LoginPath)
    ensures !isUserLoading && IsAdmin(user) && pathname == LoginPath ==> r == ReplaceWith(AdminPath)
    ensures (!IsAdmin(user) && pathname == LoginPath) || (IsAdmin(user) && pathname != LoginPath) ==> r == Stay
  {
    if isUserLoading then Stay
    else if !IsAdmin(user) && pathname != LoginPath then ReplaceWith(LoginPath)
    else if IsAdmin(user) && pathname == LoginPath then ReplaceWith(AdminPath)
    else Stay
  }

  /** What is rendered: the page alone, a loading placeholder, or the page
      under the admin header. */
  datatype View = PageOnly | Placeholder | WithAdminHeader

  function ViewFor(user: Option<User>, isUserLoading: bool, pathname: string): (v: View)
    ensures pathname == LoginPath ==> v == PageOnly
    ensures v == WithAdminHeader <==> pathname != LoginPath && !isUserLoading && IsAdmin(user)
  {
    if pathname == LoginPath then PageOnly
    else if isUserLoading || !IsAdmin(user) then Placeholder
    else WithAdminHeader
  }

  /** Admin pages are shown only to an admin, and then nothing redirects. */
  lemma AdminPagesGuarded(user: Option<User>, isUserLoading: bool, pathname: string)
    requires pathname != LoginPath
    ensures ViewFor(user, isUserLoading, pathname) != Placeholder <==> IsAdmin(user) && !isUserLoading
    ensures ViewFor(user, isUserLoading, pathname) == WithAdminHeader ==> RedirectFor(user, isUserLoading, pathname) == Stay
  {
  }

  /** Whoever is sent away is not shown the admin page meanwhile: a
      redirect happens on the login page, which shows only itself, or on a
      placeholder. */
  lemma RedirectNeverShowsAdmin(user: Option<User>, isUserLoading: bool, pathname: string)
    requires RedirectFor(user, isUserLoading, pathname).ReplaceWith?
    ensures ViewFor(user, isUserLoading, pathname) != WithAdminHeader
  {
  }

  /** Following the redirect settles: on the page it leads to, nothing
      redirects again. */
  lemma RedirectSettles(user: Option<User>, pathname: string)
    requires RedirectFor(user, false, pathname).ReplaceWith?
    ensures RedirectFor(user, false, RedirectFor(user, false, pathname).path) == Stay
  {
  }

  /** After the redirect an admin sees the admin home under the header, and
      anyone else sees the login page. */
  lemma RedirectLanding(user: Option<User>, pathname: string)
    requires RedirectFor(user, false, pathname).ReplaceWith?
    ensures var target := RedirectFor(user, false, pathname).path;
      ViewFor(user, false, target) == if IsAdmin(user) then WithAdminHeader else PageOnly
  {
  }
}
