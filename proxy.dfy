/**
 * The route guard run before every page: given the request path and whether a user is
 * signed in, the request either passes through or is redirected to another path.
 */
module Proxy {
  import opened Base

  datatype Response = Next | Redirect(pathname: string)

  const PublicRoutes: seq<string> := ["/", "/login", "/signup"]

  /** Paths served without a session: the three public pages, and everything under `/callback` or `/api`. */
  predicate Open(pathname: string)
  {
    pathname in PublicRoutes || StartsWith(pathname, "/callback") || StartsWith(pathname, "/api")
  }

  predicate AuthPage(pathname: string)
  {
    pathname == "/login" || pathname == "/signup"
  }

  /** The routing decision of `proxy`. */
  function Route(pathname: string, authenticated: bool): (r: Response)
    ensures r == Redirect("/dashboard") <==> authenticated && AuthPage(pathname)
    ensures r == Redirect("/login") <==> !authenticated && !Open(pathname)
    ensures r.Redirect? ==> r.pathname == "/dashboard" || r.pathname == "/login"
    ensures Open(pathname) && !AuthPage(pathname) ==> r == Next
    ensures authenticated && !AuthPage(pathname) ==> r == Next
  {
    var isPublicRoute := pathname in PublicRoutes;
    var isCallbackRoute := StartsWith(pathname, "/callback");
    var isApiRoute := StartsWith(pathname, "/api");
    var isOnboardingRoute := pathname == "/onboarding";
    if isPublicRoute || isCallbackRoute || isApiRoute then
      if authenticated && (pathname == "/login" || pathname == "/signup") then Redirect("/dashboard")
      else Next
    else if !authenticated then Redirect("/login")
    else if isOnboardingRoute then Next
    else Next
  }

  /** Following a redirect, with the session unchanged, reaches a page that is served: there is no redirect loop. */
  lemma RedirectTargetServed(pathname: string, authenticated: bool)
    requires Route(pathname, authenticated).Redirect?
    ensures Route(Route(pathname, authenticated).pathname, authenticated) == Next
  {
  }

  /** Without a session only the open paths are served, and those always are. */
  lemma UnauthenticatedServesExactlyOpen(pathname: string)
    ensures Route(pathname, false) == Next <==> Open(pathname)
  {
  }

  /** With a session every path is served except the sign-in and sign-up pages. */
  lemma AuthenticatedServesAllButAuthPages(pathname: string)
    ensures Route(pathname, true) == Next <==> !AuthPage(pathname)
  {
  }
}
