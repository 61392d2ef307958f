/** The page guard of middleware.tsx: classify the path by prefix and
    decide, from whether the `sb-access-token` cookie is present, to send
    the visitor to the login page, to the dashboard, or on. */
module Middleware {
  import opened Base
  import opened JsText

  const LoginPath := "/auth/login"
  const DashboardPath := "/dashboard"

  const ProtectedPrefixes: seq<string> := ["/dashboard", "/tasks", "/requests", "/members", "/profile", "/settings"]
  const AuthPrefixes: seq<string> := ["/auth", "/login", "/register"]

  /** The paths that need a session. */
  predicate IsProtectedPath(path: string)
  {
    StartsWith(path, "/dashboard") || StartsWith(path, "/tasks")
    || StartsWith(path, "/requests") || StartsWith(path, "/members")
    || StartsWith(path, "/profile") || StartsWith(path, "/settings")
  }

  /** The sign-in and sign-up pages. */
  predicate IsAuthPath(path: string)
  {
    StartsWith(path, "/auth") || StartsWith(path, "/login") || StartsWith(path, "/register")
  }

  /** `RedirectToLogin(p)` is a redirect to `/auth/login?redirect=p`. */
  datatype Decision = RedirectToLogin(redirect: string) | RedirectToDashboard | PassThrough

  /** Where a redirect points: the login page is an auth page and not a
      protected one, the dashboard the reverse. */
  function Target(d: Decision): (url: string)
    requires !d.PassThrough?
    ensures d.RedirectToLogin? ==> IsAuthPath(url) && !IsProtectedPath(url)
    ensures d.RedirectToDashboard? ==> IsProtectedPath(url) && !IsAuthPath(url)
  {
    assert LoginPath[..5] == "/auth";
    assert DashboardPath[..10] == "/dashboard";
    ProtectedAndAuthDisjoint(LoginPath);
    ProtectedAndAuthDisjoint(DashboardPath);
    if d.RedirectToLogin? then LoginPath else DashboardPath
  }

  /** `middleware`: `token` is the cookie when the request carries one,
      whatever its value. */
  function Decide(path: string, token: Option<string>): (d: Decision)
    ensures d.RedirectToLogin? <==> IsProtectedPath(path) && token.None?
    ensures d.RedirectToLogin? ==> d.redirect == path
    ensures d.RedirectToDashboard? <==> IsAuthPath(path) && token.Some?
    ensures d.PassThrough? <==> (IsProtectedPath(path) ==> token.Some?) && (IsAuthPath(path) ==> token.None?)
  {
    if IsProtectedPath(path) && token.None? then RedirectToLogin(path)
    else if IsAuthPath(path) && token.Some? then RedirectToDashboard
    else PassThrough
  }

  /** The two lists are the prefixes the predicates test. */
  lemma PrefixLists(path: string)
    ensures IsProtectedPath(path) <==> exists i :: 0 <= i < |ProtectedPrefixes| && StartsWith(path, ProtectedPrefixes[i])
    ensures IsAuthPath(path) <==> exists i :: 0 <= i < |AuthPrefixes| && StartsWith(path, AuthPrefixes[i])
  {
    if IsProtectedPath(path) {
      if StartsWith(path, "/dashboard") { assert StartsWith(path, ProtectedPrefixes[0]); }
      else if StartsWith(path, "/tasks") { assert StartsWith(path, ProtectedPrefixes[1]); }
      else if StartsWith(path, "/requests") { assert StartsWith(path, ProtectedPrefixes[2]); }
      else if StartsWith(path, "/members") { assert StartsWith(path, ProtectedPrefixes[3]); }
      else if StartsWith(path, "/profile") { assert StartsWith(path, ProtectedPrefixes[4]); }
      else { assert StartsWith(path, ProtectedPrefixes[5]); }
    }
    if IsAuthPath(path) {
      if StartsWith(path, "/auth") { assert StartsWith(path, AuthPrefixes[0]); }
      else if StartsWith(path, "/login") { assert StartsWith(path, AuthPrefixes[1]); }
      else { assert StartsWith(path, AuthPrefixes[2]); }
    }
  }

  /** No path is both protected and an authentication page, so the two
      redirects never compete. */
  lemma ProtectedAndAuthDisjoint(path: string)
    ensures !(IsProtectedPath(path) && IsAuthPath(path))
  {
    if IsProtectedPath(path) {
      ProtectedShape(path);
      if IsAuthPath(path) {
        AuthShape(path);
      }
    }
  }

  /** What a protected path looks like at positions 1 and 3. */
  lemma ProtectedShape(path: string)
    requires IsProtectedPath(path)
    ensures |path| >= 6 && path[1] in "dtrmps"
    ensures path[1] == 'r' ==> path[3] == 'q'
  {
  }

  /** What an authentication path looks like at positions 1 and 3. */
  lemma AuthShape(path: string)
    requires IsAuthPath(path)
    ensures |path| >= 5 && path[1] in "alr"
    ensures path[1] == 'r' ==> path[3] == 'g'
  {
  }

  /** Only the presence of the cookie matters, never its value. */
  lemma PresenceOnly(path: string, a: string, b: string)
    ensures Decide(path, Some(a)) == Decide(path, Some(b))
  {
  }

  /** A plain prefix test: `/tasksx` is protected. */
  lemma PrefixNotSegment()
    ensures IsProtectedPath("/tasksx")
    ensures Decide("/tasksx", None) == RedirectToLogin("/tasksx")
  {
    assert "/tasksx"[..6] == "/tasks";
  }

  /** Following a redirect with the same cookie state passes through: the
      login page is an authentication page the visitor without a cookie
      may see, and the dashboard is a protected page the visitor with one
      may see. */
  lemma {:induction false} RedirectsSettle(path: string, token: Option<string>)
    requires !Decide(path, token).PassThrough?
    ensures Decide(Target(Decide(path, token)), token) == PassThrough
  {
  }
}
