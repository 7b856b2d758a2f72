/** The route guard in front of the admin pages. Token verification (signature and expiry) is the
    parameter `verifies`; the decision is a value: pass through, or redirect, possibly deleting the
    session cookie. */
module Middleware {
  import opened Text

  /** The session cookie's name. */
  const CookieName: string := "admin_token"
  /** Where unauthenticated requests are sent. */
  const LoginPath: string := "/admin/login"

  datatype Decision =
    | Next
    | Redirect(location: string, deletedCookies: seq<string>)

  /** Paths under "/admin", except those under "/admin/login", are guarded. */
  predicate IsProtected(pathname: string) {
    StartsWith(pathname, "/admin") && !StartsWith(pathname, LoginPath)
  }

  /** `request.cookies.get("admin_token")?.value`, with a missing cookie read as "". */
  function TokenOf(cookies: map<string, string>): string {
    if CookieName in cookies then cookies[CookieName] else ""
  }

  /** `middleware(request)`. */
  function Guard(pathname: string, cookies: map<string, string>, verifies: string -> bool): Decision {
    if IsProtected(pathname) then
      var token := TokenOf(cookies);
      if token == "" then Redirect(LoginPath, [])
      else if !verifies(token) then Redirect(LoginPath, [CookieName])
      else Next
    else Next
  }

  /** A request passes exactly when its path is unguarded or it carries a token that verifies. */
  lemma PassesIff(pathname: string, cookies: map<string, string>, verifies: string -> bool)
    ensures Guard(pathname, cookies, verifies) == Next <==>
              !IsProtected(pathname) || (TokenOf(cookies) != "" && verifies(TokenOf(cookies)))
  {
  }

  /** Paths outside "/admin" and the login pages pass, whatever the cookies and the verifier say:
      the cookie is not read, so the login page never redirects to itself. */
  lemma UnguardedPaths(pathname: string, c1: map<string, string>, v1: string -> bool,
                       c2: map<string, string>, v2: string -> bool)
    requires !StartsWith(pathname, "/admin") || StartsWith(pathname, LoginPath)
    ensures Guard(pathname, c1, v1) == Next
    ensures Guard(pathname, c1, v1) == Guard(pathname, c2, v2)
  {
  }

  /** The redirect target itself is never guarded. */
  lemma LoginPathUnguarded()
    ensures !IsProtected(LoginPath)
    ensures StartsWith("/admin/users", "/admin") && IsProtected("/admin/users")
  {
    assert "/admin/users"[7] != LoginPath[7];
  }

  /** A guarded path without a session cookie is redirected to the login page and nothing is deleted;
      one whose token fails verification is redirected and the cookie is deleted. */
  lemma GuardedOutcomes(pathname: string, cookies: map<string, string>, verifies: string -> bool)
    requires IsProtected(pathname)
    ensures TokenOf(cookies) == "" ==> Guard(pathname, cookies, verifies) == Redirect(LoginPath, [])
    ensures TokenOf(cookies) != "" && !verifies(TokenOf(cookies)) ==>
              Guard(pathname, cookies, verifies) == Redirect(LoginPath, [CookieName])
    ensures TokenOf(cookies) != "" && verifies(TokenOf(cookies)) ==>
              Guard(pathname, cookies, verifies) == Next
  {
  }

  /** Every redirect goes to the login page, and the session cookie is the only one ever deleted. */
  lemma RedirectShape(pathname: string, cookies: map<string, string>, verifies: string -> bool)
    ensures Guard(pathname, cookies, verifies).Redirect? ==>
              var d := Guard(pathname, cookies, verifies);
              d.location == LoginPath && forall c :: c in d.deletedCookies ==> c == CookieName
  {
  }
}
