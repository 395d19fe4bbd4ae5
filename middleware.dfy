/** The route gate of src/middleware.ts: it reads the "auth" cookie and the
    request path and either lets the request through or redirects it. */
module Middleware {
  import opened Wrappers

  datatype Outcome = Next | Redirect(pathname: string)

  /** `config.matcher`: the paths the gate runs on. */
  const MATCHER: seq<string> := ["/", "/login", "/chat", "/profile"]

  /** `req.cookies.get("auth")?.value === "true"` */
  predicate IsLoggedIn(authCookie: Option<string>)
  {
    authCookie == Some("true")
  }

  /** `s.startsWith(prefix)` */
  predicate StartsWith(s: string, prefix: string)
  {
    prefix <= s
  }

  predicate Protected(pathname: string)
  {
    StartsWith(pathname, "/chat") || StartsWith(pathname, "/profile")
  }

  /** Two strings that differ at an index both have are not prefixes of
      each other. */
  lemma DifferAt(a: string, b: string, k: nat)
    requires k < |a| && k < |b| && a[k] != b[k]
    ensures !StartsWith(a, b) && !StartsWith(b, a)
  {
  }

  /** The gated prefixes are pairwise unrelated. */
  lemma GatedPrefixesDistinct()
    ensures !StartsWith("/login", "/chat") && !StartsWith("/chat", "/login")
    ensures !StartsWith("/login", "/profile") && !StartsWith("/profile", "/login")
  {
    DifferAt("/login", "/chat", 1);
    DifferAt("/login", "/profile", 1);
  }

  /** `middleware` */
  function Decide(authCookie: Option<string>, pathname: string): (o: Outcome)
    ensures o == Redirect("/login") <==> !IsLoggedIn(authCookie) && Protected(pathname)
    ensures o == Redirect("/chat") <==> IsLoggedIn(authCookie) && StartsWith(pathname, "/login")
    ensures o.Redirect? ==> o.pathname == "/login" || o.pathname == "/chat"
  {
    var loggedIn := IsLoggedIn(authCookie);
    if !loggedIn && Protected(pathname) then Redirect("/login")
    else if loggedIn && StartsWith(pathname, "/login") then Redirect("/chat")
    else Next
  }

  /** Following a redirect with the same cookie is let through: the gate
      never redirects twice in a row. */
  lemma NoRedirectLoop(authCookie: Option<string>, pathname: string)
    requires Decide(authCookie, pathname).Redirect?
    ensures Decide(authCookie, Decide(authCookie, pathname).pathname) == Next
  {
    GatedPrefixesDistinct();
  }

  /** Only the literal "true" logs in: another value or no cookie does not. */
  lemma CookieMustBeExactlyTrue()
    ensures !IsLoggedIn(None) && !IsLoggedIn(Some("True")) && !IsLoggedIn(Some(""))
    ensures IsLoggedIn(Some("true"))
  {
  }

  /** The outcome on each matched path, in both login states; the root is
      always let through. */
  lemma MatchedPathOutcomes(authCookie: Option<string>)
    ensures Decide(authCookie, "/") == Next
    ensures Decide(authCookie, "/chat") == if IsLoggedIn(authCookie) then Next else Redirect("/login")
    ensures Decide(authCookie, "/profile") == if IsLoggedIn(authCookie) then Next else Redirect("/login")
    ensures Decide(authCookie, "/login") == if IsLoggedIn(authCookie) then Redirect("/chat") else Next
  {
    assert !("/chat" <= "/") && !("/profile" <= "/") && !("/login" <= "/");
    GatedPrefixesDistinct();
  }

  /** The tests are prefix tests: paths that only start like a gated one
      are gated too. */
  lemma PrefixGating()
    ensures Decide(None, "/chatroom") == Redirect("/login")
    ensures Decide(None, "/profile/edit") == Redirect("/login")
    ensures Decide(Some("true"), "/loginx") == Redirect("/chat")
  {
    assert "/chat" <= "/chatroom";
    assert "/profile" <= "/profile/edit";
    assert "/login" <= "/loginx";
  }
}
