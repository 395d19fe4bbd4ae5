/** The mocked credential check of src/app/api/login/route.ts. The JSON
    body is reduced to its `email` and `password` fields; a missing field or
    one that is not a string is `None`. */
module Login {
  import opened Wrappers
  import Middleware

  const MOCKED_EMAIL: string := "test@example.com"
  const MOCKED_PASSWORD: string := "password123"
  const ONE_WEEK_SECONDS: nat := 60 * 60 * 24 * 7

  datatype SameSite = Lax | Strict | NoRestriction

  datatype Cookie = Cookie(name: string, value: string, httpOnly: bool, sameSite: SameSite,
                           secure: bool, maxAge: nat, path: string)

  datatype LoginResponse =
    | LoggedIn(cookie: Cookie)             // `{ ok: true }` with the cookie set
    | Rejected(status: nat, error: string) // `{ ok: false, error }`

  /** The cookie a successful login sets; `secure` only in production. */
  function AuthCookie(production: bool): Cookie
  {
    Cookie("auth", "true", true, Lax, production, ONE_WEEK_SECONDS, "/")
  }

  /** `POST` */
  function Post(email: Option<string>, password: Option<string>, production: bool): (r: LoginResponse)
    ensures r.LoggedIn? <==> email == Some(MOCKED_EMAIL) && password == Some(MOCKED_PASSWORD)
    ensures r.LoggedIn? ==> r.cookie == AuthCookie(production)
    ensures r.Rejected? ==> r == Rejected(401, "Invalid credentials")
  {
    if email == Some(MOCKED_EMAIL) && password == Some(MOCKED_PASSWORD) then LoggedIn(AuthCookie(production))
    else Rejected(401, "Invalid credentials")
  }

  /** The cookie attributes: one week, the whole site, not readable from
      scripts, same-site "lax". */
  lemma CookieAttributes(production: bool)
    ensures var c := AuthCookie(production);
      c.name == "auth" && c.value == "true" && c.httpOnly && c.sameSite == Lax &&
      c.maxAge == 604800 && c.path == "/" && (c.secure <==> production)
  {
  }

  /** A rejection does not tell which field was wrong. */
  lemma RejectionsAlike(e1: Option<string>, p1: Option<string>, e2: Option<string>, p2: Option<string>, production: bool)
    requires Post(e1, p1, production).Rejected? && Post(e2, p2, production).Rejected?
    ensures Post(e1, p1, production) == Post(e2, p2, production)
  {
  }

  /** The cookie set by a login is the one the route gate accepts: after
      logging in, "/chat" is let through and "/login" sends to "/chat". */
  lemma LoginOpensChat(production: bool)
    ensures var r := Post(Some(MOCKED_EMAIL), Some(MOCKED_PASSWORD), production);
      r.LoggedIn? && Middleware.IsLoggedIn(Some(r.cookie.value)) &&
      Middleware.Decide(Some(r.cookie.value), "/chat") == Middleware.Next &&
      Middleware.Decide(Some(r.cookie.value), "/login") == Middleware.Redirect("/chat")
  {
    Middleware.MatchedPathOutcomes(Some("true"));
  }
}
