/** The request gate of middleware.ts: which requests Next.js routes through
    it, and for those, whether the request goes on or is sent to the login
    page, clearing a session cookie that did not verify. The JWT check of
    lib/jwt.ts is a parameter: a predicate on the token. */
module Middleware {
  import opened Wrappers
  import opened Strings

  const LoginPath: string := "/login"

  /** The prefix of the authentication routes. */
  const AuthPrefix: string := "/api/auth"

  /** The session cookie the gate reads and, on a bad token, deletes. */
  const SessionCookie: string := "admin-token"

  /** What the middleware answers. */
  datatype Decision =
    | Next
    | Redirect(location: string, deleteCookie: Option<string>)

  /** `pathname === '/login' || pathname.startsWith('/api/auth')`. */
  predicate IsPublic(pathname: string)
  {
    pathname == LoginPath || StartsWith(pathname, AuthPrefix)
  }

  /** `middleware(request)`: `token` is the value of the `admin-token`
      cookie, if there is one; `verify` stands for `verifyToken`, which
      answers a payload or, on any failure, `null`. */
  function Gate(pathname: string, token: Option<string>, verify: string -> bool): Decision
  {
    if IsPublic(pathname) then Next
    else if token.None? || token.value == "" then Redirect(LoginPath, None)
    else if !verify(token.value) then Redirect(LoginPath, Some(SessionCookie))
    else Next
  }

  /** `favicon.ico` as the matcher's regular expression reads it, where `.`
      is any character. */
  predicate FaviconLike(s: string)
  {
    |s| >= 11 && s[..7] == "favicon" && s[8..11] == "ico"
  }

  /** `config.matcher`, `/((?!_next/static|_next/image|favicon.ico).*)`:
      every path except the static assets, the image optimiser and the icon. */
  predicate Matched(pathname: string)
  {
    |pathname| >= 1 && pathname[0] == '/'
    && !StartsWith(pathname[1..], "_next/static")
    && !StartsWith(pathname[1..], "_next/image")
    && !FaviconLike(pathname[1..])
  }

  /** What a request meets: the gate on matched paths, nothing otherwise. */
  function Handle(pathname: string, token: Option<string>, verify: string -> bool): Decision
  {
    if Matched(pathname) then Gate(pathname, token, verify) else Next
  }

  /** The login page and the authentication routes pass whatever the cookie;
      any other path passes exactly when it carries a token that verifies,
      and otherwise goes to `/login`. */
  lemma GateSpec(pathname: string, token: Option<string>, verify: string -> bool)
    ensures IsPublic(pathname) ==> Gate(pathname, token, verify) == Next
    ensures Gate(pathname, token, verify).Next?
            <==> IsPublic(pathname) || (token.Some? && token.value != "" && verify(token.value))
    ensures Gate(pathname, token, verify).Redirect? ==> Gate(pathname, token, verify).location == LoginPath
  {
  }

  /** The session cookie is deleted exactly when a non-empty token fails to
      verify on a protected path, and a missing cookie is never deleted. */
  lemma CookieDeletedIff(pathname: string, token: Option<string>, verify: string -> bool)
    ensures var d := Gate(pathname, token, verify);
      (d.Redirect? && d.deleteCookie.Some?)
      <==> !IsPublic(pathname) && token.Some? && token.value != "" && !verify(token.value)
    ensures var d := Gate(pathname, token, verify);
      d.Redirect? && d.deleteCookie.Some? ==> d.deleteCookie.value == SessionCookie
    ensures token.None? ==> Gate(pathname, token, verify) != Redirect(LoginPath, Some(SessionCookie))
  {
  }

  /** The decision does not depend on the verifier for the public paths, nor
      on what the verifier says of tokens other than the one presented. */
  lemma GateReadsOnlyToken(pathname: string, token: Option<string>, v1: string -> bool, v2: string -> bool)
    requires token.Some? && token.value != "" ==> v1(token.value) == v2(token.value)
    ensures Gate(pathname, token, v1) == Gate(pathname, token, v2)
  {
  }

  lemma PrefixOfAppend(p: string, rest: string)
    ensures StartsWith(p + rest, p)
  {
    assert (p + rest)[..|p|] == p;
  }

  /** The matcher leaves out the static assets, the image optimiser and the
      icon, whatever follows them; those requests meet no gate. */
  lemma MatcherSkipsAssets(asset: string, rest: string, token: Option<string>, verify: string -> bool)
    requires asset == "_next/static" || asset == "_next/image" || asset == "favicon.ico"
    ensures !Matched("/" + (asset + rest))
    ensures Handle("/" + (asset + rest), token, verify) == Next
  {
    var tail := asset + rest;
    assert ("/" + tail)[1..] == tail;
    PrefixOfAppend(asset, rest);
    if asset == "favicon.ico" {
      assert tail[..7] == asset[..7] && tail[8..11] == asset[8..11];
    }
  }

  /** Every other path, such as `/dashboard`, `/login` or `/api/auth/login`,
      goes through the gate: one whose first segment starts with neither `_`
      nor `f` is matched. */
  lemma PagesAreMatched(pathname: string, token: Option<string>, verify: string -> bool)
    requires |pathname| >= 2 && pathname[0] == '/' && pathname[1] != '_' && pathname[1] != 'f'
    ensures Matched(pathname)
    ensures Handle(pathname, token, verify) == Gate(pathname, token, verify)
  {
    var s := pathname[1..];
    assert s[0] == pathname[1];
    if |s| >= 12 {
      assert s[..12][0] != "_next/static"[0];
    }
    if |s| >= 11 {
      assert s[..11][0] != "_next/image"[0];
      assert s[..7][0] != "favicon"[0];
    }
  }

  /** `startsWith('/api/auth')` is a plain prefix test: `/api/authors` is public as well. */
  lemma AuthPrefixIsTextual(token: Option<string>, verify: string -> bool)
    ensures Gate("/api/authors", token, verify) == Next
  {
    assert "/api/authors"[..9] == AuthPrefix;
  }
}
