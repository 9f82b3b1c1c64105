/**
 * The JWT cookie helpers (CookieUtil): issuing the token cookie, issuing the cookie that
 * clears it, and reading the token back from the request's cookies.
 */
module Cookies {
  import opened Wrappers

  /** The `jwt.cookie.*` configuration values. */
  datatype CookieConfig = CookieConfig(cookieName: string, maxAgeSeconds: int, httpOnly: bool, secure: bool, path: string)

  /** A Set-Cookie value as `ResponseCookie` builds it. */
  datatype ResponseCookie = ResponseCookie(
    name: string, value: string, httpOnly: bool, secure: bool, path: string, maxAge: int, sameSite: string)

  /** A cookie sent with the request. */
  datatype RequestCookie = RequestCookie(name: string, value: string)

  /** The `IllegalArgumentException` raised when no cookie carries the token. */
  datatype CookieError = TokenCookieMissing

  const SameSiteStrict: string := "Strict"

  /** `createJwtCookie` */
  function CreateJwtCookie(cfg: CookieConfig, token: string): (c: ResponseCookie)
    ensures c.name == cfg.cookieName && c.value == token
    ensures c.httpOnly == cfg.httpOnly && c.secure == cfg.secure && c.path == cfg.path
    ensures c.maxAge == cfg.maxAgeSeconds && c.sameSite == SameSiteStrict
  {
    ResponseCookie(cfg.cookieName, token, cfg.httpOnly, cfg.secure, cfg.path, cfg.maxAgeSeconds, SameSiteStrict)
  }

  /**
   * `deleteJwtCookie`: the same cookie with an empty value and Max-Age 0, which by section 5.2.2
   * of RFC 6265 makes the browser drop it at once. Name, path and flags must match the issued
   * cookie for the browser to replace it.
   */
  function DeleteJwtCookie(cfg: CookieConfig): (c: ResponseCookie)
    ensures c == CreateJwtCookie(cfg, "").(maxAge := 0)
    ensures forall token :: SameCookieSlot(c, CreateJwtCookie(cfg, token))
  {
    ResponseCookie(cfg.cookieName, "", cfg.httpOnly, cfg.secure, cfg.path, 0, SameSiteStrict)
  }

  /** Two Set-Cookie values address the same browser cookie. */
  predicate SameCookieSlot(a: ResponseCookie, b: ResponseCookie) {
    a.name == b.name && a.path == b.path
  }

  /** The index of the first cookie named `name`. */
  function FirstNamed(cookies: seq<RequestCookie>, name: string): (r: Option<nat>)
    ensures r.Some? ==> r.value < |cookies| && cookies[r.value].name == name &&
                        forall j :: 0 <= j < r.value ==> cookies[j].name != name
    ensures r.None? ==> forall j :: 0 <= j < |cookies| ==> cookies[j].name != name
  {
    if cookies == [] then None
    else if cookies[0].name == name then Some(0)
    else
      match FirstNamed(cookies[1..], name)
      case None => None
      case Some(k) => Some(k + 1)
  }

  /** The token the request carries: the value of the first cookie with the configured name. */
  function TokenFromCookies(name: string, cookies: Option<seq<RequestCookie>>): (r: Result<string, CookieError>)
  {
    if cookies.None? then Err(TokenCookieMissing)
    else
      match FirstNamed(cookies.value, name)
      case None => Err(TokenCookieMissing)
      case Some(k) => Ok(cookies.value[k].value)
  }

  /** `getTokenFromCookie`; a request without cookies (null) fails like one without the token cookie. */
  method GetTokenFromCookie(cfg: CookieConfig, cookies: Option<seq<RequestCookie>>) returns (r: Result<string, CookieError>)
    ensures r == TokenFromCookies(cfg.cookieName, cookies)
    ensures r.Ok? <==> cookies.Some? && exists i :: 0 <= i < |cookies.value| && cookies.value[i].name == cfg.cookieName
  {
    if cookies.Some? {
      var all := cookies.value;
      var i := 0;
      while i < |all|
        invariant 0 <= i <= |all|
        invariant forall j :: 0 <= j < i ==> all[j].name != cfg.cookieName
      {
        if cfg.cookieName == all[i].name {
          return Ok(all[i].value);
        }
        i := i + 1;
      }
    }
    return Err(TokenCookieMissing);
  }

  /** A request echoing the issued cookie after cookies of other names yields the issued token. */
  lemma {:induction false} IssuedTokenIsRead(cfg: CookieConfig, token: string, others: seq<RequestCookie>)
    requires forall j :: 0 <= j < |others| ==> others[j].name != cfg.cookieName
    ensures var c := CreateJwtCookie(cfg, token);
      TokenFromCookies(cfg.cookieName, Some(others + [RequestCookie(c.name, c.value)])) == Ok(token)
  {
    var echoed := RequestCookie(cfg.cookieName, token);
    if others != [] {
      IssuedTokenIsRead(cfg, token, others[1..]);
      assert (others + [echoed])[1..] == others[1..] + [echoed];
    }
  }
}
