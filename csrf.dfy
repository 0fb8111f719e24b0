/** Double-submit CSRF protection: a state-changing request must echo the value of its
    `csrftoken` cookie in the `X-CSRF-Token` header. Tokens are seeded as a cookie on
    responses to requests that carry none. The random token that would be generated is a
    parameter (`generated`), as is the `secure` cookie flag. */
module Csrf {

  import opened Wrappers
  import opened Http
  import opened Text

  const CSRFTOKEN_COOKIE_NAME := "csrftoken"
  const REJECT_STATUS := 403

  /** The outcome of the check. `Missing` and `Mismatch` raise a 403. `Unhandled` is the
      `TypeError` that `secrets.compare_digest` raises when either value holds a non-ASCII
      character: nothing catches it, so the request ends in a server error. */
  datatype Check = Pass | Missing | Mismatch | Unhandled

  /** The detail of the 403 raised for a failed check. */
  function Detail(c: Check): string
    requires c == Missing || c == Mismatch
  {
    if c == Missing then "CSRF token missing" else "CSRF token mismatch"
  }

  /** `require_csrf`, given the request's cookies and its `X-CSRF-Token` header. On ASCII
      values `secrets.compare_digest` is string equality (its constant running time is not
      modelled); on any other value it raises. */
  function RequireCsrf(verb: string, cookies: map<string, string>, header: Option<string>): (r: Check)
    ensures r == Pass <==>
              || !IsMutating(verb)
              || (CSRFTOKEN_COOKIE_NAME in cookies && cookies[CSRFTOKEN_COOKIE_NAME] != ""
                  && header == Some(cookies[CSRFTOKEN_COOKIE_NAME]) && IsAscii(header.value))
    ensures r == Missing <==>
              IsMutating(verb) && (!Supplied(Get(cookies, CSRFTOKEN_COOKIE_NAME)) || !Supplied(header))
    ensures r == Unhandled <==>
              IsMutating(verb) && Supplied(Get(cookies, CSRFTOKEN_COOKIE_NAME)) && Supplied(header)
              && (!IsAscii(cookies[CSRFTOKEN_COOKIE_NAME]) || !IsAscii(header.value))
    ensures r == Mismatch ==> Supplied(header) && Supplied(Get(cookies, CSRFTOKEN_COOKIE_NAME))
                              && IsAscii(header.value) && IsAscii(cookies[CSRFTOKEN_COOKIE_NAME])
                              && header.value != cookies[CSRFTOKEN_COOKIE_NAME]
  {
    if !IsMutating(verb) then Pass
    else
      var cookie := Get(cookies, CSRFTOKEN_COOKIE_NAME);
      if !Supplied(cookie) || !Supplied(header) then Missing
      else if !IsAscii(cookie.value) || !IsAscii(header.value) then Unhandled
      else if cookie.value != header.value then Mismatch
      else Pass
  }

  /** The seeding rule: a token cookie is set exactly when the request has no `csrftoken`
      key among its cookies. */
  predicate SeedsCookie(requestCookies: map<string, string>) {
    CSRFTOKEN_COOKIE_NAME !in requestCookies
  }

  /** `ensure_csrf_cookie`: sets the token cookie (readable by scripts) and returns its
      value, the supplied token if there is a non-empty one and the generated one otherwise. */
  method EnsureCsrfCookie(response: Response, token: Option<string>, generated: string, secure: bool)
    returns (value: string)
    modifies response
    ensures value == if Supplied(token) then token.value else generated
    ensures response.cookies == old(response.cookies)
              + [Cookie(CSRFTOKEN_COOKIE_NAME, value, false, secure, "lax", "/", None)]
    ensures response.status == old(response.status)
  {
    value := if Supplied(token) then token.value else generated;
    response.SetCookie(Cookie(CSRFTOKEN_COOKIE_NAME, value, false, secure, "lax", "/", None));
  }

  /** `ensure_csrf_cookie_from_request`. */
  method EnsureCsrfCookieFromRequest(requestCookies: map<string, string>, response: Response, generated: string, secure: bool)
    modifies response
    ensures SeedsCookie(requestCookies) ==>
              response.cookies == old(response.cookies)
                + [Cookie(CSRFTOKEN_COOKIE_NAME, generated, false, secure, "lax", "/", None)]
    ensures !SeedsCookie(requestCookies) ==> response.cookies == old(response.cookies)
    ensures response.status == old(response.status)
  {
    if SeedsCookie(requestCookies) {
      var _ := EnsureCsrfCookie(response, None, generated, secure);
    }
  }

  /** Safe methods are never subject to the check. */
  lemma SafeMethodsPass(verb: string, cookies: map<string, string>, header: Option<string>)
    requires !IsMutating(verb)
    ensures RequireCsrf(verb, cookies, header) == Pass
  {
  }

  /** A client that echoes the token it was seeded with passes the check, provided the token
      is ASCII, as the hex digits of `generate_csrf_token` are; echoing any other token
      ends in the unhandled error. */
  lemma SeededTokenPasses(verb: string, generated: string)
    requires generated != ""
    ensures RequireCsrf(verb, map[CSRFTOKEN_COOKIE_NAME := generated], Some(generated))
            == if IsMutating(verb) && !IsAscii(generated) then Unhandled else Pass
  {
  }

  /** Equal tokens do not pass once one character is outside ASCII: the comparison raises. */
  lemma NonAsciiTokenUnhandled(verb: string, token: string)
    requires IsMutating(verb) && token != "" && !IsAscii(token)
    ensures RequireCsrf(verb, map[CSRFTOKEN_COOKIE_NAME := token], Some(token)) == Unhandled
  {
  }

  /** The two rules disagree on an empty `csrftoken` cookie: it blocks reseeding, yet the
      check treats it as missing, so every state-changing request from that client fails
      until the cookie changes. */
  lemma EmptyCookieAsymmetry(verb: string, cookies: map<string, string>, header: Option<string>)
    requires IsMutating(verb)
    requires CSRFTOKEN_COOKIE_NAME in cookies && cookies[CSRFTOKEN_COOKIE_NAME] == ""
    ensures !SeedsCookie(cookies)
    ensures RequireCsrf(verb, cookies, header) == Missing
  {
  }
}
