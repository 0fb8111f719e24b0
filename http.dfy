/** The parts of an HTTP exchange that the guards read or write. */
module Http {

  import opened Wrappers

  /** The methods that the CSRF and anti-replay guards treat as state-changing. */
  const MUTATING_METHODS: set<string> := {"POST", "PUT", "PATCH", "DELETE"}

  predicate IsMutating(verb: string) {
    verb in MUTATING_METHODS
  }

  /** A header or cookie value that Python treats as present: not `None`, not empty. */
  predicate Supplied(v: Option<string>) {
    v.Some? && v.value != ""
  }

  /** One `Set-Cookie` instruction; `maxAge == None` means no `Max-Age` attribute. */
  datatype Cookie = Cookie(
    name: string,
    value: string,
    httpOnly: bool,
    secure: bool,
    sameSite: string,
    path: string,
    maxAge: Option<int>)

  /** A response under construction: `SetCookie` appends a `Set-Cookie` header, so a cookie
      set twice appears twice. Status and other headers are left alone by the guards. */
  class Response {
    var status: int
    var cookies: seq<Cookie>

    constructor (status: int)
      ensures this.status == status && cookies == []
    {
      this.status := status;
      cookies := [];
    }

    method SetCookie(c: Cookie)
      modifies this
      ensures cookies == old(cookies) + [c]
      ensures status == old(status)
    {
      cookies := cookies + [c];
    }
  }
}
