/** The in-memory session store: records keyed by an opaque session id, refreshed on every
    request that presents a live id, created afresh otherwise, rotated on privilege change
    and swept out once idle for longer than the TTL. Clock readings and the random ids that
    the store draws are parameters (`now`, `freshSid`). */
module Sessions {

  import opened Wrappers
  import opened Http

  const SESSION_COOKIE_NAME := "sid"

  /** One session record: `createdAt`, `lastSeen`, the authenticated user if any, and the
      remaining free-form keys of the record. */
  datatype Session = Session(
    createdAt: real,
    lastSeen: real,
    userId: Option<string>,
    attributes: map<string, string>)

  type Store = map<string, Session>

  /** A record is expired once strictly more than `ttl` seconds have passed since it was
      last seen. */
  predicate IsExpired(s: Session, now: real, ttl: int): (expired: bool)
    ensures ttl >= 0 && expired ==> now > s.lastSeen
  {
    now - s.lastSeen > ttl as real
  }

  /** The record `_create_session` stores: created and seen now, anonymous. */
  function NewSession(now: real): (s: Session)
    ensures s.createdAt == now && s.lastSeen == now && s.userId == None && s.attributes == map[]
    ensures forall ttl: int :: ttl >= 0 ==> !IsExpired(s, now, ttl)
  {
    Session(now, now, None, map[])
  }

  /** The `sid` cookie names a record that is present and not expired (an empty cookie
      counts as no cookie). */
  predicate Resumes(store: Store, cookie: Option<string>, now: real, ttl: int) {
    Supplied(cookie) && cookie.value in store && !IsExpired(store[cookie.value], now, ttl)
  }

  /** What resolving a request's `sid` cookie yields: the id and record the request is
      bound to, whether they were created, and the store afterwards. */
  datatype Resolution = Resolution(sid: string, session: Session, isNew: bool, store: Store)

  /** Resolution of the `sid` cookie at time `now`: a live record is refreshed in place; an
      expired one is dropped; in every case but the live one a new record is stored under
      `freshSid`. */
  function Resolved(store: Store, cookie: Option<string>, now: real, ttl: int, freshSid: string): (r: Resolution)
    ensures r.sid in r.store && r.store[r.sid] == r.session
    ensures r.session.lastSeen == now
    ensures ttl >= 0 ==> !IsExpired(r.session, now, ttl)
    ensures r.isNew <==> !Resumes(store, cookie, now, ttl)
  {
    if Resumes(store, cookie, now, ttl) then
      var s := store[cookie.value].(lastSeen := now);
      Resolution(cookie.value, s, false, store[cookie.value := s])
    else
      var pruned := if Supplied(cookie) && cookie.value in store then store - {cookie.value} else store;
      Resolution(freshSid, NewSession(now), true, pruned[freshSid := NewSession(now)])
  }

  datatype Rotation = Rotation(sid: string, session: Session, store: Store)

  /** `rotate_sid(old_sid)`: the record moves from `oldSid` to `freshSid`, keeping every field but
      `lastSeen`, which becomes `now`; with no record at `oldSid`, a new one is created. */
  function Rotated(store: Store, oldSid: string, now: real, freshSid: string): (r: Rotation)
    ensures r.sid == freshSid && r.sid in r.store && r.store[r.sid] == r.session
    ensures r.session.lastSeen == now
  {
    var s := if oldSid in store then store[oldSid].(lastSeen := now) else NewSession(now);
    Rotation(freshSid, s, (store - {oldSid})[freshSid := s])
  }

  /** One pass of the garbage collector at time `now`. */
  function Swept(store: Store, now: real, ttl: int): (r: Store)
    ensures forall sid :: sid in r ==> sid in store && r[sid] == store[sid]
    ensures forall sid :: sid in r ==> !IsExpired(r[sid], now, ttl)
    ensures forall sid :: sid in store && !IsExpired(store[sid], now, ttl) ==> sid in r
  {
    map sid | sid in store && !IsExpired(store[sid], now, ttl) :: store[sid]
  }

  /** The store shared by all requests, `SESSIONS` in the source. */
  class SessionStore {
    const ttl: int
    var sessions: Store

    constructor (ttl: int)
      ensures this.ttl == ttl && sessions == map[]
    {
      this.ttl := ttl;
      sessions := map[];
    }

    /** `_create_session`: stores a new anonymous record under `freshSid`. */
    method CreateSession(now: real, freshSid: string) returns (sid: string, session: Session)
      modifies this
      ensures sid == freshSid
      ensures session.createdAt == now && session.lastSeen == now && session.userId == None
      ensures session == NewSession(now)
      ensures sessions == old(sessions)[sid := session]
    {
      sid := freshSid;
      session := NewSession(now);
      sessions := sessions[sid := session];
    }

    /** The session part of `SessionMiddleware.dispatch` before the handler runs. */
    method Resolve(cookie: Option<string>, now: real, freshSid: string) returns (sid: string, session: Session)
      modifies this
      ensures var r := Resolved(old(sessions), cookie, now, ttl, freshSid);
              sid == r.sid && session == r.session && sessions == r.store
    {
      var found: Option<Session> := None;
      sid := cookie.GetOr("");
      if sid != "" {
        found := Get(sessions, sid);
        if found.Some? && IsExpired(found.value, now, ttl) {
          sessions := sessions - {sid};
          found := None;
        }
      }
      if found.None? {
        sid, session := CreateSession(now, freshSid);
      } else {
        session := found.value.(lastSeen := now);
        sessions := sessions[sid := session];
      }
    }

    /** `SessionMiddleware.dispatch`: resolves the session, then sets the sliding `sid`
        cookie on the response (the handler in between is not modelled). */
    method Dispatch(cookies: map<string, string>, now: real, freshSid: string, secure: bool, response: Response)
      returns (sid: string)
      modifies this, response
      ensures var r := Resolved(old(sessions), Get(cookies, SESSION_COOKIE_NAME), now, ttl, freshSid);
              sid == r.sid && sessions == r.store
      ensures response.cookies == old(response.cookies)
                + [Cookie(SESSION_COOKIE_NAME, sid, true, secure, "lax", "/", Some(ttl))]
      ensures response.status == old(response.status)
    {
      var session;
      sid, session := Resolve(Get(cookies, SESSION_COOKIE_NAME), now, freshSid);
      response.SetCookie(Cookie(SESSION_COOKIE_NAME, sid, true, secure, "lax", "/", Some(ttl)));
    }

    /** `rotate_sid(old_sid)`. */
    method RotateSid(oldSid: string, now: real, freshSid: string) returns (sid: string, session: Session)
      modifies this
      ensures var r := Rotated(old(sessions), oldSid, now, freshSid);
              sid == r.sid && session == r.session && sessions == r.store
    {
      var existing := Get(sessions, oldSid);
      sessions := sessions - {oldSid};
      sid, session := CreateSession(now, freshSid);
      if existing.Some? {
        session := existing.value.(lastSeen := now);
        sessions := sessions[sid := session];
      }
    }

    /** The body of `_gc_loop` after its sleep: collect the expired ids, then remove them one
        by one. */
    method CollectGarbage(now: real)
      modifies this
      ensures sessions == Swept(old(sessions), now, ttl)
    {
      ghost var start := sessions;
      var expired := set sid | sid in sessions && IsExpired(sessions[sid], now, ttl);
      ghost var all := expired;
      while expired != {}
        invariant expired <= all
        invariant sessions.Keys == (start.Keys - all) + expired
        invariant forall sid :: sid in sessions ==> sessions[sid] == start[sid]
        decreases expired
      {
        var sid :| sid in expired;
        sessions := sessions - {sid};
        expired := expired - {sid};
      }
      assert sessions.Keys == Swept(start, now, ttl).Keys;
    }
  }

  /** The expiry test is strict: a record seen exactly `ttl` seconds ago is still live, and
      it is expired at every later instant. */
  lemma ExpiryIsStrict(s: Session, ttl: int, later: real)
    requires later > s.lastSeen + ttl as real
    ensures !IsExpired(s, s.lastSeen + ttl as real, ttl)
    ensures IsExpired(s, later, ttl)
  {
  }

  /** A live `sid` resolves to itself; only its `lastSeen` changes, and only that entry. */
  lemma ResolveLive(store: Store, sid: string, now: real, ttl: int, freshSid: string)
    requires sid != "" && sid in store && !IsExpired(store[sid], now, ttl)
    ensures var r := Resolved(store, Some(sid), now, ttl, freshSid);
            && r.sid == sid && !r.isNew
            && r.store.Keys == store.Keys
            && r.session.lastSeen == now
            && r.session.createdAt == store[sid].createdAt
            && r.session.userId == store[sid].userId
            && r.session.attributes == store[sid].attributes
            && (forall k :: k in store && k != sid ==> r.store[k] == store[k])
  {
  }

  /** Resolving the same live cookie twice, the second time no earlier and within the TTL of
      the first, gives the same id both times and a `lastSeen` that does not go back. */
  lemma ResolveTwice(store: Store, sid: string, now1: real, now2: real, ttl: int, fresh1: string, fresh2: string)
    requires sid != "" && sid in store && !IsExpired(store[sid], now1, ttl)
    requires now1 <= now2 <= now1 + ttl as real
    ensures var r1 := Resolved(store, Some(sid), now1, ttl, fresh1);
            var r2 := Resolved(r1.store, Some(sid), now2, ttl, fresh2);
            r1.sid == sid && r2.sid == sid && r1.session.lastSeen <= r2.session.lastSeen
  {
  }

  /** Without a live cookie a new anonymous record is created under the fresh id, an
      expired record named by the cookie is gone, and every other entry stays as it was. */
  lemma ResolveCreates(store: Store, cookie: Option<string>, now: real, ttl: int, freshSid: string)
    requires !Resumes(store, cookie, now, ttl)
    requires freshSid !in store
    ensures var r := Resolved(store, cookie, now, ttl, freshSid);
            && r.isNew && r.sid == freshSid
            && r.session.createdAt == now && r.session.lastSeen == now && r.session.userId == None
            && (Supplied(cookie) && cookie.value in store ==> cookie.value !in r.store)
            && (forall k :: k in store && cookie != Some(k) ==> k in r.store && r.store[k] == store[k])
  {
  }

  /** Rotation removes the old id, keeps `createdAt`, `userId` and the other fields of the
      record it moves, and leaves every other entry alone. */
  lemma RotateMoves(store: Store, oldSid: string, now: real, freshSid: string)
    requires freshSid != oldSid
    ensures var r := Rotated(store, oldSid, now, freshSid);
            && oldSid !in r.store
            && (oldSid in store ==> r.session == store[oldSid].(lastSeen := now))
            && (oldSid !in store ==> r.session == NewSession(now))
            && (forall k :: k in store && k != oldSid && k != freshSid ==> k in r.store && r.store[k] == store[k])
  {
  }

  /** After rotation the old id no longer resolves: presenting it creates a new session. */
  lemma RotatedIdIsDead(store: Store, oldSid: string, now: real, later: real, ttl: int, freshSid: string, fresh2: string)
    requires freshSid != oldSid
    ensures Resolved(Rotated(store, oldSid, now, freshSid).store, Some(oldSid), later, ttl, fresh2).isNew
  {
    RotateMoves(store, oldSid, now, freshSid);
  }

  /** A second sweep at the same instant removes nothing more. */
  lemma SweepIdempotent(store: Store, now: real, ttl: int)
    ensures Swept(Swept(store, now, ttl), now, ttl) == Swept(store, now, ttl)
  {
  }
}
