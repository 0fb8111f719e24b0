/** Replay protection for state-changing requests: a request must carry a fresh `X-TS`
    timestamp and an `X-Nonce` not seen within the freshness window. The nonce store maps
    each accepted nonce to the time it may be reused. The clock reading `now` (whole Unix
    seconds) is a parameter. */
module AntiReplay {

  import opened Wrappers
  import opened Http
  import opened Numerals

  /** Every rejection is answered with this status, whatever its reason. */
  const REJECT_STATUS := 401

  datatype Reason = MissingHeaders | InvalidTs | StaleTs | NonceReuse
  datatype Verdict = Admit | Reject(reason: Reason)

  /** The status the guard answers with itself: one code for every rejection, so a client
      cannot tell the reasons apart; `None` when the request is passed on. */
  function Status(v: Verdict): (code: Option<int>)
    ensures code.None? <==> v == Admit
    ensures code.Some? ==> code.value == 401
  {
    if v == Admit then None else Some(REJECT_STATUS)
  }

  type Nonces = map<string, int>

  /** What the guard sees of a request. */
  datatype Request = Request(verb: string, ts: Option<string>, nonce: Option<string>, now: int)

  function Abs(x: int): nat {
    if x < 0 then -x else x
  }

  /** The lazy purge: every entry whose expiry is not after `now` goes, the rest stay. */
  function Purged(nonces: Nonces, now: int): (r: Nonces)
    ensures forall n :: n in r <==> n in nonces && nonces[n] > now
    ensures forall n :: n in r ==> r[n] == nonces[n]
  {
    map n | n in nonces && nonces[n] > now :: nonces[n]
  }

  datatype Step = Step(verdict: Verdict, nonces: Nonces)

  /** `AntiReplayMiddleware.dispatch`: the checks in the source's order, each rejection
      ending the request; the purge happens only once the timestamp has been accepted. */
  function ReplayStep(nonces: Nonces, req: Request, window: int): (r: Step)
    ensures r.verdict.Reject? && r.verdict.reason != NonceReuse ==> r.nonces == nonces
    ensures r.verdict == Reject(NonceReuse) ==> r.nonces == Purged(nonces, req.now)
    ensures r.verdict.Reject? ==> IsMutating(req.verb)
  {
    if !IsMutating(req.verb) then Step(Admit, nonces)
    else if !Supplied(req.ts) || !Supplied(req.nonce) then Step(Reject(MissingHeaders), nonces)
    else
      match ParseInt(req.ts.value)
      case None => Step(Reject(InvalidTs), nonces)
      case Some(ts) =>
        if Abs(req.now - ts) > window then Step(Reject(StaleTs), nonces)
        else
          var live := Purged(nonces, req.now);
          if req.nonce.value in live then Step(Reject(NonceReuse), live)
          else Step(Admit, live[req.nonce.value := req.now + window])
  }

  /** The request gets past the header and timestamp checks, so only the nonce decides. */
  predicate TimestampAccepted(req: Request, window: int) {
    && IsMutating(req.verb)
    && Supplied(req.ts) && Supplied(req.nonce)
    && ParseInt(req.ts.value).Some?
    && Abs(req.now - ParseInt(req.ts.value).value) <= window
  }

  /** The store after a sequence of requests, in order. */
  function Run(nonces: Nonces, reqs: seq<Request>, window: int): Nonces
    decreases |reqs|
  {
    if reqs == [] then nonces else Run(ReplayStep(nonces, reqs[0], window).nonces, reqs[1..], window)
  }

  /** `NONCES`, the store shared by all requests. */
  class NonceStore {
    const window: int
    var nonces: Nonces

    constructor (window: int)
      ensures this.window == window && nonces == map[]
    {
      this.window := window;
      nonces := map[];
    }

    /** Collect the keys whose expiry has passed, then remove them one by one. */
    method PurgeExpired(now: int)
      modifies this
      ensures nonces == Purged(old(nonces), now)
    {
      ghost var start := nonces;
      var expired := set n | n in nonces && nonces[n] <= now;
      ghost var all := expired;
      while expired != {}
        invariant expired <= all
        invariant nonces.Keys == (start.Keys - all) + expired
        invariant forall n :: n in nonces ==> nonces[n] == start[n]
        decreases expired
      {
        var n :| n in expired;
        nonces := nonces - {n};
        expired := expired - {n};
      }
      assert nonces.Keys == Purged(start, now).Keys;
    }

    method Dispatch(req: Request) returns (v: Verdict)
      modifies this
      ensures var r := ReplayStep(old(nonces), req, window);
              v == r.verdict && nonces == r.nonces
    {
      if !IsMutating(req.verb) {
        return Admit;
      }
      if !Supplied(req.ts) || !Supplied(req.nonce) {
        return Reject(MissingHeaders);
      }
      var parsed := ParseInt(req.ts.value);
      if parsed.None? {
        return Reject(InvalidTs);
      }
      if Abs(req.now - parsed.value) > window {
        return Reject(StaleTs);
      }
      PurgeExpired(req.now);
      if req.nonce.value in nonces {
        return Reject(NonceReuse);
      }
      nonces := nonces[req.nonce.value := req.now + window];
      v := Admit;
    }
  }

  /** Requests that do not change state pass untouched. */
  lemma NonMutatingAdmitted(nonces: Nonces, req: Request, window: int)
    requires !IsMutating(req.verb)
    ensures ReplayStep(nonces, req, window) == Step(Admit, nonces)
  {
  }

  /** A missing or empty `X-TS` or `X-Nonce` is rejected before anything else is looked at. */
  lemma MissingHeadersRejected(nonces: Nonces, req: Request, window: int)
    requires IsMutating(req.verb) && (!Supplied(req.ts) || !Supplied(req.nonce))
    ensures ReplayStep(nonces, req, window) == Step(Reject(MissingHeaders), nonces)
  {
  }

  lemma InvalidTimestampRejected(nonces: Nonces, req: Request, window: int)
    requires IsMutating(req.verb) && Supplied(req.ts) && Supplied(req.nonce)
    requires ParseInt(req.ts.value).None?
    ensures ReplayStep(nonces, req, window) == Step(Reject(InvalidTs), nonces)
  {
  }

  /** An `X-TS` of more digits than `int()` converts is an invalid timestamp, not a stale one. */
  lemma OverlongTimestampRejected(nonces: Nonces, req: Request, window: int)
    requires IsMutating(req.verb) && Supplied(req.nonce)
    requires req.ts.Some? && AllDigits(req.ts.value) && |req.ts.value| > MAX_STR_DIGITS
    ensures ReplayStep(nonces, req, window) == Step(Reject(InvalidTs), nonces)
  {
    TooManyDigitsRejected(req.ts.value);
  }

  /** Staleness is symmetric: a timestamp more than `window` seconds in the past or in the
      future is rejected, one exactly `window` seconds off either way is not. */
  lemma StalenessIsSymmetric(nonces: Nonces, req: Request, window: int, ts: int)
    requires window >= 0
    requires IsMutating(req.verb) && Supplied(req.ts) && Supplied(req.nonce)
    requires ParseInt(req.ts.value) == Some(ts)
    ensures ts < req.now - window || ts > req.now + window
            ==> ReplayStep(nonces, req, window) == Step(Reject(StaleTs), nonces)
    ensures ts == req.now - window || ts == req.now + window
            ==> ReplayStep(nonces, req, window).verdict != Reject(StaleTs)
  {
  }

  /** A request that passes the timestamp checks is admitted exactly when its nonce is not
      live; admission records it until `now + window`, rejection leaves the store purged. */
  lemma NonceDecides(nonces: Nonces, req: Request, window: int)
    requires TimestampAccepted(req, window)
    ensures var r := ReplayStep(nonces, req, window);
            var live := Purged(nonces, req.now);
            && (r.verdict == Admit <==> req.nonce.value !in live)
            && (r.verdict == Admit ==> r.nonces == live[req.nonce.value := req.now + window])
            && (r.verdict != Admit ==> r.verdict == Reject(NonceReuse) && r.nonces == live)
  {
  }

  /** After an admitted state-changing request every stored expiry lies in the future. */
  lemma AdmittedLeavesOnlyLiveEntries(nonces: Nonces, req: Request, window: int)
    requires window > 0 && IsMutating(req.verb)
    requires ReplayStep(nonces, req, window).verdict == Admit
    ensures var r := ReplayStep(nonces, req, window).nonces;
            forall n :: n in r ==> r[n] > req.now
  {
  }

  /** An admitted state-changing request leaves its nonce recorded until `now + window`. */
  lemma AdmitRecordsNonce(nonces: Nonces, req: Request, window: int)
    requires IsMutating(req.verb) && ReplayStep(nonces, req, window).verdict == Admit
    ensures TimestampAccepted(req, window)
    ensures var r := ReplayStep(nonces, req, window).nonces;
            req.nonce.value in r && r[req.nonce.value] == req.now + window
  {
  }

  /** No step removes or changes an entry whose expiry lies after that step's clock. */
  lemma StepKeepsLiveEntry(nonces: Nonces, req: Request, window: int, n: string)
    requires n in nonces && nonces[n] > req.now
    ensures var r := ReplayStep(nonces, req, window).nonces;
            n in r && r[n] == nonces[n]
  {
  }

  lemma {:induction false} RunKeepsLiveEntry(nonces: Nonces, reqs: seq<Request>, window: int, n: string)
    requires n in nonces
    requires forall i :: 0 <= i < |reqs| ==> reqs[i].now < nonces[n]
    ensures var r := Run(nonces, reqs, window);
            n in r && r[n] == nonces[n]
    decreases |reqs|
  {
    if reqs != [] {
      StepKeepsLiveEntry(nonces, reqs[0], window, n);
      RunKeepsLiveEntry(ReplayStep(nonces, reqs[0], window).nonces, reqs[1..], window, n);
    }
  }

  /** A nonce admitted at time `t` is refused, whatever requests come in between, to every
      request that reuses it before `t + window`. */
  lemma ReplayRejectedWithinWindow(nonces: Nonces, first: Request, between: seq<Request>, again: Request, window: int)
    requires IsMutating(first.verb) && ReplayStep(nonces, first, window).verdict == Admit
    requires forall i :: 0 <= i < |between| ==> between[i].now < first.now + window
    requires TimestampAccepted(again, window)
    requires again.nonce == first.nonce && again.now < first.now + window
    ensures ReplayStep(Run(ReplayStep(nonces, first, window).nonces, between, window), again, window).verdict
            == Reject(NonceReuse)
  {
    var after := ReplayStep(nonces, first, window).nonces;
    var n := first.nonce.value;
    AdmitRecordsNonce(nonces, first, window);
    RunKeepsLiveEntry(after, between, window, n);
    var before := Run(after, between, window);
    NonceDecides(before, again, window);
    assert n in Purged(before, again.now);
  }

  /** Once its expiry has passed, a nonce is accepted again. */
  lemma ReuseAfterExpiry(nonces: Nonces, req: Request, window: int)
    requires TimestampAccepted(req, window)
    requires req.nonce.value in nonces ==> nonces[req.nonce.value] <= req.now
    ensures ReplayStep(nonces, req, window).verdict == Admit
  {
  }

  /** Admitted at `t`, the same nonce is admitted by the next request at any `t' >= t + window`. */
  lemma ReuseAfterWindow(nonces: Nonces, first: Request, again: Request, window: int)
    requires IsMutating(first.verb) && ReplayStep(nonces, first, window).verdict == Admit
    requires TimestampAccepted(again, window)
    requires again.nonce == first.nonce && again.now >= first.now + window
    ensures ReplayStep(ReplayStep(nonces, first, window).nonces, again, window).verdict == Admit
  {
    ReuseAfterExpiry(ReplayStep(nonces, first, window).nonces, again, window);
  }
}
