/** Per-client token-bucket admission. Each client address owns a bucket holding up to
    `burst` tokens that refills at `rps` tokens per second; a request spends one token or is
    turned away. Tokens and times are real numbers; the clock reading `now` is a parameter. */
module RateLimit {

  import opened Wrappers

  const REJECT_STATUS := 429

  datatype Bucket = Bucket(tokens: real, ts: real)
  type Buckets = map<string, Bucket>

  function Max(a: real, b: real): real {
    if a >= b then a else b
  }

  function Min(a: real, b: real): real {
    if a <= b then a else b
  }

  /** The tokens earned between the last observation `ts` and `now`; a clock that went
      backwards earns nothing. */
  function Earned(ts: real, now: real, rps: real): (e: real)
    ensures rps >= 0.0 ==> e >= 0.0
    ensures now <= ts ==> e == 0.0
  {
    var elapsed := Max(0.0, now - ts);
    assert rps >= 0.0 ==> elapsed * rps >= 0.0;
    elapsed * rps
  }

  /** The bucket after refilling at `now`: a first-seen client starts full; otherwise the
      tokens earned since the last observation are added, never more than `burst` in all,
      and never fewer than zero seconds' worth. */
  function Refilled(record: Option<Bucket>, now: real, rps: real, burst: real): (b: Bucket)
    ensures b.ts == now
    ensures b.tokens <= burst
    ensures record.None? ==> b.tokens == burst
    ensures record.Some? && rps >= 0.0 && record.value.tokens <= burst ==> b.tokens >= record.value.tokens
    ensures record.Some? && now <= record.value.ts ==> b.tokens == Min(burst, record.value.tokens)
  {
    match record
    case None => Bucket(burst, now)
    case Some(prior) =>
      Bucket(Min(burst, prior.tokens + Earned(prior.ts, now, rps)), now)
  }

  datatype Step = Step(admitted: bool, buckets: Buckets)

  /** The status the limiter answers with itself; `None` when the request is passed on. */
  function Status(admitted: bool): (code: Option<int>)
    ensures code.None? <==> admitted
    ensures code.Some? ==> code.value == 429
  {
    if admitted then None else Some(REJECT_STATUS)
  }

  /** `RateLimitMiddleware.dispatch` for a request from `host` at `now`. */
  function RateStep(buckets: Buckets, host: string, now: real, rps: real, burst: real): (r: Step)
    ensures forall h :: h != host ==> (h in r.buckets <==> h in buckets)
    ensures forall h :: h != host && h in buckets ==> r.buckets[h] == buckets[h]
  {
    if rps <= 0.0 then Step(true, buckets)
    else
      var b := Refilled(Get(buckets, host), now, rps, burst);
      if b.tokens < 1.0 then Step(false, buckets[host := b])
      else Step(true, buckets[host := b.(tokens := b.tokens - 1.0)])
  }

  /** Every bucket holds between zero and `burst` tokens. */
  predicate InRange(buckets: Buckets, burst: real) {
    forall h :: h in buckets ==> 0.0 <= buckets[h].tokens <= burst
  }

  /** `_RATE_LIMIT_STATE` together with the configured rate. */
  class RateLimiter {
    const rps: real
    const burst: real
    var state: Buckets

    ghost predicate Valid()
      reads this
    {
      burst == rps * 2.0 && InRange(state, burst)
    }

    constructor (rps: real)
      ensures Valid() && this.rps == rps && state == map[]
    {
      this.rps := rps;
      burst := rps * 2.0;
      state := map[];
    }

    method Dispatch(host: string, now: real) returns (admitted: bool)
      requires Valid()
      modifies this
      ensures Valid()
      ensures var r := RateStep(old(state), host, now, rps, burst);
              admitted == r.admitted && state == r.buckets
    {
      if rps <= 0.0 {
        return true;
      }
      StepKeepsRange(state, host, now, rps, burst);
      var record := Get(state, host);
      var bucket: Bucket;
      if record.None? {
        bucket := Bucket(burst, now);
      } else {
        bucket := record.value.(tokens := Min(burst, record.value.tokens + Earned(record.value.ts, now, rps)));
        bucket := bucket.(ts := now);
      }
      assert bucket == Refilled(record, now, rps, burst);
      if bucket.tokens < 1.0 {
        state := state[host := bucket];
        return false;
      }
      bucket := bucket.(tokens := bucket.tokens - 1.0);
      state := state[host := bucket];
      admitted := true;
    }
  }

  /** With the rate at zero or below the limiter is off: everything passes, nothing changes. */
  lemma DisabledAdmitsAll(buckets: Buckets, host: string, now: real, rps: real, burst: real)
    requires rps <= 0.0
    ensures RateStep(buckets, host, now, rps, burst) == Step(true, buckets)
  {
  }

  /** A request is turned away exactly when the refilled bucket holds less than one token;
      the refilled bucket is stored either way, and admission spends exactly one token. */
  lemma AdmitIffOneToken(buckets: Buckets, host: string, now: real, rps: real, burst: real)
    requires rps > 0.0
    ensures var b := Refilled(Get(buckets, host), now, rps, burst);
            var r := RateStep(buckets, host, now, rps, burst);
            && (r.admitted <==> b.tokens >= 1.0)
            && host in r.buckets && r.buckets[host].ts == now
            && (!r.admitted ==> r.buckets[host] == b)
            && (r.admitted ==> r.buckets[host].tokens == b.tokens - 1.0)
  {
  }

  /** Tokens stay within `[0, burst]` whatever the clock does. */
  lemma StepKeepsRange(buckets: Buckets, host: string, now: real, rps: real, burst: real)
    requires burst == rps * 2.0 && InRange(buckets, burst)
    ensures InRange(RateStep(buckets, host, now, rps, burst).buckets, burst)
  {
  }

  /** The verdicts of `k` requests from `host`, all at the same instant `now`. */
  function Verdicts(buckets: Buckets, host: string, now: real, rps: real, burst: real, k: nat): seq<bool>
    decreases k
  {
    if k == 0 then []
    else
      var r := RateStep(buckets, host, now, rps, burst);
      [r.admitted] + Verdicts(r.buckets, host, now, rps, burst, k - 1)
  }

  /** A bucket holding `j` whole tokens, refilled at this very instant, admits exactly `j`
      more requests at this instant and turns the next one away. */
  lemma {:induction false} DrainAtOneInstant(buckets: Buckets, host: string, now: real, rps: real, burst: real, j: nat)
    requires rps > 0.0 && j as real <= burst
    requires host in buckets && buckets[host] == Bucket(j as real, now)
    ensures Verdicts(buckets, host, now, rps, burst, j + 1) == seq(j, _ => true) + [false]
  {
    var r := RateStep(buckets, host, now, rps, burst);
    assert Refilled(Get(buckets, host), now, rps, burst).tokens == j as real;
    if j > 0 {
      assert r.admitted && r.buckets[host] == Bucket((j - 1) as real, now);
      DrainAtOneInstant(r.buckets, host, now, rps, burst, j - 1);
      assert seq(j, _ => true) + [false] == [true] + (seq(j - 1, _ => true) + [false]);
    } else {
      assert !r.admitted;
    }
  }

  /** From a full bucket (or a first-seen client) with a whole-number `burst`, exactly
      `burst` requests at one instant are admitted, and the next is rejected. */
  lemma BurstThenReject(buckets: Buckets, host: string, now: real, rps: real, n: nat)
    requires rps > 0.0 && rps * 2.0 == n as real
    requires host in buckets ==> buckets[host].tokens == n as real
    ensures Verdicts(buckets, host, now, rps, n as real, n + 1) == seq(n, _ => true) + [false]
  {
    var burst := n as real;
    var r := RateStep(buckets, host, now, rps, burst);
    assert Refilled(Get(buckets, host), now, rps, burst).tokens == burst;
    assert r.admitted && r.buckets[host] == Bucket((n - 1) as real, now);
    DrainAtOneInstant(r.buckets, host, now, rps, burst, n - 1);
    assert seq(n, _ => true) + [false] == [true] + (seq(n - 1, _ => true) + [false]);
  }

  /** An empty bucket that waits `1 / rps` seconds earns exactly one more admission. */
  lemma OneTokenPerPeriod(buckets: Buckets, host: string, t: real, rps: real, burst: real)
    requires rps > 0.0 && burst >= 1.0
    requires host in buckets && buckets[host] == Bucket(0.0, t)
    ensures Verdicts(buckets, host, t + 1.0 / rps, rps, burst, 2) == [true, false]
  {
    var now := t + 1.0 / rps;
    assert now - t == 1.0 / rps;
    assert (1.0 / rps) * rps == 1.0;
    assert Earned(t, now, rps) == 1.0;
    assert Refilled(Get(buckets, host), now, rps, burst).tokens == 1.0;
    var r := RateStep(buckets, host, now, rps, burst);
    assert r.admitted && r.buckets[host] == Bucket(0.0, now);
    var r2 := RateStep(r.buckets, host, now, rps, burst);
    assert Refilled(Get(r.buckets, host), now, rps, burst).tokens == 0.0;
    assert !r2.admitted;
    assert Verdicts(r.buckets, host, now, rps, burst, 1) == [false];
  }
}
