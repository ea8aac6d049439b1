/**
 The per-client token bucket, with calls as the unit of interleaving. Rates are reals, so the
 rounding of floating point is not modelled; the truncation of every refill to whole tokens is.
 Times are nanoseconds.
 */
module RateLimiter {

  import opened Common

  datatype Limits = Limits(rate: real, burst: int)

  datatype Bucket = Bucket(tokens: int, lastRefill: int)

  /** Conversion of a floating-point number to an integer drops the fraction towards zero. */
  function Truncate(x: real): int {
    if x >= 0.0 then x.Floor else -((-x).Floor)
  }

  /** The tokens, whole and fractional, that `elapsed` nanoseconds are worth. */
  function Accrual(l: Limits, elapsed: int): real {
    var x := elapsed as real / SECOND as real * l.rate;
    if x > 0.0 then x else 0.0
  }

  /** The whole tokens a refill after `elapsed` nanoseconds grants. */
  function Credit(l: Limits, elapsed: int): nat {
    Accrual(l, elapsed).Floor
  }

  function Topped(l: Limits, b: Bucket, now: int): int {
    var k := Credit(l, now - b.lastRefill);
    if k == 0 then b.tokens else if b.tokens + k > l.burst then l.burst else b.tokens + k
  }

  predicate Grants(l: Limits, b: Bucket, now: int) {
    Topped(l, b, now) > 0
  }

  function Take(l: Limits, b: Bucket, now: int): Bucket {
    var t := Topped(l, b, now);
    Bucket(if t > 0 then t - 1 else t, now)
  }

  /** A refill that truncates to a positive amount is the credit; any other grants nothing. */
  lemma RefillIsCredit(l: Limits, elapsed: int)
    ensures Positive(Truncate(elapsed as real / SECOND as real * l.rate)) == Credit(l, elapsed)
  {
  }

  // ----- The table of buckets -----

  type Table = map<string, Bucket>

  function BucketOf(l: Limits, bs: Table, ip: string, now: int): Bucket {
    if ip in bs then bs[ip] else Bucket(l.burst, now)
  }

  /** The buckets that a sweep with this cutoff leaves alone. */
  function Kept(bs: Table, cutoff: int): Table {
    map ip | ip in bs && bs[ip].lastRefill >= cutoff :: bs[ip]
  }

  /** The conversion of a gap to tokens, truncated. */
  method WholeTokens(l: Limits, elapsed: int) returns (refill: int)
    ensures Positive(refill) == Credit(l, elapsed)
  {
    var seconds := elapsed as real / SECOND as real;
    refill := Truncate(seconds * l.rate);
    RefillIsCredit(l, elapsed);
  }

  /** Swap in the new time stamp, then add the whole tokens the gap is worth, up to the burst. */
  method Refill(l: Limits, b: Bucket, now: int) returns (tokens: int)
    ensures tokens == Topped(l, b, now)
  {
    var refill := WholeTokens(l, now - b.lastRefill);
    tokens := b.tokens;
    if refill > 0 {
      tokens := tokens + refill;
      if tokens > l.burst {
        tokens := l.burst;
      }
    }
  }

  lemma FullStaysFull(l: Limits, b: Bucket, now: int)
    ensures b.tokens == l.burst ==> Topped(l, b, now) == l.burst
  {
  }

  class Limiter {
    const limits: Limits
    var buckets: Table

    constructor (limits: Limits)
      ensures this.limits == limits && buckets == map[]
    {
      this.limits := limits;
      buckets := map[];
    }

    /** `created` is the clock reading that stamps a new bucket, `now` the one that refills it. */
    method Allow(ip: string, created: int, now: int) returns (ok: bool)
      modifies this
      ensures ok == Grants(limits, BucketOf(limits, old(buckets), ip, now), now)
      ensures buckets == old(buckets)[ip := Take(limits, BucketOf(limits, old(buckets), ip, now), now)]
    {
      if ip !in buckets {
        buckets := buckets[ip := Bucket(limits.burst, created)];
      }
      var b := buckets[ip];
      buckets := buckets[ip := b.(lastRefill := now)];
      var tokens := Refill(limits, b, now);
      FullStaysFull(limits, b, now);
      FullStaysFull(limits, Bucket(limits.burst, now), now);
      ok := tokens > 0;
      if ok {
        tokens := tokens - 1;
      }
      buckets := buckets[ip := Bucket(tokens, now)];
    }

    /** One tick of the cleanup loop. */
    method Sweep(interval: int, now: int)
      modifies this
      ensures buckets == Kept(old(buckets), now - interval)
    {
      var cutoff := now - interval;
      var todo := buckets.Keys;
      while todo != {}
        invariant todo <= buckets.Keys <= old(buckets).Keys
        invariant forall ip :: ip in buckets ==> buckets[ip] == old(buckets)[ip]
        invariant forall ip :: ip in old(buckets) ==>
          (ip in buckets <==> ip in todo || old(buckets)[ip].lastRefill >= cutoff)
        decreases todo
      {
        var ip :| ip in todo;
        if buckets[ip].lastRefill < cutoff {
          buckets := buckets - {ip};
        }
        todo := todo - {ip};
      }
    }
  }

  // ----- Arithmetic of refills -----

  lemma AccrualAdds(l: Limits, a: nat, b: nat)
    ensures Accrual(l, a + b) == Accrual(l, a) + Accrual(l, b)
  {
    var x, y := a as real / SECOND as real, b as real / SECOND as real;
    assert (a + b) as real / SECOND as real == x + y;
    assert (x + y) * l.rate == x * l.rate + y * l.rate;
    if l.rate >= 0.0 {
      assert x * l.rate >= 0.0 && y * l.rate >= 0.0;
    } else {
      assert x * l.rate <= 0.0 && y * l.rate <= 0.0;
    }
  }

  /** Truncating twice grants no more than truncating once. */
  lemma CreditSuperadditive(l: Limits, a: nat, b: nat)
    ensures Credit(l, a) + Credit(l, b) <= Credit(l, a + b)
  {
    AccrualAdds(l, a, b);
  }

  /**
   What a gap is worth: `rate` tokens a second, and of those the whole ones. No time, or a rate that
   pays nothing, is worth nothing.
   */
  lemma CreditIsWholeTokens(l: Limits, elapsed: int)
    ensures var x := elapsed as real * l.rate;
      && (x <= 0.0 ==> Accrual(l, elapsed) == 0.0 && Credit(l, elapsed) == 0)
      && (x > 0.0 ==> Accrual(l, elapsed) * 1000000000.0 == x)
      && (x > 0.0 ==> Credit(l, elapsed) as real * 1000000000.0 <= x < (Credit(l, elapsed) + 1) as real * 1000000000.0)
  {
    PerSecond(elapsed as real, l.rate);
  }

  lemma PerSecond(e: real, rate: real)
    ensures e / 1000000000.0 * rate == e * rate / 1000000000.0
  {
  }

  lemma CreditMonotone(l: Limits, a: nat, b: nat)
    requires a <= b
    ensures Credit(l, a) <= Credit(l, b)
  {
    CreditSuperadditive(l, a, b - a);
  }

  /** Requests that arrive together only ever use up what is there. */
  lemma NoCreditInNoTime(l: Limits)
    ensures Credit(l, 0) == 0
  {
    assert 0 as real / SECOND as real * l.rate == 0.0;
  }

  // ----- One bucket, any number of arrivals -----

  function Reading(t: int): int {
    t
  }

  /** A bucket no fuller than allowed and not refilled later than the first arrival. */
  ghost predicate Starts(l: Limits, b: Bucket, times: seq<int>) {
    b.tokens <= l.burst && (times != [] ==> b.lastRefill <= times[0])
  }

  ghost function BucketAt(l: Limits, b: Bucket, times: seq<int>, i: nat): Bucket
    requires i <= |times|
  {
    if i == 0 then b else Take(l, BucketAt(l, b, times, i - 1), times[i - 1])
  }

  ghost predicate GrantedAt(l: Limits, b: Bucket, times: seq<int>, i: nat)
    requires i < |times|
  {
    Grants(l, BucketAt(l, b, times, i), times[i])
  }

  /** Requests admitted among the first `i` arrivals. */
  ghost function Admitted(l: Limits, b: Bucket, times: seq<int>, i: nat): nat
    requires i <= |times|
  {
    if i == 0 then 0 else Admitted(l, b, times, i - 1) + if GrantedAt(l, b, times, i - 1) then 1 else 0
  }

  function Positive(n: int): nat {
    if n > 0 then n else 0
  }

  lemma {:induction false} BucketBounds(l: Limits, b: Bucket, times: seq<int>, i: nat)
    requires Starts(l, b, times) && i <= |times|
    ensures BucketAt(l, b, times, i).tokens <= l.burst
    ensures i > 0 ==> BucketAt(l, b, times, i).lastRefill == times[i - 1]
  {
    if i > 0 {
      BucketBounds(l, b, times, i - 1);
    }
  }

  lemma TakeIsCovered(l: Limits, b: Bucket, now: int)
    ensures Positive(Take(l, b, now).tokens) + (if Grants(l, b, now) then 1 else 0)
      <= Positive(b.tokens) + Credit(l, now - b.lastRefill)
  {
  }

  lemma CoveredStep(l: Limits, b: Bucket, now: int, since: int)
    requires since <= b.lastRefill <= now
    ensures Positive(Take(l, b, now).tokens) + (if Grants(l, b, now) then 1 else 0) + Credit(l, b.lastRefill - since)
      <= Positive(b.tokens) + Credit(l, now - since)
  {
    TakeIsCovered(l, b, now);
    CreditSuperadditive(l, b.lastRefill - since, now - b.lastRefill);
  }

  lemma ArrivalIsCovered(l: Limits, b: Bucket, times: seq<int>, j: nat, since: int)
    requires Starts(l, b, times) && Monotone(times, Reading) && 0 < j < |times| && since <= times[j - 1]
    ensures
      Admitted(l, b, times, j + 1) + Positive(BucketAt(l, b, times, j + 1).tokens) + Credit(l, times[j - 1] - since)
        <= Admitted(l, b, times, j) + Positive(BucketAt(l, b, times, j).tokens) + Credit(l, times[j] - since)
  {
    BucketBounds(l, b, times, j);
    assert times[j - 1] <= times[j];
    CoveredStep(l, BucketAt(l, b, times, j), times[j], since);
  }

  /** Between two points of a run, tokens spent are paid for by tokens held or earned. */
  lemma {:induction false} SpendingIsCovered(l: Limits, b: Bucket, times: seq<int>, i: nat, j: nat)
    requires Starts(l, b, times) && Monotone(times, Reading) && 0 < i <= j <= |times|
    ensures Admitted(l, b, times, j) + Positive(BucketAt(l, b, times, j).tokens)
      <= Admitted(l, b, times, i) + Positive(BucketAt(l, b, times, i).tokens) + Credit(l, times[j - 1] - times[i - 1])
  {
    if i < j {
      assert times[i - 1] <= times[j - 2];
      SpendingIsCovered(l, b, times, i, j - 1);
      ArrivalIsCovered(l, b, times, j - 1, times[i - 1]);
    }
  }

  /**
   In every window [t0, t1] of every run, the arrivals admitted number at most the burst plus
   the whole tokens the window is worth.
   */
  lemma WindowBound(l: Limits, b: Bucket, times: seq<int>, i: nat, j: nat, t0: int, t1: int)
    requires Starts(l, b, times) && Monotone(times, Reading)
    requires i < j <= |times| && t0 <= times[i] && times[j - 1] <= t1
    ensures Admitted(l, b, times, j) - Admitted(l, b, times, i) <= Positive(l.burst) + Credit(l, t1 - t0)
  {
    BucketBounds(l, b, times, i);
    assert times[i] <= times[j - 1];
    SpendingIsCovered(l, b, times, i + 1, j);
    CreditMonotone(l, times[j - 1] - times[i], t1 - t0);
  }

  /** Arrival `k` earns nothing: its gap is worth less than a token, or it is the first and the bucket is full. */
  ghost predicate NoGain(l: Limits, b: Bucket, times: seq<int>, k: nat)
    requires k < |times|
  {
    if k == 0 then b.tokens == l.burst || Credit(l, times[0] - b.lastRefill) == 0
    else Credit(l, times[k] - times[k - 1]) == 0
  }

  /** What one call admits and leaves, against what it found. */
  lemma TakeGains(l: Limits, b: Bucket, now: int)
    requires b.tokens <= l.burst
    ensures var held := Positive(Take(l, b, now).tokens) + if Grants(l, b, now) then 1 else 0;
      && held >= Positive(b.tokens)
      && (b.tokens == l.burst || Credit(l, now - b.lastRefill) == 0 ==> held == Positive(b.tokens))
      && (0 <= b.tokens && held == Positive(b.tokens) ==> b.tokens == l.burst || Credit(l, now - b.lastRefill) == 0)
    ensures l.burst > 0 ==> Take(l, b, now).tokens < l.burst
    ensures 0 <= b.tokens ==> 0 <= Take(l, b, now).tokens
  {
  }

  lemma {:induction false} GainsAddUp(l: Limits, b: Bucket, times: seq<int>, i: nat)
    requires b.tokens <= l.burst && l.burst > 0 && i <= |times|
    ensures i > 0 ==> BucketAt(l, b, times, i).tokens < l.burst && BucketAt(l, b, times, i).lastRefill == times[i - 1]
    ensures 0 <= b.tokens ==> 0 <= BucketAt(l, b, times, i).tokens
    ensures var held := Admitted(l, b, times, i) + Positive(BucketAt(l, b, times, i).tokens);
      && held >= Positive(b.tokens)
      && ((forall k :: 0 <= k < i ==> NoGain(l, b, times, k)) ==> held == Positive(b.tokens))
      && (0 <= b.tokens && held == Positive(b.tokens) ==> forall k :: 0 <= k < i ==> NoGain(l, b, times, k))
  {
    if i > 0 {
      GainsAddUp(l, b, times, i - 1);
      TakeGains(l, BucketAt(l, b, times, i - 1), times[i - 1]);
      assert NoGain(l, b, times, i - 1) <==>
        var before := BucketAt(l, b, times, i - 1);
        before.tokens == l.burst || Credit(l, times[i - 1] - before.lastRefill) == 0;
    }
  }

  lemma {:induction false} NeverGrants(l: Limits, b: Bucket, times: seq<int>, i: nat)
    requires b.tokens <= l.burst <= 0 && i <= |times|
    ensures Admitted(l, b, times, i) == 0 && BucketAt(l, b, times, i).tokens <= l.burst
  {
    if i > 0 {
      NeverGrants(l, b, times, i - 1);
    }
  }

  /**
   The cost of truncation: a run admits no more than the bucket held at the start exactly when no
   gap between arrivals is worth a whole token, where a full bucket may waste the first gap.
   */
  lemma FastPollingStarves(l: Limits, b: Bucket, times: seq<int>, i: nat)
    requires b.tokens <= l.burst && i <= |times|
    ensures var held := Admitted(l, b, times, i) + Positive(BucketAt(l, b, times, i).tokens);
      && (0 <= b.tokens && 0 < l.burst ==>
          (held == b.tokens <==> forall k :: 0 <= k < i ==> NoGain(l, b, times, k)))
      && ((forall k :: 0 <= k < i ==> NoGain(l, b, times, k)) ==> held == Positive(b.tokens))
  {
    if l.burst > 0 {
      GainsAddUp(l, b, times, i);
    } else {
      NeverGrants(l, b, times, i);
    }
  }

  /** Requests that all arrive at once are admitted as long as there are tokens; a new bucket has the burst. */
  lemma {:induction false} BurstAtOnce(l: Limits, b: Bucket, times: seq<int>, i: nat)
    requires i <= |times| && forall k :: 0 <= k < |times| ==> times[k] == b.lastRefill
    ensures Admitted(l, b, times, i) == Min(i, Positive(b.tokens))
    ensures BucketAt(l, b, times, i) == b.(tokens := b.tokens - Min(i, Positive(b.tokens)))
  {
    NoCreditInNoTime(l);
    if i > 0 {
      BurstAtOnce(l, b, times, i - 1);
    }
  }

  // ----- Comparison with a bucket that keeps fractions -----

  datatype Ideal = Ideal(tokens: real, lastRefill: int)

  function IdealTopped(l: Limits, b: Ideal, now: int): real {
    var t := b.tokens + Accrual(l, now - b.lastRefill);
    if t > l.burst as real then l.burst as real else t
  }

  predicate IdealGrants(l: Limits, b: Ideal, now: int) {
    IdealTopped(l, b, now) >= 1.0
  }

  function IdealTake(l: Limits, b: Ideal, now: int): Ideal {
    Ideal(IdealTopped(l, b, now) - (if IdealGrants(l, b, now) then 1.0 else 0.0), now)
  }

  ghost function IdealAt(l: Limits, b: Ideal, times: seq<int>, i: nat): Ideal
    requires i <= |times|
  {
    if i == 0 then b else IdealTake(l, IdealAt(l, b, times, i - 1), times[i - 1])
  }

  ghost function IdealAdmitted(l: Limits, b: Ideal, times: seq<int>, i: nat): nat
    requires i <= |times|
  {
    if i == 0 then 0
    else IdealAdmitted(l, b, times, i - 1) + if IdealGrants(l, IdealAt(l, b, times, i - 1), times[i - 1]) then 1 else 0
  }

  function Exact(b: Bucket): Ideal {
    Ideal(b.tokens as real, b.lastRefill)
  }

  /** Whatever the ideal bucket is short of, it has admitted before. */
  lemma CouplingStep(l: Limits, ideal: Ideal, b: Bucket, now: int, lead: nat)
    requires b.tokens <= l.burst && ideal.lastRefill == b.lastRefill && ideal.tokens + lead as real >= b.tokens as real
    ensures var lead' := lead + (if IdealGrants(l, ideal, now) then 1 else 0) - (if Grants(l, b, now) then 1 else 0);
      lead' >= 0 && IdealTake(l, ideal, now).tokens + lead' as real >= Take(l, b, now).tokens as real
  {
  }

  lemma {:induction false} IdealCoupling(l: Limits, b: Bucket, times: seq<int>, i: nat)
    requires Starts(l, b, times) && i <= |times|
    ensures var ideal, real' := IdealAt(l, Exact(b), times, i), BucketAt(l, b, times, i);
      var lead := IdealAdmitted(l, Exact(b), times, i) - Admitted(l, b, times, i);
      lead >= 0 && ideal.tokens + lead as real >= real'.tokens as real && ideal.lastRefill == real'.lastRefill
  {
    if i > 0 {
      IdealCoupling(l, b, times, i - 1);
      BucketBounds(l, b, times, i - 1);
      var lead := IdealAdmitted(l, Exact(b), times, i - 1) - Admitted(l, b, times, i - 1);
      CouplingStep(l, IdealAt(l, Exact(b), times, i - 1), BucketAt(l, b, times, i - 1), times[i - 1], lead);
    }
  }

  /** At every point of every run the truncating bucket has admitted no more than the ideal one. */
  lemma NeverBeatsIdeal(l: Limits, b: Bucket, times: seq<int>, i: nat)
    requires Starts(l, b, times) && i <= |times|
    ensures Admitted(l, b, times, i) <= IdealAdmitted(l, Exact(b), times, i)
  {
    IdealCoupling(l, b, times, i);
  }

  ghost predicate WholeGap(l: Limits, elapsed: int) {
    Accrual(l, elapsed) == Credit(l, elapsed) as real
  }

  lemma WholeGapStep(l: Limits, b: Bucket, now: int)
    requires WholeGap(l, now - b.lastRefill) && b.tokens <= l.burst
    ensures IdealTake(l, Exact(b), now) == Exact(Take(l, b, now))
    ensures IdealGrants(l, Exact(b), now) <==> Grants(l, b, now)
  {
  }

  /** When every gap is worth a whole number of tokens, the two buckets never differ. */
  lemma {:induction false} WholeGapsMatchIdeal(l: Limits, b: Bucket, times: seq<int>, i: nat)
    requires Starts(l, b, times) && i <= |times|
    requires times != [] ==> WholeGap(l, times[0] - b.lastRefill)
    requires forall k :: 0 < k < |times| ==> WholeGap(l, times[k] - times[k - 1])
    ensures IdealAt(l, Exact(b), times, i) == Exact(BucketAt(l, b, times, i))
    ensures IdealAdmitted(l, Exact(b), times, i) == Admitted(l, b, times, i)
  {
    if i > 0 {
      WholeGapsMatchIdeal(l, b, times, i - 1);
      BucketBounds(l, b, times, i - 1);
      assert i > 1 ==> WholeGap(l, times[i - 1] - times[i - 2]);
      WholeGapStep(l, BucketAt(l, b, times, i - 1), times[i - 1]);
    }
  }
}
