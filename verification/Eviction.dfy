/**
 The rate limiter's cleanup loop. Forgetting an idle bucket is invisible to every client
 exactly when the shortest idle time that gets a bucket forgotten is worth a full burst.
 */
module Eviction {
  import opened Common
  import opened RateLimiter

  datatype Op = Request(ip: string, now: int) | Tick(now: int)

  function OpTime(op: Op): int {
    op.now
  }

  function Apply(l: Limits, interval: int, evicting: bool, bs: Table, op: Op): Table {
    match op
    case Request(ip, now) => bs[ip := Take(l, BucketOf(l, bs, ip, now), now)]
    case Tick(now) => if evicting then Kept(bs, now - interval) else bs
  }

  predicate Answer(l: Limits, bs: Table, op: Op)
    requires op.Request?
  {
    Grants(l, BucketOf(l, bs, op.ip, op.now), op.now)
  }

  /** The table after the first `i` operations, with or without the cleanup loop. */
  ghost function TableAt(l: Limits, interval: int, evicting: bool, ops: seq<Op>, i: nat): Table
    requires i <= |ops|
  {
    if i == 0 then map[]
    else Apply(l, interval, evicting, TableAt(l, interval, evicting, ops, i - 1), ops[i - 1])
  }

  method Perform(rl: Limiter, interval: int, op: Op) returns (ok: bool)
    modifies rl
    ensures rl.buckets == Apply(rl.limits, interval, true, old(rl.buckets), op)
    ensures op.Request? ==> ok == Answer(rl.limits, old(rl.buckets), op)
  {
    ok := true;
    match op {
      case Request(ip, now) => ok := rl.Allow(ip, now, now);
      case Tick(now) => rl.Sweep(interval, now);
    }
  }

  /** A live limiter fed the same operations, cleanup included, gives these answers. */
  method Replay(l: Limits, interval: int, ops: seq<Op>) returns (answers: seq<bool>)
    ensures |answers| == |ops|
    ensures forall i :: 0 <= i < |ops| && ops[i].Request? ==>
      answers[i] == Answer(l, TableAt(l, interval, true, ops, i), ops[i])
  {
    var rl := new Limiter(l);
    answers := [];
    for k := 0 to |ops|
      invariant fresh(rl) && rl.limits == l && rl.buckets == TableAt(l, interval, true, ops, k)
      invariant |answers| == k
      invariant forall i :: 0 <= i < k && ops[i].Request? ==>
        answers[i] == Answer(l, TableAt(l, interval, true, ops, i), ops[i])
    {
      var ok := Perform(rl, interval, ops[k]);
      answers := answers + [ok];
    }
  }

  /** Every client gets the same answers whether or not idle buckets are forgotten. */
  ghost predicate Invisible(l: Limits, interval: int, ops: seq<Op>) {
    forall i :: 0 <= i < |ops| && ops[i].Request? ==>
      Answer(l, TableAt(l, interval, true, ops, i), ops[i])
        == Answer(l, TableAt(l, interval, false, ops, i), ops[i])
  }

  /** The evicting table agrees with the full one except for buckets that have earned a full burst. */
  ghost predicate Coupled(l: Limits, interval: int, small: Table, full: Table, now: int) {
    && (forall ip :: ip in small ==> ip in full && small[ip] == full[ip])
    && (forall ip :: ip in full ==> 0 <= full[ip].tokens <= l.burst)
    && (forall ip :: ip in full && ip !in small ==> full[ip].lastRefill < now - interval)
  }

  lemma CoupledStep(l: Limits, interval: nat, small: Table, full: Table, before: int, op: Op)
    requires l.burst >= 0 && Credit(l, interval + 1) >= l.burst
    requires before <= op.now && Coupled(l, interval, small, full, before)
    ensures Coupled(l, interval, Apply(l, interval, true, small, op), Apply(l, interval, false, full, op), op.now)
    ensures op.Request? ==> Answer(l, small, op) == Answer(l, full, op)
  {
    if op.Request? && op.ip in full && op.ip !in small {
      CreditMonotone(l, interval + 1, op.now - full[op.ip].lastRefill);
      assert Topped(l, full[op.ip], op.now) == l.burst;
      assert Topped(l, Bucket(l.burst, op.now), op.now) == l.burst;
    }
  }

  lemma {:induction false} CoupledRun(l: Limits, interval: nat, ops: seq<Op>, i: nat)
    requires l.burst >= 0 && Credit(l, interval + 1) >= l.burst
    requires Monotone(ops, OpTime) && 0 < i <= |ops|
    ensures
      Coupled(l, interval, TableAt(l, interval, true, ops, i), TableAt(l, interval, false, ops, i), ops[i - 1].now)
  {
    var a, b := TableAt(l, interval, true, ops, i - 1), TableAt(l, interval, false, ops, i - 1);
    if i > 1 {
      CoupledRun(l, interval, ops, i - 1);
      assert ops[i - 2].now <= ops[i - 1].now;
      CoupledStep(l, interval, a, b, ops[i - 2].now, ops[i - 1]);
    } else {
      CoupledStep(l, interval, a, b, ops[0].now, ops[0]);
    }
  }

  /** With a negative burst, no bucket ever has a token to give. */
  ghost predicate Empty(l: Limits, bs: Table) {
    forall ip :: ip in bs ==> bs[ip].tokens <= l.burst
  }

  lemma {:induction false} StaysEmpty(l: Limits, interval: int, evicting: bool, ops: seq<Op>, i: nat)
    requires l.burst < 0 && i <= |ops|
    ensures Empty(l, TableAt(l, interval, evicting, ops, i))
  {
    if i > 0 {
      StaysEmpty(l, interval, evicting, ops, i - 1);
    }
  }

  lemma EnoughCreditIsInvisible(l: Limits, interval: nat, ops: seq<Op>)
    requires Credit(l, interval + 1) >= l.burst
    requires Monotone(ops, OpTime)
    ensures Invisible(l, interval, ops)
  {
    forall i | 0 <= i < |ops| && ops[i].Request?
      ensures Answer(l, TableAt(l, interval, true, ops, i), ops[i])
        == Answer(l, TableAt(l, interval, false, ops, i), ops[i])
    {
      if l.burst < 0 {
        StaysEmpty(l, interval, true, ops, i);
        StaysEmpty(l, interval, false, ops, i);
      } else if i > 0 {
        CoupledRun(l, interval, ops, i);
        assert ops[i - 1].now <= ops[i].now;
        CoupledStep(l, interval, TableAt(l, interval, true, ops, i), TableAt(l, interval, false, ops, i),
                    ops[i - 1].now, ops[i]);
      }
    }
  }

  // ----- The other direction -----

  /** A client spends its whole burst at time 0 and comes back just after it can be forgotten. */
  function Comeback(burst: nat, back: int): seq<Op> {
    seq(2 * burst + 1, i => if i < burst then Request("", 0) else if i == burst then Tick(back) else Request("", back))
  }

  lemma {:induction false} BurstSpent(l: Limits, interval: nat, evicting: bool, ops: seq<Op>, i: nat)
    requires l.burst > 0 && ops == Comeback(l.burst, interval + 1) && 0 < i <= l.burst
    ensures TableAt(l, interval, evicting, ops, i) == map["" := Bucket(l.burst - i, 0)]
  {
    NoCreditInNoTime(l);
    if i > 1 {
      BurstSpent(l, interval, evicting, ops, i - 1);
    } else {
      assert TableAt(l, interval, evicting, ops, 0) == map[];
      assert ops[0] == Request("", 0);
    }
  }

  /** Without cleanup, the client that comes back has what the pause was worth. */
  lemma {:induction false} RememberedAfterComeback(l: Limits, interval: nat, ops: seq<Op>, m: nat)
    requires l.burst > 0 && ops == Comeback(l.burst, interval + 1)
    requires Credit(l, interval + 1) < l.burst && m <= Credit(l, interval + 1)
    ensures TableAt(l, interval, false, ops, l.burst + 1 + m) ==
      map["" := if m == 0 then Bucket(0, 0) else Bucket(Credit(l, interval + 1) - m, interval + 1)]
  {
    NoCreditInNoTime(l);
    if m == 0 {
      BurstSpent(l, interval, false, ops, l.burst);
      assert ops[l.burst] == Tick(interval + 1);
    } else {
      RememberedAfterComeback(l, interval, ops, m - 1);
      assert ops[l.burst + m] == Request("", interval + 1);
    }
  }

  /** With cleanup, it has a whole new burst. */
  lemma {:induction false} ForgottenAfterComeback(l: Limits, interval: nat, ops: seq<Op>, m: nat)
    requires l.burst > 0 && ops == Comeback(l.burst, interval + 1) && m < l.burst
    ensures TableAt(l, interval, true, ops, l.burst + 1 + m) ==
      if m == 0 then map[] else map["" := Bucket(l.burst - m, interval + 1)]
  {
    NoCreditInNoTime(l);
    if m == 0 {
      BurstSpent(l, interval, true, ops, l.burst);
      assert ops[l.burst] == Tick(interval + 1);
    } else {
      ForgottenAfterComeback(l, interval, ops, m - 1);
      assert ops[l.burst + m] == Request("", interval + 1);
    }
  }

  lemma TooLittleCreditShows(l: Limits, interval: nat)
    requires Credit(l, interval + 1) < l.burst
    ensures Monotone(Comeback(l.burst, interval + 1), OpTime)
    ensures !Invisible(l, interval, Comeback(l.burst, interval + 1))
  {
    var ops := Comeback(l.burst, interval + 1);
    var k := Credit(l, interval + 1);
    var i := l.burst + 1 + k;
    RememberedAfterComeback(l, interval, ops, k);
    ForgottenAfterComeback(l, interval, ops, k);
    NoCreditInNoTime(l);
    assert ops[i] == Request("", interval + 1);
    assert !Answer(l, TableAt(l, interval, false, ops, i), ops[i]);
    assert Answer(l, TableAt(l, interval, true, ops, i), ops[i]);
  }

  /**
   A bucket is forgotten only when it has been idle for more than the interval, that is for at
   least one nanosecond more. Cleanup is invisible in every run if and only if that idle time
   earns back the whole burst.
   */
  lemma CleanupInvisibleIff(l: Limits, interval: nat)
    ensures (forall ops :: Monotone(ops, OpTime) ==> Invisible(l, interval, ops))
      <==> Credit(l, interval + 1) >= l.burst
  {
    if Credit(l, interval + 1) >= l.burst {
      forall ops | Monotone(ops, OpTime)
        ensures Invisible(l, interval, ops)
      {
        EnoughCreditIsInvisible(l, interval, ops);
      }
    } else {
      TooLittleCreditShows(l, interval);
    }
  }

  // ----- Clients do not affect each other -----

  /** When this client made requests among the first `i` operations. */
  ghost function Arrivals(ops: seq<Op>, ip: string, i: nat): seq<int>
    requires i <= |ops|
  {
    if i == 0 then []
    else if ops[i - 1] == Request(ip, ops[i - 1].now) then Arrivals(ops, ip, i - 1) + [ops[i - 1].now]
    else Arrivals(ops, ip, i - 1)
  }

  /** A bucket made for the first of these arrivals. */
  ghost function NewBucket(l: Limits, times: seq<int>): Bucket
    requires times != []
  {
    Bucket(l.burst, times[0])
  }

  lemma {:induction false} BucketAtPrefix(l: Limits, b: Bucket, times: seq<int>, t: int, i: nat)
    requires i <= |times|
    ensures BucketAt(l, b, times + [t], i) == BucketAt(l, b, times, i)
  {
    if i > 0 {
      BucketAtPrefix(l, b, times, t, i - 1);
    }
  }

  /** Without cleanup, the bucket of a client is that of a run of its own requests alone, from a full bucket. */
  lemma {:induction false} ClientsAreSeparate(l: Limits, interval: int, ops: seq<Op>, ip: string, i: nat)
    requires i <= |ops|
    ensures var times, table := Arrivals(ops, ip, i), TableAt(l, interval, false, ops, i);
      if times == [] then ip !in table
      else ip in table && table[ip] == BucketAt(l, NewBucket(l, times), times, |times|)
  {
    if i > 0 {
      ClientsAreSeparate(l, interval, ops, ip, i - 1);
      var before, op := Arrivals(ops, ip, i - 1), ops[i - 1];
      if op == Request(ip, op.now) {
        var b := if before == [] then Bucket(l.burst, op.now) else NewBucket(l, before);
        BucketAtPrefix(l, b, before, op.now, |before|);
        assert (before + [op.now])[0] == if before == [] then op.now else before[0];
        assert BucketAt(l, b, before + [op.now], |before| + 1) == Take(l, BucketAt(l, b, before, |before|), op.now);
      }
    }
  }

  /** So is every answer to it, and what holds of runs on one bucket holds of every client. */
  lemma AnswersAreSeparate(l: Limits, interval: int, ops: seq<Op>, i: nat)
    requires i < |ops| && ops[i].Request?
    ensures var times := Arrivals(ops, ops[i].ip, i + 1);
      && times != []
      && (Answer(l, TableAt(l, interval, false, ops, i), ops[i]) <==>
          GrantedAt(l, NewBucket(l, times), times, |times| - 1))
  {
    var op := ops[i];
    var before := Arrivals(ops, op.ip, i);
    var times := before + [op.now];
    ClientsAreSeparate(l, interval, ops, op.ip, i);
    var b := NewBucket(l, times);
    BucketAtPrefix(l, b, before, op.now, |before|);
  }
}
