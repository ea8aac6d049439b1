/**
 The circuit breaker with calls as the unit of interleaving: every call of `Allow`,
 `RecordSuccess` and `RecordFailure` runs to completion before the next one starts.
 The interleaved version lives in module BreakerProtocol.

 Times are nanoseconds and are passed in by the caller.
 */
module CircuitBreaker {
  import opened Common

  datatype Phase = Closed | Open | HalfOpen

  /** `halfOpenProbes` is the capacity of the permit channel, so it cannot be negative. */
  datatype Config = Config(failureThreshold: int, openDuration: int, halfOpenProbes: nat)

  /** What the breaker remembers between two calls. */
  datatype Snapshot = Snapshot(phase: Phase, failures: int, openedAt: int, permits: nat)

  datatype Call = Allow(now: int) | Success(now: int) | Failure(now: int)

  const INITIAL := Snapshot(Closed, 0, 0, 0)

  /** Whether an open breaker lets the caller at time `now` start a half-open period. */
  predicate Elapsed(c: Config, s: Snapshot, now: int) {
    now - s.openedAt >= c.openDuration
  }

  /** The permits a caller of Allow finds when it reaches the channel. */
  function PermitsSeen(c: Config, s: Snapshot): nat {
    if s.phase.Open? then c.halfOpenProbes else s.permits
  }

  predicate Admits(c: Config, s: Snapshot, now: int) {
    s.phase.Closed? || ((s.phase.Open? ==> Elapsed(c, s, now)) && PermitsSeen(c, s) > 0)
  }

  function After(c: Config, s: Snapshot, call: Call): Snapshot {
    match call
    case Allow(now) =>
      if s.phase.Closed? || (s.phase.Open? && !Elapsed(c, s, now)) then s
      else
        var p := PermitsSeen(c, s);
        s.(phase := HalfOpen, permits := if p > 0 then p - 1 else 0)
    case Success(_) =>
      s.(failures := 0, phase := if s.phase.HalfOpen? then Closed else s.phase)
    case Failure(now) =>
      if (s.failures + 1 >= c.failureThreshold || s.phase.HalfOpen?) && !s.phase.Open? then
        s.(failures := 0, phase := Open, openedAt := now)
      else
        s.(failures := s.failures + 1)
  }

  predicate Answer(c: Config, s: Snapshot, call: Call) {
    call.Allow? ==> Admits(c, s, call.now)
  }

  class Breaker {
    const cfg: Config
    var phase: Phase
    var failures: int
    var openedAt: int
    /** Number of permits buffered in the probe channel, whose capacity is cfg.halfOpenProbes. */
    var permits: nat

    function Snap(): Snapshot
      reads this
    {
      Snapshot(phase, failures, openedAt, permits)
    }

    ghost predicate Valid()
      reads this
    {
      permits <= cfg.halfOpenProbes
    }

    constructor (cfg: Config)
      ensures Valid() && this.cfg == cfg && Snap() == INITIAL
    {
      this.cfg := cfg;
      phase, failures, openedAt, permits := Closed, 0, 0, 0;
    }

    method Allow(now: int) returns (admitted: bool)
      requires Valid()
      modifies this
      ensures Valid()
      ensures Snap() == After(cfg, old(Snap()), Call.Allow(now))
      ensures admitted == Admits(cfg, old(Snap()), now)
    {
      if phase.Closed? {
        return true;
      }
      if phase.Open? {
        if now - openedAt >= cfg.openDuration {
          phase := HalfOpen;
          while permits > 0
            invariant phase.HalfOpen? && failures == old(failures) && openedAt == old(openedAt)
          {
            permits := permits - 1;
          }
          for i := 0 to cfg.halfOpenProbes
            invariant phase.HalfOpen? && failures == old(failures) && openedAt == old(openedAt)
            invariant permits == i
          {
            assert permits < cfg.halfOpenProbes;  // the send finds room in the channel
            permits := permits + 1;
          }
        }
        if phase.Open? {
          return false;
        }
      }
      if permits > 0 {
        permits := permits - 1;
        return true;
      }
      return false;
    }

    method RecordSuccess(now: int)
      requires Valid()
      modifies this
      ensures Valid()
      ensures Snap() == After(cfg, old(Snap()), Success(now))
    {
      failures := 0;
      if phase.HalfOpen? {
        phase := Closed;
      }
    }

    method RecordFailure(now: int)
      requires Valid()
      modifies this
      ensures Valid()
      ensures Snap() == After(cfg, old(Snap()), Failure(now))
    {
      failures := failures + 1;
      if failures >= cfg.failureThreshold || phase.HalfOpen? {
        if !phase.Open? {
          openedAt := now;
          phase := Open;
          failures := 0;
        }
      }
    }

    method Perform(call: Call) returns (ok: bool)
      requires Valid()
      modifies this
      ensures Valid() && Snap() == After(cfg, old(Snap()), call)
      ensures ok == Answer(cfg, old(Snap()), call)
    {
      ok := true;
      match call {
        case Allow(now) => ok := Allow(now);
        case Success(now) => RecordSuccess(now);
        case Failure(now) => RecordFailure(now);
      }
    }
  }

  // ----- Whole runs -----

  /** The breaker after the first `i` calls of a run that starts from a fresh breaker. */
  ghost function StateAt(c: Config, calls: seq<Call>, i: nat): Snapshot
    requires i <= |calls|
  {
    if i == 0 then INITIAL else After(c, StateAt(c, calls, i - 1), calls[i - 1])
  }

  function CallTime(call: Call): int {
    call.now
  }

  /** The answers to the first `n` calls; reports of outcomes count as answered true. */
  ghost function Answers(c: Config, calls: seq<Call>, n: nat): (r: seq<bool>)
    requires n <= |calls|
    ensures |r| == n
  {
    if n == 0 then [] else Answers(c, calls, n - 1) + [Answer(c, StateAt(c, calls, n - 1), calls[n - 1])]
  }

  /** A live breaker driven by a list of calls gives the answers and ends in the state the run predicts. */
  method Drive(c: Config, calls: seq<Call>) returns (b: Breaker, answers: seq<bool>)
    ensures b.Valid() && b.cfg == c && b.Snap() == StateAt(c, calls, |calls|)
    ensures answers == Answers(c, calls, |calls|)
  {
    b := new Breaker(c);
    answers := [];
    for k := 0 to |calls|
      invariant fresh(b) && b.Valid() && b.cfg == c && b.Snap() == StateAt(c, calls, k)
      invariant answers == Answers(c, calls, k)
    {
      var ok := b.Perform(calls[k]);
      answers := answers + [ok];
    }
  }

  /**
   Failures reported since the breaker was last not Closed or last saw a success,
   read off the history alone: the counter field plays no part in it.
   */
  ghost function FailureStreak(c: Config, calls: seq<Call>, i: nat): nat
    requires i <= |calls|
  {
    if i == 0 || !StateAt(c, calls, i - 1).phase.Closed? then 0
    else match calls[i - 1]
      case Success(_) => 0
      case Failure(_) => 1 + FailureStreak(c, calls, i - 1)
      case Allow(_) => FailureStreak(c, calls, i - 1)
  }

  lemma {:induction false} ClosedCounterIsStreak(c: Config, calls: seq<Call>, i: nat)
    requires i <= |calls|
    ensures StateAt(c, calls, i).phase.Closed? ==>
      && StateAt(c, calls, i).failures == FailureStreak(c, calls, i)
      && (FailureStreak(c, calls, i) == 0 || FailureStreak(c, calls, i) < c.failureThreshold)
  {
    if i > 0 {
      ClosedCounterIsStreak(c, calls, i - 1);
    }
  }

  /** A closed breaker opens at exactly the call that completes a streak of threshold failures. */
  lemma TripsExactlyAtThreshold(c: Config, calls: seq<Call>, i: nat)
    requires i < |calls| && StateAt(c, calls, i).phase.Closed?
    ensures StateAt(c, calls, i + 1).phase.Open? <==>
      calls[i].Failure? && FailureStreak(c, calls, i + 1) >= c.failureThreshold
    ensures c.failureThreshold >= 1 ==> FailureStreak(c, calls, i + 1) <= c.failureThreshold
    ensures !StateAt(c, calls, i + 1).phase.Open? ==> StateAt(c, calls, i + 1).phase.Closed?
  {
    ClosedCounterIsStreak(c, calls, i);
  }

  /** Call `i` is the one that moved the breaker into Open. */
  ghost predicate Opens(c: Config, calls: seq<Call>, i: nat)
    requires i < |calls|
  {
    !StateAt(c, calls, i).phase.Open? && StateAt(c, calls, i + 1).phase.Open?
  }

  ghost predicate HalfOpens(c: Config, calls: seq<Call>, i: nat)
    requires i < |calls|
  {
    StateAt(c, calls, i).phase.Open? && StateAt(c, calls, i + 1).phase.HalfOpen?
  }

  /** The last of the first `i` calls that opened the breaker. */
  ghost function LastOpening(c: Config, calls: seq<Call>, i: nat): Option<nat>
    requires i <= |calls|
  {
    if i == 0 then None
    else if Opens(c, calls, i - 1) then Some(i - 1)
    else LastOpening(c, calls, i - 1)
  }

  lemma {:induction false} OpenedAtIsLastOpening(c: Config, calls: seq<Call>, i: nat)
    requires i <= |calls|
    ensures StateAt(c, calls, i).phase.Open? ==>
      && LastOpening(c, calls, i).Some? && LastOpening(c, calls, i).value < i
      && StateAt(c, calls, i).openedAt == calls[LastOpening(c, calls, i).value].now
  {
    if i > 0 {
      OpenedAtIsLastOpening(c, calls, i - 1);
    }
  }

  /** OpenDuration has passed at call `i` since the breaker last opened. */
  ghost predicate TimeIsUp(c: Config, calls: seq<Call>, i: nat)
    requires i < |calls|
  {
    var k := LastOpening(c, calls, i);
    k.Some? && k.value < i && calls[i].now >= calls[k.value].now + c.openDuration
  }

  /** An open breaker becomes half-open at exactly the first Allow when its time is up. */
  lemma OpenEndsExactly(c: Config, calls: seq<Call>, i: nat)
    requires i < |calls| && StateAt(c, calls, i).phase.Open?
    ensures StateAt(c, calls, i + 1).phase == if calls[i].Allow? && TimeIsUp(c, calls, i) then HalfOpen else Open
  {
    OpenedAtIsLastOpening(c, calls, i);
  }

  /** A half-open period ends with the first outcome that is reported, and the outcome decides how. */
  lemma HalfOpenEndsExactly(c: Config, calls: seq<Call>, i: nat)
    requires i < |calls| && StateAt(c, calls, i).phase.HalfOpen?
    ensures calls[i].Success? <==> StateAt(c, calls, i + 1).phase.Closed?
    ensures calls[i].Failure? <==> StateAt(c, calls, i + 1).phase.Open?
    ensures calls[i].Allow? <==> StateAt(c, calls, i + 1).phase.HalfOpen?
  {
  }

  /** Failures among calls `m` to `j` since the last success among them. */
  ghost function FailuresInARow(calls: seq<Call>, m: nat, j: nat): nat
    requires m <= j <= |calls|
    decreases j
  {
    if j == m then 0
    else match calls[j - 1]
      case Success(_) => 0
      case Failure(_) => 1 + FailuresInARow(calls, m, j - 1)
      case Allow(_) => FailuresInARow(calls, m, j - 1)
  }

  /** No failure of calls `m` to `j` completes a row of threshold failures. */
  ghost predicate BelowThreshold(c: Config, calls: seq<Call>, m: nat, j: nat)
    requires m <= j <= |calls|
  {
    forall k :: m <= k <= j ==> FailuresInARow(calls, m, k) == 0 || FailuresInARow(calls, m, k) < c.failureThreshold
  }

  /** Before call `m` the breaker is new, or a success has just closed it. */
  ghost predicate StartsAfresh(c: Config, calls: seq<Call>, m: nat)
    requires m <= |calls|
  {
    m == 0 || (StateAt(c, calls, m - 1).phase.HalfOpen? && calls[m - 1].Success?)
  }

  lemma {:induction false} RowIsCounted(c: Config, calls: seq<Call>, m: nat, j: nat)
    requires m <= j <= |calls| && StartsAfresh(c, calls, m) && BelowThreshold(c, calls, m, j)
    ensures StateAt(c, calls, j).phase.Closed? && StateAt(c, calls, j).failures == FailuresInARow(calls, m, j)
    decreases j
  {
    if m < j {
      RowIsCounted(c, calls, m, j - 1);
      assert FailuresInARow(calls, m, j) == 0 || FailuresInARow(calls, m, j) < c.failureThreshold;
    }
  }

  lemma {:induction false} RowTrips(c: Config, calls: seq<Call>, m: nat, j: nat)
    requires m <= j <= |calls| && StartsAfresh(c, calls, m) && !BelowThreshold(c, calls, m, j)
    ensures exists k :: m < k <= j && StateAt(c, calls, k).phase.Open?
    decreases j
  {
    if m < j {
      if !BelowThreshold(c, calls, m, j - 1) {
        RowTrips(c, calls, m, j - 1);
      } else {
        RowIsCounted(c, calls, m, j - 1);
        assert !(FailuresInARow(calls, m, j) == 0 || FailuresInARow(calls, m, j) < c.failureThreshold);
        assert StateAt(c, calls, j).phase.Open?;
      }
    }
  }

  /** Recovery: from a fresh start the breaker stays Closed exactly until failures in a row reach the threshold. */
  lemma ClosedExactlyWhile(c: Config, calls: seq<Call>, m: nat, j: nat)
    requires m <= j <= |calls| && StartsAfresh(c, calls, m)
    ensures (forall k :: m <= k <= j ==> StateAt(c, calls, k).phase.Closed?) <==> BelowThreshold(c, calls, m, j)
  {
    if BelowThreshold(c, calls, m, j) {
      forall k | m <= k <= j
        ensures StateAt(c, calls, k).phase.Closed?
      {
        RowIsCounted(c, calls, m, k);
      }
    } else {
      RowTrips(c, calls, m, j);
    }
  }

  /** Until then every Allow is admitted. */
  lemma AdmittedAfterRecovery(c: Config, calls: seq<Call>, m: nat, j: nat)
    requires m <= j < |calls| && StartsAfresh(c, calls, m) && BelowThreshold(c, calls, m, j) && calls[j].Allow?
    ensures AdmittedAt(c, calls, j)
  {
    RowIsCounted(c, calls, m, j);
  }

  /** The answer to call `i`, an Allow. */
  ghost predicate AdmittedAt(c: Config, calls: seq<Call>, i: nat)
    requires i < |calls|
  {
    Answers(c, calls, i + 1)[i]
  }

  /**
   Admission read off the history. Closed: always. Open: exactly when the time is up and there is
   any probe to give. Half-open: exactly while the period has let fewer than HalfOpenProbes through.
   */
  lemma AdmittedExactly(c: Config, calls: seq<Call>, i: nat)
    requires i < |calls| && calls[i].Allow?
    ensures AdmittedAt(c, calls, i) <==>
      match StateAt(c, calls, i).phase
      case Closed => true
      case Open => TimeIsUp(c, calls, i) && c.halfOpenProbes >= 1
      case HalfOpen => ProbesThisPeriod(c, calls, i) < c.halfOpenProbes
  {
    OpenedAtIsLastOpening(c, calls, i);
    HalfOpenPermitsBalance(c, calls, i);
  }

  lemma {:induction false} StaysOpen(c: Config, calls: seq<Call>, i: nat, j: nat)
    requires i < j <= |calls| && Opens(c, calls, i)
    requires forall k :: i < k < j ==> calls[k].now < calls[i].now + c.openDuration
    ensures StateAt(c, calls, j).phase.Open? && StateAt(c, calls, j).openedAt == calls[i].now
  {
    if j > i + 1 {
      StaysOpen(c, calls, i, j - 1);
    }
  }

  /**
   After the breaker opens at time t, every Allow before t + OpenDuration is shed, whatever
   outcomes of earlier requests are reported in between.
   */
  lemma ShedWhileOpen(c: Config, calls: seq<Call>, i: nat, j: nat)
    requires Monotone(calls, CallTime)
    requires i < j < |calls| && Opens(c, calls, i) && calls[j].Allow?
    requires calls[j].now < calls[i].now + c.openDuration
    ensures !AdmittedAt(c, calls, j)
  {
    StaysOpen(c, calls, i, j);
  }

  /** Requests admitted since the current half-open period began, counted from the history. */
  ghost function ProbesThisPeriod(c: Config, calls: seq<Call>, i: nat): nat
    requires i <= |calls|
  {
    if i == 0 || !StateAt(c, calls, i).phase.HalfOpen? then 0
    else
      var before := if HalfOpens(c, calls, i - 1) then 0 else ProbesThisPeriod(c, calls, i - 1);
      before + if calls[i - 1].Allow? && AdmittedAt(c, calls, i - 1) then 1 else 0
  }

  /** In a half-open period, probes let through and permits left always add up to the limit. */
  lemma {:induction false} HalfOpenPermitsBalance(c: Config, calls: seq<Call>, i: nat)
    requires i <= |calls|
    ensures StateAt(c, calls, i).phase.HalfOpen? ==>
      ProbesThisPeriod(c, calls, i) + StateAt(c, calls, i).permits == c.halfOpenProbes
  {
    if i > 0 {
      HalfOpenPermitsBalance(c, calls, i - 1);
    }
  }

  lemma {:induction false} ReopensAfterHalfOpen(c: Config, calls: seq<Call>, i: nat, k: nat)
    requires Monotone(calls, CallTime) && i < k <= |calls| && HalfOpens(c, calls, i)
    ensures StateAt(c, calls, k).phase.Open? ==> StateAt(c, calls, k).openedAt >= calls[i].now
  {
    if k > i + 1 {
      ReopensAfterHalfOpen(c, calls, i, k - 1);
      assert calls[i].now <= calls[k - 1].now;
    }
  }

  /** Two half-open periods start at least OpenDuration apart. */
  lemma HalfOpeningsAreSpaced(c: Config, calls: seq<Call>, i: nat, j: nat)
    requires Monotone(calls, CallTime) && i < j < |calls|
    requires HalfOpens(c, calls, i) && HalfOpens(c, calls, j)
    ensures calls[j].now - calls[i].now >= c.openDuration
  {
    ReopensAfterHalfOpen(c, calls, i, j);
  }

  /** Half-open periods begun during the first `i` calls. */
  ghost function HalfOpenings(c: Config, calls: seq<Call>, i: nat): nat
    requires i <= |calls|
  {
    if i == 0 then 0
    else HalfOpenings(c, calls, i - 1) + if HalfOpens(c, calls, i - 1) then 1 else 0
  }

  /** Requests let through while the breaker was not Closed, during the first `i` calls. */
  ghost function Probes(c: Config, calls: seq<Call>, i: nat): nat
    requires i <= |calls|
  {
    if i == 0 then 0
    else
      var s := StateAt(c, calls, i - 1);
      var probe := calls[i - 1].Allow? && !s.phase.Closed? && Admits(c, s, calls[i - 1].now);
      Probes(c, calls, i - 1) + if probe then 1 else 0
  }

  function Outstanding(s: Snapshot): nat {
    if s.phase.HalfOpen? then s.permits else 0
  }

  lemma BudgetStep(c: Config, s: Snapshot, call: Call)
    ensures var s' := After(c, s, call);
      Outstanding(s') + (if call.Allow? && !s.phase.Closed? && Admits(c, s, call.now) then 1 else 0)
        <= Outstanding(s) + (if s.phase.Open? && s'.phase.HalfOpen? then c.halfOpenProbes else 0)
  {
  }

  lemma {:induction false} ProbesWithinBudget(c: Config, calls: seq<Call>, i: nat)
    requires i <= |calls|
    ensures Probes(c, calls, i) + Outstanding(StateAt(c, calls, i)) <= HalfOpenings(c, calls, i) * c.halfOpenProbes
  {
    if i > 0 {
      ProbesWithinBudget(c, calls, i - 1);
      BudgetStep(c, StateAt(c, calls, i - 1), calls[i - 1]);
      OneMore(HalfOpenings(c, calls, i - 1), c.halfOpenProbes);
    }
  }

  /** OpenDuration for each half-open period begun. */
  ghost function TimeOpen(c: Config, calls: seq<Call>, i: nat): int
    requires i <= |calls|
  {
    if i == 0 then 0 else TimeOpen(c, calls, i - 1) + if HalfOpens(c, calls, i - 1) then c.openDuration else 0
  }

  lemma {:induction false} TimeOpenIsProduct(c: Config, calls: seq<Call>, i: nat)
    requires i <= |calls|
    ensures TimeOpen(c, calls, i) == HalfOpenings(c, calls, i) * c.openDuration
  {
    if i > 0 {
      TimeOpenIsProduct(c, calls, i - 1);
      OneMore(HalfOpenings(c, calls, i - 1), c.openDuration);
    }
  }

  lemma {:induction false} HalfOpeningsTakeTime(c: Config, calls: seq<Call>, i: nat)
    requires Monotone(calls, CallTime) && 0 < i <= |calls|
    ensures TimeOpen(c, calls, i) <= calls[i - 1].now - calls[0].now
    ensures StateAt(c, calls, i).phase.Open? ==>
      TimeOpen(c, calls, i) <= StateAt(c, calls, i).openedAt - calls[0].now
  {
    if i > 1 {
      HalfOpeningsTakeTime(c, calls, i - 1);
      assert calls[i - 2].now <= calls[i - 1].now;
    } else {
      assert StateAt(c, calls, 0) == INITIAL;
    }
  }

  /**
   The recovery rate of a failing backend: over a whole run, the requests let through while
   the breaker was not Closed come to at most HalfOpenProbes for every OpenDuration elapsed.
   */
  lemma ProbeRateIsBounded(c: Config, calls: seq<Call>, i: nat)
    requires c.openDuration >= 0
    requires Monotone(calls, CallTime) && 0 < i <= |calls|
    ensures Probes(c, calls, i) * c.openDuration <= c.halfOpenProbes * (calls[i - 1].now - calls[0].now)
  {
    ProbesWithinBudget(c, calls, i);
    HalfOpeningsTakeTime(c, calls, i);
    TimeOpenIsProduct(c, calls, i);
    ChainProducts(Probes(c, calls, i), HalfOpenings(c, calls, i), c.openDuration, c.halfOpenProbes,
                  calls[i - 1].now - calls[0].now);
  }

  lemma ChainProducts(p: int, h: int, d: int, n: int, e: int)
    requires 0 <= d && 0 <= n && p <= h * n && h * d <= e
    ensures p * d <= n * e
  {
    MulMonotone(p, h * n, d);
    assert (h * n) * d == (h * d) * n;
    MulMonotone(h * d, e, n);
  }
}
