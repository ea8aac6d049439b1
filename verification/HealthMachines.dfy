/**
 The two active health checkers: the state machine with backoff and the plain checker without.
 Both drive the health field of a backend from probe outcomes. Times are nanoseconds.
 */
module HealthMachines {
  import opened Common
  import opened Backends

  const BASE_BACKOFF := 5 * SECOND
  const MAX_BACKOFF := 300 * SECOND

  datatype Config = Config(failureThreshold: int, successThreshold: int)

  function Pow2(k: nat): nat {
    if k == 0 then 1 else 2 * Pow2(k - 1)
  }

  /** The base backoff doubled `k` times, up to the maximum. */
  function Capped(k: nat): int {
    Min(BASE_BACKOFF * Pow2(k), MAX_BACKOFF)
  }

  lemma CappedDoubles(k: nat)
    ensures Min(Capped(k) * 2, MAX_BACKOFF) == Capped(k + 1)
  {
    assert Pow2(k + 1) == 2 * Pow2(k);
  }

  // ----- The state machine with backoff -----

  /** `since` is None where the program stores the zero time, which every backoff has passed. */
  datatype Probe = Probe(failures: nat, successes: nat, since: Option<int>, backoff: int)

  const NEW_PROBE := Probe(0, 0, None, BASE_BACKOFF)

  function Recorded(p: Probe, ok: bool, recorded: int): Probe {
    if ok then p.(failures := 0, successes := p.successes + 1)
    else p.(successes := 0, failures := p.failures + 1, since := if p.since.None? then Some(recorded) else p.since)
  }

  predicate BackoffOver(p: Probe, now: int) {
    p.since.None? || now - p.since.value >= p.backoff
  }

  /** The health of a backend together with what the machine remembers about it. */
  datatype Tracked = Tracked(h: Health, p: Probe)

  /** `recorded` is the clock when the outcome is counted, `now` when the state is looked at after that. */
  function Observed(c: Config, s: Tracked, ok: bool, recorded: int, now: int): Tracked {
    var p := Recorded(s.p, ok, recorded);
    match s.h
    case Healthy => Tracked(if p.failures >= c.failureThreshold then Unhealthy else Healthy, p)
    case Unhealthy =>
      if BackoffOver(p, now) && p.successes >= c.successThreshold
      then Tracked(Probation, p.(backoff := Min(p.backoff * 2, MAX_BACKOFF), since := None))
      else Tracked(Unhealthy, p)
    case Probation =>
      if p.failures > 0 then Tracked(Unhealthy, p.(since := Some(now)))
      else if p.successes >= c.successThreshold then Tracked(Healthy, p.(backoff := BASE_BACKOFF))
      else Tracked(Probation, p)
    case Disabled => Tracked(Disabled, p)
  }

  class StateMachine {
    const cfg: Config
    var states: map<string, Probe>

    constructor (cfg: Config)
      ensures this.cfg == cfg && states == map[]
    {
      this.cfg, states := cfg, map[];
    }

    function State(id: string): Probe
      reads this
    {
      if id in states then states[id] else NEW_PROBE
    }

    method Observe(b: Backend, ok: bool, recorded: int, now: int)
      modifies this, b`health
      ensures var after := Observed(cfg, Tracked(old(b.health), old(State(b.id))), ok, recorded, now);
        b.health == after.h && states == old(states)[b.id := after.p]
    {
      var ps := State(b.id);
      if ok {
        ps := ps.(failures := 0, successes := ps.successes + 1);
      } else {
        ps := ps.(successes := 0, failures := ps.failures + 1);
        if ps.since.None? {
          ps := ps.(since := Some(recorded));
        }
      }
      match b.health {
        case Healthy =>
          if ps.failures >= cfg.failureThreshold {
            b.SetHealth(Unhealthy);
          }
        case Unhealthy =>
          if BackoffOver(ps, now) && ps.successes >= cfg.successThreshold {
            b.SetHealth(Probation);
            ps := ps.(backoff := Min(ps.backoff * 2, MAX_BACKOFF), since := None);
          }
        case Probation =>
          if ps.failures > 0 {
            b.SetHealth(Unhealthy);
            ps := ps.(since := Some(now));
          } else if ps.successes >= cfg.successThreshold {
            b.SetHealth(Healthy);
            ps := ps.(backoff := BASE_BACKOFF);
          }
        case Disabled =>
      }
      states := states[b.id := ps];
    }
  }

  // ----- The checker without backoff -----

  datatype Counted = Counted(h: Health, failures: nat, successes: nat)

  function Probed(c: Config, s: Counted, ok: bool): Counted {
    var f, n := if ok then 0 else s.failures + 1, if ok then s.successes + 1 else 0;
    match s.h
    case Healthy => Counted(if f >= c.failureThreshold then Unhealthy else Healthy, f, n)
    case Unhealthy => Counted(if n >= c.successThreshold then Probation else Unhealthy, f, n)
    case Probation =>
      Counted(if f > 0 then Unhealthy else if n >= c.successThreshold then Healthy else Probation, f, n)
    case Disabled => Counted(Disabled, f, n)
  }

  class Checker {
    const cfg: Config
    var failures: map<string, nat>
    var successes: map<string, nat>

    constructor (cfg: Config)
      ensures this.cfg == cfg && failures == map[] && successes == map[]
    {
      this.cfg, failures, successes := cfg, map[], map[];
    }

    static function Of(m: map<string, nat>, id: string): nat {
      if id in m then m[id] else 0
    }

    method Probe(b: Backend, ok: bool)
      modifies this, b`health
      ensures
        var after := Probed(cfg, Counted(old(b.health), Of(old(failures), b.id), Of(old(successes), b.id)), ok);
        && b.health == after.h
        && failures == old(failures)[b.id := after.failures]
        && successes == old(successes)[b.id := after.successes]
    {
      if ok {
        failures := failures[b.id := 0];
        successes := successes[b.id := Of(successes, b.id) + 1];
      } else {
        successes := successes[b.id := 0];
        failures := failures[b.id := Of(failures, b.id) + 1];
      }
      match b.health {
        case Healthy =>
          if failures[b.id] >= cfg.failureThreshold {
            b.SetHealth(Unhealthy);
          }
        case Unhealthy =>
          if successes[b.id] >= cfg.successThreshold {
            b.SetHealth(Probation);
          }
        case Probation =>
          if failures[b.id] > 0 {
            b.SetHealth(Unhealthy);
          } else if successes[b.id] >= cfg.successThreshold {
            b.SetHealth(Healthy);
          }
        case Disabled =>
      }
    }
  }

  // ----- Runs of one backend, healthy at the start, whatever else drives its health -----

  /**
   An outcome with the two clock readings of its observation, or a write to the health field by
   any other part of the program.
   */
  datatype Obs = Obs(ok: bool, recorded: int, now: int) | Outside(h: Health, now: int)

  function ObsTime(o: Obs): int {
    o.now
  }

  function MachineStep(c: Config, s: Tracked, o: Obs): Tracked {
    match o
    case Obs(ok, recorded, now) => Observed(c, s, ok, recorded, now)
    case Outside(h, _) => s.(h := h)
  }

  function CheckerStep(c: Config, s: Counted, o: Obs): Counted {
    match o
    case Obs(ok, _, _) => Probed(c, s, ok)
    case Outside(h, _) => s.(h := h)
  }

  ghost function MachineAt(c: Config, obs: seq<Obs>, i: nat): Tracked
    requires i <= |obs|
  {
    if i == 0 then Tracked(Healthy, NEW_PROBE) else MachineStep(c, MachineAt(c, obs, i - 1), obs[i - 1])
  }

  ghost function CheckerAt(c: Config, obs: seq<Obs>, i: nat): Counted
    requires i <= |obs|
  {
    if i == 0 then Counted(Healthy, 0, 0) else CheckerStep(c, CheckerAt(c, obs, i - 1), obs[i - 1])
  }

  /** Failures in a row at the end of the first `i` events, and successes there. */
  ghost function FailureRun(obs: seq<Obs>, i: nat): nat
    requires i <= |obs|
  {
    if i == 0 then 0
    else match obs[i - 1]
      case Obs(ok, _, _) => if ok then 0 else 1 + FailureRun(obs, i - 1)
      case Outside(_, _) => FailureRun(obs, i - 1)
  }

  ghost function SuccessRun(obs: seq<Obs>, i: nat): nat
    requires i <= |obs|
  {
    if i == 0 then 0
    else match obs[i - 1]
      case Obs(ok, _, _) => if ok then 1 + SuccessRun(obs, i - 1) else 0
      case Outside(_, _) => SuccessRun(obs, i - 1)
  }

  lemma {:induction false} CountersAreRuns(c: Config, obs: seq<Obs>, i: nat)
    requires i <= |obs|
    ensures MachineAt(c, obs, i).p.failures == CheckerAt(c, obs, i).failures == FailureRun(obs, i)
    ensures MachineAt(c, obs, i).p.successes == CheckerAt(c, obs, i).successes == SuccessRun(obs, i)
  {
    if i > 0 {
      CountersAreRuns(c, obs, i - 1);
    }
  }

  /** A Healthy backend falls exactly when the failures in a row reach the threshold. */
  lemma FallsExactlyAtThreshold(c: Config, obs: seq<Obs>, i: nat)
    requires i < |obs| && obs[i].Obs? && MachineAt(c, obs, i).h.Healthy?
    ensures MachineAt(c, obs, i + 1).h
      == if FailureRun(obs, i + 1) >= c.failureThreshold then Unhealthy else Healthy
  {
    CountersAreRuns(c, obs, i + 1);
  }

  /** Observation `i` takes the backend from one health to another. */
  ghost predicate Moves(c: Config, obs: seq<Obs>, i: nat, from: Health, to: Health)
    requires i < |obs|
  {
    obs[i].Obs? && MachineAt(c, obs, i).h == from && MachineAt(c, obs, i + 1).h == to
  }

  /**
   What the backoff is counted from: the last failed probation, or else the first failure
   since the last promotion. A success in between does not move it.
   */
  ghost function WaitingSince(c: Config, obs: seq<Obs>, i: nat): Option<int>
    requires i <= |obs|
  {
    if i == 0 || Moves(c, obs, i - 1, Unhealthy, Probation) then None
    else if Moves(c, obs, i - 1, Probation, Unhealthy) then Some(obs[i - 1].now)
    else FirstFailure(obs[i - 1], WaitingSince(c, obs, i - 1))
  }

  function FirstFailure(o: Obs, since: Option<int>): Option<int> {
    if o.Obs? && !o.ok && since.None? then Some(o.recorded) else since
  }

  lemma {:induction false} SinceIsWaitingSince(c: Config, obs: seq<Obs>, i: nat)
    requires i <= |obs|
    ensures MachineAt(c, obs, i).p.since == WaitingSince(c, obs, i)
  {
    if i > 0 {
      SinceIsWaitingSince(c, obs, i - 1);
    }
  }

  /** An Unhealthy backend is promoted exactly when enough successes in a row meet an expired backoff. */
  lemma PromotedExactly(c: Config, obs: seq<Obs>, i: nat)
    requires i < |obs| && obs[i].Obs? && MachineAt(c, obs, i).h.Unhealthy?
    ensures var since := FirstFailure(obs[i], WaitingSince(c, obs, i));
      MachineAt(c, obs, i + 1).h ==
        if SuccessRun(obs, i + 1) >= c.successThreshold &&
           (since.None? || obs[i].now - since.value >= Capped(Promotions(c, obs, i)))
        then Probation else Unhealthy
  {
    CountersAreRuns(c, obs, i + 1);
    SinceIsWaitingSince(c, obs, i);
    BackoffFollowsPromotions(c, obs, i);
  }

  /** Promotions to Probation since the machine last restored the backend, counted from the history. */
  ghost function Promotions(c: Config, obs: seq<Obs>, i: nat): nat
    requires i <= |obs|
  {
    if i == 0 || Moves(c, obs, i - 1, Probation, Healthy) then 0
    else Promotions(c, obs, i - 1) + if Moves(c, obs, i - 1, Unhealthy, Probation) then 1 else 0
  }

  /** The backoff is five seconds doubled once per promotion, capped at five minutes. */
  lemma {:induction false} BackoffFollowsPromotions(c: Config, obs: seq<Obs>, i: nat)
    requires i <= |obs|
    ensures MachineAt(c, obs, i).p.backoff == Capped(Promotions(c, obs, i))
  {
    if i > 0 {
      BackoffFollowsPromotions(c, obs, i - 1);
      CappedDoubles(Promotions(c, obs, i - 1));
    }
    assert Capped(0) == BASE_BACKOFF;
  }

  /** The schedule in nanoseconds: 5, 10, 20, 40, 80 and 160 seconds, and 300 from then on. */
  lemma {:induction false} BackoffSchedule(k: nat)
    ensures Capped(k) == (if k < 6 then [5, 10, 20, 40, 80, 160][k] else 300) * 1_000_000_000
    ensures k >= 6 ==> Pow2(k) >= 64
  {
    if k > 0 {
      BackoffSchedule(k - 1);
    }
    assert Pow2(0) == 1 && Pow2(1) == 2 && Pow2(2) == 4 && Pow2(3) == 8;
    assert Pow2(4) == 16 && Pow2(5) == 32 && Pow2(6) == 64;
  }

  lemma {:induction false} StaysUnhealthy(c: Config, obs: seq<Obs>, i: nat, j: nat)
    requires i < j <= |obs| && Moves(c, obs, i, Probation, Unhealthy)
    requires forall k :: i < k < j ==> obs[k].Obs? && obs[k].now < obs[i].now + MachineAt(c, obs, i + 1).p.backoff
    ensures MachineAt(c, obs, j).h.Unhealthy?
    ensures MachineAt(c, obs, j).p.since == Some(obs[i].now)
    ensures MachineAt(c, obs, j).p.backoff == MachineAt(c, obs, i + 1).p.backoff
  {
    if j > i + 1 {
      StaysUnhealthy(c, obs, i, j - 1);
    }
  }

  /** After a failed probation the machine keeps the backend out for at least the capped, doubled backoff. */
  lemma FailedProbationWaits(c: Config, obs: seq<Obs>, i: nat, j: nat)
    requires Monotone(obs, ObsTime) && i < j < |obs| && Moves(c, obs, i, Probation, Unhealthy)
    requires forall k :: i < k <= j ==> obs[k].Obs?
    requires obs[j].now < obs[i].now + Capped(Promotions(c, obs, i + 1))
    ensures MachineAt(c, obs, j + 1).h.Unhealthy?
  {
    BackoffFollowsPromotions(c, obs, i + 1);
    forall k | i < k < j + 1
      ensures obs[k].Obs? && obs[k].now < obs[i].now + MachineAt(c, obs, i + 1).p.backoff
    {
      assert obs[k].now <= obs[j].now;
    }
    StaysUnhealthy(c, obs, i, j + 1);
  }

  /** Nobody but the machine has put the backend on Probation. */
  ghost predicate OnlyPromoted(obs: seq<Obs>, i: nat)
    requires i <= |obs|
  {
    forall k :: 0 <= k < i ==> obs[k].Outside? ==> !obs[k].h.Probation?
  }

  lemma {:induction false} ProbationHasSuccesses(c: Config, obs: seq<Obs>, i: nat)
    requires i <= |obs| && OnlyPromoted(obs, i)
    ensures MachineAt(c, obs, i).h.Probation? ==> MachineAt(c, obs, i).p.successes >= c.successThreshold
  {
    if i > 0 {
      ProbationHasSuccesses(c, obs, i - 1);
    }
  }

  /**
   On Probation a failure ejects, enough successes in a row restore, and fewer change nothing. A
   backend that the machine promoted has them, so the next observation decides.
   */
  lemma ProbationIsDecidedNext(c: Config, obs: seq<Obs>, i: nat)
    requires i < |obs| && obs[i].Obs? && MachineAt(c, obs, i).h.Probation?
    ensures MachineAt(c, obs, i + 1).h ==
      if !obs[i].ok then Unhealthy else if SuccessRun(obs, i + 1) >= c.successThreshold then Healthy else Probation
    ensures OnlyPromoted(obs, i) ==> MachineAt(c, obs, i + 1).h == if obs[i].ok then Healthy else Unhealthy
  {
    CountersAreRuns(c, obs, i + 1);
    if OnlyPromoted(obs, i) {
      ProbationHasSuccesses(c, obs, i);
    }
  }

  /** The checker without backoff, from the history: the same thresholds, and nothing to wait for. */
  lemma CheckerDecides(c: Config, obs: seq<Obs>, i: nat)
    requires i < |obs| && obs[i].Obs?
    ensures var fails, succeeds := FailureRun(obs, i + 1), SuccessRun(obs, i + 1);
      CheckerAt(c, obs, i + 1).h ==
        match CheckerAt(c, obs, i).h
        case Healthy => if fails >= c.failureThreshold then Unhealthy else Healthy
        case Unhealthy => if succeeds >= c.successThreshold then Probation else Unhealthy
        case Probation =>
          if !obs[i].ok then Unhealthy else if succeeds >= c.successThreshold then Healthy else Probation
        case Disabled => Disabled
  {
    CountersAreRuns(c, obs, i + 1);
  }

  /** No observation brings a Disabled backend back. */
  lemma DisabledIsLeftAlone(c: Config, obs: seq<Obs>, i: nat)
    requires i < |obs| && obs[i].Obs?
    ensures MachineAt(c, obs, i).h.Disabled? <==> MachineAt(c, obs, i + 1).h.Disabled?
    ensures CheckerAt(c, obs, i).h.Disabled? <==> CheckerAt(c, obs, i + 1).h.Disabled?
  {
  }

  function Rank(h: Health): nat {
    match h
    case Disabled => 0
    case Unhealthy => 1
    case Probation => 2
    case Healthy => 3
  }

  /** Fed the same outcomes, backoff only ever makes the verdict more cautious. */
  lemma {:induction false} NeverHealthier(c: Config, obs: seq<Obs>, i: nat)
    requires c.failureThreshold >= 1 && c.successThreshold >= 1 && i <= |obs|
    ensures Rank(MachineAt(c, obs, i).h) <= Rank(CheckerAt(c, obs, i).h)
  {
    if i > 0 {
      NeverHealthier(c, obs, i - 1);
      CountersAreRuns(c, obs, i - 1);
    }
  }

  /** At observation `k` the machine does not hold a recovery back. */
  ghost predicate NotHeldBack(c: Config, obs: seq<Obs>, k: nat)
    requires k < |obs|
  {
    obs[k].Obs? && MachineAt(c, obs, k).h.Unhealthy? ==>
      BackoffOver(Recorded(MachineAt(c, obs, k).p, obs[k].ok, obs[k].recorded), obs[k].now)
  }

  /** Whenever every backoff test passes, the two checkers agree step by step. */
  lemma {:induction false} AgreeWithoutWaiting(c: Config, obs: seq<Obs>, i: nat)
    requires i <= |obs| && forall k :: 0 <= k < i ==> NotHeldBack(c, obs, k)
    ensures MachineAt(c, obs, i).h == CheckerAt(c, obs, i).h
  {
    if i > 0 {
      AgreeWithoutWaiting(c, obs, i - 1);
      CountersAreRuns(c, obs, i - 1);
      assert NotHeldBack(c, obs, i - 1);
    }
  }

  // ----- The thresholds have to be at least one -----

  ghost predicate NeverHealthierIn(c: Config, obs: seq<Obs>) {
    forall i :: 0 <= i <= |obs| ==> Rank(MachineAt(c, obs, i).h) <= Rank(CheckerAt(c, obs, i).h)
  }

  /** An observation that reads the same time twice. */
  function At(ok: bool, time: int): Obs {
    Obs(ok, time, time)
  }

  /** `n` failures at once, one more right after, and one when the backoff is over. */
  function Failing(n: nat): seq<Obs> {
    seq(n + 2, i => var t := if i < n then 0 else if i == n then 1 else BASE_BACKOFF; Obs(false, t, t))
  }

  lemma {:induction false} BothFail(c: Config, n: nat, i: nat)
    requires n == (if c.failureThreshold < 1 then 1 else c.failureThreshold) && 0 < i <= n
    ensures var h := if i < n then Healthy else Unhealthy;
      && MachineAt(c, Failing(n), i) == Tracked(h, Probe(i, 0, Some(0), BASE_BACKOFF))
      && CheckerAt(c, Failing(n), i) == Counted(h, i, 0)
  {
    if i > 1 {
      BothFail(c, n, i - 1);
    } else {
      assert MachineAt(c, Failing(n), 0) == Tracked(Healthy, NEW_PROBE);
      assert Failing(n)[0] == At(false, 0);
    }
  }

  /** If no success is needed to leave Unhealthy, a failing backend gets ahead. */
  lemma NoSuccessNeeded(c: Config) returns (obs: seq<Obs>)
    requires c.successThreshold < 1
    ensures Monotone(obs, ObsTime) && !NeverHealthierIn(c, obs)
  {
    var n := if c.failureThreshold < 1 then 1 else c.failureThreshold;
    obs := Failing(n);
    BothFail(c, n, n);
    assert obs[n] == At(false, 1) && obs[n + 1] == At(false, BASE_BACKOFF);
    assert MachineAt(c, obs, n + 1).h == Unhealthy && CheckerAt(c, obs, n + 1).h == Probation;
    assert Rank(MachineAt(c, obs, n + 2).h) > Rank(CheckerAt(c, obs, n + 2).h);
  }

  /** One failure, `n + 1` successes right after, and one when the backoff is over. */
  function Recovering(n: nat): seq<Obs> {
    seq(n + 3, i => var t := if i == 0 then 0 else if i < n + 2 then 1 else BASE_BACKOFF; Obs(i > 0, t, t))
  }

  lemma {:induction false} CheckerRecovers(c: Config, n: nat, k: nat)
    requires c.failureThreshold < 1 && c.successThreshold == n >= 1 && k <= n
    ensures MachineAt(c, Recovering(n), 1 + k)
      == Tracked(Unhealthy, Probe(if k == 0 then 1 else 0, k, Some(0), BASE_BACKOFF))
    ensures CheckerAt(c, Recovering(n), 1 + k)
      == Counted(if k < n then Unhealthy else Probation, if k == 0 then 1 else 0, k)
  {
    var obs := Recovering(n);
    if k == 0 {
      assert MachineAt(c, obs, 0) == Tracked(Healthy, NEW_PROBE);
      assert obs[0] == At(false, 0);
    } else {
      CheckerRecovers(c, n, k - 1);
      assert obs[k] == At(true, 1);
    }
  }

  /** If no failure is needed to leave Healthy, a recovering backend gets ahead. */
  lemma NoFailureNeeded(c: Config) returns (obs: seq<Obs>)
    requires c.failureThreshold < 1 && c.successThreshold >= 1
    ensures Monotone(obs, ObsTime) && !NeverHealthierIn(c, obs)
  {
    var n := c.successThreshold;
    obs := Recovering(n);
    CheckerRecovers(c, n, n);
    assert obs[n + 1] == At(true, 1) && obs[n + 2] == At(true, BASE_BACKOFF);
    assert MachineAt(c, obs, n + 2).h == Unhealthy && CheckerAt(c, obs, n + 2).h == Healthy;
    assert Rank(MachineAt(c, obs, n + 3).h) > Rank(CheckerAt(c, obs, n + 3).h);
  }

  /** The comparison holds in every run exactly when both thresholds are at least one. */
  lemma NeverHealthierIff(c: Config)
    ensures (forall obs :: Monotone(obs, ObsTime) ==> NeverHealthierIn(c, obs))
      <==> c.failureThreshold >= 1 && c.successThreshold >= 1
  {
    if c.failureThreshold >= 1 && c.successThreshold >= 1 {
      forall obs, i | 0 <= i <= |obs|
        ensures Rank(MachineAt(c, obs, i).h) <= Rank(CheckerAt(c, obs, i).h)
      {
        NeverHealthier(c, obs, i);
      }
    } else if c.successThreshold < 1 {
      var obs := NoSuccessNeeded(c);
    } else {
      var obs := NoFailureNeeded(c);
    }
  }
}
