/**
 How the two breaker models relate. Running one caller alone, step by step, through a whole
 method has exactly the effect the call-atomic model gives that call, so every call-atomic
 run is one of the interleavings. The converse fails: some interleavings wedge the breaker,
 which no sequence of whole calls can do.
 */
module BreakerRefinement {
  import opened Common
  import opened CircuitBreaker
  import opened BreakerProtocol

  function SnapOf(m: Shared): Snapshot {
    Snapshot(m.phase, m.failures, m.openedAt, m.permits)
  }

  type Point = (Shared, Pc)

  ghost predicate Link(c: Config, e: Event, trace: seq<Point>, i: nat)
    requires 0 < i < |trace|
  {
    trace[i] == Act(c, trace[i - 1].0, trace[i - 1].1, e)
  }

  /** One caller, stepping alone, goes from one point to another through `trace`. */
  ghost predicate Alone(c: Config, e: Event, trace: seq<Point>, from: Point, to: Point) {
    && trace != [] && trace[0] == from && trace[|trace| - 1] == to
    && forall i :: 0 < i < |trace| ==> Link(c, e, trace, i)
  }

  lemma Begin(c: Config, e: Event, from: Point) returns (trace: seq<Point>)
    ensures Alone(c, e, trace, from, from)
  {
    trace := [from];
  }

  /** One more step. */
  lemma Advance(c: Config, e: Event, trace: seq<Point>, from: Point, at: Point)
    returns (trace': seq<Point>, at': Point)
    requires Alone(c, e, trace, from, at)
    ensures at' == Act(c, at.0, at.1, e) && Alone(c, e, trace', from, at')
  {
    at' := Act(c, at.0, at.1, e);
    trace' := trace + [at'];
    forall i | 0 < i < |trace'|
      ensures Link(c, e, trace', i)
    {
      if i < |trace| {
        assert Link(c, e, trace, i);
      }
    }
  }

  lemma SoloSuccess(c: Config, m: Shared, t: Caller, now: int) returns (trace: seq<Point>, m': Shared)
    requires m.holder.None?
    ensures Alone(c, Event(t, StartSuccess, now), trace, (m, Idle), (m', Idle))
    ensures m'.holder.None? && SnapOf(m') == After(c, SnapOf(m), Success(now))
  {
    var e, from := Event(t, StartSuccess, now), (m, Idle);
    var at := from;
    trace := Begin(c, e, from);
    trace, at := Advance(c, e, trace, from, at);
    trace, at := Advance(c, e, trace, from, at);
    trace, at := Advance(c, e, trace, from, at);
    if m.phase.HalfOpen? {
      trace, at := Advance(c, e, trace, from, at);
      trace, at := Advance(c, e, trace, from, at);
      trace, at := Advance(c, e, trace, from, at);
    }
    m' := at.0;
  }

  lemma SoloFailure(c: Config, m: Shared, t: Caller, now: int) returns (trace: seq<Point>, m': Shared)
    requires m.holder.None?
    ensures Alone(c, Event(t, StartFailure, now), trace, (m, Idle), (m', Idle))
    ensures m'.holder.None? && SnapOf(m') == After(c, SnapOf(m), Failure(now))
  {
    var e, from := Event(t, StartFailure, now), (m, Idle);
    var at := from;
    trace := Begin(c, e, from);
    trace, at := Advance(c, e, trace, from, at);
    trace, at := Advance(c, e, trace, from, at);
    trace, at := Advance(c, e, trace, from, at);
    if at.1.LockForOpen? {
      trace, at := SoloTrip(c, e, trace, from, at.0);
    }
    m' := at.0;
  }

  /** From the lock in RecordFailure to the end of the call. */
  lemma SoloTrip(c: Config, e: Event, trace0: seq<Point>, from: Point, m: Shared)
    returns (trace: seq<Point>, at: Point)
    requires m.holder.None? && Alone(c, e, trace0, from, (m, LockForOpen))
    ensures Alone(c, e, trace, from, at)
    ensures at == (if m.phase.Open? then m else m.(phase := Open, openedAt := e.now, failures := 0), Idle)
  {
    trace, at := Advance(c, e, trace0, from, (m, LockForOpen));
    trace, at := Advance(c, e, trace, from, at);
    if m.phase.Open? {
      trace, at := Advance(c, e, trace, from, at);
    } else {
      trace, at := SoloOpen(c, e, trace, from, at.0);
    }
  }

  /** The stores that open the breaker, up to the release of the mutex. */
  lemma SoloOpen(c: Config, e: Event, trace0: seq<Point>, from: Point, m: Shared)
    returns (trace: seq<Point>, at: Point)
    requires Alone(c, e, trace0, from, (m, StampOpenedAt))
    ensures Alone(c, e, trace, from, at)
    ensures at == (m.(phase := Open, openedAt := e.now, failures := 0, holder := None), Idle)
  {
    trace, at := Advance(c, e, trace0, from, (m, StampOpenedAt));
    trace, at := Advance(c, e, trace, from, at);
    trace, at := Advance(c, e, trace, from, at);
    trace, at := Advance(c, e, trace, from, at);
  }

  /** The drain loop of a caller that nobody disturbs empties the channel. */
  lemma SoloDrain(c: Config, e: Event, trace0: seq<Point>, from: Point, m: Shared) returns (trace: seq<Point>)
    requires Alone(c, e, trace0, from, (m, TestDrained))
    ensures Alone(c, e, trace, from, (m.(permits := 0, drained := m.drained + m.permits), Refill(0)))
  {
    trace := trace0;
    var at := (m, TestDrained);
    while at.0.permits > 0
      invariant Alone(c, e, trace, from, at) && at.0.permits <= m.permits
      invariant at == (m.(permits := at.0.permits, drained := m.drained + m.permits - at.0.permits), TestDrained)
      decreases at.0.permits
    {
      trace, at := Advance(c, e, trace, from, at);
      trace, at := Advance(c, e, trace, from, at);
    }
    trace, at := Advance(c, e, trace, from, at);
  }

  /** The refill loop then leaves exactly the limit in it. */
  lemma SoloRefill(c: Config, e: Event, trace0: seq<Point>, from: Point, m: Shared) returns (trace: seq<Point>)
    requires Alone(c, e, trace0, from, (m, Refill(0))) && m.permits == 0
    ensures Alone(c, e, trace, from, (m.(permits := c.halfOpenProbes, sent := m.sent + c.halfOpenProbes), UnlockProbe))
  {
    trace := trace0;
    var n, at := 0, (m, Refill(0));
    while n < c.halfOpenProbes
      invariant n <= c.halfOpenProbes
      invariant at == (m.(permits := n, sent := m.sent + n), Refill(n)) && Alone(c, e, trace, from, at)
    {
      trace, at := Advance(c, e, trace, from, at);
      n := n + 1;
    }
    trace, at := Advance(c, e, trace, from, at);
  }

  /** The way to the first length test of the drain loop, when the breaker is open and its time is up. */
  lemma SoloReachDrain(c: Config, m: Shared, e: Event) returns (trace: seq<Point>)
    requires m.holder.None? && m.phase.Open? && Elapsed(c, SnapOf(m), e.now) && e.start.StartAllow?
    ensures Alone(c, e, trace, (m, Idle), (m.(holder := Some(e.who), phase := HalfOpen), TestDrained))
  {
    var from := (m, Idle);
    var at := from;
    trace := Begin(c, e, from);
    trace, at := Advance(c, e, trace, from, at);
    trace, at := Advance(c, e, trace, from, at);
    trace, at := Advance(c, e, trace, from, at);
    trace, at := Advance(c, e, trace, from, at);
    trace, at := Advance(c, e, trace, from, at);
    trace, at := Advance(c, e, trace, from, at);
    trace, at := Advance(c, e, trace, from, at);
  }

  /** On to the release of the mutex. */
  lemma SoloHalfOpen(c: Config, m: Shared, e: Event) returns (trace: seq<Point>, m': Shared)
    requires m.holder.None? && m.phase.Open? && Elapsed(c, SnapOf(m), e.now) && e.start.StartAllow?
    ensures Alone(c, e, trace, (m, Idle), (m', ReloadPhase))
    ensures m'.holder.None? && m'.taken == m.taken
    ensures SnapOf(m') == SnapOf(m).(phase := HalfOpen, permits := c.halfOpenProbes)
  {
    var from := (m, Idle);
    var held := m.(holder := Some(e.who), phase := HalfOpen);
    trace := SoloReachDrain(c, m, e);
    trace := SoloDrain(c, e, trace, from, held);
    held := held.(permits := 0, drained := held.drained + held.permits);
    trace := SoloRefill(c, e, trace, from, held);
    held := held.(permits := c.halfOpenProbes, sent := held.sent + c.halfOpenProbes);
    var at: Point;
    trace, at := Advance(c, e, trace, from, (held, UnlockProbe));
    m' := at.0;
  }

  lemma SoloAllow(c: Config, m: Shared, t: Caller, now: int) returns (trace: seq<Point>, m': Shared)
    requires m.holder.None?
    ensures Alone(c, Event(t, StartAllow, now), trace, (m, Idle), (m', Idle))
    ensures m'.holder.None? && SnapOf(m') == After(c, SnapOf(m), Allow(now))
    ensures m'.taken == m.taken + if !m.phase.Closed? && Admits(c, SnapOf(m), now) then 1 else 0
  {
    var e, from := Event(t, StartAllow, now), (m, Idle);
    var at := from;
    if m.phase.Open? && Elapsed(c, SnapOf(m), now) {
      trace, m' := SoloHalfOpen(c, m, e);
      trace, at := Advance(c, e, trace, from, (m', ReloadPhase));
      trace, at := Advance(c, e, trace, from, at);
    } else {
      trace := Begin(c, e, from);
      trace, at := Advance(c, e, trace, from, at);
      trace, at := Advance(c, e, trace, from, at);
      if m.phase.Open? {
        trace, at := Advance(c, e, trace, from, at);
        trace, at := Advance(c, e, trace, from, at);
        trace, at := Advance(c, e, trace, from, at);
      } else if m.phase.HalfOpen? {
        trace, at := Advance(c, e, trace, from, at);
      }
    }
    m' := at.0;
  }

  // ----- Reachability -----

  /** Where an interleaving ends. */
  ghost function Final(c: Config, events: seq<Event>): System {
    StateAfter(c, events, |events|)
  }

  ghost predicate Reachable(c: Config, s: System) {
    exists events :: Final(c, events) == s
  }

  function EventTime(e: Event): int {
    e.now
  }

  lemma {:induction false} StateAfterPrefix(c: Config, events: seq<Event>, e: Event, i: nat)
    requires i <= |events|
    ensures StateAfter(c, events + [e], i) == StateAfter(c, events, i)
  {
    if i > 0 {
      StateAfterPrefix(c, events, e, i - 1);
    }
  }

  lemma OneMoreStep(c: Config, events: seq<Event>, e: Event)
    ensures Final(c, events + [e]) == Step(c, Final(c, events), e)
  {
    StateAfterPrefix(c, events, e, |events|);
  }

  /** A caller that runs alone moves the shared memory and its own program counter only. */
  lemma {:induction false} RunAlone(c: Config, events: seq<Event>, e: Event, trace: seq<Point>, to: Point)
    returns (longer: seq<Event>)
    requires Alone(c, e, trace, (Final(c, events).m, Final(c, events).At(e.who)), to)
    ensures Repeats(events, e, longer)
    ensures (Final(c, longer).m, Final(c, longer).At(e.who)) == to
    ensures forall u: Caller :: u != e.who ==> Final(c, longer).At(u) == Final(c, events).At(u)
    decreases |trace|
  {
    if |trace| == 1 {
      longer := events;
    } else {
      var init, mid := trace[..|trace| - 1], trace[|trace| - 2];
      forall i | 0 < i < |init|
        ensures Link(c, e, init, i)
      {
        assert Link(c, e, trace, i);
      }
      var most := RunAlone(c, events, e, init, mid);
      assert Link(c, e, trace, |trace| - 1);
      OneMoreStep(c, most, e);
      longer := most + [e];
    }
  }

  function StartOf(call: Call): Start {
    match call
    case Allow(_) => StartAllow
    case Success(_) => StartSuccess
    case Failure(_) => StartFailure
  }

  /** One whole call of an idle caller, when the mutex is free. */
  lemma RunCall(c: Config, events: seq<Event>, t: Caller, call: Call) returns (longer: seq<Event>)
    requires Final(c, events).m.holder.None? && Final(c, events).At(t).Idle?
    ensures Repeats(events, Event(t, StartOf(call), call.now), longer)
    ensures Final(c, longer).m.holder.None? && Final(c, longer).At(t).Idle?
    ensures SnapOf(Final(c, longer).m) == After(c, SnapOf(Final(c, events).m), call)
    ensures forall u: Caller :: u != t ==> Final(c, longer).At(u) == Final(c, events).At(u)
  {
    var trace: seq<Point>, m: Shared;
    match call {
      case Allow(now) => trace, m := SoloAllow(c, Final(c, events).m, t, now);
      case Success(now) => trace, m := SoloSuccess(c, Final(c, events).m, t, now);
      case Failure(now) => trace, m := SoloFailure(c, Final(c, events).m, t, now);
    }
    longer := RunAlone(c, events, Event(t, StartOf(call), call.now), trace, (m, Idle));
  }

  /**
   Every state of every call-atomic run is reached by some interleaving, with the clock in
   order if it is in order along the calls.
   */
  lemma {:induction false} CallsRefineSteps(c: Config, calls: seq<Call>, i: nat, t: Caller)
    returns (events: seq<Event>)
    requires i <= |calls|
    ensures Final(c, events).m.holder.None? && Final(c, events).At(t).Idle?
    ensures SnapOf(Final(c, events).m) == StateAt(c, calls, i)
    ensures if i == 0 then events == []
            else Monotone(calls, CallTime) ==> Within(events, EventTime, calls[0].now, calls[i - 1].now)
  {
    if i == 0 {
      events := [];
    } else {
      var before := CallsRefineSteps(c, calls, i - 1, t);
      var call := calls[i - 1];
      events := RunCall(c, before, t, call);
      if Monotone(calls, CallTime) {
        var latest := if i > 1 then calls[i - 2].now else call.now;
        assert calls[0].now <= latest <= call.now;
        RepeatsWithin(before, Event(t, StartOf(call), call.now), events, EventTime, calls[0].now, latest);
      }
    }
  }

  // ----- The drain loop is not always able to finish -----

  /** A caller holds the mutex and waits on an empty channel for a permit to drain. */
  predicate Wedged(s: System, h: Caller) {
    s.m.holder == Some(h) && s.At(h).DrainOne? && s.m.permits == 0 && s.m.phase.HalfOpen?
  }

  predicate WedgedAfter(s: System, h: Caller, taken: nat) {
    Wedged(s, h) && s.m.taken == taken
  }

  lemma WedgedStep(c: Config, s: System, e: Event, h: Caller, taken: nat)
    requires Mutex(s) && WedgedAfter(s, h, taken)
    ensures WedgedAfter(Step(c, s, e), h, taken)
  {
    assert Critical(s.At(e.who)) <==> s.m.holder == Some(e.who);
    if e.who != h {
      OutsiderIsHarmless(c, s, e);
    }
  }

  lemma {:induction false} StaysWedged(c: Config, events: seq<Event>, i: nat, j: nat, h: Caller, taken: nat)
    requires i <= j <= |events| && WedgedAfter(StateAfter(c, events, i), h, taken)
    ensures WedgedAfter(StateAfter(c, events, j), h, taken)
  {
    if i < j {
      StaysWedged(c, events, i, j - 1, h, taken);
      Invariant(c, events, j - 1);
      WedgedStep(c, StateAfter(c, events, j - 1), events[j - 1], h, taken);
    }
  }

  /** Once wedged, the breaker stays half-open and admits nobody through the channel again. */
  lemma WedgedForever(c: Config, events: seq<Event>, i: nat, j: nat, h: Caller)
    requires i <= j <= |events| && Wedged(StateAfter(c, events, i), h)
    ensures Wedged(StateAfter(c, events, j), h)
    ensures ChannelAdmissions(c, events, j) == ChannelAdmissions(c, events, i)
  {
    StaysWedged(c, events, i, j, h, StateAfter(c, events, i).m.taken);
    TakenAreAdmissions(c, events, i);
    TakenAreAdmissions(c, events, j);
  }

  function AtLeast(low: int, x: int): int {
    if x < low then low else x
  }

  /** Caller 0 reports failures at time 0 until the breaker opens. */
  lemma FailUntilOpen(c: Config) returns (events: seq<Event>)
    ensures Within(events, EventTime, 0, 0)
    ensures Final(c, events).m.holder.None? && forall t: Caller :: Final(c, events).At(t).Idle?
    ensures SnapOf(Final(c, events).m) == Snapshot(Open, 0, 0, 0)
  {
    events := [];
    var n, enough := 0, AtLeast(1, c.failureThreshold);
    while n < enough
      invariant 0 <= n <= enough && Within(events, EventTime, 0, 0)
      invariant Final(c, events).m.holder.None? && forall t: Caller :: Final(c, events).At(t).Idle?
      invariant SnapOf(Final(c, events).m) == if n < enough then Snapshot(Closed, n, 0, 0) else Snapshot(Open, 0, 0, 0)
    {
      var longer := RunCall(c, events, 0, Failure(0));
      RepeatsWithin(events, Event(0, StartFailure, 0), longer, EventTime, 0, 0);
      events, n := longer, n + 1;
    }
  }

  /** A caller half-opens the breaker and pauses before it takes one of the permits it sent. */
  lemma PausesAfterRefill(c: Config, events: seq<Event>, e: Event) returns (longer: seq<Event>)
    requires Final(c, events).m.holder.None? && Final(c, events).At(e.who).Idle? && e.start.StartAllow?
    requires Final(c, events).m.phase.Open? && Elapsed(c, SnapOf(Final(c, events).m), e.now)
    ensures Repeats(events, e, longer)
    ensures Final(c, longer).m.holder.None? && Final(c, longer).At(e.who) == Select
    ensures SnapOf(Final(c, longer).m) == SnapOf(Final(c, events).m).(phase := HalfOpen, permits := c.halfOpenProbes)
    ensures forall u: Caller :: u != e.who ==> Final(c, longer).At(u) == Final(c, events).At(u)
  {
    var from := (Final(c, events).m, Idle);
    var trace, m := SoloHalfOpen(c, from.0, e);
    var at: Point;
    trace, at := Advance(c, e, trace, from, (m, ReloadPhase));
    longer := RunAlone(c, events, e, trace, at);
  }

  /** A drain loop runs alone until one permit is left, sees it and pauses before receiving it. */
  lemma SoloDrainToLast(c: Config, e: Event, trace0: seq<Point>, from: Point, m: Shared)
    returns (trace: seq<Point>, at: Point)
    requires Alone(c, e, trace0, from, (m, TestDrained)) && m.permits > 0
    ensures Alone(c, e, trace, from, at) && at.1 == DrainOne
    ensures at.0.permits == 1 && at.0.holder == m.holder && at.0.phase == m.phase
  {
    trace, at := Advance(c, e, trace0, from, (m, TestDrained));
    while at.0.permits > 1
      invariant Alone(c, e, trace, from, at) && at.1 == DrainOne
      invariant at.0.permits >= 1 && at.0.holder == m.holder && at.0.phase == m.phase
      decreases at.0.permits
    {
      trace, at := Advance(c, e, trace, from, at);
      trace, at := Advance(c, e, trace, from, at);
    }
  }

  lemma PausesAtLastPermit(c: Config, events: seq<Event>, e: Event) returns (longer: seq<Event>)
    requires Final(c, events).m.holder.None? && Final(c, events).At(e.who).Idle? && e.start.StartAllow?
    requires Final(c, events).m.phase.Open? && Final(c, events).m.permits > 0
    requires Elapsed(c, SnapOf(Final(c, events).m), e.now)
    ensures Repeats(events, e, longer)
    ensures Final(c, longer).At(e.who) == DrainOne && Final(c, longer).m.holder == Some(e.who)
    ensures Final(c, longer).m.phase.HalfOpen? && Final(c, longer).m.permits == 1
    ensures forall u: Caller :: u != e.who ==> Final(c, longer).At(u) == Final(c, events).At(u)
  {
    var from := (Final(c, events).m, Idle);
    var trace := SoloReachDrain(c, from.0, e);
    var at: Point;
    trace, at := SoloDrainToLast(c, e, trace, from, from.0.(holder := Some(e.who), phase := HalfOpen));
    longer := RunAlone(c, events, e, trace, at);
  }

  /**
   Caller 0 opens the breaker, half-opens it in due time, and pauses with all permits sent. Caller 1
   reports a failure.
   */
  lemma ReopensOnPaused(c: Config, d: nat) returns (reopened: seq<Event>)
    requires c.openDuration <= d
    ensures Within(reopened, EventTime, 0, d)
    ensures Final(c, reopened).m.holder.None? && Final(c, reopened).At(0) == Select && Final(c, reopened).At(1) == Idle
    ensures SnapOf(Final(c, reopened).m) == Snapshot(Open, 0, d, c.halfOpenProbes)
  {
    var tripped := FailUntilOpen(c);
    var paused := PausesAfterRefill(c, tripped, Event(0, StartAllow, d));
    RepeatsWithin(tripped, Event(0, StartAllow, d), paused, EventTime, 0, 0);
    reopened := RunCall(c, paused, 1, Failure(d));
    RepeatsWithin(paused, Event(1, StartFailure, d), reopened, EventTime, 0, d);
  }

  /**
   With at least one probe permit, two callers and a clock that never steps back are enough,
   whatever the threshold and the open duration.
   */
  lemma WedgeIsReachable(c: Config) returns (events: seq<Event>)
    requires c.halfOpenProbes >= 1
    ensures Monotone(events, EventTime) && Wedged(Final(c, events), 1)
  {
    var d := AtLeast(0, c.openDuration);
    var reopened := ReopensOnPaused(c, d);
    // Caller 1 half-opens the breaker again and drains all but one old permit.
    var draining := PausesAtLastPermit(c, reopened, Event(1, StartAllow, 2 * d));
    RepeatsWithin(reopened, Event(1, StartAllow, 2 * d), draining, EventTime, 0, d);
    // Caller 0 takes that permit between caller 1's length test and its receive.
    var e := Event(0, StartAllow, 2 * d);
    OneMoreStep(c, draining, e);
    events := draining + [e];
    RepeatsWithin(draining, e, events, EventTime, 0, 2 * d);
  }

  /**
   Some interleaving leaves the drain loop waiting for ever exactly when the breaker is set to
   let any probe through at all, and then one with its clock in order does.
   */
  lemma WedgeIff(c: Config)
    ensures (exists s, h :: Reachable(c, s) && Wedged(s, h)) <==> c.halfOpenProbes >= 1
    ensures (exists events, h :: Monotone(events, EventTime) && Wedged(Final(c, events), h)) <==> c.halfOpenProbes >= 1
  {
    if c.halfOpenProbes >= 1 {
      var events := WedgeIsReachable(c);
      assert Reachable(c, Final(c, events)) && Wedged(Final(c, events), 1);
    } else {
      forall events: seq<Event>, h: Caller
        ensures !Wedged(Final(c, events), h)
      {
        NothingToDrain(c, events, |events|, h);
      }
    }
  }

  lemma NoPermitNoDrain(c: Config, s: System, e: Event, h: Caller)
    requires s.m.permits == 0 && !s.At(h).DrainOne?
    ensures !Step(c, s, e).At(h).DrainOne?
  {
  }

  /** A channel without capacity never holds a permit for a drain loop to see. */
  lemma {:induction false} NothingToDrain(c: Config, events: seq<Event>, i: nat, h: Caller)
    requires c.halfOpenProbes == 0 && i <= |events|
    ensures !StateAfter(c, events, i).At(h).DrainOne?
  {
    if i > 0 {
      NothingToDrain(c, events, i - 1, h);
      Invariant(c, events, i - 1);
      NoPermitNoDrain(c, StateAfter(c, events, i - 1), events[i - 1], h);
    }
  }
}
