/**
 Passive outlier detection: a sliding window of request outcomes per backend, ejection when
 the error rate in the window is too high, and readmission after a growing backoff. Error
 rates are compared as reals.
 */
module PassiveHealth {
  import opened Common
  import opened Backends
  import opened HealthMachines

  /** `tooBad` decides whether a window of events calls for ejection; the program's is `RateReaches`. */
  datatype Settings = Settings(window: int, tooBad: seq<Event> -> bool)

  function RateReaches(limit: real): seq<Event> -> bool {
    evts => evts != [] && Errors(evts) as real / |evts| as real >= limit
  }

  datatype Event = Event(ts: int, err: bool)

  /** A zero backoff is what the program reads for a backend that was never ejected. */
  datatype Memory = Memory(window: seq<Event>, backoff: int, ejected: Option<int>)

  const BLANK := Memory([], 0, None)

  /** Drops events from the front until one is recent enough. */
  function TrimFront(evts: seq<Event>, cutoff: int): seq<Event> {
    if evts != [] && evts[0].ts < cutoff then TrimFront(evts[1..], cutoff) else evts
  }

  function Errors(evts: seq<Event>): nat {
    if evts == [] then 0 else Errors(evts[..|evts| - 1]) + if evts[|evts| - 1].err then 1 else 0
  }

  /** What the checker remembers about a backend together with the backend's health. */
  datatype State = State(m: Memory, h: Health)

  function Judged(bad: bool, s: State, window: seq<Event>, now: int): State {
    if bad && s.h.Healthy?
    then State(Memory(window, if s.m.backoff == 0 then BASE_BACKOFF else s.m.backoff, Some(now)), Unhealthy)
    else s.(m := s.m.(window := window))
  }

  function Responded(c: Settings, s: State, err: bool, now: int): State {
    var window := TrimFront(s.m.window, now - c.window) + [Event(now, err)];
    Judged(c.tooBad(window), s, window, now)
  }

  predicate Readmits(s: State, now: int) {
    s.h.Unhealthy? && s.m.ejected.Some? && now - s.m.ejected.value >= s.m.backoff
  }

  function Readmitted(s: State, now: int): State {
    if Readmits(s, now) then State(Memory([], Min(s.m.backoff * 2, MAX_BACKOFF), None), Probation) else s
  }

  class PassiveChecker {
    const window: int
    const errorRate: real
    var windows: map<string, seq<Event>>
    var backoffs: map<string, int>
    var ejected: map<string, int>

    constructor (window: int, errorRate: real)
      ensures this.window == window && this.errorRate == errorRate && forall id :: MemoryOf(id) == BLANK
    {
      this.window, this.errorRate := window, errorRate;
      windows, backoffs, ejected := map[], map[], map[];
    }

    function Cfg(): Settings {
      Settings(window, RateReaches(errorRate))
    }

    function MemoryOf(id: string): Memory
      reads this
    {
      Memory(if id in windows then windows[id] else [],
             if id in backoffs then backoffs[id] else 0,
             if id in ejected then Some(ejected[id]) else None)
    }

    function StateOf(b: Backend): State
      reads this, b
    {
      State(MemoryOf(b.id), b.health)
    }

    method Observe(b: Backend, isError: bool, now: int)
      modifies this, b`health
      ensures StateOf(b) == Responded(Cfg(), old(StateOf(b)), isError, now)
      ensures forall id :: id != b.id ==> MemoryOf(id) == old(MemoryOf(id))
    {
      var evts := if b.id in windows then windows[b.id] else [];
      evts := Slide(evts, now - window, Event(now, isError));
      var high := ErrorRateIsHigh(evts, errorRate);
      Judge(b, evts, high, now);
    }

    /** Stores the new window and, if it is bad and the backend is Healthy, ejects. */
    method Judge(b: Backend, evts: seq<Event>, high: bool, now: int)
      modifies this, b`health
      ensures StateOf(b) == Judged(high, old(StateOf(b)), evts, now)
      ensures forall id :: id != b.id ==> MemoryOf(id) == old(MemoryOf(id))
    {
      windows := windows[b.id := evts];
      if high && b.health.Healthy? {
        b.SetHealth(Unhealthy);
        if b.id !in backoffs || backoffs[b.id] == 0 {
          backoffs := backoffs[b.id := BASE_BACKOFF];
        }
        ejected := ejected[b.id := now];
      }
    }

    method TryReadmit(b: Backend, now: int)
      modifies this, b`health
      ensures StateOf(b) == Readmitted(old(StateOf(b)), now)
      ensures forall id :: id != b.id ==> MemoryOf(id) == old(MemoryOf(id))
    {
      if !b.health.Unhealthy? {
        return;
      }
      if b.id !in ejected {
        return;
      }
      var backoff := if b.id in backoffs then backoffs[b.id] else 0;
      if now - ejected[b.id] >= backoff {
        b.SetHealth(Probation);
        backoffs := backoffs[b.id := Min(backoff * 2, MAX_BACKOFF)];
        ejected := ejected - {b.id};
        windows := windows[b.id := []];
      }
    }
  }

  /** Trims the front of a window and appends the newest event. */
  method Slide(evts: seq<Event>, cutoff: int, newest: Event) returns (out: seq<Event>)
    ensures out == TrimFront(evts, cutoff) + [newest]
  {
    var start := 0;
    while start < |evts| && evts[start].ts < cutoff
      invariant start <= |evts| && TrimFront(evts[start..], cutoff) == TrimFront(evts, cutoff)
    {
      assert evts[start..][1..] == evts[start + 1..];
      start := start + 1;
    }
    out := evts[start..] + [newest];
  }

  method ErrorRateIsHigh(evts: seq<Event>, limit: real) returns (high: bool)
    requires evts != []
    ensures high == RateReaches(limit)(evts)
  {
    var errs := 0;
    for i := 0 to |evts|
      invariant errs == Errors(evts[..i])
    {
      assert evts[..i + 1][..i] == evts[..i];
      if evts[i].err {
        errs := errs + 1;
      }
    }
    assert evts[..|evts|] == evts;
    high := errs as real / |evts| as real >= limit;
  }

  // ----- Runs of one backend, whatever else drives its health -----

  /** `External` is any other part of the program writing the health field. */
  datatype Op = Response(err: bool, now: int) | Readmit(now: int) | External(h: Health, now: int)

  function Apply(c: Settings, s: State, op: Op): State {
    match op
    case Response(err, now) => Responded(c, s, err, now)
    case Readmit(now) => Readmitted(s, now)
    case External(h, _) => s.(h := h)
  }

  ghost function StateAt(c: Settings, ops: seq<Op>, i: nat): State
    requires i <= |ops|
  {
    if i == 0 then State(BLANK, Healthy) else Apply(c, StateAt(c, ops, i - 1), ops[i - 1])
  }

  function OpTime(op: Op): int {
    op.now
  }

  ghost predicate ReadmitsAt(c: Settings, ops: seq<Op>, i: nat)
    requires i < |ops|
  {
    ops[i].Readmit? && Readmits(StateAt(c, ops, i), ops[i].now)
  }

  ghost predicate EjectsAt(c: Settings, ops: seq<Op>, i: nat)
    requires i < |ops|
  {
    ops[i].Response? && StateAt(c, ops, i).h.Healthy? && StateAt(c, ops, i + 1).h.Unhealthy?
  }

  function Extended(past: seq<Event>, s: State, op: Op): seq<Event> {
    match op
    case Response(err, now) => past + [Event(now, err)]
    case Readmit(now) => if Readmits(s, now) then [] else past
    case External(_, _) => past
  }

  /** Every response since the last readmission; nothing is ever trimmed from it. */
  ghost function History(c: Settings, ops: seq<Op>, i: nat): seq<Event>
    requires i <= |ops|
  {
    if i == 0 then [] else Extended(History(c, ops, i - 1), StateAt(c, ops, i - 1), ops[i - 1])
  }

  function Recent(evts: seq<Event>, cutoff: int): seq<Event> {
    if evts == [] then []
    else
      var init, last := evts[..|evts| - 1], evts[|evts| - 1];
      if last.ts >= cutoff then Recent(init, cutoff) + [last] else Recent(init, cutoff)
  }

  function EventTime(e: Event): int {
    e.ts
  }

  /** In an ordered list, the recent events are what is left after trimming the front. */
  lemma {:induction false} RecentIsSuffix(evts: seq<Event>, cutoff: int) returns (k: nat)
    requires Monotone(evts, EventTime)
    ensures k <= |evts| && Recent(evts, cutoff) == evts[k..]
    ensures forall i :: 0 <= i < k ==> evts[i].ts < cutoff
    ensures forall i :: k <= i < |evts| ==> evts[i].ts >= cutoff
  {
    if evts == [] {
      k := 0;
    } else {
      var init, last := evts[..|evts| - 1], evts[|evts| - 1];
      var j := RecentIsSuffix(init, cutoff);
      assert forall i :: 0 <= i < |init| ==> init[i] == evts[i];
      if last.ts < cutoff {
        assert j == |init|;
        k := |evts|;
      } else {
        assert init[j..] + [last] == evts[j..];
        k := j;
      }
    }
  }

  lemma {:induction false} TrimFrontTo(evts: seq<Event>, cutoff: int, k: nat)
    requires k <= |evts| && forall i :: 0 <= i < k ==> evts[i].ts < cutoff
    requires k < |evts| ==> evts[k].ts >= cutoff
    ensures TrimFront(evts, cutoff) == evts[k..]
  {
    if k > 0 {
      TrimFrontTo(evts[1..], cutoff, k - 1);
      assert evts[1..][k - 1..] == evts[k..];
    }
  }

  /** Trimming what an earlier cutoff left gives the same as filtering everything. */
  lemma TrimRecent(evts: seq<Event>, cutoff: int, cutoff': int)
    requires Monotone(evts, EventTime) && (evts == [] || cutoff <= cutoff')
    ensures TrimFront(Recent(evts, cutoff), cutoff') == Recent(evts, cutoff')
  {
    var k := RecentIsSuffix(evts, cutoff);
    var k' := RecentIsSuffix(evts, cutoff');
    if evts != [] {
      assert k' < |evts| ==> evts[k'].ts >= cutoff';
      assert k <= k';
      TrimFrontTo(evts[k..], cutoff', k' - k);
      assert evts[k..][k' - k..] == evts[k'..];
    }
  }

  function NextCutoff(c: Settings, cutoff: int, op: Op): int {
    if op.Response? then op.now - c.window else cutoff
  }

  /** The cutoff used by the last response of the run. */
  ghost function LastCutoff(c: Settings, ops: seq<Op>, i: nat): int
    requires i <= |ops|
  {
    if i == 0 then 0 else NextCutoff(c, LastCutoff(c, ops, i - 1), ops[i - 1])
  }

  ghost predicate UpTo(evts: seq<Event>, now: int) {
    forall k :: 0 <= k < |evts| ==> evts[k].ts <= now
  }

  /** The past is in time order, nothing in it is later than `now`, and `cutoff` is no newer than the window. */
  ghost predicate Settled(c: Settings, past: seq<Event>, cutoff: int, now: int) {
    Monotone(past, EventTime) && UpTo(past, now) && (past != [] ==> cutoff <= now - c.window)
  }

  lemma SettledStep(c: Settings, past: seq<Event>, cutoff: int, before: int, s: State, op: Op)
    requires Settled(c, past, cutoff, before) && before <= op.now
    ensures Settled(c, Extended(past, s, op), NextCutoff(c, cutoff, op), op.now)
  {
  }

  lemma {:induction false} HistorySettled(c: Settings, ops: seq<Op>, i: nat)
    requires Monotone(ops, OpTime) && 0 < i <= |ops|
    ensures Settled(c, History(c, ops, i), LastCutoff(c, ops, i), ops[i - 1].now)
  {
    var before := ops[i - 1].now;
    if i > 1 {
      HistorySettled(c, ops, i - 1);
      before := ops[i - 2].now;
    }
    SettledStep(c, History(c, ops, i - 1), LastCutoff(c, ops, i - 1), before, StateAt(c, ops, i - 1), ops[i - 1]);
  }

  /** The newest event, and of the others those that are recent. */
  function Kept(evts: seq<Event>, cutoff: int): seq<Event> {
    if evts == [] then [] else Recent(evts[..|evts| - 1], cutoff) + [evts[|evts| - 1]]
  }

  /** If even the newest event is stale, so are all others. */
  lemma TrimKept(evts: seq<Event>, cutoff: int, cutoff': int)
    requires Monotone(evts, EventTime) && (evts == [] || cutoff <= cutoff')
    ensures TrimFront(Kept(evts, cutoff), cutoff') == Recent(evts, cutoff')
  {
    if evts == [] || evts[|evts| - 1].ts >= cutoff {
      TrimRecent(evts, cutoff, cutoff');
    } else {
      var init := evts[..|evts| - 1];
      assert forall i :: 0 <= i < |init| ==> init[i].ts <= evts[|evts| - 1].ts;
      var j := RecentIsSuffix(init, cutoff);
      var k := RecentIsSuffix(evts, cutoff');
      assert j == |init|;
      TrimFrontTo(Kept(evts, cutoff), cutoff', 1);
    }
  }

  lemma SlidesToKept(window: seq<Event>, past: seq<Event>, cutoff: int, e: Event, cutoff': int)
    requires window == Kept(past, cutoff) && Monotone(past, EventTime) && (past == [] || cutoff <= cutoff')
    ensures TrimFront(window, cutoff') + [e] == Recent(past, cutoff') + [e] == Kept(past + [e], cutoff')
  {
    TrimKept(past, cutoff, cutoff');
    assert (past + [e])[..|past|] == past;
  }

  lemma ResponseSlides(c: Settings, s: State, err: bool, now: int)
    ensures Responded(c, s, err, now).m.window == TrimFront(s.m.window, now - c.window) + [Event(now, err)]
  {
  }

  lemma WindowStep(c: Settings, s: State, op: Op, past: seq<Event>, cutoff: int, before: int)
    requires Settled(c, past, cutoff, before) && before <= op.now
    requires s.m.window == Kept(past, cutoff)
    ensures Apply(c, s, op).m.window == Kept(Extended(past, s, op), NextCutoff(c, cutoff, op))
  {
    match op {
      case Response(err, now) =>
        ResponseSlides(c, s, err, now);
        SlidesToKept(s.m.window, past, cutoff, Event(now, err), now - c.window);
      case Readmit(_) =>
      case External(_, _) =>
    }
  }

  /**
   With a clock in order, the trimmed window is the whole history since the last readmission,
   filtered by time; the newest response is in it whatever the width of the window.
   */
  lemma {:induction false} WindowIsRecentHistory(c: Settings, ops: seq<Op>, i: nat)
    requires Monotone(ops, OpTime) && i <= |ops|
    ensures StateAt(c, ops, i).m.window == Kept(History(c, ops, i), LastCutoff(c, ops, i))
  {
    if i > 0 {
      WindowIsRecentHistory(c, ops, i - 1);
      var before := ops[i - 1].now;
      if i > 1 {
        HistorySettled(c, ops, i - 1);
        before := ops[i - 2].now;
      }
      WindowStep(c, StateAt(c, ops, i - 1), ops[i - 1], History(c, ops, i - 1), LastCutoff(c, ops, i - 1), before);
    }
  }

  /** What a response is judged on: itself and all responses since the last readmission that fall inside the window. */
  ghost function Seen(c: Settings, ops: seq<Op>, i: nat): seq<Event>
    requires i < |ops| && ops[i].Response?
  {
    Recent(History(c, ops, i), ops[i].now - c.window) + [Event(ops[i].now, ops[i].err)]
  }

  lemma JudgedOnSeen(c: Settings, ops: seq<Op>, i: nat)
    requires Monotone(ops, OpTime) && i < |ops| && ops[i].Response?
    ensures EjectsAt(c, ops, i) <==> StateAt(c, ops, i).h.Healthy? && c.tooBad(Seen(c, ops, i))
    ensures !EjectsAt(c, ops, i) ==> StateAt(c, ops, i + 1).h == StateAt(c, ops, i).h
  {
    WindowIsRecentHistory(c, ops, i + 1);
    assert History(c, ops, i + 1)[..|History(c, ops, i)|] == History(c, ops, i);
    assert StateAt(c, ops, i + 1).m.window == Seen(c, ops, i);
    EjectStep(c, StateAt(c, ops, i), ops[i]);
  }

  /**
   A response ejects exactly when the backend is Healthy and, over it and all responses since the
   last readmission that fall inside the window, the share of errors reaches the limit.
   */
  lemma EjectsOnFullHistory(window: int, limit: real, ops: seq<Op>, i: nat)
    requires Monotone(ops, OpTime) && i < |ops| && ops[i].Response?
    ensures var c := Settings(window, RateReaches(limit));
      var seen := Seen(c, ops, i);
      EjectsAt(c, ops, i) <==>
        StateAt(c, ops, i).h.Healthy? && Errors(seen) as real / |seen| as real >= limit
  {
    JudgedOnSeen(Settings(window, RateReaches(limit)), ops, i);
  }

  lemma EjectStep(c: Settings, s: State, op: Op)
    requires op.Response?
    ensures var s' := Apply(c, s, op);
      && s'.m.window != []
      && (if s.h.Healthy? && c.tooBad(s'.m.window)
          then s'.h.Unhealthy? && s'.m.ejected == Some(op.now)
          else s'.h == s.h && s'.m.ejected == s.m.ejected)
  {
  }

  /** Readmissions in the first `i` operations. */
  ghost function Readmissions(c: Settings, ops: seq<Op>, i: nat): nat
    requires i <= |ops|
  {
    if i == 0 then 0 else Readmissions(c, ops, i - 1) + if ReadmitsAt(c, ops, i - 1) then 1 else 0
  }

  ghost predicate BackoffIs(m: Memory, k: nat) {
    m.backoff == Capped(k) || (m.backoff == 0 && m.ejected.None? && k == 0)
  }

  lemma BackoffStep(c: Settings, s: State, op: Op, k: nat)
    requires BackoffIs(s.m, k)
    ensures BackoffIs(Apply(c, s, op).m, if op.Readmit? && Readmits(s, op.now) then k + 1 else k)
  {
    CappedDoubles(k);
    CappedPositive(k);
    assert Capped(0) == BASE_BACKOFF;
  }

  /** The passive backoff doubles with every readmission and is never reset. */
  lemma {:induction false} BackoffFollowsReadmissions(c: Settings, ops: seq<Op>, i: nat)
    requires i <= |ops|
    ensures BackoffIs(StateAt(c, ops, i).m, Readmissions(c, ops, i))
  {
    if i > 0 {
      BackoffFollowsReadmissions(c, ops, i - 1);
      BackoffStep(c, StateAt(c, ops, i - 1), ops[i - 1], Readmissions(c, ops, i - 1));
    }
  }

  lemma CappedPositive(k: nat)
    ensures Capped(k) > 0
  {
    Pow2Positive(k);
  }

  lemma {:induction false} Pow2Positive(k: nat)
    ensures Pow2(k) >= 1
  {
    if k > 0 {
      Pow2Positive(k - 1);
    }
  }

  /** The last ejection still on record, read off the history. */
  ghost function LastEjection(c: Settings, ops: seq<Op>, i: nat): Option<int>
    requires i <= |ops|
  {
    if i == 0 || ReadmitsAt(c, ops, i - 1) then None
    else if EjectsAt(c, ops, i - 1) then Some(ops[i - 1].now)
    else LastEjection(c, ops, i - 1)
  }

  lemma {:induction false} EjectedIsLastEjection(c: Settings, ops: seq<Op>, i: nat)
    requires i <= |ops|
    ensures StateAt(c, ops, i).m.ejected == LastEjection(c, ops, i)
  {
    if i > 0 {
      EjectedIsLastEjection(c, ops, i - 1);
      if ops[i - 1].Response? {
        EjectStep(c, StateAt(c, ops, i - 1), ops[i - 1]);
      }
    }
  }

  /** The backend is ejected and its backoff is over, read off the history. */
  ghost predicate MayReturn(c: Settings, ops: seq<Op>, i: nat)
    requires i < |ops|
  {
    var ejection := LastEjection(c, ops, i);
    && StateAt(c, ops, i).h.Unhealthy? && ejection.Some?
    && ops[i].now - ejection.value >= Capped(Readmissions(c, ops, i))
  }

  /** An attempt to readmit puts the backend on Probation exactly when it may return, and else changes nothing. */
  lemma ReadmittedExactly(c: Settings, ops: seq<Op>, i: nat)
    requires i < |ops| && ops[i].Readmit?
    ensures ReadmitsAt(c, ops, i) <==> MayReturn(c, ops, i)
    ensures MayReturn(c, ops, i) ==>
      && StateAt(c, ops, i + 1).h == Probation && StateAt(c, ops, i + 1).m.window == []
      && LastEjection(c, ops, i + 1).None?
    ensures !MayReturn(c, ops, i) ==> StateAt(c, ops, i + 1) == StateAt(c, ops, i)
  {
    BackoffFollowsReadmissions(c, ops, i);
    EjectedIsLastEjection(c, ops, i);
  }

  /** A readmission comes no sooner after the ejection than the doubled, capped backoff. */
  lemma ReadmissionWaits(c: Settings, ops: seq<Op>, i: nat)
    requires i < |ops| && ReadmitsAt(c, ops, i)
    ensures LastEjection(c, ops, i).Some?
    ensures ops[i].now - LastEjection(c, ops, i).value >= Capped(Readmissions(c, ops, i))
  {
    ReadmittedExactly(c, ops, i);
  }
}
