/**
 The circuit breaker as a protocol between any number of concurrent callers. One step is
 one atomic load, store or add, one mutex operation, or one channel operation; the steps of
 different callers interleave freely, and clock readings are arbitrary.
 */
module BreakerProtocol {
  import opened Common
  import opened CircuitBreaker

  /** Where a caller stands inside Allow, RecordSuccess or RecordFailure. */
  datatype Pc =
    | Idle
      // Allow
    | LoadPhase
    | LoadOpenedAt
    | TestClock(openedAt: int)
    | LockForProbe
    | RecheckOpen
    | PublishHalfOpen
    | TestDrained
    | DrainOne
    | Refill(sent: nat)
    | UnlockProbe
    | ReloadPhase
    | Select
      // RecordSuccess
    | ResetFailures
    | TestHalfOpen
    | LockForClose
    | StoreClosed
    | UnlockClose
      // RecordFailure
    | AddFailure
    | TestTrip(count: int)
    | LockForOpen
    | RecheckNotOpen
    | StampOpenedAt
    | StoreOpen
    | ClearFailures
    | UnlockOpen

  type Caller = nat

  /** Caller `who` takes its next step; an idle caller first picks a method via `start`. */
  datatype Event = Event(who: Caller, start: Start, now: int)
  datatype Start = StartAllow | StartSuccess | StartFailure

  /** The memory the callers share, with a history of the permit channel. */
  datatype Shared = Shared(
    phase: Phase,
    failures: int,
    openedAt: int,
    permits: nat,
    holder: Option<Caller>,
    sent: nat,     // permits ever sent into the channel
    taken: nat,    // permits ever received by an admitted request
    drained: nat)  // permits ever received by a drain loop

  datatype System = System(m: Shared, pcs: map<Caller, Pc>) {
    function At(t: Caller): Pc {
      if t in pcs then pcs[t] else Idle
    }
  }

  const START := System(Shared(Closed, 0, 0, 0, None, 0, 0, 0), map[])

  /** The mutex: a caller that finds it held stays where it is. */
  function Lock(m: Shared, t: Caller, pc: Pc, next: Pc): (Shared, Pc) {
    if m.holder.None? then (m.(holder := Some(t)), next) else (m, pc)
  }

  /** What the next step of a caller standing at `pc` does. A blocked caller stays at `pc`. */
  function Act(c: Config, m: Shared, pc: Pc, e: Event): (Shared, Pc) {
    match pc
    case Idle =>
      (m, match e.start
          case StartAllow => LoadPhase
          case StartSuccess => ResetFailures
          case StartFailure => AddFailure)
    case LoadPhase =>
      (m, match m.phase
          case Closed => Idle
          case Open => LoadOpenedAt
          case HalfOpen => Select)
    case LoadOpenedAt => (m, TestClock(m.openedAt))
    case TestClock(openedAt) => (m, if e.now - openedAt >= c.openDuration then LockForProbe else ReloadPhase)
    case LockForProbe => Lock(m, e.who, pc, RecheckOpen)
    case RecheckOpen => (m, if m.phase.Open? then PublishHalfOpen else UnlockProbe)
    case PublishHalfOpen => (m.(phase := HalfOpen), TestDrained)
    case TestDrained => (m, if m.permits > 0 then DrainOne else Refill(0))
    case DrainOne =>
      if m.permits == 0 then (m, pc)
      else (m.(permits := m.permits - 1, drained := m.drained + 1), TestDrained)
    case Refill(n) =>
      if n >= c.halfOpenProbes then (m, UnlockProbe)
      else if m.permits >= c.halfOpenProbes then (m, pc)
      else (m.(permits := m.permits + 1, sent := m.sent + 1), Refill(n + 1))
    case UnlockProbe => (m.(holder := None), ReloadPhase)
    case ReloadPhase => (m, if m.phase.Open? then Idle else Select)
    case Select =>
      if m.permits == 0 then (m, Idle)
      else (m.(permits := m.permits - 1, taken := m.taken + 1), Idle)
    case ResetFailures => (m.(failures := 0), TestHalfOpen)
    case TestHalfOpen => (m, if m.phase.HalfOpen? then LockForClose else Idle)
    case LockForClose => Lock(m, e.who, pc, StoreClosed)
    case StoreClosed => (m.(phase := Closed), UnlockClose)
    case UnlockClose => (m.(holder := None), Idle)
    case AddFailure => (m.(failures := m.failures + 1), TestTrip(m.failures + 1))
    case TestTrip(n) => (m, if n >= c.failureThreshold || m.phase.HalfOpen? then LockForOpen else Idle)
    case LockForOpen => Lock(m, e.who, pc, RecheckNotOpen)
    case RecheckNotOpen => (m, if m.phase.Open? then UnlockOpen else StampOpenedAt)
    case StampOpenedAt => (m.(openedAt := e.now), StoreOpen)
    case StoreOpen => (m.(phase := Open), ClearFailures)
    case ClearFailures => (m.(failures := 0), UnlockOpen)
    case UnlockOpen => (m.(holder := None), Idle)
  }

  function Step(c: Config, s: System, e: Event): System {
    var (m, pc) := Act(c, s.m, s.At(e.who), e);
    System(m, s.pcs[e.who := pc])
  }

  /** The system after the first `i` steps of an interleaving. */
  ghost function StateAfter(c: Config, events: seq<Event>, i: nat): System
    requires i <= |events|
  {
    if i == 0 then START else Step(c, StateAfter(c, events, i - 1), events[i - 1])
  }

  /** The program points between a Lock and the matching Unlock. */
  predicate Critical(pc: Pc) {
    || pc.RecheckOpen? || pc.PublishHalfOpen? || pc.TestDrained? || pc.DrainOne? || pc.Refill? || pc.UnlockProbe?
    || pc.StoreClosed? || pc.UnlockClose?
    || pc.RecheckNotOpen? || pc.StampOpenedAt? || pc.StoreOpen? || pc.ClearFailures? || pc.UnlockOpen?
  }

  /** Permits the current half-open transition has still to send. */
  function Owed(c: Config, pc: Pc): nat {
    match pc
    case TestDrained => c.halfOpenProbes
    case DrainOne => c.halfOpenProbes
    case Refill(n) => if n <= c.halfOpenProbes then c.halfOpenProbes - n else 0
    case _ => 0
  }

  function OwedBy(c: Config, s: System): nat {
    if s.m.holder.Some? then Owed(c, s.At(s.m.holder.value)) else 0
  }

  /** What the holder of the mutex may rely on at each of its program points. */
  predicate HolderInv(c: Config, s: System, pc: Pc) {
    && (pc.PublishHalfOpen? ==> s.m.phase.Open?)
    && (pc.TestDrained? || pc.DrainOne? || pc.Refill? ==> s.m.phase.HalfOpen?)
    && (pc.Refill? ==> s.m.permits <= pc.sent <= c.halfOpenProbes)
    && (pc.StampOpenedAt? || pc.StoreOpen? ==> !s.m.phase.Open?)
  }

  ghost predicate Mutex(s: System) {
    forall t: Caller :: Critical(s.At(t)) <==> s.m.holder == Some(t)
  }

  ghost predicate Inv(c: Config, s: System) {
    && Mutex(s)
    && s.m.permits <= c.halfOpenProbes
    && s.m.sent == s.m.taken + s.m.drained + s.m.permits
    && (s.m.holder.Some? ==> HolderInv(c, s, s.At(s.m.holder.value)))
  }

  lemma StepKeepsMutex(c: Config, s: System, e: Event)
    requires Mutex(s)
    ensures Mutex(Step(c, s, e))
  {
    var s' := Step(c, s, e);
    forall t: Caller
      ensures Critical(s'.At(t)) <==> s'.m.holder == Some(t)
    {
      assert Critical(s.At(t)) <==> s.m.holder == Some(t);
      assert Critical(s.At(e.who)) <==> s.m.holder == Some(e.who);
      assert t != e.who ==> s'.At(t) == s.At(t);
    }
  }

  /** A caller outside the critical section changes neither the phase nor adds permits. */
  lemma OutsiderIsHarmless(c: Config, s: System, e: Event)
    requires !Critical(s.At(e.who))
    ensures var s' := Step(c, s, e);
      && s'.m.phase == s.m.phase && s'.m.permits <= s.m.permits && s'.m.sent == s.m.sent
      && (s'.m.holder == s.m.holder || (s.m.holder.None? && s'.m.holder == Some(e.who)))
      && (forall t: Caller :: t != e.who ==> s'.At(t) == s.At(t))
  {
  }

  lemma StepKeepsInv(c: Config, s: System, e: Event)
    requires Inv(c, s)
    ensures Inv(c, Step(c, s, e))
  {
    StepKeepsMutex(c, s, e);
    assert Critical(s.At(e.who)) <==> s.m.holder == Some(e.who);
    if Critical(s.At(e.who)) {
    } else {
      OutsiderIsHarmless(c, s, e);
    }
  }

  lemma {:induction false} Invariant(c: Config, events: seq<Event>, i: nat)
    requires i <= |events|
    ensures Inv(c, StateAfter(c, events, i))
  {
    if i > 0 {
      Invariant(c, events, i - 1);
      StepKeepsInv(c, StateAfter(c, events, i - 1), events[i - 1]);
    }
  }

  /** Step `j` of the interleaving turned an open breaker half-open. */
  ghost predicate HalfOpensAt(c: Config, events: seq<Event>, j: nat)
    requires j < |events|
  {
    StateAfter(c, events, j).m.phase.Open? && StateAfter(c, events, j + 1).m.phase.HalfOpen?
  }

  /** Step `j` is a request that gets past the channel. */
  ghost predicate AdmitsAt(c: Config, events: seq<Event>, j: nat)
    requires j < |events|
  {
    var s := StateAfter(c, events, j);
    s.At(events[j].who).Select? && s.m.permits > 0
  }

  ghost function Transitions(c: Config, events: seq<Event>, i: nat): nat
    requires i <= |events|
  {
    if i == 0 then 0 else Transitions(c, events, i - 1) + if HalfOpensAt(c, events, i - 1) then 1 else 0
  }

  ghost function ChannelAdmissions(c: Config, events: seq<Event>, i: nat): nat
    requires i <= |events|
  {
    if i == 0 then 0 else ChannelAdmissions(c, events, i - 1) + if AdmitsAt(c, events, i - 1) then 1 else 0
  }

  /** Sends pay off exactly what each observed Open to HalfOpen transition owes. */
  lemma StepKeepsDebt(c: Config, s: System, e: Event)
    requires Inv(c, s)
    ensures var s' := Step(c, s, e);
      s'.m.sent + OwedBy(c, s') ==
        s.m.sent + OwedBy(c, s) + if s.m.phase.Open? && s'.m.phase.HalfOpen? then c.halfOpenProbes else 0
  {
    assert Critical(s.At(e.who)) <==> s.m.holder == Some(e.who);
    if !Critical(s.At(e.who)) {
      OutsiderIsHarmless(c, s, e);
    }
  }

  /** HalfOpenProbes for each transition so far. */
  ghost function Budget(c: Config, events: seq<Event>, i: nat): nat
    requires i <= |events|
  {
    if i == 0 then 0 else Budget(c, events, i - 1) + if HalfOpensAt(c, events, i - 1) then c.halfOpenProbes else 0
  }

  lemma {:induction false} DebtIsPaid(c: Config, events: seq<Event>, i: nat)
    requires i <= |events|
    ensures StateAfter(c, events, i).m.sent + OwedBy(c, StateAfter(c, events, i)) == Budget(c, events, i)
  {
    if i > 0 {
      DebtIsPaid(c, events, i - 1);
      Invariant(c, events, i - 1);
      StepKeepsDebt(c, StateAfter(c, events, i - 1), events[i - 1]);
    }
  }

  lemma {:induction false} BudgetIsProduct(c: Config, events: seq<Event>, i: nat)
    requires i <= |events|
    ensures Budget(c, events, i) == Transitions(c, events, i) * c.halfOpenProbes
  {
    if i > 0 {
      BudgetIsProduct(c, events, i - 1);
      ProductStep(Transitions(c, events, i - 1), c.halfOpenProbes, HalfOpensAt(c, events, i - 1));
    }
  }

  lemma ProductStep(k: nat, w: nat, more: bool)
    ensures k * w + (if more then w else 0) == (k + if more then 1 else 0) * w
  {
    OneMore(k, w);
  }

  lemma TakenStep(c: Config, s: System, e: Event)
    ensures Step(c, s, e).m.taken == s.m.taken + if s.At(e.who).Select? && s.m.permits > 0 then 1 else 0
  {
  }

  lemma {:induction false} TakenAreAdmissions(c: Config, events: seq<Event>, i: nat)
    requires i <= |events|
    ensures StateAfter(c, events, i).m.taken == ChannelAdmissions(c, events, i)
  {
    if i > 0 {
      TakenAreAdmissions(c, events, i - 1);
      TakenStep(c, StateAfter(c, events, i - 1), events[i - 1]);
    }
  }

  /**
   Under every interleaving, permits sent are permits taken by admitted requests, drained, or
   still buffered, and the channel never overflows.
   */
  lemma PermitsAreConserved(c: Config, events: seq<Event>, i: nat)
    requires i <= |events|
    ensures var m := StateAfter(c, events, i).m;
      m.sent == ChannelAdmissions(c, events, i) + m.drained + m.permits && m.permits <= c.halfOpenProbes
  {
    Invariant(c, events, i);
    TakenAreAdmissions(c, events, i);
  }

  /**
   The requests that got past the channel, with the permits drained and buffered, number at
   most HalfOpenProbes for each observed transition from Open to HalfOpen.
   */
  lemma AdmissionsWithinTransitions(c: Config, events: seq<Event>, i: nat)
    requires i <= |events|
    ensures var m := StateAfter(c, events, i).m;
      ChannelAdmissions(c, events, i) + m.drained + m.permits <= Transitions(c, events, i) * c.halfOpenProbes
  {
    PermitsAreConserved(c, events, i);
    DebtIsPaid(c, events, i);
    BudgetIsProduct(c, events, i);
  }

  /** A caller that has a permit to send finds room in the channel. */
  lemma RefillNeverBlocks(c: Config, events: seq<Event>, i: nat, e: Event)
    requires i <= |events|
    requires StateAfter(c, events, i).At(e.who).Refill?
    requires StateAfter(c, events, i).At(e.who).sent < c.halfOpenProbes
    ensures Step(c, StateAfter(c, events, i), e).m.permits == StateAfter(c, events, i).m.permits + 1
  {
    Invariant(c, events, i);
    assert Critical(StateAfter(c, events, i).At(e.who));
  }

  lemma MutualExclusion(c: Config, events: seq<Event>, i: nat, t: Caller, u: Caller)
    requires i <= |events|
    requires Critical(StateAfter(c, events, i).At(t)) && Critical(StateAfter(c, events, i).At(u))
    ensures t == u
  {
    Invariant(c, events, i);
  }

  // ----- How a half-open period ends -----

  ghost function PhaseAfter(c: Config, events: seq<Event>, i: nat): Phase
    requires i <= |events|
  {
    StateAfter(c, events, i).m.phase
  }

  ghost function PcAfter(c: Config, events: seq<Event>, t: Caller, i: nat): Pc
    requires i <= |events|
  {
    StateAfter(c, events, i).At(t)
  }

  /** Caller `t` does not return between steps `i` and `j`. */
  ghost predicate Busy(c: Config, events: seq<Event>, t: Caller, i: nat, j: nat)
    requires i <= j <= |events|
  {
    forall k :: i <= k < j ==> !PcAfter(c, events, t, k).Idle?
  }

  lemma PhaseStep(c: Config, s: System, e: Event)
    ensures Step(c, s, e).m.phase ==
      match s.At(e.who)
      case PublishHalfOpen => HalfOpen
      case StoreClosed => Closed
      case StoreOpen => Open
      case _ => s.m.phase
  {
  }

  /** Under every interleaving, only a RecordSuccess closes a half-open breaker and only a RecordFailure opens it. */
  lemma HalfOpenEndsByReport(c: Config, events: seq<Event>, j: nat)
    requires j < |events| && PhaseAfter(c, events, j).HalfOpen?
    ensures PhaseAfter(c, events, j + 1).Closed? <==> StateAfter(c, events, j).At(events[j].who).StoreClosed?
    ensures PhaseAfter(c, events, j + 1).Open? <==> StateAfter(c, events, j).At(events[j].who).StoreOpen?
  {
    PhaseStep(c, StateAfter(c, events, j), events[j]);
  }

  /** What is left of a RecordSuccess that has read HalfOpen. */
  predicate Closing(pc: Pc) {
    pc.LockForClose? || pc.StoreClosed? || pc.UnlockClose?
  }

  /** What is left of a RecordFailure that is going to open the breaker, or find it open. */
  predicate Opening(pc: Pc) {
    || pc.LockForOpen? || pc.RecheckNotOpen? || pc.StampOpenedAt? || pc.StoreOpen?
    || pc.ClearFailures? || pc.UnlockOpen?
  }

  /** The breaker was in this phase right after some step of caller `t` among steps `i` to `j`. */
  ghost predicate Reached(c: Config, events: seq<Event>, t: Caller, i: nat, j: nat, phase: Phase)
    requires i <= j <= |events|
  {
    exists k :: i <= k < j && events[k].who == t && PhaseAfter(c, events, k + 1) == phase
  }

  lemma ReachedLater(c: Config, events: seq<Event>, t: Caller, i: nat, j: nat, phase: Phase)
    requires i <= j < |events| && Reached(c, events, t, i, j, phase)
    ensures Reached(c, events, t, i, j + 1, phase)
  {
  }

  /** Where the tests of RecordSuccess and RecordFailure lead. */
  lemma TestsStep(c: Config, s: System, e: Event)
    ensures s.At(e.who).TestHalfOpen? && s.m.phase.HalfOpen? ==> Step(c, s, e).At(e.who).LockForClose?
    ensures s.At(e.who).TestTrip? && (s.m.phase.HalfOpen? || s.At(e.who).count >= c.failureThreshold) ==>
      Step(c, s, e).At(e.who).LockForOpen?
  {
  }

  lemma ClosingStep(c: Config, s: System, e: Event, t: Caller)
    requires Closing(s.At(t))
    ensures var s' := Step(c, s, e);
      && (s'.At(t).UnlockClose? ==> s.At(t).UnlockClose? || (e.who == t && s'.m.phase.Closed?))
      && (Closing(s'.At(t)) || s.At(t).UnlockClose?)
  {
  }

  lemma {:induction false} ClosesOnTheWay(c: Config, events: seq<Event>, t: Caller, i: nat, j: nat)
    requires i <= j <= |events| && PcAfter(c, events, t, i).LockForClose?
    requires Busy(c, events, t, i, j)
    ensures Reached(c, events, t, i, j, Closed) || PcAfter(c, events, t, j).LockForClose?
      || PcAfter(c, events, t, j).StoreClosed?
    decreases j
  {
    if i < j {
      ClosesOnTheWay(c, events, t, i, j - 1);
      if Reached(c, events, t, i, j - 1, Closed) {
        ReachedLater(c, events, t, i, j - 1, Closed);
      } else {
        ClosingStep(c, StateAfter(c, events, j - 1), events[j - 1], t);
      }
    }
  }

  /** A RecordSuccess that reads HalfOpen does not return before it has closed the breaker. */
  lemma SuccessCloses(c: Config, events: seq<Event>, t: Caller, i: nat, j: nat)
    requires i < j <= |events| && events[i].who == t && PhaseAfter(c, events, i).HalfOpen?
    requires PcAfter(c, events, t, i).TestHalfOpen? && PcAfter(c, events, t, j).Idle?
    requires Busy(c, events, t, i, j)
    ensures Reached(c, events, t, i + 1, j, Closed)
  {
    TestsStep(c, StateAfter(c, events, i), events[i]);
    ClosesOnTheWay(c, events, t, i + 1, j);
  }

  lemma OpeningStep(c: Config, s: System, e: Event, t: Caller)
    requires Opening(s.At(t))
    ensures var s' := Step(c, s, e);
      && (s'.At(t).ClearFailures? || s'.At(t).UnlockOpen? ==>
            s.At(t).ClearFailures? || s.At(t).UnlockOpen? || (e.who == t && s'.m.phase.Open?))
      && (Opening(s'.At(t)) || s.At(t).UnlockOpen?)
  {
  }

  lemma {:induction false} OpensOnTheWay(c: Config, events: seq<Event>, t: Caller, i: nat, j: nat)
    requires i <= j <= |events| && PcAfter(c, events, t, i).LockForOpen?
    requires Busy(c, events, t, i, j)
    ensures var pc := PcAfter(c, events, t, j);
      Reached(c, events, t, i, j, Open) || (Opening(pc) && !pc.ClearFailures? && !pc.UnlockOpen?)
    decreases j
  {
    if i < j {
      OpensOnTheWay(c, events, t, i, j - 1);
      if Reached(c, events, t, i, j - 1, Open) {
        ReachedLater(c, events, t, i, j - 1, Open);
      } else {
        OpeningStep(c, StateAfter(c, events, j - 1), events[j - 1], t);
      }
    }
  }

  /** A RecordFailure that reads HalfOpen, or counts up to the threshold, does not return before the breaker is open. */
  lemma FailureOpens(c: Config, events: seq<Event>, t: Caller, i: nat, j: nat)
    requires i < j <= |events| && events[i].who == t && PcAfter(c, events, t, i).TestTrip?
    requires PhaseAfter(c, events, i).HalfOpen? || PcAfter(c, events, t, i).count >= c.failureThreshold
    requires PcAfter(c, events, t, j).Idle?
    requires Busy(c, events, t, i, j)
    ensures Reached(c, events, t, i + 1, j, Open)
  {
    TestsStep(c, StateAfter(c, events, i), events[i]);
    OpensOnTheWay(c, events, t, i + 1, j);
  }
}
