/**
 One token bucket shared by any number of concurrent callers of Allow. One step is one clock
 reading or one atomic operation on the bucket; steps of different callers interleave freely
 and clock readings need not be in order. Counters are unbounded integers.
 */
module LimiterProtocol {
  import opened Common
  import opened RateLimiter

  datatype Pc =
    | Idle
    | Swap(now: int)             // clock read, about to swap the time stamp
    | LoadForRefill(credit: nat)
    | StoreRefill(value: int)
    | LoadForTake
    | CompareAndSwap(seen: int)

  type Caller = nat

  datatype Event = Event(who: Caller, now: int)

  datatype System = System(b: Bucket, pcs: map<Caller, Pc>) {
    function At(t: Caller): Pc {
      if t in pcs then pcs[t] else Idle
    }
  }

  function Act(l: Limits, b: Bucket, pc: Pc, e: Event): (Bucket, Pc) {
    match pc
    case Idle => (b, Swap(e.now))
    case Swap(now) =>
      var credit := Credit(l, now - b.lastRefill);
      (b.(lastRefill := now), if credit > 0 then LoadForRefill(credit) else LoadForTake)
    case LoadForRefill(k) => (b, StoreRefill(if b.tokens + k > l.burst then l.burst else b.tokens + k))
    case StoreRefill(v) => (b.(tokens := v), LoadForTake)
    case LoadForTake => (b, if b.tokens <= 0 then Idle else CompareAndSwap(b.tokens))
    case CompareAndSwap(seen) => if b.tokens == seen then (b.(tokens := seen - 1), Idle) else (b, LoadForTake)
  }

  function Step(l: Limits, s: System, e: Event): System {
    var (b, pc) := Act(l, s.b, s.At(e.who), e);
    System(b, s.pcs[e.who := pc])
  }

  /** The system after `i` steps; the bucket starts full, as it is created. */
  ghost function StateAfter(l: Limits, created: int, events: seq<Event>, i: nat): System
    requires i <= |events|
  {
    if i == 0 then System(Bucket(l.burst, created), map[])
    else Step(l, StateAfter(l, created, events, i - 1), events[i - 1])
  }

  ghost predicate Inv(l: Limits, s: System) {
    && 0 <= s.b.tokens <= l.burst
    && forall t: Caller ::
         && (s.At(t).StoreRefill? ==> 0 <= s.At(t).value <= l.burst)
         && (s.At(t).CompareAndSwap? ==> 0 < s.At(t).seen <= l.burst)
  }

  lemma StepKeepsInv(l: Limits, s: System, e: Event)
    requires Inv(l, s)
    ensures Inv(l, Step(l, s, e))
  {
    var s' := Step(l, s, e);
    var pc := s.At(e.who);
    assert forall t: Caller :: t != e.who ==> s'.At(t) == s.At(t);
  }

  /** The bucket never goes negative and never holds more than the burst. */
  lemma {:induction false} TokensInRange(l: Limits, created: int, events: seq<Event>, i: nat)
    requires l.burst >= 0 && i <= |events|
    ensures Inv(l, StateAfter(l, created, events, i))
    ensures 0 <= StateAfter(l, created, events, i).b.tokens <= l.burst
  {
    if i > 0 {
      TokensInRange(l, created, events, i - 1);
      StepKeepsInv(l, StateAfter(l, created, events, i - 1), events[i - 1]);
    }
  }

  /** Step `j` is a compare-and-swap that succeeds, which is the only way to return true. */
  ghost predicate AdmitsAt(l: Limits, created: int, events: seq<Event>, j: nat)
    requires j < |events|
  {
    var s := StateAfter(l, created, events, j);
    s.At(events[j].who) == CompareAndSwap(s.b.tokens)
  }

  ghost predicate StoresAt(l: Limits, created: int, events: seq<Event>, j: nat)
    requires j < |events|
  {
    StateAfter(l, created, events, j).At(events[j].who).StoreRefill?
  }

  ghost function TokensAfter(l: Limits, created: int, events: seq<Event>, i: nat): int
    requires i <= |events|
  {
    StateAfter(l, created, events, i).b.tokens
  }

  ghost function Admissions(l: Limits, created: int, events: seq<Event>, i: nat): nat
    requires i <= |events|
  {
    if i == 0 then 0
    else Admissions(l, created, events, i - 1) + if AdmitsAt(l, created, events, i - 1) then 1 else 0
  }

  /** What all refill stores together added to the bucket (a store can also lower it). */
  ghost function Refilled(l: Limits, created: int, events: seq<Event>, i: nat): int
    requires i <= |events|
  {
    if i == 0 then 0
    else
      Refilled(l, created, events, i - 1) +
      if StoresAt(l, created, events, i - 1)
      then TokensAfter(l, created, events, i) - TokensAfter(l, created, events, i - 1) else 0
  }

  lemma TokensStep(l: Limits, s: System, e: Event)
    ensures s.At(e.who) == CompareAndSwap(s.b.tokens) ==> Step(l, s, e).b.tokens == s.b.tokens - 1
    ensures s.At(e.who) != CompareAndSwap(s.b.tokens) && !s.At(e.who).StoreRefill? ==>
      Step(l, s, e).b.tokens == s.b.tokens
  {
  }

  /** An admission is exactly one decrement of a positive count. */
  lemma AdmissionIsDecrement(l: Limits, created: int, events: seq<Event>, j: nat)
    requires l.burst >= 0 && j < |events| && AdmitsAt(l, created, events, j)
    ensures TokensAfter(l, created, events, j) > 0
    ensures TokensAfter(l, created, events, j + 1) == TokensAfter(l, created, events, j) - 1
  {
    TokensInRange(l, created, events, j);
    TokensStep(l, StateAfter(l, created, events, j), events[j]);
  }

  /** Tokens on hand are the burst, plus what refill stores added, minus the admissions. */
  lemma {:induction false} TokensAreConserved(l: Limits, created: int, events: seq<Event>, i: nat)
    requires i <= |events|
    ensures TokensAfter(l, created, events, i)
      == l.burst + Refilled(l, created, events, i) - Admissions(l, created, events, i)
  {
    if i > 0 {
      TokensAreConserved(l, created, events, i - 1);
      TokensStep(l, StateAfter(l, created, events, i - 1), events[i - 1]);
    }
  }

  lemma {:induction false} NoStoreNoRefill(l: Limits, created: int, events: seq<Event>, i: nat, j: nat)
    requires i <= j <= |events|
    requires forall k :: i <= k < j ==> !StoresAt(l, created, events, k)
    ensures Refilled(l, created, events, j) == Refilled(l, created, events, i)
  {
    if i < j {
      NoStoreNoRefill(l, created, events, i, j - 1);
    }
  }

  /** Over any stretch without a refill store, admissions are the drop in tokens. */
  lemma AdmissionsAreTheDrop(l: Limits, created: int, events: seq<Event>, i: nat, j: nat)
    requires i <= j <= |events|
    requires forall k :: i <= k < j ==> !StoresAt(l, created, events, k)
    ensures Admissions(l, created, events, j) - Admissions(l, created, events, i)
      == TokensAfter(l, created, events, i) - TokensAfter(l, created, events, j)
  {
    TokensAreConserved(l, created, events, i);
    TokensAreConserved(l, created, events, j);
    NoStoreNoRefill(l, created, events, i, j);
  }

  // ----- Between a caller's load and the step that uses it -----

  /** Caller `t` steps at `i` and at `j` and not in between. */
  ghost predicate Consecutive(events: seq<Event>, t: Caller, i: nat, j: nat) {
    && i < j < |events| && events[i].who == t && events[j].who == t
    && forall k :: i < k < j ==> events[k].who != t
  }

  lemma {:induction false} WaitsAt(l: Limits, created: int, events: seq<Event>, t: Caller, i: nat, j: nat)
    requires i <= j <= |events| && forall k :: i <= k < j ==> events[k].who != t
    ensures StateAfter(l, created, events, j).At(t) == StateAfter(l, created, events, i).At(t)
  {
    if i < j {
      WaitsAt(l, created, events, t, i, j - 1);
    }
  }

  lemma {:induction false} TokensUnmoved(l: Limits, created: int, events: seq<Event>, i: nat, j: nat)
    requires i <= j <= |events|
    requires forall k :: i <= k < j ==> !AdmitsAt(l, created, events, k) && !StoresAt(l, created, events, k)
    ensures TokensAfter(l, created, events, j) == TokensAfter(l, created, events, i)
  {
    if i < j {
      TokensUnmoved(l, created, events, i, j - 1);
      assert !AdmitsAt(l, created, events, j - 1) && !StoresAt(l, created, events, j - 1);
      TokensStep(l, StateAfter(l, created, events, j - 1), events[j - 1]);
    }
  }

  /**
   The retry loop is lock-free: a compare-and-swap fails only because some other caller was
   admitted, or completed a refill, since the load.
   */
  lemma FailedSwapMeansProgress(l: Limits, created: int, events: seq<Event>, t: Caller, i: nat, j: nat)
    requires Consecutive(events, t, i, j)
    requires StateAfter(l, created, events, i).At(t).LoadForTake?
    requires StateAfter(l, created, events, j).At(t).CompareAndSwap? && !AdmitsAt(l, created, events, j)
    ensures exists k :: i < k < j && (AdmitsAt(l, created, events, k) || StoresAt(l, created, events, k))
  {
    WaitsAt(l, created, events, t, i + 1, j);
    if forall k :: i < k < j ==> !AdmitsAt(l, created, events, k) && !StoresAt(l, created, events, k) {
      TokensUnmoved(l, created, events, i + 1, j);
    }
  }

  /**
   A refill store grants at most its credit, plus whatever was taken between its load and itself
   and less whatever other stores put in meanwhile.
   */
  lemma StoreOvershoot(l: Limits, created: int, events: seq<Event>, t: Caller, i: nat, j: nat)
    requires Consecutive(events, t, i, j)
    requires StateAfter(l, created, events, i).At(t).LoadForRefill?
    ensures TokensAfter(l, created, events, j + 1) - TokensAfter(l, created, events, j)
      <= StateAfter(l, created, events, i).At(t).credit
         + (Admissions(l, created, events, j) - Admissions(l, created, events, i + 1))
         - (Refilled(l, created, events, j) - Refilled(l, created, events, i + 1))
  {
    WaitsAt(l, created, events, t, i + 1, j);
    TokensAreConserved(l, created, events, i + 1);
    TokensAreConserved(l, created, events, j);
  }

  // ----- Callers that meet nobody -----

  function EventTime(e: Event): int {
    e.now
  }

  /** A time stamp that is swapped in is no earlier than the one it replaces. */
  predicate SwapInOrder(s: System, e: Event) {
    s.At(e.who).Swap? ==> s.b.lastRefill <= s.At(e.who).now
  }

  /** That holds of each of the first `i` steps. */
  ghost predicate SwapsInOrder(l: Limits, created: int, events: seq<Event>, i: nat)
    requires i <= |events|
  {
    i > 0 ==>
      && SwapsInOrder(l, created, events, i - 1)
      && SwapInOrder(StateAfter(l, created, events, i - 1), events[i - 1])
  }

  lemma {:induction false} ExtendRun(l: Limits, created: int, events: seq<Event>, e: Event, i: nat)
    requires i <= |events|
    ensures StateAfter(l, created, events + [e], i) == StateAfter(l, created, events, i)
    ensures Admissions(l, created, events + [e], i) == Admissions(l, created, events, i)
    ensures SwapsInOrder(l, created, events + [e], i) == SwapsInOrder(l, created, events, i)
  {
    if i > 0 {
      ExtendRun(l, created, events, e, i - 1);
    }
  }

  /** Events that lead from a fresh bucket to state `s` after `n` admissions, with or without all swaps in order. */
  ghost predicate Leads(l: Limits, created: int, events: seq<Event>, s: System, n: nat, ordered: bool) {
    && StateAfter(l, created, events, |events|) == s && Admissions(l, created, events, |events|) == n
    && SwapsInOrder(l, created, events, |events|) == ordered
  }

  lemma Extend(l: Limits, created: int, events: seq<Event>, s: System, n: nat, ordered: bool, e: Event)
    returns (events': seq<Event>, s': System, n': nat)
    requires Leads(l, created, events, s, n, ordered)
    ensures Leads(l, created, events', s', n', ordered && SwapInOrder(s, e)) && s' == Step(l, s, e)
    ensures n' == n + if s.At(e.who) == CompareAndSwap(s.b.tokens) then 1 else 0
    ensures Repeats(events, e, events')
  {
    ExtendRun(l, created, events, e, |events|);
    events', s' := events + [e], Step(l, s, e);
    n' := Admissions(l, created, events', |events'|);
  }

  /** From the swap with reading `now` to the take, undisturbed. */
  lemma SoloRefill(l: Limits, created: int, events: seq<Event>, s: System, n: nat, ordered: bool, e: Event, now: int)
    returns (events': seq<Event>, s': System)
    requires Leads(l, created, events, s, n, ordered) && s.At(e.who) == Swap(now)
    ensures Leads(l, created, events', s', n, ordered && s.b.lastRefill <= now) && s'.At(e.who).LoadForTake?
    ensures s'.b == Bucket(Topped(l, s.b, now), now)
    ensures forall u: Caller :: u != e.who ==> s'.At(u) == s.At(u)
    ensures Repeats(events, e, events')
  {
    var ordered', n' := ordered && s.b.lastRefill <= now, n;
    events', s', n' := Extend(l, created, events, s, n, ordered, e);
    if s'.At(e.who).LoadForRefill? {
      var last := events';
      events', s', n' := Extend(l, created, events', s', n', ordered', e);
      RepeatsChain(events, e, last, events');
      last := events';
      events', s', n' := Extend(l, created, events', s', n', ordered', e);
      RepeatsChain(events, e, last, events');
    }
  }

  /** The take, undisturbed. */
  lemma SoloTake(l: Limits, created: int, events: seq<Event>, s: System, n: nat, ordered: bool, e: Event)
    returns (events': seq<Event>, s': System, n': nat)
    requires Leads(l, created, events, s, n, ordered) && s.At(e.who).LoadForTake?
    ensures Leads(l, created, events', s', n', ordered) && s'.At(e.who).Idle?
    ensures s'.b == s.b.(tokens := if s.b.tokens > 0 then s.b.tokens - 1 else s.b.tokens)
    ensures n' == n + if s.b.tokens > 0 then 1 else 0
    ensures forall u: Caller :: u != e.who ==> s'.At(u) == s.At(u)
    ensures Repeats(events, e, events')
  {
    events', s', n' := Extend(l, created, events, s, n, ordered, e);
    if s'.At(e.who).CompareAndSwap? {
      var last := events';
      events', s', n' := Extend(l, created, events', s', n', ordered, e);
      RepeatsChain(events, e, last, events');
    }
  }

  /** The rest of a call whose clock reading was `now`. */
  lemma SoloFinish(l: Limits, created: int, events: seq<Event>, s: System, n: nat, ordered: bool, e: Event, now: int)
    returns (events': seq<Event>, s': System, n': nat)
    requires Leads(l, created, events, s, n, ordered) && s.At(e.who) == Swap(now)
    ensures Leads(l, created, events', s', n', ordered && s.b.lastRefill <= now) && s'.At(e.who).Idle?
    ensures s'.b == Take(l, s.b, now) && n' == n + if Grants(l, s.b, now) then 1 else 0
    ensures forall u: Caller :: u != e.who ==> s'.At(u) == s.At(u)
    ensures Repeats(events, e, events')
  {
    var topped, refilled := SoloRefill(l, created, events, s, n, ordered, e, now);
    events', s', n' := SoloTake(l, created, topped, refilled, n, ordered && s.b.lastRefill <= now, e);
    RepeatsChain(events, e, topped, events');
  }

  /** A caller that meets nobody does, step by step, what the call-atomic model says. */
  lemma SoloAllow(l: Limits, created: int, events: seq<Event>, s: System, n: nat, ordered: bool, e: Event)
    returns (events': seq<Event>, s': System, n': nat)
    requires Leads(l, created, events, s, n, ordered) && s.At(e.who).Idle?
    ensures Leads(l, created, events', s', n', ordered && s.b.lastRefill <= e.now) && s'.At(e.who).Idle?
    ensures s'.b == Take(l, s.b, e.now) && n' == n + if Grants(l, s.b, e.now) then 1 else 0
    ensures forall u: Caller :: u != e.who ==> s'.At(u) == s.At(u)
    ensures Repeats(events, e, events')
  {
    var last: seq<Event>;
    last, s', n' := Extend(l, created, events, s, n, ordered, e);
    events', s', n' := SoloFinish(l, created, last, s', n', ordered, e, e.now);
    RepeatsChain(events, e, last, events');
  }

  /**
   Every run of whole calls on one bucket is one of the interleavings, with its swaps in order if
   its clock readings are.
   */
  lemma {:induction false} CallsRefineSteps(l: Limits, created: int, times: seq<int>, i: nat, t: Caller)
    returns (events: seq<Event>, s: System, ordered: bool)
    requires i <= |times|
    ensures Leads(l, created, events, s, Admitted(l, Bucket(l.burst, created), times, i), ordered) && s.At(t).Idle?
    ensures s.b == BucketAt(l, Bucket(l.burst, created), times, i)
    ensures Monotone(times, Reading) && (times != [] ==> created <= times[0]) ==> ordered
  {
    if i == 0 {
      events, s, ordered := [], System(Bucket(l.burst, created), map[]), true;
    } else {
      events, s, ordered := CallsRefineSteps(l, created, times, i - 1, t);
      var n := Admitted(l, Bucket(l.burst, created), times, i - 1);
      var last := s.b.lastRefill;
      assert i > 1 ==> last == times[i - 2];
      events, s, n := SoloAllow(l, created, events, s, n, ordered, Event(t, times[i - 1]));
      ordered := ordered && last <= times[i - 1];
    }
  }

  // ----- When the accounting of whole calls survives interleaving -----

  /** Spent and left together stay within the burst and the credit up to the last time stamp. */
  ghost predicate Accounted(l: Limits, created: int, events: seq<Event>, i: nat)
    requires i <= |events|
  {
    var b := StateAfter(l, created, events, i).b;
    Admissions(l, created, events, i) + b.tokens <= l.burst + Credit(l, b.lastRefill - created)
  }

  /** A gap between two stamps is worth nothing or at least the whole burst. */
  ghost predicate AllOrNothing(l: Limits) {
    forall gap: nat :: Credit(l, gap) == 0 || Credit(l, gap) >= l.burst
  }

  predicate Refilling(pc: Pc) {
    pc.LoadForRefill? || pc.StoreRefill?
  }

  function Refillers(s: System): set<Caller> {
    set t | t in s.pcs && Refilling(s.pcs[t])
  }

  lemma RefillersStep(l: Limits, s: System, e: Event)
    ensures Refillers(Step(l, s, e))
      == if Refilling(Step(l, s, e).At(e.who)) then Refillers(s) + {e.who} else Refillers(s) - {e.who}
  {
  }

  /** Every refill under way is set aside as one more burst. */
  ghost predicate Reserved(l: Limits, created: int, s: System, n: nat) {
    && Inv(l, s) && created <= s.b.lastRefill
    && n + s.b.tokens + |Refillers(s)| * l.burst <= l.burst + Credit(l, s.b.lastRefill - created)
  }

  lemma ReservedSwap(l: Limits, created: int, s: System, n: nat, e: Event)
    requires AllOrNothing(l) && Reserved(l, created, s, n) && s.At(e.who).Swap? && SwapInOrder(s, e)
    ensures Reserved(l, created, Step(l, s, e), n)
  {
    var s' := Step(l, s, e);
    StepKeepsInv(l, s, e);
    RefillersStep(l, s, e);
    assert e.who !in Refillers(s);
    var gap := s.At(e.who).now - s.b.lastRefill;
    CreditSuperadditive(l, s.b.lastRefill - created, gap);
    assert s'.b.lastRefill - created == s.b.lastRefill - created + gap;
    OneMore(|Refillers(s)|, l.burst);
    if Credit(l, gap) > 0 {
      assert |Refillers(s')| == |Refillers(s)| + 1;
    } else {
      assert Refillers(s') == Refillers(s);
    }
  }

  lemma ReservedStore(l: Limits, created: int, s: System, n: nat, e: Event)
    requires Reserved(l, created, s, n) && s.At(e.who).StoreRefill?
    ensures Reserved(l, created, Step(l, s, e), n)
  {
    var s' := Step(l, s, e);
    StepKeepsInv(l, s, e);
    RefillersStep(l, s, e);
    assert e.who in Refillers(s);
    assert |Refillers(s)| == |Refillers(s')| + 1;
    OneMore(|Refillers(s')|, l.burst);
  }

  lemma ReservedStep(l: Limits, created: int, s: System, n: nat, e: Event)
    requires AllOrNothing(l) && Reserved(l, created, s, n) && SwapInOrder(s, e)
    ensures Reserved(l, created, Step(l, s, e), n + if s.At(e.who) == CompareAndSwap(s.b.tokens) then 1 else 0)
  {
    if s.At(e.who).Swap? {
      ReservedSwap(l, created, s, n, e);
    } else if s.At(e.who).StoreRefill? {
      ReservedStore(l, created, s, n, e);
    } else {
      ReservedOtherwise(l, created, s, n, e);
    }
  }

  lemma ReservedOtherwise(l: Limits, created: int, s: System, n: nat, e: Event)
    requires Reserved(l, created, s, n) && !s.At(e.who).Swap? && !s.At(e.who).StoreRefill?
    ensures Reserved(l, created, Step(l, s, e), n + if s.At(e.who) == CompareAndSwap(s.b.tokens) then 1 else 0)
  {
    StepKeepsInv(l, s, e);
    RefillersStep(l, s, e);
    assert Refillers(Step(l, s, e)) == Refillers(s);
  }

  lemma {:induction false} ReservedRun(l: Limits, created: int, events: seq<Event>, i: nat)
    requires l.burst >= 0 && AllOrNothing(l) && i <= |events| && SwapsInOrder(l, created, events, i)
    ensures Reserved(l, created, StateAfter(l, created, events, i), Admissions(l, created, events, i))
  {
    if i == 0 {
      assert Refillers(StateAfter(l, created, events, 0)) == {};
    } else {
      ReservedRun(l, created, events, i - 1);
      var s, n := StateAfter(l, created, events, i - 1), Admissions(l, created, events, i - 1);
      ReservedStep(l, created, s, n, events[i - 1]);
    }
  }

  /** A bucket created without tokens never gets any. */
  ghost predicate Dry(l: Limits, s: System) {
    && s.b.tokens <= l.burst
    && forall t: Caller :: (s.At(t).StoreRefill? ==> s.At(t).value <= l.burst) && !s.At(t).CompareAndSwap?
  }

  lemma DryStep(l: Limits, s: System, e: Event)
    requires l.burst <= 0 && Dry(l, s)
    ensures Dry(l, Step(l, s, e))
  {
    var s' := Step(l, s, e);
    assert forall t: Caller :: t != e.who ==> s'.At(t) == s.At(t);
  }

  lemma {:induction false} DryRun(l: Limits, created: int, events: seq<Event>, i: nat)
    requires l.burst <= 0 && i <= |events|
    ensures Dry(l, StateAfter(l, created, events, i)) && Admissions(l, created, events, i) == 0
  {
    if i > 0 {
      DryRun(l, created, events, i - 1);
      DryStep(l, StateAfter(l, created, events, i - 1), events[i - 1]);
    }
  }

  /** Caller 1 takes `k` tokens at the time of the last refill. */
  lemma Spend(l: Limits, created: int, events: seq<Event>, s: System, n: nat, k: nat)
    returns (events': seq<Event>, s': System)
    requires Leads(l, created, events, s, n, true) && s.At(1).Idle? && k <= s.b.tokens
    ensures Leads(l, created, events', s', n + k, true)
    ensures s'.b == s.b.(tokens := s.b.tokens - k) && s'.At(1).Idle?
    ensures forall u: Caller :: u != 1 ==> s'.At(u) == s.At(u)
  {
    NoCreditInNoTime(l);
    events', s' := events, s;
    var n', j := n, 0;
    while j < k
      invariant 0 <= j <= k && n' == n + j && Leads(l, created, events', s', n', true)
      invariant s'.b == s.b.(tokens := s.b.tokens - j) && s'.At(1).Idle?
      invariant forall u: Caller :: u != 1 ==> s'.At(u) == s.At(u)
    {
      events', s', n' := SoloAllow(l, created, events', s', n', true, Event(1, s.b.lastRefill));
      j := j + 1;
    }
  }

  /** A caller with some credit pauses between its load and its store. */
  lemma PausesBeforeStore(l: Limits, created: int, events: seq<Event>, s: System, n: nat, e: Event)
    returns (events': seq<Event>, s': System)
    requires Leads(l, created, events, s, n, true) && s.b.lastRefill <= e.now
    requires s.At(e.who).Idle? && 0 < Credit(l, e.now - s.b.lastRefill) <= l.burst - s.b.tokens
    ensures Leads(l, created, events', s', n, true)
    ensures s'.b == s.b.(lastRefill := e.now)
    ensures s'.At(e.who) == StoreRefill(s.b.tokens + Credit(l, e.now - s.b.lastRefill))
    ensures forall u: Caller :: u != e.who ==> s'.At(u) == s.At(u)
  {
    var n' := n;
    events', s', n' := Extend(l, created, events, s, n, true, e);
    events', s', n' := Extend(l, created, events', s', n', true, e);
    events', s', n' := Extend(l, created, events', s', n', true, e);
  }

  /**
   The accounting of the call-atomic model can fail. Caller 0 loads the count for a refill, caller
   1 takes a token, and caller 0's store puts it back: what was spent and what is left exceed the
   burst and the credit together.
   */
  lemma DecrementCanBeLost(l: Limits, gap: nat) returns (events: seq<Event>, s: System, n: nat)
    requires 0 < Credit(l, gap) < l.burst
    ensures Leads(l, 0, events, s, n, true) && s.b.lastRefill == gap && s.At(1).Idle?
    ensures s.b.tokens >= 0 && n + s.b.tokens > l.burst + Credit(l, gap)
  {
    NoCreditInNoTime(l);
    n := Credit(l, gap);
    events, s := Spend(l, 0, [], System(Bucket(l.burst, 0), map[]), 0, n);
    events, s := PausesBeforeStore(l, 0, events, s, n, Event(0, gap));
    events, s, n := SoloAllow(l, 0, events, s, n, true, Event(1, gap));
    events, s, n := Extend(l, 0, events, s, n, true, Event(0, gap));
  }

  /** With swaps in order, the accounting holds in every interleaving exactly for all-or-nothing limits. */
  lemma AccountedIff(l: Limits)
    ensures (forall created, events, i: nat :: i <= |events| && SwapsInOrder(l, created, events, i) ==>
              Accounted(l, created, events, i))
      <==> AllOrNothing(l)
  {
    if AllOrNothing(l) {
      forall created, events, i: nat | i <= |events| && SwapsInOrder(l, created, events, i)
        ensures Accounted(l, created, events, i)
      {
        if l.burst >= 0 {
          ReservedRun(l, created, events, i);
          MulMonotone(0, |Refillers(StateAfter(l, created, events, i))|, l.burst);
        } else {
          DryRun(l, created, events, i);
        }
      }
    } else {
      var gap: nat :| !(Credit(l, gap) == 0 || Credit(l, gap) >= l.burst);
      var events, s, n := DecrementCanBeLost(l, gap);
      assert !Accounted(l, 0, events, |events|);
    }
  }

  /** The limit on admissions alone: the burst and the credit up to the last time stamp. */
  ghost predicate WithinLimit(l: Limits, created: int, events: seq<Event>, i: nat)
    requires i <= |events|
  {
    Admissions(l, created, events, i)
      <= Positive(l.burst) + Credit(l, StateAfter(l, created, events, i).b.lastRefill - created)
  }

  /** After a lost decrement, caller 1 spends what is left. */
  lemma LimitCanBeBeaten(l: Limits, gap: nat) returns (events: seq<Event>)
    requires 0 < Credit(l, gap) < l.burst
    ensures SwapsInOrder(l, 0, events, |events|) && !WithinLimit(l, 0, events, |events|)
  {
    var s: System, n: nat;
    events, s, n := DecrementCanBeLost(l, gap);
    events, s := Spend(l, 0, events, s, n, s.b.tokens);
  }

  /** With swaps in order, more than the limit is admitted in some interleaving unless limits are all-or-nothing. */
  lemma WithinLimitIff(l: Limits)
    ensures (forall created, events, i: nat :: i <= |events| && SwapsInOrder(l, created, events, i) ==>
              WithinLimit(l, created, events, i))
      <==> AllOrNothing(l)
  {
    if AllOrNothing(l) {
      forall created, events, i: nat | i <= |events| && SwapsInOrder(l, created, events, i)
        ensures WithinLimit(l, created, events, i)
      {
        if l.burst >= 0 {
          AccountedIff(l);
          assert Accounted(l, created, events, i);
          TokensInRange(l, created, events, i);
        } else {
          DryRun(l, created, events, i);
        }
      }
    } else {
      var gap: nat :| !(Credit(l, gap) == 0 || Credit(l, gap) >= l.burst);
      var events := LimitCanBeBeaten(l, gap);
    }
  }

  /** Some whole number of nanoseconds, forwards or backwards, is worth a token. */
  lemma WorthAToken(l: Limits) returns (gap: nat)
    requires l.rate != 0.0
    ensures Credit(l, if l.rate > 0.0 then gap else 0 - gap) > 0
  {
    var speed := if l.rate > 0.0 then l.rate else -l.rate;
    gap := (SECOND as real / speed).Floor + 1;
    assert gap as real > SECOND as real / speed;
    assert gap as real * speed > SECOND as real;
    assert gap as real / SECOND as real * speed >= 1.0;
  }

  /** The limits alone decide: no more than one token, no refill, or a full burst every nanosecond. */
  lemma AllOrNothingIff(l: Limits)
    ensures AllOrNothing(l) <==> l.burst <= 1 || l.rate <= 0.0 || Credit(l, 1) >= l.burst
  {
    NoCreditInNoTime(l);
    if l.rate <= 0.0 {
      forall gap: nat
        ensures Credit(l, gap) == 0
      {
        assert gap as real / SECOND as real >= 0.0;
        assert gap as real / SECOND as real * l.rate <= 0.0;
      }
    } else if Credit(l, 1) >= l.burst {
      forall gap: nat
        ensures Credit(l, gap) == 0 || Credit(l, gap) >= l.burst
      {
        if gap > 0 {
          CreditMonotone(l, 1, gap);
        }
      }
    } else if l.burst > 1 {
      var gap := FirstToken(l);
      assert !(Credit(l, gap) == 0 || Credit(l, gap) >= l.burst);
    }
  }

  lemma FirstToken(l: Limits) returns (gap: nat)
    requires l.rate > 0.0 && Credit(l, 1) < l.burst && l.burst > 1
    ensures 0 < Credit(l, gap) < l.burst
  {
    NoCreditInNoTime(l);
    if Credit(l, 1) > 0 {
      gap := 1;
    } else {
      gap := WorthAToken(l);
      while Credit(l, gap - 1) > 0
        invariant gap > 0 && Credit(l, gap) > 0
        decreases gap
      {
        gap := gap - 1;
      }
      AccrualAdds(l, gap - 1, 1);
    }
  }

  // ----- Swaps out of order -----

  lemma {:induction false} NeverRefills(l: Limits, created: int, events: seq<Event>, i: nat, t: Caller)
    requires l.rate == 0.0 && i <= |events|
    ensures !Refilling(StateAfter(l, created, events, i).At(t))
  {
    if i > 0 {
      NeverRefills(l, created, events, i - 1, t);
      NoRateNoCredit(l);
    }
  }

  lemma NoRateNoCredit(l: Limits)
    requires l.rate == 0.0
    ensures forall elapsed: int :: Credit(l, elapsed) == 0
  {
    forall elapsed: int
      ensures Credit(l, elapsed) == 0
    {
      assert elapsed as real / SECOND as real * 0.0 == 0.0;
    }
  }

  /** Callers 2 to `m + 1` read the clock at time 0 and pause. */
  lemma ReadAndPause(l: Limits, m: nat) returns (events: seq<Event>, s: System)
    ensures Leads(l, 0, events, s, 0, true) && Within(events, EventTime, 0, 0)
    ensures s.b == Bucket(l.burst, 0) && s.At(1).Idle?
    ensures forall u: Caller :: 2 <= u < 2 + m ==> s.At(u) == Swap(0)
  {
    events, s := [], System(Bucket(l.burst, 0), map[]);
    var n, j := 0, 0;
    while j < m
      invariant 0 <= j <= m && n == 0 && Leads(l, 0, events, s, n, true) && Within(events, EventTime, 0, 0)
      invariant s.b == Bucket(l.burst, 0)
      invariant forall u: Caller :: s.At(u) == if 2 <= u < 2 + j then Swap(0) else Idle
    {
      var before, paused, e := events, s, Event(2 + j, 0);
      assert paused.At(2 + j) == Idle;
      events, s, n := Extend(l, 0, events, s, n, true, e);
      RepeatsWithin(before, e, events, EventTime, 0, 0);
      assert s.At(2 + j) == Swap(0) && forall u: Caller :: u != 2 + j ==> s.At(u) == paused.At(u);
      j := j + 1;
    }
  }

  lemma TakeKeepsRange(l: Limits, b: Bucket, now: int)
    requires 0 <= b.tokens <= l.burst
    ensures 0 <= Take(l, b, now).tokens <= l.burst && Take(l, b, now).lastRefill == now
    ensures l.burst > 0 && Credit(l, now - b.lastRefill) > 0 ==> Grants(l, b, now)
  {
  }

  /**
   Caller 1 swaps in a new stamp and one of the paused callers swaps the old one back, so the same
   stretch of time is credited again.
   */
  lemma CreditedAgain(l: Limits, gap: nat, events: seq<Event>, s: System, n: nat, ordered: bool, u: Caller, t: nat)
    returns (events': seq<Event>, s': System, n': nat)
    requires l.burst > 0 && Credit(l, if l.rate > 0.0 then gap else 0 - gap) > 0
    requires Leads(l, 0, events, s, n, ordered) && t <= gap && Within(events, EventTime, 0, t)
    requires s.b.lastRefill == 0 && 0 <= s.b.tokens <= l.burst && u != 1 && s.At(1).Idle? && s.At(u) == Swap(0)
    ensures Leads(l, 0, events', s', n', ordered && gap == 0) && n' > n && Within(events', EventTime, 0, gap)
    ensures s'.b.lastRefill == 0 && 0 <= s'.b.tokens <= l.burst && s'.At(1).Idle?
    ensures forall v: Caller :: v != 1 && v != u ==> s'.At(v) == s.At(v)
  {
    TakeKeepsRange(l, s.b, gap);
    TakeKeepsRange(l, Take(l, s.b, gap), 0);
    var most: seq<Event>;
    most, s', n' := SoloAllow(l, 0, events, s, n, ordered, Event(1, gap));
    RepeatsWithin(events, Event(1, gap), most, EventTime, 0, t);
    events', s', n' := SoloFinish(l, 0, most, s', n', ordered, Event(u, gap), 0);
    RepeatsWithin(most, Event(u, gap), events', EventTime, 0, gap);
  }

  /**
   A clock in order is not enough: whenever a stretch of time is worth a token, any number of
   requests get through within it.
   */
  lemma StaleSwapsAdmitAny(l: Limits, gap: nat, m: nat) returns (events: seq<Event>)
    requires l.burst > 0 && Credit(l, if l.rate > 0.0 then gap else 0 - gap) > 0
    ensures Within(events, EventTime, 0, gap) && Admissions(l, 0, events, |events|) >= m
  {
    var s: System;
    events, s := ReadAndPause(l, m);
    var n, r, t, ordered := 0, 0, 0, true;
    while r < m
      invariant 0 <= r <= m && r <= n && Leads(l, 0, events, s, n, ordered)
      invariant 0 <= t <= gap && Within(events, EventTime, 0, t)
      invariant s.b.lastRefill == 0 && 0 <= s.b.tokens <= l.burst && s.At(1).Idle?
      invariant forall u: Caller :: 2 + r <= u < 2 + m ==> s.At(u) == Swap(0)
    {
      events, s, n := CreditedAgain(l, gap, events, s, n, ordered, 2 + r, t);
      r, t, ordered := r + 1, gap, ordered && gap == 0;
    }
  }

  /** The window bound of whole calls, for a window that starts when the bucket is created. */
  ghost predicate WindowHolds(l: Limits, created: int, events: seq<Event>, now: int) {
    Admissions(l, created, events, |events|) <= Positive(l.burst) + Credit(l, now - created)
  }

  /**
   If the clock is in order but swaps may overtake each other, the window bound holds in every
   interleaving exactly when nothing is ever refilled or nothing is ever admitted.
   */
  lemma WindowHoldsIff(l: Limits)
    ensures (forall created, events, now :: Within(events, EventTime, created, now) ==>
              WindowHolds(l, created, events, now))
      <==> l.burst <= 0 || l.rate == 0.0
  {
    if l.burst <= 0 || l.rate == 0.0 {
      forall created, events: seq<Event>, now | Within(events, EventTime, created, now)
        ensures WindowHolds(l, created, events, now)
      {
        NothingRefilled(l, created, events);
      }
    } else {
      var gap := WorthAToken(l);
      var events := StaleSwapsAdmitAny(l, gap, l.burst + Credit(l, gap) + 1);
      assert !WindowHolds(l, 0, events, gap);
    }
  }

  lemma NothingRefilled(l: Limits, created: int, events: seq<Event>)
    requires l.burst <= 0 || l.rate == 0.0
    ensures Admissions(l, created, events, |events|) <= Positive(l.burst)
  {
    if l.burst <= 0 {
      DryRun(l, created, events, |events|);
    } else {
      forall k | 0 <= k < |events|
        ensures !StoresAt(l, created, events, k)
      {
        NeverRefills(l, created, events, k, events[k].who);
      }
      AdmissionsAreTheDrop(l, created, events, 0, |events|);
      TokensInRange(l, created, events, |events|);
    }
  }
}
