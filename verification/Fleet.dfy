/**
 Everything that touches a backend's health or chooses backends, in one run: both active
 checkers, the passive one, draining, pool changes and request routing, in any order.
 */
module Fleet {
  import opened Common
  import opened Backends
  import opened Selectors
  import opened ConsistentHash
  import HealthMachines
  import PassiveHealth

  datatype Algorithm =
    | RoundRobinA
    | WeightedA
    | LeastConnectionsA
    | IpHashA(hash: nat)
    | TwoChoicesA(first: nat, second: nat)  // the two raw random numbers
    | ConsistentHashA(ip: string)

  datatype Op =
    | ActiveProbe(b: Backend, ok: bool, recorded: int, now: int)  // the state machine with backoff
    | PlainProbe(b: Backend, ok: bool)                            // the checker without
    | Response(b: Backend, err: bool, now: int)
    | Readmit(b: Backend, now: int)
    | Drain(b: Backend)
    | Complete(b: Backend)  // a request that it served is over
    | AddBackend(b: Backend)
    | RemoveBackend(id: string)
    | Rebuild
    | BuildRing(backends: seq<Backend>)
    | Serve(algorithm: Algorithm)

  function Mentions(op: Op): set<Backend> {
    match op
    case ActiveProbe(b, _, _, _) => {b}
    case PlainProbe(b, _) => {b}
    case Response(b, _, _) => {b}
    case Readmit(b, _) => {b}
    case Drain(b) => {b}
    case Complete(b) => {b}
    case AddBackend(b) => {b}
    case RemoveBackend(_) => {}
    case Rebuild => {}
    case BuildRing(list) => set b | b in list
    case Serve(_) => {}
  }

  /** The backends whose health an operation may change. */
  function Judges(op: Op): set<Backend> {
    if op.ActiveProbe? || op.PlainProbe? || op.Response? || op.Readmit? || op.Drain? then {op.b} else {}
  }

  // ----- What a run is, moment by moment -----

  /** All that decides requests: healths, loads, the pool, the list behind the ring and the round-robin counter. */
  datatype Moment = Moment(
    health: map<Backend, Health>, loads: map<Backend, int>, pool: seq<Backend>, list: seq<Backend>, turns: nat)

  /** The hash function and the number of virtual nodes. */
  datatype Hashing = Hashing(v: nat, h: string -> Key)

  ghost function OwnerOf(k: Hashing, list: seq<Backend>, ip: string): Backend
    requires list != [] && k.v > 0
  {
    Owner(list, k.v, k.h, k.h(ip))
  }

  /** The listed backends that are Healthy, in order. */
  function HealthyAmong(bs: seq<Backend>, health: map<Backend, Health>): seq<Backend> {
    if bs == [] then []
    else
      var init, last := bs[..|bs| - 1], bs[|bs| - 1];
      if last in health && health[last].Healthy? then HealthyAmong(init, health) + [last]
      else HealthyAmong(init, health)
  }

  lemma {:induction false} HealthyAmongAre(bs: seq<Backend>, health: map<Backend, Health>, b: Backend)
    ensures b in HealthyAmong(bs, health) <==> b in bs && b in health && health[b].Healthy?
  {
    if bs != [] {
      HealthyAmongAre(bs[..|bs| - 1], health, b);
    }
  }

  function WithoutFirst(bs: seq<Backend>, id: string): seq<Backend> {
    if bs == [] then []
    else if bs[0].id == id then bs[1..]
    else [bs[0]] + WithoutFirst(bs[1..], id)
  }

  lemma {:induction false} RemoveFirst(bs: seq<Backend>, id: string, i: nat)
    requires FirstWithId(bs, id, i)
    ensures WithoutFirst(bs, id) == bs[..i] + bs[i + 1..]
  {
    if i > 0 {
      RemoveFirst(bs[1..], id, i - 1);
    }
  }

  lemma {:induction false} RemoveNone(bs: seq<Backend>, id: string)
    requires !HasId(bs, id)
    ensures WithoutFirst(bs, id) == bs
  {
    if bs != [] {
      assert bs[0].id != id;
      assert forall i :: 0 <= i < |bs[1..]| ==> bs[1..][i] == bs[i + 1];
      RemoveNone(bs[1..], id);
    }
  }

  lemma {:induction false} OthersRemain(bs: seq<Backend>, id: string, b: Backend)
    requires b in bs && b.id != id
    ensures b in WithoutFirst(bs, id)
  {
    if bs[0].id != id && bs[0] != b {
      OthersRemain(bs[1..], id, b);
    }
  }

  /** Every listed backend has a load on record. */
  predicate Loaded(bs: seq<Backend>, loads: map<Backend, int>) {
    forall b :: b in bs ==> b in loads
  }

  /** The less loaded of the two members drawn, the first on a tie. */
  function LessLoaded(bs: seq<Backend>, loads: map<Backend, int>, first: nat, second: nat): Backend
    requires bs != [] && Loaded(bs, loads)
  {
    if |bs| == 1 then bs[0]
    else
      var i := first % |bs|;
      var j := Second(i, second % (|bs| - 1));
      if loads[bs[i]] <= loads[bs[j]] then bs[i] else bs[j]
  }

  /** `i` is the first position with the smallest load. */
  ghost predicate FirstLeast(bs: seq<Backend>, loads: map<Backend, int>, i: nat)
    requires Loaded(bs, loads)
  {
    && i < |bs|
    && (forall j :: 0 <= j < |bs| ==> loads[bs[i]] <= loads[bs[j]])
    && (forall j :: 0 <= j < i ==> loads[bs[i]] < loads[bs[j]])
  }

  /** How each selector decides among the healthy backends; which slot a weighted turn finds is not seen here. */
  ghost predicate Decides(algorithm: Algorithm, bs: seq<Backend>, loads: map<Backend, int>, turns: nat,
                          chosen: Option<Backend>)
    requires bs != [] && Loaded(bs, loads)
  {
    match algorithm
    case RoundRobinA => chosen == Some(bs[turns % |bs|])
    case WeightedA => chosen.Some?
    case LeastConnectionsA =>
      if chosen.None? then forall i :: 0 <= i < |bs| ==> loads[bs[i]] >= 0x7fff_ffff_ffff_ffff
      else exists i: nat :: FirstLeast(bs, loads, i) && chosen.value == bs[i]
    case IpHashA(hash) => chosen == Some(bs[hash % |bs|])
    case TwoChoicesA(first, second) => chosen == Some(LessLoaded(bs, loads, first, second))
    case ConsistentHashA(_) => chosen.Some?
  }

  /** Whom a request gets, the list behind the ring after it, and the round-robin counter. */
  ghost predicate Selected(k: Hashing, algorithm: Algorithm, m: Moment, a: Option<Backend>,
                           list: seq<Backend>, turns: nat)
    requires k.v > 0
  {
    var healthy := HealthyAmong(m.pool, m.health);
    && list == (if algorithm.ConsistentHashA? && m.list == [] then healthy else m.list)
    && turns == m.turns + (if algorithm.RoundRobinA? && healthy != [] then 1 else 0)
    && (healthy == [] ==> a.None?)
    && (healthy != [] ==> Loaded(healthy, m.loads) && Decides(algorithm, healthy, m.loads, m.turns, a))
    && (a.Some? ==>
          && a.value in m.health && a.value in m.loads
          && if algorithm.ConsistentHashA? then list != [] && a.value == OwnerOf(k, list, algorithm.ip)
             else m.health[a.value].Healthy?)
  }

  lemma SelectedHealthy(k: Hashing, algorithm: Algorithm, m: Moment, a: Option<Backend>)
    requires k.v > 0 && !algorithm.ConsistentHashA?
    requires HealthyAmong(m.pool, m.health) != [] && Loaded(HealthyAmong(m.pool, m.health), m.loads)
    requires Decides(algorithm, HealthyAmong(m.pool, m.health), m.loads, m.turns, a)
    requires a.Some? ==> a.value in m.health && a.value in m.loads && m.health[a.value].Healthy?
    ensures Selected(k, algorithm, m, a, m.list, m.turns + if algorithm.RoundRobinA? then 1 else 0)
  {
  }

  /** A request: who answers, and what that changes. */
  ghost predicate Served(k: Hashing, algorithm: Algorithm, m: Moment, a: Option<Backend>, m': Moment)
    requires k.v > 0
  {
    && Selected(k, algorithm, m, a, m'.list, m'.turns)
    && m'.health == m.health && m'.pool == m.pool
    && m'.loads == (if a.Some? then m.loads[a.value := m.loads[a.value] + 1] else m.loads)
  }

  /** The health of whom the operation does not judge stays, and Disabled stays; a drain disables. */
  ghost predicate Judged(op: Op, before: map<Backend, Health>, after: map<Backend, Health>) {
    && after.Keys == before.Keys
    && (forall b :: b in before && b !in Judges(op) ==> after[b] == before[b])
    && (forall b :: b in before && before[b].Disabled? ==> after[b].Disabled?)
    && (op.Drain? && op.b in before ==> after[op.b].Disabled?)
  }

  /** Any other operation. */
  ghost predicate Changed(op: Op, m: Moment, m': Moment) {
    && Judged(op, m.health, m'.health) && m'.turns == m.turns
    && m'.loads == (if op.Complete? && op.b in m.loads then m.loads[op.b := m.loads[op.b] - 1] else m.loads)
    && m'.pool == (match op
                   case AddBackend(b) => m.pool + [b]
                   case RemoveBackend(id) => WithoutFirst(m.pool, id)
                   case _ => m.pool)
    && m'.list == (if op.BuildRing? then op.backends else m.list)
  }

  /** One step of a run with its answer, which only requests get. */
  ghost predicate Follows(k: Hashing, op: Op, m: Moment, a: Option<Backend>, m': Moment)
    requires k.v > 0
  {
    if op.Serve? then Served(k, op.algorithm, m, a, m') else a.None? && Changed(op, m, m')
  }

  /** The first `n` operations of a run, with a moment before each and one after the last. */
  ghost predicate TraceOf(k: Hashing, ops: seq<Op>, n: nat, moments: seq<Moment>, answers: seq<Option<Backend>>) {
    && k.v > 0 && n <= |ops| && |moments| == n + 1 && |answers| == n
    && forall i :: 0 <= i < n ==> Follows(k, ops[i], moments[i], answers[i], moments[i + 1])
  }

  ghost predicate Trace(k: Hashing, ops: seq<Op>, moments: seq<Moment>, answers: seq<Option<Backend>>) {
    TraceOf(k, ops, |ops|, moments, answers)
  }

  lemma TraceGrows(k: Hashing, ops: seq<Op>, n: nat, moments: seq<Moment>, answers: seq<Option<Backend>>,
                   a: Option<Backend>, m: Moment)
    requires n < |ops| && TraceOf(k, ops, n, moments, answers) && Follows(k, ops[n], moments[n], a, m)
    ensures TraceOf(k, ops, n + 1, moments + [m], answers + [a])
  {
  }

  // ----- The live balancer -----

  class Balancer {
    const machine: HealthMachines.StateMachine
    const checker: HealthMachines.Checker
    const passive: PassiveHealth.PassiveChecker
    const pool: Pool
    const roundRobin: RoundRobin
    const weighted: WeightedRoundRobin
    const ring: Ring

    constructor (machine: HealthMachines.StateMachine, checker: HealthMachines.Checker,
                 passive: PassiveHealth.PassiveChecker, backends: seq<Backend>, hash: string -> Key)
      ensures this.machine == machine && this.checker == checker && this.passive == passive
      ensures fresh(pool) && fresh(roundRobin) && fresh(weighted) && fresh(ring)
      ensures pool.backends == backends && weighted.slots == []
      ensures ring.Valid() && ring.built == [] && ring.hash == hash
    {
      this.machine, this.checker, this.passive := machine, checker, passive;
      pool := new Pool(backends);
      roundRobin := new RoundRobin();
      weighted := new WeightedRoundRobin();
      ring := new Ring(DEFAULT_VIRTUAL_NODES, hash);
    }

    ghost function Parts(): set<object> {
      {machine, checker, passive, pool, roundRobin, weighted, ring}
    }

    /** Every backend that some part still refers to is one of `all`. */
    ghost predicate Knows(all: set<Backend>)
      reads pool, weighted, ring
    {
      && (forall b :: b in pool.backends ==> b in all)
      && (forall b :: b in weighted.slots ==> b in all)
      && (forall b :: b in ring.built ==> b in all)
    }

    ghost function How(): Hashing {
      Hashing(ring.virtualNodes, ring.hash)
    }

    ghost function Now(all: set<Backend>): Moment
      reads pool, ring, roundRobin, all
    {
      Moment(Healths(all), Tally(all), pool.backends, ring.built, roundRobin.counter)
    }

    /** The five selectors that look at nothing but healthy backends. */
    method ChooseHealthy(algorithm: Algorithm, backends: seq<Backend>, ghost all: set<Backend>)
      returns (chosen: Option<Backend>)
      requires !algorithm.ConsistentHashA? && backends != []
      requires forall b :: b in backends ==> b in all && b.health.Healthy?
      requires forall b :: b in weighted.slots ==> b in all
      modifies roundRobin, weighted
      ensures forall b :: b in weighted.slots ==> b in all
      ensures chosen.Some? ==> chosen.value in all && chosen.value.health.Healthy?
      ensures Decides(algorithm, backends, old(Tally(all)), old(roundRobin.counter), chosen)
      ensures roundRobin.counter == old(roundRobin.counter) + if algorithm.RoundRobinA? then 1 else 0
      ensures algorithm.WeightedA? ==> weighted.slots != [] && chosen == Some(
          var slot := weighted.slots[old(weighted.counter) % |weighted.slots|];
          if slot.health.Healthy? then slot else backends[0])
    {
      match algorithm {
        case RoundRobinA => chosen := roundRobin.Next(backends);
        case WeightedA =>
          ExpandMembers(backends);
          chosen := weighted.Next(backends);
        case LeastConnectionsA => chosen := ChooseLeast(backends, all);
        case IpHashA(hash) => chosen := IpHash(hash, backends);
        case TwoChoicesA(first, second) =>
          var n := |backends|;
          chosen := PowerOfTwoChoices(backends, first % n, if n > 1 then second % (n - 1) else 0);
      }
    }

    /** A nil backend without an error counts as no answer. */
    method ChooseLeast(backends: seq<Backend>, ghost all: set<Backend>) returns (chosen: Option<Backend>)
      requires backends != [] && forall b :: b in backends ==> b in all
      ensures Decides(LeastConnectionsA, backends, Tally(all), 0, chosen)
      ensures chosen.Some? ==> chosen.value in backends
    {
      var c := LeastConnections(backends);
      if c.Chosen? {
        ghost var i: nat :| IsLeastLoaded(backends, i) && c.b == backends[i];
        assert FirstLeast(backends, Tally(all), i);
        return Some(c.b);
      }
      return None;
    }

    method ChooseByHash(ip: string, backends: seq<Backend>, ghost all: set<Backend>) returns (chosen: Option<Backend>)
      requires Knows(all) && ring.Valid() && backends != [] && forall b :: b in backends ==> b in all
      modifies ring
      ensures Knows(all) && ring.Valid()
      ensures ring.built == (if old(ring.built) == [] then backends else old(ring.built))
      ensures chosen == Some(OwnerOf(How(), ring.built, ip)) && chosen.value in all
    {
      chosen := ring.Next(ip, backends);
      OwnerIsMember(ring.built, ring.virtualNodes, ring.hash, ring.hash(ip));
    }

    /** The selector asked for decides. */
    method Choose(algorithm: Algorithm, backends: seq<Backend>, ghost all: set<Backend>, ghost m: Moment)
      returns (chosen: Option<Backend>)
      requires Knows(all) && ring.Valid() && m == Now(all)
      requires backends != [] && backends == HealthyAmong(m.pool, m.health)
      requires forall b :: b in backends ==> b in all && b.health.Healthy?
      modifies roundRobin, weighted, ring
      ensures Knows(all) && ring.Valid()
      ensures Selected(How(), algorithm, m, chosen, ring.built, roundRobin.counter)
      ensures algorithm.WeightedA? ==> weighted.slots != [] && chosen == Some(
          var slot := weighted.slots[old(weighted.counter) % |weighted.slots|];
          if slot.health.Healthy? then slot else backends[0])
    {
      if algorithm.ConsistentHashA? {
        chosen := ChooseByHash(algorithm.ip, backends, all);
      } else {
        chosen := ChooseHealthy(algorithm, backends, all);
        SelectedHealthy(How(), algorithm, m, chosen);
      }
    }

    method ListHealthy(ghost all: set<Backend>) returns (backends: seq<Backend>)
      requires Knows(all)
      ensures backends == HealthyAmong(pool.backends, Healths(all))
      ensures forall b :: b in backends ==> b in all && b.health.Healthy?
    {
      ghost var at;
      backends, at := pool.Healthy();
      HealthyNow(pool.backends, |pool.backends|, all);
      assert pool.backends[..|pool.backends|] == pool.backends;
      forall b | b in backends
        ensures b in all && b.health.Healthy?
      {
        HealthyAmongAre(pool.backends, Healths(all), b);
      }
    }

    /** The healthy backends are listed and the selector asked for decides among them. */
    method Select(algorithm: Algorithm, ghost all: set<Backend>) returns (chosen: Option<Backend>)
      requires Knows(all) && ring.Valid()
      modifies roundRobin, weighted, ring
      ensures Knows(all) && ring.Valid()
      ensures Selected(How(), algorithm, old(Now(all)), chosen, ring.built, roundRobin.counter)
      ensures var healthy := HealthyAmong(pool.backends, Healths(all));
        algorithm.WeightedA? && healthy != [] ==> weighted.slots != [] && chosen == Some(
          var slot := weighted.slots[old(weighted.counter) % |weighted.slots|];
          if slot.health.Healthy? then slot else healthy[0])
    {
      var backends := ListHealthy(all);
      if |backends| == 0 {
        return None;
      }
      chosen := Choose(algorithm, backends, all, Now(all));
    }

    /** The load of one backend moves; nothing else does. */
    method Count(b: Backend, starts: bool, ghost all: set<Backend>)
      requires b in all
      modifies b`activeConns
      ensures Healths(all) == old(Healths(all))
      ensures Tally(all) == old(Tally(all))[b := old(Tally(all))[b] + if starts then 1 else -1]
    {
      if starts {
        b.IncConns();
      } else {
        b.DecConns();
      }
    }

    /**
     One request: the selector asked for decides among the healthy backends, and the load of the
     chosen one goes up by one. The hash ring chooses the owner in the list it was built from, which
     is the healthy list only if it was not built before.
     */
    method ServeOne(algorithm: Algorithm, ghost all: set<Backend>) returns (chosen: Option<Backend>)
      requires Knows(all) && ring.Valid()
      modifies roundRobin, weighted, ring, all`activeConns
      ensures Knows(all) && ring.Valid()
      ensures Served(How(), algorithm, old(Now(all)), chosen, Now(all))
    {
      chosen := Select(algorithm, all);
      if chosen.Some? {
        Count(chosen.value, true, all);
      }
    }

    /**
     After a drain, a request decided by hash goes to the owner in the list behind the ring all the
     same: to the drained backend exactly if that is the owner, as long as some other backend of the
     pool is healthy.
     */
    method ServeDrained(d: Backend, other: Backend, ip: string, all: set<Backend>) returns (chosen: Option<Backend>)
      requires Knows(all) && ring.Valid() && ring.built != [] && d in all
      requires other in pool.backends && other.health.Healthy? && other != d
      modifies roundRobin, weighted, ring, all
      ensures d.health.Disabled? && chosen.Some?
      ensures chosen == Some(d) <==> OwnerOf(How(), old(ring.built), ip) == d
    {
      d.SetHealth(Disabled);
      HealthyAmongAre(pool.backends, Healths(all), other);
      assert Healths(all)[d].Disabled?;
      chosen := ServeOne(ConsistentHashA(ip), all);
      assert Healths(all)[d].Disabled?;
    }

    /** A checker or a drain judges a backend. */
    method Judge(op: Op)
      requires Judges(op) != {}
      modifies machine, checker, passive, op.b`health
      ensures old(op.b.health).Disabled? || op.Drain? ==> op.b.health.Disabled?
      ensures op.ActiveProbe? ==>
        var before := HealthMachines.Tracked(old(op.b.health), old(machine.State(op.b.id)));
        op.b.health == HealthMachines.Observed(machine.cfg, before, op.ok, op.recorded, op.now).h
      ensures op.PlainProbe? ==>
        var fails, succeeds := checker.Of(old(checker.failures), op.b.id), checker.Of(old(checker.successes), op.b.id);
        var before := HealthMachines.Counted(old(op.b.health), fails, succeeds);
        op.b.health == HealthMachines.Probed(checker.cfg, before, op.ok).h
      ensures op.Response? ==>
        passive.StateOf(op.b) == PassiveHealth.Responded(passive.Cfg(), old(passive.StateOf(op.b)), op.err, op.now)
      ensures op.Readmit? ==> passive.StateOf(op.b) == PassiveHealth.Readmitted(old(passive.StateOf(op.b)), op.now)
    {
      match op {
        case ActiveProbe(b, ok, recorded, now) => machine.Observe(b, ok, recorded, now);
        case PlainProbe(b, ok) => checker.Probe(b, ok);
        case Response(b, err, now) => passive.Observe(b, err, now);
        case Readmit(b, now) => passive.TryReadmit(b, now);
        case Drain(b) => b.SetHealth(Disabled);
      }
    }

    method JudgeAmong(op: Op, ghost all: set<Backend>)
      requires Judges(op) != {} && op.b in all
      modifies machine, checker, passive, op.b`health
      ensures Judged(op, old(Healths(all)), Healths(all)) && Tally(all) == old(Tally(all))
    {
      Judge(op);
    }

    /** Pool changes and rebuilt tables. */
    method Manage(op: Op, all: set<Backend>)
      requires Knows(all) && ring.Valid() && Mentions(op) <= all
      requires op.AddBackend? || op.RemoveBackend? || op.Rebuild? || op.BuildRing?
      modifies pool, weighted, ring
      ensures Knows(all) && ring.Valid() && Changed(op, old(Now(all)), Now(all))
      ensures weighted.slots == if op.Rebuild? then Expand(pool.backends) else old(weighted.slots)
    {
      match op {
        case AddBackend(b) => pool.Add(b);
        case RemoveBackend(id) => RemoveFromPool(id);
        case Rebuild =>
          ExpandMembers(pool.backends);
          weighted.Rebuild(pool.backends);
        case BuildRing(list) => ring.Build(list);
      }
    }

    /** Anything but a request. */
    method Change(op: Op, all: set<Backend>)
      requires Knows(all) && ring.Valid() && Mentions(op) <= all && !op.Serve?
      modifies Parts(), all
      ensures Knows(all) && ring.Valid()
      ensures Changed(op, old(Now(all)), Now(all))
    {
      if op.Complete? {
        Count(op.b, false, all);
      } else if Judges(op) == {} {
        Manage(op, all);
      } else {
        JudgeAmong(op, all);
      }
    }

    method RemoveFromPool(id: string)
      modifies pool
      ensures pool.backends == WithoutFirst(old(pool.backends), id)
      ensures forall b :: b in pool.backends ==> b in old(pool.backends)
    {
      ghost var before := pool.backends;
      var found := pool.Remove(id);
      if found {
        ghost var i: nat :| FirstWithId(before, id, i) && pool.backends == before[..i] + before[i + 1..];
        RemoveFirst(before, id, i);
      } else {
        RemoveNone(before, id);
      }
    }

    method Perform(op: Op, all: set<Backend>) returns (a: Option<Backend>)
      requires Knows(all) && ring.Valid() && Mentions(op) <= all
      modifies Parts(), all
      ensures Knows(all) && ring.Valid()
      ensures Follows(How(), op, old(Now(all)), a, Now(all))
    {
      a := None;
      if op.Serve? {
        a := ServeOne(op.algorithm, all);
      } else {
        Change(op, all);
      }
    }

    /** A live balancer goes through any operations moment by moment as a trace says, with its answers. */
    method Operate(ops: seq<Op>, all: set<Backend>)
      returns (answers: seq<Option<Backend>>, ghost moments: seq<Moment>)
      requires Knows(all) && ring.Valid()
      requires forall i :: 0 <= i < |ops| ==> Mentions(ops[i]) <= all
      modifies Parts(), all
      ensures Trace(How(), ops, moments, answers)
      ensures moments[0] == old(Now(all)) && moments[|ops|] == Now(all)
    {
      answers, moments := [], [Now(all)];
      for i := 0 to |ops|
        invariant Knows(all) && ring.Valid()
        invariant TraceOf(How(), ops, i, moments, answers)
        invariant moments[0] == old(Now(all)) && moments[i] == Now(all)
      {
        var a := Perform(ops[i], all);
        TraceGrows(How(), ops, i, moments, answers, a, Now(all));
        answers, moments := answers + [a], moments + [Now(all)];
      }
    }
  }

  ghost function Healths(all: set<Backend>): map<Backend, Health>
    reads all
  {
    map b | b in all :: b.health
  }

  ghost function Tally(all: set<Backend>): map<Backend, int>
    reads all
  {
    map b | b in all :: b.activeConns
  }

  lemma {:induction false} HealthyNow(bs: seq<Backend>, n: nat, all: set<Backend>)
    requires n <= |bs| && forall b :: b in bs ==> b in all
    ensures HealthyOf(bs, n) == HealthyAmong(bs[..n], Healths(all))
  {
    if n > 0 {
      HealthyNow(bs, n - 1, all);
      assert bs[..n][..n - 1] == bs[..n - 1];
    }
  }

  lemma {:induction false} ExpandMembers(bs: seq<Backend>)
    ensures forall b :: b in Expand(bs) ==> b in bs
  {
    if bs != [] {
      ExpandMembers(bs[..|bs| - 1]);
    }
  }

  // ----- What holds of every run -----

  /** Nothing brings a Disabled backend back. */
  lemma {:induction false} DisabledForever(k: Hashing, ops: seq<Op>, moments: seq<Moment>,
                                           answers: seq<Option<Backend>>, d: Backend, i: nat, j: nat)
    requires Trace(k, ops, moments, answers) && i <= j <= |ops|
    requires d in moments[i].health && moments[i].health[d].Disabled?
    ensures d in moments[j].health && moments[j].health[d].Disabled?
    decreases j
  {
    if i < j {
      DisabledForever(k, ops, moments, answers, d, i, j - 1);
      assert Follows(k, ops[j - 1], moments[j - 1], answers[j - 1], moments[j]);
    }
  }

  /** Five of the selectors answer only with a backend that is Healthy at that request. */
  lemma AnswersAreHealthy(k: Hashing, ops: seq<Op>, moments: seq<Moment>, answers: seq<Option<Backend>>, j: nat)
    requires Trace(k, ops, moments, answers) && j < |ops| && answers[j].Some?
    ensures ops[j].Serve?
    ensures !ops[j].algorithm.ConsistentHashA? ==>
      answers[j].value in moments[j].health && moments[j].health[answers[j].value] == Healthy
  {
    assert Follows(k, ops[j], moments[j], answers[j], moments[j + 1]);
  }

  /** Once a backend is drained, none of the five ever answers with it again. */
  lemma DrainedIsNotChosen(k: Hashing, ops: seq<Op>, moments: seq<Moment>, answers: seq<Option<Backend>>,
                           d: Backend, i: nat, j: nat)
    requires Trace(k, ops, moments, answers) && i < j < |ops|
    requires ops[i] == Drain(d) && d in moments[i].health && answers[j].Some?
    ensures ops[j].Serve? && (answers[j].value == d ==> ops[j].algorithm.ConsistentHashA?)
  {
    assert Follows(k, ops[i], moments[i], answers[i], moments[i + 1]);
    DisabledForever(k, ops, moments, answers, d, i + 1, j);
    AnswersAreHealthy(k, ops, moments, answers, j);
  }

  /** The list of the last Build among operations `i` to `j`, or `start` if there is none. */
  ghost function BuiltBefore(start: seq<Backend>, ops: seq<Op>, i: nat, j: nat): seq<Backend>
    requires i <= j <= |ops|
    decreases j
  {
    if i == j then start
    else if ops[j - 1].BuildRing? then ops[j - 1].backends
    else BuiltBefore(start, ops, i, j - 1)
  }

  lemma ListStep(k: Hashing, op: Op, m: Moment, a: Option<Backend>, m': Moment, d: Backend)
    requires k.v > 0 && Follows(k, op, m, a, m') && d in m.health && m.health[d].Disabled?
    ensures op.BuildRing? ==> m'.list == op.backends
    ensures !op.BuildRing? && m.list != [] ==> m'.list == m.list
    ensures !op.BuildRing? && m.list == [] ==> d !in m'.list
  {
    HealthyAmongAre(m.pool, m.health, d);
  }

  /** Without a Build, a ring is built from healthy backends only, so not from a Disabled one. */
  lemma {:induction false} ListBehindRing(k: Hashing, ops: seq<Op>, moments: seq<Moment>,
                                          answers: seq<Option<Backend>>, d: Backend, i: nat, j: nat)
    requires Trace(k, ops, moments, answers) && i <= j <= |ops|
    requires d in moments[i].health && moments[i].health[d].Disabled?
    ensures var built := BuiltBefore(moments[i].list, ops, i, j);
      if built == [] then d !in moments[j].list else moments[j].list == built
    decreases j
  {
    if i < j {
      ListBehindRing(k, ops, moments, answers, d, i, j - 1);
      DisabledForever(k, ops, moments, answers, d, i, j - 1);
      assert Follows(k, ops[j - 1], moments[j - 1], answers[j - 1], moments[j]);
      ListStep(k, ops[j - 1], moments[j - 1], answers[j - 1], moments[j], d);
    }
  }

  /** The request is decided by hash, there is a list from a Build, and in it `d` is the owner. */
  ghost predicate OwnsBy(k: Hashing, op: Op, built: seq<Backend>, d: Backend)
    requires k.v > 0
  {
    op.Serve? && op.algorithm.ConsistentHashA? && built != [] && OwnerOf(k, built, op.algorithm.ip) == d
  }

  /** A backend that is Disabled is answered with exactly if the last Build made it the owner of the client. */
  lemma DisabledIsChosenIff(k: Hashing, ops: seq<Op>, moments: seq<Moment>, answers: seq<Option<Backend>>,
                            d: Backend, i: nat, j: nat)
    requires Trace(k, ops, moments, answers) && i <= j < |ops| && answers[j].Some?
    requires d in moments[i].health && moments[i].health[d].Disabled?
    ensures answers[j].value == d <==> OwnsBy(k, ops[j], BuiltBefore(moments[i].list, ops, i, j), d)
  {
    DisabledForever(k, ops, moments, answers, d, i, j);
    AnswersAreHealthy(k, ops, moments, answers, j);
    ListBehindRing(k, ops, moments, answers, d, i, j);
    assert Follows(k, ops[j], moments[j], answers[j], moments[j + 1]);
    if ops[j].algorithm.ConsistentHashA? {
      HealthyAmongAre(moments[j].pool, moments[j].health, d);
      OwnerIsMember(moments[j + 1].list, k.v, k.h, k.h(ops[j].algorithm.ip));
    }
  }

  lemma {:induction false} BuiltIsListed(start: seq<Backend>, ops: seq<Op>, i: nat, j: nat)
    requires i <= j <= |ops|
    ensures BuiltBefore(start, ops, i, j) == start || BuildRing(BuiltBefore(start, ops, i, j)) in ops
    decreases j
  {
    if i < j {
      BuiltIsListed(start, ops, i, j - 1);
      assert ops[j - 1] in ops;
    }
  }

  /** If no ring is ever built with it, a Disabled backend is never answered with. */
  lemma NeverChosen(k: Hashing, ops: seq<Op>, moments: seq<Moment>, answers: seq<Option<Backend>>,
                    d: Backend, i: nat, j: nat)
    requires Trace(k, ops, moments, answers) && i <= j < |ops|
    requires d in moments[i].health && moments[i].health[d].Disabled? && d !in moments[i].list
    requires forall list :: BuildRing(list) in ops ==> d !in list
    ensures answers[j] != Some(d)
  {
    if answers[j] == Some(d) {
      DisabledIsChosenIff(k, ops, moments, answers, d, i, j);
      BuiltIsListed(moments[i].list, ops, i, j);
      OwnerIsMember(BuiltBefore(moments[i].list, ops, i, j), k.v, k.h, k.h(ops[j].algorithm.ip));
      assert false;
    }
  }

  predicate Spares(op: Op, b: Backend) {
    b !in Judges(op) && op != RemoveBackend(b.id)
  }

  /** A healthy member of the pool that nobody judges or removes stays one. */
  lemma {:induction false} StaysInService(k: Hashing, ops: seq<Op>, moments: seq<Moment>,
                                          answers: seq<Option<Backend>>, g: Backend, j: nat)
    requires Trace(k, ops, moments, answers) && j <= |ops|
    requires g in HealthyAmong(moments[0].pool, moments[0].health)
    requires forall i :: 0 <= i < |ops| ==> Spares(ops[i], g)
    ensures g in HealthyAmong(moments[j].pool, moments[j].health)
  {
    HealthyAmongAre(moments[j].pool, moments[j].health, g);
    if j > 0 {
      StaysInService(k, ops, moments, answers, g, j - 1);
      HealthyAmongAre(moments[j - 1].pool, moments[j - 1].health, g);
      assert Spares(ops[j - 1], g) && Follows(k, ops[j - 1], moments[j - 1], answers[j - 1], moments[j]);
      if ops[j - 1].RemoveBackend? {
        OthersRemain(moments[j - 1].pool, ops[j - 1].id, g);
      }
    }
  }

  /** As long as there is one, every request is answered, saturation under least-connections aside. */
  lemma EveryRequestIsAnswered(k: Hashing, ops: seq<Op>, moments: seq<Moment>, answers: seq<Option<Backend>>,
                               g: Backend, j: nat)
    requires Trace(k, ops, moments, answers) && j < |ops| && ops[j].Serve?
    requires g in HealthyAmong(moments[0].pool, moments[0].health)
    requires forall i :: 0 <= i < |ops| ==> Spares(ops[i], g)
    ensures answers[j].Some? || (ops[j].algorithm.LeastConnectionsA? && g in moments[j].loads &&
                                 moments[j].loads[g] >= 0x7fff_ffff_ffff_ffff)
  {
    StaysInService(k, ops, moments, answers, g, j);
    assert Follows(k, ops[j], moments[j], answers[j], moments[j + 1]);
  }

  /** Requests that a backend was chosen for during the first `n` operations, and completions. */
  ghost function Taken(answers: seq<Option<Backend>>, b: Backend, n: nat): nat
    requires n <= |answers|
  {
    if n == 0 then 0 else Taken(answers, b, n - 1) + if answers[n - 1] == Some(b) then 1 else 0
  }

  ghost function Completed(ops: seq<Op>, b: Backend, n: nat): nat
    requires n <= |ops|
  {
    if n == 0 then 0 else Completed(ops, b, n - 1) + if ops[n - 1] == Complete(b) then 1 else 0
  }

  /** The load of a backend is what it started with, plus the requests it was chosen for, less those completed. */
  lemma {:induction false} LoadsAreConserved(k: Hashing, ops: seq<Op>, moments: seq<Moment>,
                                             answers: seq<Option<Backend>>, b: Backend, n: nat)
    requires Trace(k, ops, moments, answers) && n <= |ops| && b in moments[0].loads
    ensures b in moments[n].loads
    ensures moments[n].loads[b] == moments[0].loads[b] + Taken(answers, b, n) - Completed(ops, b, n)
  {
    if n > 0 {
      LoadsAreConserved(k, ops, moments, answers, b, n - 1);
      assert Follows(k, ops[n - 1], moments[n - 1], answers[n - 1], moments[n]);
    }
  }
}
