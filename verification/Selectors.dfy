/**
 The counter- and load-based selectors. Counters are unbounded integers here, so the wrap of
 a 64-bit counter is outside the model.
 */
module Selectors {
  import opened Common
  import opened Backends

  const MAX_INT64: int := 0x7fff_ffff_ffff_ffff

  // ----- Cycling through slots -----

  /** What `n` calls pick from a slot table when the counter starts at `c`. */
  function Picks<T>(slots: seq<T>, c: nat, n: nat): seq<T>
    requires slots != []
  {
    seq(n, i requires 0 <= i => slots[(c + i) % |slots|])
  }

  ghost function Count<T>(s: seq<T>, x: T): nat {
    multiset(s)[x]
  }

  lemma Euclid(a: int, w: int)
    requires w > 0
    ensures a == a / w * w + a % w && 0 <= a % w < w
  {
  }

  /** Division with remainder has one answer. */
  lemma QuotientUnique(w: int, q: int, r: int, q': int, r': int)
    requires w > 0 && 0 <= r < w && 0 <= r' < w && q * w + r == q' * w + r'
    ensures q == q' && r == r'
  {
    if q < q' {
      MulMonotone(q + 1, q', w);
      OneMore(q, w);
    } else if q' < q {
      MulMonotone(q' + 1, q, w);
      OneMore(q', w);
    }
  }

  lemma DivModUnique(a: int, w: int, q: int, r: int)
    requires w > 0 && 0 <= r < w && a == q * w + r
    ensures a / w == q && a % w == r
  {
    Euclid(a, w);
    QuotientUnique(w, q, r, a / w, a % w);
  }

  lemma ModShift(c: nat, i: nat, w: nat)
    requires i < w
    ensures (c + i) % w == if c % w + i < w then c % w + i else c % w + i - w
  {
    var q, r := c / w, c % w;
    Euclid(c, w);
    if r + i < w {
      DivModUnique(c + i, w, q, r + i);
    } else {
      OneMore(q, w);
      DivModUnique(c + i, w, q + 1, r + i - w);
    }
  }

  lemma DivModDrop(n: nat, w: nat)
    requires 0 < w <= n
    ensures (n - w) / w == n / w - 1 && (n - w) % w == n % w
  {
    Euclid(n, w);
    OneMore(n / w - 1, w);
    DivModUnique(n - w, w, n / w - 1, n % w);
  }

  /** A full cycle visits every slot exactly once, wherever it starts. */
  lemma FullCycle<T>(slots: seq<T>, c: nat)
    requires slots != []
    ensures multiset(Picks(slots, c, |slots|)) == multiset(slots)
  {
    var w := |slots|;
    var r := c % w;
    var p := Picks(slots, c, w);
    forall i | 0 <= i < w
      ensures p[i] == (slots[r..] + slots[..r])[i]
    {
      ModShift(c, i, w);
    }
    assert p == slots[r..] + slots[..r];
    assert slots == slots[..r] + slots[r..];
  }

  lemma PicksSplit<T>(slots: seq<T>, c: nat, m: nat, n: nat)
    requires slots != []
    ensures Picks(slots, c, m + n) == Picks(slots, c, m) + Picks(slots, c + m, n)
  {
    var all, tail := Picks(slots, c, m + n), Picks(slots, c + m, n);
    forall i | 0 <= i < n
      ensures all[m + i] == tail[i]
    {
      assert c + (m + i) == c + m + i;
    }
    assert all[m..] == tail;
    assert all[..m] == Picks(slots, c, m);
  }

  lemma CountConcat<T>(s: seq<T>, t: seq<T>, x: T)
    ensures Count(s + t, x) == Count(s, x) + Count(t, x)
  {
  }

  lemma CountAtMostLength<T>(s: seq<T>, x: T)
    ensures Count(s, x) <= |s|
  {
    assert multiset(s)[x] <= |multiset(s)|;
  }

  function Excess(a: nat, b: nat): nat {
    if a > b then a - b else 0
  }

  /** Most picks of something that fills `w` of `total` slots, in `n` calls. */
  function Most(w: nat, total: nat, n: nat): nat
    requires total > 0
  {
    if n < total then Min(w, n) else w + Most(w, total, n - total)
  }

  function Fewest(w: nat, total: nat, n: nat): nat
    requires total > 0
  {
    if n < total then Excess(w + n, total) else w + Fewest(w, total, n - total)
  }

  /** Both bounds are the exact share of the full cycles, plus at most what one cycle can add. */
  lemma {:induction false} Shares(w: nat, total: nat, n: nat)
    requires total > 0 && w <= total
    ensures Most(w, total, n) == n / total * w + Min(w, n % total)
    ensures Fewest(w, total, n) == n / total * w + Excess(w + n % total, total)
    decreases n
  {
    if n < total {
      DivModUnique(n, total, 0, n);
      assert 0 * w == 0;
    } else {
      Shares(w, total, n - total);
      DivModDrop(n, total);
      OneMore(n / total - 1, w);
    }
  }

  lemma BrokenCycle<T>(slots: seq<T>, c: nat, n: nat, x: T)
    requires n < |slots|
    ensures Excess(Count(slots, x) + n, |slots|) <= Count(Picks(slots, c, n), x) <= Min(Count(slots, x), n)
  {
    var picks, rest := Picks(slots, c, n), Picks(slots, c + n, |slots| - n);
    FullCycle(slots, c);
    PicksSplit(slots, c, n, |slots| - n);
    CountConcat(picks, rest, x);
    CountAtMostLength(picks, x);
    CountAtMostLength(rest, x);
  }

  lemma OneCycleMore<T>(slots: seq<T>, c: nat, n: nat, x: T)
    requires 0 < |slots| <= n
    ensures Count(Picks(slots, c, n), x) == Count(slots, x) + Count(Picks(slots, c + |slots|, n - |slots|), x)
  {
    FullCycle(slots, c);
    PicksSplit(slots, c, |slots|, n - |slots|);
    CountConcat(Picks(slots, c, |slots|), Picks(slots, c + |slots|, n - |slots|), x);
  }

  /** Proportional share, to within one cycle, from any counter and for any number of calls. */
  lemma {:induction false} Fairness<T>(slots: seq<T>, c: nat, n: nat, x: T)
    requires slots != []
    ensures Fewest(Count(slots, x), |slots|, n) <= Count(Picks(slots, c, n), x) <= Most(Count(slots, x), |slots|, n)
    decreases n
  {
    if n < |slots| {
      BrokenCycle(slots, c, n, x);
    } else {
      OneCycleMore(slots, c, n, x);
      Fairness(slots, c + |slots|, n - |slots|, x);
    }
  }

  // ----- Round robin -----

  class RoundRobin {
    var counter: nat

    constructor ()
      ensures counter == 0
    {
      counter := 0;
    }

    method Next(backends: seq<Backend>) returns (r: Option<Backend>)
      modifies this
      ensures backends == [] ==> r.None? && counter == old(counter)
      ensures backends != [] ==> r == Some(backends[old(counter) % |backends|]) && counter == old(counter) + 1
    {
      if |backends| == 0 {
        return None;
      }
      counter := counter + 1;
      return Some(backends[(counter - 1) % |backends|]);
    }
  }

  ghost predicate Distinct<T>(s: seq<T>) {
    forall i, j :: 0 <= i < j < |s| ==> s[i] != s[j]
  }

  lemma {:induction false} DistinctCount<T>(s: seq<T>, x: T)
    requires Distinct(s) && x in s
    ensures Count(s, x) == 1
  {
    var i :| 0 <= i < |s| && s[i] == x;
    assert s == s[..i] + [x] + s[i + 1..];
    assert x !in s[..i] && x !in s[i + 1..];
  }

  /** Any `n` calls give every one of W distinct backends its share, rounded down or up. */
  method ServeRoundRobin(rr: RoundRobin, backends: seq<Backend>, n: nat) returns (picks: seq<Backend>)
    requires backends != [] && Distinct(backends)
    modifies rr
    ensures |picks| == n && rr.counter == old(rr.counter) + n
    ensures forall b :: b in backends ==>
      n / |backends| <= Count(picks, b) <= n / |backends| + if n % |backends| == 0 then 0 else 1
  {
    picks := [];
    for i := 0 to n
      invariant rr.counter == old(rr.counter) + i
      invariant picks == Picks(backends, old(rr.counter), i)
    {
      var r := rr.Next(backends);
      picks := picks + [r.value];
    }
    forall b | b in backends
      ensures n / |backends| <= Count(picks, b) <= n / |backends| + if n % |backends| == 0 then 0 else 1
    {
      DistinctCount(backends, b);
      Fairness(backends, old(rr.counter), n, b);
      Shares(1, |backends|, n);
    }
  }

  // ----- Weighted round robin -----

  function EffectiveWeight(b: Backend): (w: nat)
    reads b
    ensures w >= 1 && (b.weight >= 1 ==> w == b.weight) && (b.weight < 1 ==> w == 1)
  {
    if b.weight <= 0 then 1 else b.weight
  }

  function Repeat<T>(y: T, n: nat): seq<T> {
    seq(n, _ => y)
  }

  function Expand(bs: seq<Backend>): seq<Backend>
    reads bs
  {
    if bs == [] then []
    else
      var last := bs[|bs| - 1];
      Expand(bs[..|bs| - 1]) + Repeat(last, EffectiveWeight(last))
  }

  lemma ExpandStep(bs: seq<Backend>, b: Backend)
    requires bs != []
    ensures var init, last := bs[..|bs| - 1], bs[|bs| - 1];
      && Count(Expand(bs), b) == Count(Expand(init), b) + (if b == last then EffectiveWeight(b) else 0)
      && Count(bs, b) == Count(init, b) + (if b == last then 1 else 0)
  {
    var init, last := bs[..|bs| - 1], bs[|bs| - 1];
    assert bs == init + [last];
    RepeatCount(last, EffectiveWeight(last), b);
  }

  /** A backend fills one slot per unit of weight for each time it is listed. */
  lemma {:induction false} ExpandCount(bs: seq<Backend>, b: Backend)
    ensures Count(Expand(bs), b) == Count(bs, b) * EffectiveWeight(b)
  {
    if bs == [] {
      assert Expand(bs) == [];
    } else {
      ExpandCount(bs[..|bs| - 1], b);
      ExpandStep(bs, b);
      OneMore(Count(bs[..|bs| - 1], b), EffectiveWeight(b));
    }
  }

  lemma {:induction false} RepeatCount<T>(y: T, n: nat, x: T)
    ensures Count(Repeat(y, n), x) == if x == y then n else 0
  {
    if n > 0 {
      RepeatCount(y, n - 1, x);
      assert Repeat(y, n) == Repeat(y, n - 1) + [y];
    }
  }

  function TotalWeight(bs: seq<Backend>): nat
    reads bs
  {
    if bs == [] then 0
    else
      var last := bs[|bs| - 1];
      TotalWeight(bs[..|bs| - 1]) + if last.weight < 1 then 1 else last.weight
  }

  lemma {:induction false} ExpandLength(bs: seq<Backend>)
    ensures |Expand(bs)| == TotalWeight(bs)
  {
    if bs != [] {
      ExpandLength(bs[..|bs| - 1]);
    }
  }

  /** The slots in order: after the slots of the backends before it, a backend fills its own, one after the other. */
  lemma {:induction false} SlotsInOrder(bs: seq<Backend>, i: nat, k: nat)
    requires i < |bs| && k < if bs[i].weight < 1 then 1 else bs[i].weight
    ensures TotalWeight(bs[..i]) + k < |Expand(bs)| && Expand(bs)[TotalWeight(bs[..i]) + k] == bs[i]
  {
    var init := bs[..|bs| - 1];
    ExpandLength(init);
    if i == |bs| - 1 {
      assert Expand(bs) == Expand(init) + Repeat(bs[i], EffectiveWeight(bs[i]));
    } else {
      SlotsInOrder(init, i, k);
      assert init[..i] == bs[..i];
    }
  }

  /** Each of a list of distinct backends gets its weight's share of any `n` consecutive picks. */
  lemma WeightedShare(bs: seq<Backend>, c: nat, n: nat, b: Backend)
    requires Distinct(bs) && b in bs
    ensures Expand(bs) != [] && TotalWeight(bs) > 0
    ensures WithinShare(Count(Picks(Expand(bs), c, n), b), EffectiveWeight(b), TotalWeight(bs), n)
  {
    ExpandCount(bs, b);
    DistinctCount(bs, b);
    ExpandLength(bs);
    CountAtMostLength(Expand(bs), b);
    SlotShare(Expand(bs), c, n, b);
  }

  predicate IsFirstHealthy(bs: seq<Backend>, r: Option<Backend>)
    reads bs
  {
    match r
    case None => forall i :: 0 <= i < |bs| ==> !bs[i].health.Healthy?
    case Some(b) =>
      exists i :: 0 <= i < |bs| && bs[i] == b && b.health.Healthy? && forall j :: 0 <= j < i ==> !bs[j].health.Healthy?
  }

  class WeightedRoundRobin {
    var slots: seq<Backend>
    var counter: nat

    constructor ()
      ensures slots == [] && counter == 0
    {
      slots, counter := [], 0;
    }

    /** The slots that the next call with these backends uses. */
    ghost function Table(backends: seq<Backend>): seq<Backend>
      reads this, backends
    {
      if slots == [] then Expand(backends) else slots
    }

    method Rebuild(backends: seq<Backend>)
      modifies this`slots
      ensures slots == Expand(backends)
    {
      var out: seq<Backend> := [];
      for n := 0 to |backends|
        invariant out == Expand(backends[..n])
      {
        var b := backends[n];
        var weight := b.weight;
        if weight <= 0 {
          weight := 1;
        }
        for i := 0 to weight
          invariant out == Expand(backends[..n]) + Repeat(b, i)
        {
          out := out + [b];
        }
        assert backends[..n + 1][..n] == backends[..n];
      }
      assert backends[..|backends|] == backends;
      slots := out;
    }

    /** Only a backend that is healthy at the moment of the call is ever returned. */
    method Next(backends: seq<Backend>) returns (r: Option<Backend>)
      modifies this
      ensures slots == if old(slots) == [] then Expand(backends) else old(slots)
      ensures slots == [] ==> r.None? && counter == old(counter)
      ensures slots != [] ==> counter == old(counter) + 1
      ensures slots != [] ==>
        var b := slots[old(counter) % |slots|];
        if b.health.Healthy? then r == Some(b) else IsFirstHealthy(backends, r)
      ensures r.Some? ==> r.value.health.Healthy?
    {
      if |slots| == 0 {
        Rebuild(backends);
      }
      if |slots| == 0 {
        return None;
      }
      counter := counter + 1;
      var b := slots[(counter - 1) % |slots|];
      if !b.IsHealthy() {
        for i := 0 to |backends|
          invariant forall j :: 0 <= j < i ==> !backends[j].health.Healthy?
        {
          if backends[i].IsHealthy() {
            return Some(backends[i]);
          }
        }
        return None;
      }
      return Some(b);
    }
  }

  /** One call that finds its slot healthy. */
  method TakeTurn(w: WeightedRoundRobin, backends: seq<Backend>, ghost table: seq<Backend>) returns (b: Backend)
    requires table != [] && w.Table(backends) == table && table[w.counter % |table|].health.Healthy?
    modifies w
    ensures old(AllHealthy(table)) ==> AllHealthy(table)
    ensures w.slots == table && w.counter == old(w.counter) + 1 && b == table[old(w.counter) % |table|]
  {
    assert forall i :: 0 <= i < |table| ==> allocated(table[i]);
    var r := w.Next(backends);
    b := r.value;
  }

  ghost predicate AllHealthy(bs: seq<Backend>)
    reads bs
  {
    forall i :: 0 <= i < |bs| ==> bs[i].health.Healthy?
  }

  /** Live calls that find every slot healthy follow the slot table from the counter on. */
  method TakeTurns(w: WeightedRoundRobin, backends: seq<Backend>, n: nat) returns (picks: seq<Backend>)
    requires w.Table(backends) != [] && AllHealthy(w.Table(backends))
    modifies w
    ensures picks == Picks(old(w.Table(backends)), old(w.counter), n)
    ensures n > 0 ==> w.slots == old(w.Table(backends))
  {
    ghost var table := w.Table(backends);
    ghost var c := w.counter;
    picks := [];
    if n > 0 {
      var b := TakeTurn(w, backends, table);
      picks := [b];
      for i := 1 to n
        invariant w.slots == table && AllHealthy(table)
        invariant w.counter == c + i && picks == Picks(table, c, i)
      {
        b := TakeTurn(w, backends, table);
        picks := picks + [b];
      }
    }
  }

  /**
   Any `n` calls that find every slot healthy give each backend its share of the slots, to within
   one cycle. If the table lists distinct backends by their weights, as a first call or a Rebuild
   makes it do, that is each one's share of the total weight.
   */
  method ServeWeighted(w: WeightedRoundRobin, backends: seq<Backend>, n: nat, ghost listed: seq<Backend>)
    returns (picks: seq<Backend>)
    requires w.Table(backends) != [] && AllHealthy(w.Table(backends))
    modifies w
    ensures |picks| == n && (n > 0 ==> w.slots == old(w.Table(backends)))
    ensures var table := old(w.Table(backends));
      forall b :: b in table ==> WithinShare(Count(picks, b), Count(table, b), |table|, n)
    ensures Distinct(listed) && old(w.Table(backends)) == Expand(listed) ==>
      forall b :: b in listed ==>
        TotalWeight(listed) > 0 && WithinShare(Count(picks, b), EffectiveWeight(b), TotalWeight(listed), n)
  {
    ghost var table := w.Table(backends);
    picks := TakeTurns(w, backends, n);
    forall b | b in table
      ensures WithinShare(Count(picks, b), Count(table, b), |table|, n)
    {
      SlotShare(table, old(w.counter), n, b);
    }
    if Distinct(listed) && table == Expand(listed) {
      forall b | b in listed
        ensures TotalWeight(listed) > 0 && WithinShare(Count(picks, b), EffectiveWeight(b), TotalWeight(listed), n)
      {
        WeightedShare(listed, old(w.counter), n, b);
      }
    }
  }

  lemma SlotShare<T>(slots: seq<T>, c: nat, n: nat, x: T)
    requires slots != []
    ensures WithinShare(Count(Picks(slots, c, n), x), Count(slots, x), |slots|, n)
  {
    Fairness(slots, c, n, x);
    CountAtMostLength(slots, x);
    Shares(Count(slots, x), |slots|, n);
  }

  /**
   The picks of a backend with `w` of `total` slots: its share of the full cycles, and of the
   broken one no more than its slots or the calls, and no less than the calls cannot avoid.
   */
  predicate WithinShare(picks: nat, w: nat, total: nat, n: nat)
    requires total > 0
  {
    n / total * w + Excess(w + n % total, total) <= picks <= n / total * w + Min(w, n % total)
  }

  // ----- Least connections -----

  /** `NilBackend` is the answer without an error that a list of saturated backends gets. */
  datatype Choice = NoBackends | NilBackend | Chosen(b: Backend)

  /** `i` is the first position with the fewest connections. */
  predicate IsLeastLoaded(bs: seq<Backend>, i: nat)
    reads bs
  {
    && i < |bs|
    && (forall j :: 0 <= j < |bs| ==> bs[i].activeConns <= bs[j].activeConns)
    && (forall j :: 0 <= j < i ==> bs[i].activeConns < bs[j].activeConns)
  }

  method LeastConnections(backends: seq<Backend>) returns (r: Choice)
    ensures r.NoBackends? <==> backends == []
    ensures r.NilBackend? <==>
      backends != [] && forall i :: 0 <= i < |backends| ==> backends[i].activeConns >= 0x7fff_ffff_ffff_ffff
    ensures r.Chosen? ==> exists i: nat :: IsLeastLoaded(backends, i) && r.b == backends[i]
  {
    if |backends| == 0 {
      return NoBackends;
    }
    r := NilBackend;
    var bestConns := MAX_INT64;
    ghost var at: nat := 0;
    for i := 0 to |backends|
      invariant !r.NoBackends? && bestConns <= MAX_INT64
      invariant r.NilBackend? <==> bestConns == MAX_INT64
      invariant forall j :: 0 <= j < i ==> bestConns <= backends[j].activeConns
      invariant r.Chosen? ==> at < i && r.b == backends[at] && bestConns == backends[at].activeConns
      invariant r.Chosen? ==> forall j :: 0 <= j < at ==> bestConns < backends[j].activeConns
    {
      var conns := backends[i].activeConns;
      if conns < bestConns {
        bestConns := conns;
        r := Chosen(backends[i]);
        at := i;
      }
    }
    assert r.Chosen? ==> IsLeastLoaded(backends, at);
  }

  ghost function Total(loads: seq<int>): int {
    if loads == [] then 0 else Total(loads[..|loads| - 1]) + loads[|loads| - 1]
  }

  /** The first `r` loads are one above the others, which are all `q`. */
  ghost predicate Staircase(loads: seq<int>, q: nat, r: nat) {
    forall i :: 0 <= i < |loads| ==> loads[i] == if i < r then q + 1 else q
  }

  lemma {:induction false} StaircaseTotal(loads: seq<int>, q: nat, r: nat)
    requires Staircase(loads, q, r)
    ensures Total(loads) == |loads| * q + Min(|loads|, r)
  {
    if loads == [] {
      assert 0 * q == 0;
    } else {
      StaircaseTotal(loads[..|loads| - 1], q, r);
      OneMore(|loads| - 1, q);
    }
  }

  function Loads(bs: seq<Backend>): seq<int>
    reads bs
  {
    seq(|bs|, i requires 0 <= i < |bs| reads bs => bs[i].activeConns)
  }

  /** One round on a staircase of loads: the next stair is chosen and raised. */
  method Place(backends: seq<Backend>, ghost q: nat, ghost r: nat) returns (b: Backend)
    requires Distinct(backends) && r < |backends| && q < MAX_INT64
    requires Staircase(Loads(backends), q, r)
    modifies backends
    ensures b == backends[r] && Loads(backends) == old(Loads(backends))[r := q + 1]
  {
    LeastIsNextStair(backends, q, r);
    var c := LeastConnections(backends);
    b := c.b;
    b.IncConns();
  }

  /**
   From idle, with nothing completing, k rounds of select-then-count keep all loads within one
   of each other and summing to k; and the backends are visited in exactly the order round
   robin would visit them.
   */
  method Dispatch(backends: seq<Backend>, k: nat) returns (picks: seq<Backend>)
    requires backends != [] && Distinct(backends) && k <= MAX_INT64
    requires forall i :: 0 <= i < |backends| ==> backends[i].activeConns == 0
    modifies backends
    ensures picks == Picks(backends, 0, k)
    ensures Total(Loads(backends)) == k
    ensures forall i, j :: 0 <= i < |backends| && 0 <= j < |backends| ==>
      Loads(backends)[i] <= Loads(backends)[j] + 1
  {
    var n := |backends|;
    ghost var q: nat, r: nat := 0, 0;
    picks := [];
    for m := 0 to k
      invariant m == q * n + r && r < n
      invariant picks == Picks(backends, 0, m)
      invariant Staircase(Loads(backends), q, r)
    {
      MulMonotone(1, n, q);
      DivModUnique(m, n, q, r);
      var b := Place(backends, q, r);
      picks := picks + [b];
      if r + 1 < n {
        r := r + 1;
      } else {
        OneMore(q, n);
        q, r := q + 1, 0;
      }
    }
    StaircaseTotal(Loads(backends), q, r);
  }

  lemma LeastIsNextStair(backends: seq<Backend>, q: nat, r: nat)
    requires r < |backends| && Staircase(Loads(backends), q, r)
    ensures backends[r].activeConns == q
    ensures forall i: nat :: IsLeastLoaded(backends, i) ==> i == r
  {
    assert forall i :: 0 <= i < |backends| ==> backends[i].activeConns == Loads(backends)[i];
  }

  // ----- Hash and random choice -----

  /** The same hash and list always give the same member. */
  method IpHash(hash: nat, backends: seq<Backend>) returns (r: Option<Backend>)
    ensures r == if backends == [] then None else Some(backends[hash % |backends|])
  {
    if |backends| == 0 {
      return None;
    }
    return Some(backends[hash % |backends|]);
  }

  /** The position that the second draw stands for: the draws skip the first position. */
  function Second(first: nat, second: nat): nat {
    if second >= first then second + 1 else second
  }

  /** Every ordered pair of different positions comes from exactly one pair of draws. */
  lemma DrawsArePairs(n: nat, i: nat, j: nat)
    requires i < n && j < n && i != j
    ensures exists k: nat :: k < n - 1 && Second(i, k) == j
    ensures forall k: nat, m: nat :: Second(i, k) == j == Second(i, m) ==> k == m
    ensures forall k: nat :: k < n - 1 ==> Second(i, k) < n && Second(i, k) != i
  {
    var k := if j > i then j - 1 else j;
    assert Second(i, k) == j;
  }

  /** `first` and `second` are the two random draws, from [0,n) and [0,n-1). */
  method PowerOfTwoChoices(backends: seq<Backend>, first: nat, second: nat) returns (r: Option<Backend>)
    requires |backends| > 1 ==> first < |backends| && second < |backends| - 1
    ensures r.None? <==> backends == []
    ensures |backends| == 1 ==> r == Some(backends[0])
    ensures |backends| > 1 ==>
      var a, b := backends[first], backends[Second(first, second)];
      (r == Some(a) && a.activeConns <= b.activeConns) || (r == Some(b) && b.activeConns < a.activeConns)
  {
    if |backends| == 0 {
      return None;
    }
    if |backends| == 1 {
      return Some(backends[0]);
    }
    var i, j := first, second;
    if j >= i {
      j := j + 1;
    }
    if backends[i].activeConns <= backends[j].activeConns {
      return Some(backends[i]);
    }
    return Some(backends[j]);
  }
}
