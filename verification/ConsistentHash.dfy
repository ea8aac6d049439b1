/**
 The consistent-hash ring. Nothing is assumed about the hash function: virtual nodes may
 collide, of one backend or of different ones, and two backends may even share an id.
 */
module ConsistentHash {
  import opened Common
  import opened Backends

  type Key = k: int | 0 <= k < 0x1_0000_0000

  const DEFAULT_VIRTUAL_NODES := 150

  function Decimal(n: nat): string {
    var digit := ["0123456789"[n % 10]];
    if n < 10 then digit else Decimal(n / 10) + digit
  }

  /** What is hashed for the i-th virtual node of a backend. */
  function Label(id: string, i: nat): string {
    id + "#" + Decimal(i)
  }

  type Write = (Key, Backend)

  /** The writes to the node map that one backend causes. */
  function NodeWrites(b: Backend, v: nat, h: string -> Key): seq<Write> {
    seq(v, i requires 0 <= i => (h(Label(b.id, i)), b))
  }

  /** All writes to the node map, in the order they happen. */
  ghost function Writes(bs: seq<Backend>, v: nat, h: string -> Key): seq<Write> {
    if bs == [] then [] else Writes(bs[..|bs| - 1], v, h) + NodeWrites(bs[|bs| - 1], v, h)
  }

  ghost function Keys(ws: seq<Write>): set<Key> {
    set w | w in ws :: w.0
  }

  /** Who owns a key after all the writes: whoever wrote it last. */
  ghost function LastWriter(ws: seq<Write>, k: Key): Backend
    requires k in Keys(ws)
  {
    var w := ws[|ws| - 1];
    if w.0 == k then w.1
    else
      assert ws == ws[..|ws| - 1] + [w];
      LastWriter(ws[..|ws| - 1], k)
  }

  /** `k` is the first key met when walking clockwise from `x`. */
  ghost predicate IsClockwise(keys: set<Key>, x: Key, k: Key) {
    && k in keys
    && if x <= k then forall j :: j in keys && x <= j ==> k <= j
       else forall j :: j in keys ==> j < x && k <= j
  }

  lemma {:induction false} ClockwiseExists(keys: set<Key>, x: Key)
    requires keys != {}
    ensures exists k :: IsClockwise(keys, x, k)
  {
    var j :| j in keys;
    var rest := keys - {j};
    if rest == {} {
      assert keys == {j};
      assert IsClockwise(keys, x, j);
    } else {
      ClockwiseExists(rest, x);
      var k :| IsClockwise(rest, x, k);
      assert keys == rest + {j};
      if x <= j {
        assert IsClockwise(keys, x, if x <= k <= j then k else j);
      } else {
        assert IsClockwise(keys, x, if x <= k || k <= j then k else j);
      }
    }
  }

  /** The owner of ring position `x` by the definition of consistent hashing. */
  ghost function Owner(bs: seq<Backend>, v: nat, h: string -> Key, x: Key): Backend
    requires bs != [] && v > 0
  {
    var ws := Writes(bs, v, h);
    assert ws[|ws| - 1].0 in Keys(ws);
    ClockwiseExists(Keys(ws), x);
    var k :| IsClockwise(Keys(ws), x, k);
    LastWriter(ws, k)
  }

  lemma {:induction false} WritersAreMembers(bs: seq<Backend>, v: nat, h: string -> Key, w: Write)
    requires w in Writes(bs, v, h)
    ensures w.1 in bs
  {
    if w !in NodeWrites(bs[|bs| - 1], v, h) {
      WritersAreMembers(bs[..|bs| - 1], v, h, w);
    }
  }

  lemma OwnerIsMember(bs: seq<Backend>, v: nat, h: string -> Key, x: Key)
    requires bs != [] && v > 0
    ensures Owner(bs, v, h, x) in bs
  {
    var ws := Writes(bs, v, h);
    assert ws[|ws| - 1].0 in Keys(ws);
    ClockwiseExists(Keys(ws), x);
    var k :| IsClockwise(Keys(ws), x, k) && Owner(bs, v, h, x) == LastWriter(ws, k);
    LastWriterWrote(ws, k);
    WritersAreMembers(bs, v, h, (k, LastWriter(ws, k)));
  }

  // ----- The ring as it is built and searched -----

  predicate Sorted(s: seq<Key>) {
    forall i, j :: 0 <= i <= j < |s| ==> s[i] <= s[j]
  }

  ghost predicate IsTable(m: map<Key, Backend>, ws: seq<Write>) {
    m.Keys == Keys(ws) && forall k :: k in m ==> m[k] == LastWriter(ws, k)
  }

  lemma TableGrows(m: map<Key, Backend>, ws: seq<Write>, w: Write)
    requires IsTable(m, ws)
    ensures IsTable(m[w.0 := w.1], ws + [w])
  {
    var ws' := ws + [w];
    assert ws'[..|ws|] == ws && ws'[|ws|] == w;
    assert Keys(ws') == Keys(ws) + {w.0};
  }

  ghost function KeysOf(ws: seq<Write>): seq<Key> {
    seq(|ws|, i requires 0 <= i < |ws| => ws[i].0)
  }

  /** Sorts by insertion; stands in for the library sort, whose contract this is. */
  method SortKeys(s: seq<Key>) returns (r: seq<Key>)
    ensures Sorted(r) && multiset(r) == multiset(s)
  {
    r := [];
    for i := 0 to |s|
      invariant Sorted(r) && multiset(r) == multiset(s[..i])
    {
      var p := Search(r, s[i]);
      assert s[..i + 1] == s[..i] + [s[i]];
      InsertKeepsSorted(r, p, s[i]);
      r := r[..p] + [s[i]] + r[p..];
    }
    assert s[..|s|] == s;
  }

  lemma InsertKeepsSorted(r: seq<Key>, p: nat, x: Key)
    requires Sorted(r) && p <= |r|
    requires forall i :: 0 <= i < p ==> r[i] < x
    requires forall i :: p <= i < |r| ==> x <= r[i]
    ensures Sorted(r[..p] + [x] + r[p..])
    ensures multiset(r[..p] + [x] + r[p..]) == multiset(r) + multiset{x}
  {
    assert r == r[..p] + r[p..];
  }

  /** Binary search for the first position at or after `x`. */
  method Search(ring: seq<Key>, x: Key) returns (idx: nat)
    requires Sorted(ring)
    ensures idx <= |ring|
    ensures forall i :: 0 <= i < idx ==> ring[i] < x
    ensures forall i :: idx <= i < |ring| ==> x <= ring[i]
  {
    var lo, hi := 0, |ring|;
    while lo < hi
      invariant 0 <= lo <= hi <= |ring|
      invariant forall i :: 0 <= i < lo ==> ring[i] < x
      invariant forall i :: hi <= i < |ring| ==> x <= ring[i]
    {
      var mid := (lo + hi) / 2;
      if ring[mid] < x {
        lo := mid + 1;
      } else {
        hi := mid;
      }
    }
    idx := lo;
  }

  /** Searching the sorted ring and wrapping at its end walks clockwise. */
  lemma SearchIsClockwise(ring: seq<Key>, keys: set<Key>, x: Key, idx: nat)
    requires Sorted(ring) && ring != [] && keys == (set k | k in ring) && idx <= |ring|
    requires forall i :: 0 <= i < idx ==> ring[i] < x
    requires forall i :: idx <= i < |ring| ==> x <= ring[i]
    ensures IsClockwise(keys, x, ring[if idx == |ring| then 0 else idx])
  {
  }

  lemma ClockwiseUnique(keys: set<Key>, x: Key, j: Key, k: Key)
    requires IsClockwise(keys, x, j) && IsClockwise(keys, x, k)
    ensures j == k
  {
  }

  class Ring {
    const virtualNodes: nat
    const hash: string -> Key
    var ring: seq<Key>
    var nodeMap: map<Key, Backend>
    /** The list given to the last Build. */
    ghost var built: seq<Backend>

    ghost predicate Valid()
      reads this
    {
      var ws := Writes(built, virtualNodes, hash);
      && virtualNodes > 0
      && Sorted(ring) && multiset(ring) == multiset(KeysOf(ws))
      && IsTable(nodeMap, ws)
    }

    constructor (virtualNodes: int, hash: string -> Key)
      ensures Valid() && built == [] && this.hash == hash
      ensures this.virtualNodes == if virtualNodes <= 0 then 150 else virtualNodes
    {
      this.virtualNodes := if virtualNodes <= 0 then DEFAULT_VIRTUAL_NODES else virtualNodes;
      this.hash := hash;
      ring, nodeMap, built := [], map[], [];
    }

    method Build(backends: seq<Backend>)
      requires Valid()
      modifies this
      ensures Valid() && built == backends && |ring| == |backends| * virtualNodes
    {
      var keys: seq<Key>, table: map<Key, Backend> := [], map[];
      ghost var log: seq<Write> := [];
      for n := 0 to |backends|
        invariant log == Writes(backends[..n], virtualNodes, hash)
        invariant keys == KeysOf(log) && IsTable(table, log)
      {
        var b := backends[n];
        ghost var log0 := log;
        for i := 0 to virtualNodes
          invariant log == log0 + NodeWrites(b, virtualNodes, hash)[..i]
          invariant keys == KeysOf(log) && IsTable(table, log)
        {
          var key := hash(Label(b.id, i));
          TableGrows(table, log, (key, b));
          keys := keys + [key];
          table := table[key := b];
          log := log + [(key, b)];
        }
        assert backends[..n + 1][..n] == backends[..n];
        assert NodeWrites(b, virtualNodes, hash)[..virtualNodes] == NodeWrites(b, virtualNodes, hash);
      }
      assert backends[..|backends|] == backends;
      ring := SortKeys(keys);
      nodeMap := table;
      built := backends;
      WriteCount(backends, virtualNodes, hash);
      assert |ring| == |multiset(ring)| == |multiset(keys)| == |keys|;
    }

    /**
     The backends argument matters only while the ring is empty; otherwise the answer is the
     owner in the list of the last Build, whatever the caller passes.
     */
    method Next(ip: string, backends: seq<Backend>) returns (r: Option<Backend>)
      requires Valid()
      modifies this
      ensures Valid() && built == (if old(built) == [] then backends else old(built))
      ensures r == if built == [] then None else Some(Owner(built, virtualNodes, hash, hash(ip)))
    {
      EmptyRing();
      if |ring| == 0 {
        Build(backends);
        EmptyRing();
      }
      if |ring| == 0 {
        return None;
      }
      var x := hash(ip);
      var idx := Search(ring, x);
      ghost var ws := Writes(built, virtualNodes, hash);
      RingKeys(ring, ws);
      SearchIsClockwise(ring, Keys(ws), x, idx);
      if idx == |ring| {
        idx := 0;
      }
      r := Some(nodeMap[ring[idx]]);
      OwnerByKey(built, virtualNodes, hash, x, ring[idx]);
    }

    lemma EmptyRing()
      requires Valid()
      ensures |ring| == 0 <==> built == []
    {
      var ws := Writes(built, virtualNodes, hash);
      assert |ring| == |multiset(ring)| == |KeysOf(ws)|;
    }
  }

  lemma RingKeys(ring: seq<Key>, ws: seq<Write>)
    requires multiset(ring) == multiset(KeysOf(ws))
    ensures Keys(ws) == set k | k in ring
  {
    var ks := KeysOf(ws);
    forall k
      ensures k in Keys(ws) <==> k in ring
    {
      assert k in ring <==> k in multiset(ring);
      assert k in ks <==> k in multiset(ks);
      if k in Keys(ws) {
        var w :| w in ws && w.0 == k;
        var i :| 0 <= i < |ws| && ws[i] == w;
        assert ks[i] == k;
      }
      if k in ks {
        var i :| 0 <= i < |ks| && ks[i] == k;
        assert ws[i] in ws;
      }
    }
  }

  /** The owner is the last writer of whichever key the clockwise walk meets. */
  lemma OwnerByKey(bs: seq<Backend>, v: nat, h: string -> Key, x: Key, k: Key)
    requires bs != [] && v > 0 && IsClockwise(Keys(Writes(bs, v, h)), x, k)
    ensures Owner(bs, v, h, x) == LastWriter(Writes(bs, v, h), k)
  {
    forall j | IsClockwise(Keys(Writes(bs, v, h)), x, j)
      ensures j == k
    {
      ClockwiseUnique(Keys(Writes(bs, v, h)), x, j, k);
    }
  }

  // ----- Minimal disruption -----

  lemma {:induction false} WritesConcat(a: seq<Backend>, b: seq<Backend>, v: nat, h: string -> Key)
    ensures Writes(a + b, v, h) == Writes(a, v, h) + Writes(b, v, h)
  {
    if b == [] {
      assert a + b == a;
    } else {
      var init, last := b[..|b| - 1], b[|b| - 1];
      WritesConcat(a, init, v, h);
      assert (a + b)[..|a + b| - 1] == a + init && (a + b)[|a + b| - 1] == last;
      Assoc(Writes(a, v, h), Writes(init, v, h), NodeWrites(last, v, h));
    }
  }

  lemma KeysConcat(a: seq<Write>, b: seq<Write>)
    ensures Keys(a + b) == Keys(a) + Keys(b)
  {
  }

  lemma {:induction false} LastWriterConcat(a: seq<Write>, b: seq<Write>, k: Key)
    requires k in Keys(a + b)
    ensures LastWriter(a + b, k) == if k in Keys(b) then LastWriter(b, k)
                                    else (KeysConcat(a, b); LastWriter(a, k))
  {
    KeysConcat(a, b);
    if b == [] {
      assert a + b == a;
    } else {
      var init, w := b[..|b| - 1], b[|b| - 1];
      assert (a + b)[..|a + b| - 1] == a + init && b == init + [w];
      KeysConcat(init, [w]);
      KeysConcat(a, init);
      if w.0 != k {
        assert k in Keys(a + init);
        LastWriterConcat(a, init, k);
      }
    }
  }

  lemma {:induction false} LastWriterWrote(ws: seq<Write>, k: Key)
    requires k in Keys(ws)
    ensures (k, LastWriter(ws, k)) in ws
  {
    var init, w := ws[..|ws| - 1], ws[|ws| - 1];
    assert ws == init + [w];
    if w.0 != k {
      KeysConcat(init, [w]);
      LastWriterWrote(init, k);
    }
  }

  /** Dropping one stretch of writes leaves alone every key that stretch did not end up owning. */
  lemma DropMiddle(a: seq<Write>, m: seq<Write>, b: seq<Write>, gone: Backend, k: Key)
    requires k in Keys(a + m + b) && LastWriter(a + m + b, k) != gone
    requires forall w :: w in m ==> w.1 == gone
    ensures k in Keys(a + b) && LastWriter(a + b, k) == LastWriter(a + m + b, k)
  {
    KeysConcat(a, m);
    KeysConcat(a + m, b);
    KeysConcat(a, b);
    LastWriterConcat(a + m, b, k);
    if k !in Keys(b) {
      LastWriterConcat(a, m, k);
      if k in Keys(m) {
        LastWriterWrote(m, k);
      }
      LastWriterConcat(a, b, k);
    } else {
      LastWriterConcat(a, b, k);
    }
  }

  /**
   Removing the backend at position `p` moves no client except those it owned: for every
   client position the other backends owned before, the owner stays the same.
   */
  lemma RemovalMovesOnlyItsOwn(bs: seq<Backend>, v: nat, h: string -> Key, p: nat, x: Key)
    requires p < |bs| && v > 0 && Owner(bs, v, h, x) != bs[p]
    ensures var rest := bs[..p] + bs[p + 1..];
      rest != [] && Owner(rest, v, h, x) == Owner(bs, v, h, x)
  {
    var a, m, b := Writes(bs[..p], v, h), NodeWrites(bs[p], v, h), Writes(bs[p + 1..], v, h);
    WritesAround(bs, v, h, p);
    var ws := a + m + b;
    assert ws[|ws| - 1].0 in Keys(ws);
    ClockwiseExists(Keys(ws), x);
    var k :| IsClockwise(Keys(ws), x, k);
    OwnerByKey(bs, v, h, x, k);
    DropMiddle(a, m, b, bs[p], k);
    FewerKeysSameSuccessor(a, m, b, x, k);
    OwnerByKey(bs[..p] + bs[p + 1..], v, h, x, k);
  }

  /** The writes of one backend sit between those of the backends before and after it. */
  lemma WritesAround(bs: seq<Backend>, v: nat, h: string -> Key, p: nat)
    requires p < |bs|
    ensures Writes(bs, v, h) == Writes(bs[..p], v, h) + NodeWrites(bs[p], v, h) + Writes(bs[p + 1..], v, h)
    ensures Writes(bs[..p] + bs[p + 1..], v, h) == Writes(bs[..p], v, h) + Writes(bs[p + 1..], v, h)
  {
    assert bs == bs[..p] + [bs[p]] + bs[p + 1..];
    WritesConcat(bs[..p] + [bs[p]], bs[p + 1..], v, h);
    WritesConcat(bs[..p], [bs[p]], v, h);
    WritesConcat(bs[..p], bs[p + 1..], v, h);
    SingleWrites(bs[p], v, h);
  }

  lemma FewerKeysSameSuccessor(a: seq<Write>, m: seq<Write>, b: seq<Write>, x: Key, k: Key)
    requires IsClockwise(Keys(a + m + b), x, k) && k in Keys(a + b)
    ensures IsClockwise(Keys(a + b), x, k)
  {
    KeysConcat(a, m);
    KeysConcat(a + m, b);
    KeysConcat(a, b);
  }

  lemma SingleWrites(b: Backend, v: nat, h: string -> Key)
    ensures Writes([b], v, h) == NodeWrites(b, v, h)
  {
    assert [b][..0] == [];
  }

  /** Inserting a backend anywhere moves clients only to it. */
  lemma InsertionMovesOnlyToIt(bs: seq<Backend>, v: nat, h: string -> Key, p: nat, b: Backend, x: Key)
    requires p <= |bs| && bs != [] && v > 0
    ensures var more := bs[..p] + [b] + bs[p..];
      Owner(more, v, h, x) == b || Owner(more, v, h, x) == Owner(bs, v, h, x)
  {
    var more := bs[..p] + [b] + bs[p..];
    if Owner(more, v, h, x) != b {
      assert more[p] == b && more[..p] == bs[..p] && more[p + 1..] == bs[p..];
      RemovalMovesOnlyItsOwn(more, v, h, p, x);
      assert bs[..p] + bs[p..] == bs;
    }
  }

  // ----- Where the virtual nodes are -----

  predicate IsDigit(ch: char) {
    '0' <= ch <= '9'
  }

  predicate AllDigits(d: string) {
    forall k :: 0 <= k < |d| ==> IsDigit(d[k])
  }

  /** What a string of digits reads as. */
  function Value(d: string): nat
    requires AllDigits(d)
  {
    if d == [] then 0 else 10 * Value(d[..|d| - 1]) + (d[|d| - 1] as int - '0' as int)
  }

  /** `d` is the numeral for `i`: digits without a leading zero. */
  predicate IsNumeral(d: string, i: nat) {
    d != [] && AllDigits(d) && (|d| > 1 ==> d[0] != '0') && Value(d) == i
  }

  lemma {:induction false} NoLeadingZero(d: string)
    requires d != [] && AllDigits(d) && d[0] != '0'
    ensures Value(d) > 0
  {
    if |d| > 1 {
      NoLeadingZero(d[..|d| - 1]);
    }
  }

  lemma DigitFor(k: nat)
    requires k < 10
    ensures IsDigit("0123456789"[k]) && "0123456789"[k] as int == '0' as int + k
  {
  }

  lemma {:induction false} DecimalIsNumeral(i: nat)
    ensures IsNumeral(Decimal(i), i)
    ensures i > 0 ==> Decimal(i)[0] != '0'
  {
    DigitFor(i % 10);
    if i >= 10 {
      DecimalIsNumeral(i / 10);
      assert Decimal(i)[..|Decimal(i)| - 1] == Decimal(i / 10);
    } else {
      assert Value(Decimal(i)[..0]) == 0;
    }
  }

  lemma {:induction false} NumeralIsDecimal(d: string, i: nat)
    requires IsNumeral(d, i)
    ensures d == Decimal(i)
  {
    var init, last := d[..|d| - 1], d[|d| - 1] as int - '0' as int;
    DigitFor(last);
    assert d == init + [d[|d| - 1]];
    if init == [] {
      assert i == last;
    } else {
      NoLeadingZero(init);
      assert i == 10 * Value(init) + last && i / 10 == Value(init) && i % 10 == last;
      NumeralIsDecimal(init, Value(init));
    }
  }

  /** `t` is the text of virtual node `i` of the backend listed at `n`. */
  ghost predicate IsNode(bs: seq<Backend>, v: nat, n: nat, i: nat, t: string) {
    n < |bs| && i < v && exists d :: IsNumeral(d, i) && t == bs[n].id + "#" + d
  }

  lemma NodeIsLabel(bs: seq<Backend>, v: nat, n: nat, i: nat, t: string)
    requires n < |bs| && i < v
    ensures IsNode(bs, v, n, i, t) <==> t == Label(bs[n].id, i)
  {
    DecimalIsNumeral(i);
    if IsNode(bs, v, n, i, t) {
      var d :| IsNumeral(d, i) && t == bs[n].id + "#" + d;
      NumeralIsDecimal(d, i);
    }
  }

  /** There is one write for each virtual node of each listing. */
  lemma {:induction false} WriteCount(bs: seq<Backend>, v: nat, h: string -> Key)
    ensures |Writes(bs, v, h)| == |bs| * v
  {
    if bs != [] {
      WriteCount(bs[..|bs| - 1], v, h);
      OneMore(|bs| - 1, v);
    }
  }

  lemma {:induction false} WriteAt(bs: seq<Backend>, v: nat, h: string -> Key, n: nat, i: nat)
    requires n < |bs| && i < v
    ensures 0 <= n * v + i < |Writes(bs, v, h)|
    ensures Writes(bs, v, h)[n * v + i] == (h(Label(bs[n].id, i)), bs[n])
  {
    var init := bs[..|bs| - 1];
    WriteCount(init, v, h);
    if n == |bs| - 1 {
      MulMonotone(0, n, v);
    } else {
      WriteAt(init, v, h, n, i);
    }
  }

  lemma {:induction false} WriteHasPlace(bs: seq<Backend>, v: nat, h: string -> Key, p: nat) returns (n: nat, i: nat)
    requires p < |Writes(bs, v, h)|
    ensures n < |bs| && i < v && p == n * v + i && Writes(bs, v, h)[p] == (h(Label(bs[n].id, i)), bs[n])
  {
    var init := bs[..|bs| - 1];
    WriteCount(init, v, h);
    if p < |Writes(init, v, h)| {
      n, i := WriteHasPlace(init, v, h, p);
    } else {
      n, i := |bs| - 1, p - |Writes(init, v, h)|;
    }
  }

  lemma {:induction false} LastWriterAt(ws: seq<Write>, k: Key) returns (p: nat)
    requires k in Keys(ws)
    ensures p < |ws| && ws[p] == (k, LastWriter(ws, k)) && forall q :: p < q < |ws| ==> ws[q].0 != k
  {
    var init, w := ws[..|ws| - 1], ws[|ws| - 1];
    if w.0 == k {
      p := |ws| - 1;
    } else {
      assert ws == init + [w];
      p := LastWriterAt(init, k);
    }
  }

  /** How far it is clockwise from `x` to `k`. */
  function Gap(x: Key, k: Key): nat {
    if x <= k then k - x else k + 0x1_0000_0000 - x
  }

  /** Node `t`, number `i` of the backend at `n`, is nearest clockwise from `x`, and no later backend has its key. */
  ghost predicate IsNearest(bs: seq<Backend>, v: nat, h: string -> Key, x: Key, n: nat, i: nat, t: string) {
    && IsNode(bs, v, n, i, t)
    && forall m: nat, k: nat, u :: IsNode(bs, v, m, k, u) ==> Gap(x, h(t)) <= Gap(x, h(u)) && (h(u) == h(t) ==> m <= n)
  }

  /** Who comes later in the list writes later. */
  lemma LaterWrites(m: nat, k: nat, n: nat, i: nat, v: nat)
    requires k < v && i < v && m < n
    ensures m * v + k < n * v + i
  {
    OneMore(m, v);
    MulMonotone(m + 1, n, v);
  }

  lemma NodeIsKey(bs: seq<Backend>, v: nat, h: string -> Key, n: nat, i: nat, t: string)
    requires IsNode(bs, v, n, i, t)
    ensures h(t) in Keys(Writes(bs, v, h))
  {
    NodeIsLabel(bs, v, n, i, t);
    WriteAt(bs, v, h, n, i);
    assert Writes(bs, v, h)[n * v + i] in Writes(bs, v, h);
  }

  lemma KeyIsNode(bs: seq<Backend>, v: nat, h: string -> Key, j: Key) returns (m: nat, k: nat, u: string)
    requires j in Keys(Writes(bs, v, h))
    ensures IsNode(bs, v, m, k, u) && h(u) == j
  {
    var ws := Writes(bs, v, h);
    var w :| w in ws && w.0 == j;
    var p :| 0 <= p < |ws| && ws[p] == w;
    m, k := WriteHasPlace(bs, v, h, p);
    u := Label(bs[m].id, k);
    NodeIsLabel(bs, v, m, k, u);
  }

  lemma NearestIsClockwise(bs: seq<Backend>, v: nat, h: string -> Key, x: Key, n: nat, i: nat, t: string)
    requires IsNearest(bs, v, h, x, n, i, t)
    ensures IsClockwise(Keys(Writes(bs, v, h)), x, h(t))
  {
    NodeIsKey(bs, v, h, n, i, t);
    forall j | j in Keys(Writes(bs, v, h))
      ensures Gap(x, h(t)) <= Gap(x, j)
    {
      var m, k, u := KeyIsNode(bs, v, h, j);
    }
  }

  /** Whatever the hash: if a virtual node is nearest to a client, its backend owns the client. */
  lemma NearestOwns(bs: seq<Backend>, v: nat, h: string -> Key, x: Key, n: nat, i: nat, t: string)
    requires bs != [] && v > 0 && IsNearest(bs, v, h, x, n, i, t)
    ensures Owner(bs, v, h, x) == bs[n]
  {
    var ws := Writes(bs, v, h);
    NearestIsClockwise(bs, v, h, x, n, i, t);
    OwnerByKey(bs, v, h, x, h(t));
    NodeIsLabel(bs, v, n, i, t);
    WriteAt(bs, v, h, n, i);
    var p := LastWriterAt(ws, h(t));
    var m, k := WriteHasPlace(bs, v, h, p);
    NodeIsLabel(bs, v, m, k, Label(bs[m].id, k));
    if m < n {
      LaterWrites(m, k, n, i, v);
    }
  }

  /** Every client has a nearest virtual node, so the owner is always found in this way. */
  lemma OwnerIsNearest(bs: seq<Backend>, v: nat, h: string -> Key, x: Key) returns (n: nat, i: nat, t: string)
    requires bs != [] && v > 0
    ensures IsNearest(bs, v, h, x, n, i, t) && Owner(bs, v, h, x) == bs[n]
  {
    var ws := Writes(bs, v, h);
    assert ws[|ws| - 1].0 in Keys(ws);
    ClockwiseExists(Keys(ws), x);
    var key :| IsClockwise(Keys(ws), x, key);
    OwnerByKey(bs, v, h, x, key);
    var p := LastWriterAt(ws, key);
    n, i := WriteHasPlace(bs, v, h, p);
    t := Label(bs[n].id, i);
    NodeIsLabel(bs, v, n, i, t);
    forall m: nat, k: nat, u | IsNode(bs, v, m, k, u)
      ensures Gap(x, h(t)) <= Gap(x, h(u)) && (h(u) == h(t) ==> m <= n)
    {
      NodeIsKey(bs, v, h, m, k, u);
      NodeIsLabel(bs, v, m, k, u);
      WriteAt(bs, v, h, m, k);
      if n < m {
        LaterWrites(n, i, m, k, v);
      }
    }
  }
}
