/**
 The path-prefix trie. Its nodes live in the heap and are linked through their child maps, as
 in the program; a ghost index from segment lists to nodes says which paths exist.
 */
module PathTrie {
  import opened Common

  // ----- Paths -----

  type Path = seq<string>

  /** The pieces of `s` between its slashes: one more than there are slashes, some maybe empty. */
  function Split(s: string): (r: seq<string>)
    ensures r != []
  {
    if s == "" then [""] else Prepend(s[0], Split(s[1..]))
  }

  /** A slash starts a new piece; any other character joins the first one. */
  function Prepend(ch: char, pieces: seq<string>): (r: seq<string>)
    requires pieces != []
    ensures r != []
  {
    if ch == '/' then [""] + pieces else [[ch] + pieces[0]] + pieces[1..]
  }

  function TrimLeft(s: string): string {
    if s != "" && s[0] == '/' then TrimLeft(s[1..]) else s
  }

  function TrimRight(s: string): string {
    if s != "" && s[|s| - 1] == '/' then TrimRight(s[..|s| - 1]) else s
  }

  function Trim(s: string): string {
    TrimRight(TrimLeft(s))
  }

  function NonEmpty(segs: seq<string>): Path {
    if segs == [] then []
    else if segs[0] == "" then NonEmpty(segs[1..])
    else [segs[0]] + NonEmpty(segs[1..])
  }

  /** The segments a rule prefix or a request path stands for. */
  function Segments(s: string): Path {
    NonEmpty(Split(Trim(s)))
  }

  lemma {:induction false} NonEmptyConcat(a: seq<string>, b: seq<string>)
    ensures NonEmpty(a + b) == NonEmpty(a) + NonEmpty(b)
  {
    if a == [] {
      assert a + b == b;
    } else {
      NonEmptyConcat(a[1..], b);
      assert (a + b)[0] == a[0] && (a + b)[1..] == a[1..] + b;
      if a[0] != "" {
        Assoc([a[0]], NonEmpty(a[1..]), NonEmpty(b));
      }
    }
  }

  lemma PrependConcat(ch: char, x: seq<string>, y: seq<string>)
    requires x != []
    ensures Prepend(ch, x + y) == Prepend(ch, x) + y
  {
    if ch != '/' {
      assert (x + y)[0] == x[0] && (x + y)[1..] == x[1..] + y;
    }
  }

  /** Splitting at a slash splits the pieces. */
  lemma {:induction false} SplitAtSlash(a: string, b: string)
    ensures Split(a + "/" + b) == Split(a) + Split(b)
  {
    var s := a + "/" + b;
    if a == "" {
      assert s[0] == '/' && s[1..] == b;
    } else {
      SplitAtSlash(a[1..], b);
      assert s[0] == a[0] && s[1..] == a[1..] + "/" + b;
      PrependConcat(a[0], Split(a[1..]), Split(b));
    }
  }

  lemma {:induction false} TrimLeftKeepsSegments(s: string)
    ensures NonEmpty(Split(TrimLeft(s))) == NonEmpty(Split(s))
  {
    if s != "" && s[0] == '/' {
      TrimLeftKeepsSegments(s[1..]);
    }
  }

  lemma {:induction false} TrimRightKeepsSegments(s: string)
    ensures NonEmpty(Split(TrimRight(s))) == NonEmpty(Split(s))
  {
    if s != "" && s[|s| - 1] == '/' {
      var init := s[..|s| - 1];
      TrimRightKeepsSegments(init);
      assert s == init + "/" + "";
      SplitAtSlash(init, "");
      NonEmptyConcat(Split(init), Split(""));
    }
  }

  lemma TrimKeepsSegments(s: string)
    ensures Segments(s) == NonEmpty(Split(s))
  {
    TrimLeftKeepsSegments(s);
    TrimRightKeepsSegments(TrimLeft(s));
  }

  /** A proper segment: not empty and without a slash. */
  predicate IsSegment(s: string) {
    s != "" && '/' !in s
  }

  lemma {:induction false} SplitSegment(s: string)
    requires '/' !in s
    ensures Split(s) == [s]
  {
    if s != "" {
      SplitSegment(s[1..]);
      assert s == [s[0]] + s[1..];
      assert s[0] in s;
    }
  }

  /**
   Writing proper segments with any runs of slashes before, between and after them: `gaps[i]`
   extra slashes precede segment i and the last entry of `gaps` follows them all.
   */
  function Render(segs: Path, gaps: seq<nat>): string
    requires |gaps| == |segs| + 1
  {
    Slashes(gaps[0]) +
    if segs == [] then ""
    else segs[0] + "/" + Render(segs[1..], gaps[1..])
  }

  function Slashes(n: nat): string {
    seq(n, _ => '/')
  }

  lemma {:induction false} SlashesVanish(n: nat, s: string)
    ensures NonEmpty(Split(Slashes(n) + s)) == NonEmpty(Split(s))
  {
    if n == 0 {
      assert Slashes(0) + s == s;
    } else {
      SlashesVanish(n - 1, s);
      assert (Slashes(n) + s)[1..] == Slashes(n - 1) + s;
    }
  }

  /** However the slashes fall, the segments read back are the segments written. */
  lemma {:induction false} SegmentsOfRendered(segs: Path, gaps: seq<nat>)
    requires |gaps| == |segs| + 1 && forall s :: s in segs ==> IsSegment(s)
    ensures Segments(Render(segs, gaps)) == segs
  {
    TrimKeepsSegments(Render(segs, gaps));
    if segs == [] {
      SlashesVanish(gaps[0], "");
      assert NonEmpty(Split("")) == [];
    } else {
      assert IsSegment(segs[0]);
      var rest := Render(segs[1..], gaps[1..]);
      SegmentsOfRendered(segs[1..], gaps[1..]);
      TrimKeepsSegments(rest);
      SlashesVanish(gaps[0], segs[0] + "/" + rest);
      SplitAtSlash(segs[0], rest);
      SplitSegment(segs[0]);
      NonEmptyConcat([segs[0]], Split(rest));
      assert NonEmpty([segs[0]]) == [segs[0]] + NonEmpty([segs[0]][1..]) == [segs[0]];
    }
  }

  // ----- The plain rule table -----

  datatype Rule = Rule(prefix: string, pool: string)

  type Table = map<Path, string>

  /** Writing a rule overwrites the pool of its path; an empty pool name leaves the path without one. */
  function SetRule(t: Table, p: Path, pool: string): Table {
    if pool == "" then t - {p} else t[p := pool]
  }

  function Rules(rules: seq<Rule>): Table {
    if rules == [] then map[]
    else
      var r := rules[|rules| - 1];
      SetRule(Rules(rules[..|rules| - 1]), Segments(r.prefix), r.pool)
  }

  /** The pool of the longest prefix of `path` that has one. */
  function LongestPrefix(t: Table, path: Path): Option<string> {
    if path in t then Some(t[path])
    else if path == [] then None
    else LongestPrefix(t, path[..|path| - 1])
  }

  /** `LongestPrefix` in so many words. */
  lemma {:induction false} LongestPrefixIsLongest(t: Table, path: Path)
    ensures LongestPrefix(t, path).None? ==> forall k :: 0 <= k <= |path| ==> path[..k] !in t
    ensures LongestPrefix(t, path).Some? ==>
      exists k :: 0 <= k <= |path| && path[..k] in t && LongestPrefix(t, path).value == t[path[..k]] &&
                  forall j :: k < j <= |path| ==> path[..j] !in t
  {
    assert path[..|path|] == path;
    if path !in t && path != [] {
      var init := path[..|path| - 1];
      LongestPrefixIsLongest(t, init);
      assert forall k :: 0 <= k <= |init| ==> init[..k] == path[..k];
    }
  }

  /** Rule `i` is the last one written for path `p`. */
  ghost predicate IsLastRule(rules: seq<Rule>, p: Path, i: int) {
    && 0 <= i < |rules| && Segments(rules[i].prefix) == p
    && forall j :: i < j < |rules| ==> Segments(rules[j].prefix) != p
  }

  lemma SameLastRule(rules: seq<Rule>, init: seq<Rule>, p: Path)
    requires rules != [] && Segments(rules[|rules| - 1].prefix) != p && init == rules[..|rules| - 1]
    ensures forall i :: IsLastRule(init, p, i) <==> IsLastRule(rules, p, i)
  {
  }

  lemma OtherRule(t: Table, path: Path, pool: string, p: Path)
    requires path != p
    ensures p in SetRule(t, path, pool) <==> p in t
    ensures p in t ==> SetRule(t, path, pool)[p] == t[p]
  {
  }

  /** The last rule written for a path decides it; an empty name there means no rule. */
  lemma {:induction false} LastRuleWins(rules: seq<Rule>, p: Path)
    ensures (forall i :: !IsLastRule(rules, p, i)) ==> p !in Rules(rules)
    ensures forall i :: IsLastRule(rules, p, i) ==>
      if rules[i].pool == "" then p !in Rules(rules) else p in Rules(rules) && Rules(rules)[p] == rules[i].pool
  {
    if rules != [] {
      var init, last := rules[..|rules| - 1], rules[|rules| - 1];
      LastRuleWins(init, p);
      assert Rules(rules) == SetRule(Rules(init), Segments(last.prefix), last.pool);
      if Segments(last.prefix) == p {
        assert IsLastRule(rules, p, |rules| - 1);
      } else {
        SameLastRule(rules, init, p);
        OtherRule(Rules(init), Segments(last.prefix), last.pool, p);
      }
    }
  }

  // ----- The trie -----

  class Node {
    var children: map<string, Node>
    var pool: string

    constructor ()
      ensures children == map[] && pool == ""
    {
      children, pool := map[], "";
    }
  }

  function Down(p: Path, s: string): Path {
    p + [s]
  }

  function Up(p: Path): Path
    requires p != []
  {
    p[..|p| - 1]
  }

  function Last(p: Path): string
    requires p != []
  {
    p[|p| - 1]
  }

  lemma UpDown(p: Path, s: string)
    ensures Down(p, s) != [] && Up(Down(p, s)) == p && Last(Down(p, s)) == s
  {
  }

  lemma DownUp(p: Path)
    requires p != []
    ensures Down(Up(p), Last(p)) == p
  {
  }

  class Trie {
    var root: Node
    /** Every node, under the path that leads to it. */
    ghost var index: map<Path, Node>

    /** Every node but the root hangs under its parent, by its last segment. */
    ghost predicate Hangs(p: Path)
      reads this, index.Values
    {
      p in index && p != [] ==>
        Up(p) in index && Last(p) in index[Up(p)].children && index[Up(p)].children[Last(p)] == index[p]
    }

    ghost predicate Valid()
      reads this, index.Values
    {
      && [] in index && index[[]] == root
      && (forall p, q :: p in index && q in index && index[p] == index[q] ==> p == q)
      && (forall p :: Hangs(p))
      && (forall p, s :: p in index && s in index[p].children ==> Down(p, s) in index)
    }

    /** The rules the trie holds, as a plain table. */
    ghost function Rules(): Table
      reads this, index.Values
    {
      map p | p in index && index[p].pool != "" :: index[p].pool
    }

    constructor ()
      ensures Valid() && fresh(index.Values) && Rules() == map[]
    {
      var node := new Node();
      root := node;
      index := map[[] := node];
    }

    lemma ChildIs(at: Path, seg: string)
      requires Valid() && at in index
      ensures seg in index[at].children <==> Down(at, seg) in index
      ensures seg in index[at].children ==> index[at].children[seg] == index[Down(at, seg)]
    {
      UpDown(at, seg);
      assert Hangs(Down(at, seg));
    }

    /** Makes an empty node and hangs it under `node`, which stands at no other path. */
    method Attach(node: Node, seg: string, ghost at: Path) returns (ghost leaf: Node)
      requires at in index && Down(at, seg) !in index
      requires forall q :: q in index ==> (index[q] == node <==> q == at)
      modifies this`index, node`children
      ensures fresh(leaf) && index == old(index)[Down(at, seg) := leaf]
      ensures leaf.children == map[] && node.children == old(node.children)[seg := leaf]
      ensures forall q :: q in old(index) && q != at ==> index[q].children == old(index[q].children)
      ensures Rules() == old(Rules())
    {
      var child := new Node();
      node.children := node.children[seg := child];
      index := index[Down(at, seg) := child];
      leaf := child;
    }

    /** Hangs a new node under an existing one. The rules do not change. */
    method Grow(node: Node, seg: string, ghost at: Path)
      requires Valid() && at in index && index[at] == node && seg !in node.children
      modifies this`index, node
      ensures Valid() && Rules() == old(Rules()) && Down(at, seg) in index
      ensures fresh(index.Values - old(index.Values))
      ensures forall p :: p in old(index) ==> p in index && index[p] == old(index)[p]
    {
      ChildIs(at, seg);
      UpDown(at, seg);
      ghost var leaf := Attach(node, seg, at);
      forall q
        ensures Hangs(q)
      {
        if q in old(index) && q != [] {
          assert old(Hangs(q));
          DownUp(q);
        }
      }
    }

    method Add(prefix: string, pool: string)
      requires Valid()
      modifies this`index, index.Values
      ensures Valid() && fresh(index.Values - old(index.Values))
      ensures Rules() == SetRule(old(Rules()), Segments(prefix), pool)
    {
      var segments := Split(Trim(prefix));
      var node := root;
      ghost var at: Path := [];
      for i := 0 to |segments|
        invariant Valid() && fresh(index.Values - old(index.Values))
        invariant Rules() == old(Rules())
        invariant at in index && index[at] == node
        invariant at + NonEmpty(segments[i..]) == Segments(prefix)
      {
        var seg := segments[i];
        Uncons(at, segments, i);
        if seg != "" {
          if seg !in node.children {
            Grow(node, seg, at);
          }
          ChildIs(at, seg);
          node := node.children[seg];
          at := Down(at, seg);
        }
      }
      assert at + NonEmpty(segments[|segments|..]) == at;
      SetPool(node, pool, at);
    }

    method SetPool(node: Node, pool: string, ghost at: Path)
      requires Valid() && at in index && index[at] == node
      modifies node`pool
      ensures Valid() && Rules() == SetRule(old(Rules()), at, pool)
    {
      node.pool := pool;
      assert forall p :: old(Hangs(p)) ==> Hangs(p);
    }

    /** The walk stops at the first missing child, and nothing deeper can hold a rule. */
    method Match(path: string) returns (r: Option<string>)
      requires Valid()
      ensures r == LongestPrefix(Rules(), Segments(path))
    {
      var segments := Split(Trim(path));
      var node := root;
      var last := "";
      ghost var at: Path := [];
      var i := 0;
      while i < |segments|
        invariant 0 <= i <= |segments|
        invariant at in index && index[at] == node
        invariant at + NonEmpty(segments[i..]) == Segments(path)
        invariant Best(at) == if last != "" then Some(last) else Best([])
      {
        var seg := segments[i];
        Uncons(at, segments, i);
        if seg != "" {
          ChildIs(at, seg);
          if seg !in node.children {
            NothingBelow(at, seg, NonEmpty(segments[i + 1..]));
            assert Best(Segments(path)) == Best(at);
            break;
          }
          node := node.children[seg];
          UpDown(at, seg);
          at := Down(at, seg);
          if node.pool != "" {
            last := node.pool;
          }
        }
        i := i + 1;
      }
      if i == |segments| {
        assert at + NonEmpty(segments[i..]) == at;
      }
      assert Best(Segments(path)) == Best(at);
      if last != "" {
        return Some(last);
      }
      if root.pool != "" {
        return Some(root.pool);
      }
      return None;
    }

    ghost function Best(at: Path): Option<string>
      reads this, index.Values
    {
      LongestPrefix(Rules(), at)
    }

    lemma {:induction false} PrefixExists(p: Path, k: nat)
      requires Valid() && p in index && k <= |p|
      ensures p[..k] in index
    {
      if k == |p| {
        assert p[..k] == p;
      } else {
        assert Hangs(p);
        PrefixExists(Up(p), k);
        assert Up(p)[..k] == p[..k];
      }
    }

    /** If the path leaves the trie after `at`, its longest rule is a prefix of `at`. */
    lemma {:induction false} NothingBelow(at: Path, seg: string, rest: Path)
      requires Valid() && Down(at, seg) !in index
      ensures Best(Down(at, seg) + rest) == Best(at)
      decreases |rest|
    {
      var p := Down(at, seg) + rest;
      assert p[..|at| + 1] == Down(at, seg);
      if p in index {
        PrefixExists(p, |at| + 1);
      }
      if rest == [] {
        assert Up(p) == at;
      } else {
        NothingBelow(at, seg, Up(rest));
        assert Up(p) == Down(at, seg) + Up(rest);
      }
    }
  }

  /** Taking the next piece of a path moves it, if it is a segment, onto the walked part. */
  lemma Uncons(at: Path, segments: seq<string>, i: nat)
    requires i < |segments|
    ensures at + NonEmpty(segments[i..]) ==
      if segments[i] == "" then at + NonEmpty(segments[i + 1..])
      else Down(at, segments[i]) + NonEmpty(segments[i + 1..])
  {
    assert segments[i..][1..] == segments[i + 1..];
    Assoc(at, [segments[i]], NonEmpty(segments[i + 1..]));
  }

  /** After any sequence of Add calls, Match is longest-prefix lookup in the plain rule table. */
  method Route(rules: seq<Rule>, path: string) returns (r: Option<string>)
    ensures r == LongestPrefix(Rules(rules), Segments(path))
  {
    var t := new Trie();
    for i := 0 to |rules|
      invariant t.Valid() && fresh(t) && fresh(t.index.Values)
      invariant t.Rules() == Rules(rules[..i])
    {
      t.Add(rules[i].prefix, rules[i].pool);
      assert rules[..i + 1][..i] == rules[..i];
    }
    assert rules[..|rules|] == rules;
    r := t.Match(path);
  }
}
