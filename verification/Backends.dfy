/** Upstream servers and the pool that holds them. */
module Backends {
  import opened Common

  datatype Health = Healthy | Unhealthy | Probation | Disabled

  class Backend {
    const id: string
    const url: string
    var weight: int
    var activeConns: int
    var health: Health

    constructor (id: string, url: string, weight: int)
      ensures this.id == id && this.url == url && this.weight == (if weight <= 0 then 1 else weight)
      ensures activeConns == 0 && health.Healthy?
    {
      this.id, this.url := id, url;
      this.weight := if weight <= 0 then 1 else weight;
      activeConns, health := 0, Healthy;
    }

    predicate IsHealthy()
      reads this
    {
      health.Healthy?
    }

    method IncConns()
      modifies this`activeConns
      ensures activeConns == old(activeConns) + 1
    {
      activeConns := activeConns + 1;
    }

    method DecConns()
      modifies this`activeConns
      ensures activeConns == old(activeConns) - 1
    {
      activeConns := activeConns - 1;
    }

    method SetHealth(h: Health)
      modifies this`health
      ensures health == h
    {
      health := h;
    }
  }

  /** Parsing is the library's: `parse` gives the URL in parsed form, or nothing if it is malformed. */
  method New(id: string, rawUrl: string, weight: int, parse: string -> Option<string>) returns (r: Option<Backend>)
    ensures r.None? <==> parse(rawUrl).None?
    ensures r.Some? ==> fresh(r.value) && r.value.id == id && parse(rawUrl) == Some(r.value.url)
    ensures r.Some? ==> r.value.weight == if weight <= 0 then 1 else weight
    ensures r.Some? ==> r.value.activeConns == 0 && r.value.health.Healthy?
  {
    var url := parse(rawUrl);
    if url.None? {
      return None;
    }
    var b := new Backend(id, url.value, weight);
    return Some(b);
  }

  /** The healthy ones among the first `n` backends of a list, in order. */
  function HealthyOf(bs: seq<Backend>, n: nat): seq<Backend>
    requires n <= |bs|
    reads bs
  {
    if n == 0 then []
    else if bs[n - 1].IsHealthy() then HealthyOf(bs, n - 1) + [bs[n - 1]]
    else HealthyOf(bs, n - 1)
  }

  /** `at` lists, in increasing order, exactly those of the first `n` positions where the health is Healthy. */
  ghost predicate HealthyPositions(bs: seq<Backend>, n: nat, at: seq<nat>)
    requires n <= |bs|
    reads bs
  {
    && (forall k, m :: 0 <= k < m < |at| ==> at[k] < at[m])
    && (forall k :: 0 <= k < |at| ==> at[k] < n)
    && (forall i: nat :: i < n ==> (i in at <==> bs[i].health.Healthy?))
  }

  lemma OneMorePosition(bs: seq<Backend>, n: nat, at: seq<nat>, at': seq<nat>)
    requires 0 < n <= |bs| && HealthyPositions(bs, n - 1, at)
    requires at' == if bs[n - 1].health.Healthy? then at + [n - 1] else at
    ensures HealthyPositions(bs, n, at')
  {
    if bs[n - 1].health.Healthy? {
      assert forall i: nat :: i in at' <==> i in at || i == n - 1;
    }
  }

  ghost function Positions(bs: seq<Backend>, n: nat): seq<nat>
    requires n <= |bs|
    reads bs
  {
    if n == 0 then []
    else if bs[n - 1].health.Healthy? then Positions(bs, n - 1) + [n - 1]
    else Positions(bs, n - 1)
  }

  lemma {:induction false} PositionsAreHealthy(bs: seq<Backend>, n: nat)
    requires n <= |bs|
    ensures HealthyPositions(bs, n, Positions(bs, n))
  {
    if n > 0 {
      PositionsAreHealthy(bs, n - 1);
      OneMorePosition(bs, n, Positions(bs, n - 1), Positions(bs, n));
    }
  }

  lemma {:induction false} HealthyArePicked(bs: seq<Backend>, n: nat)
    requires n <= |bs|
    ensures Picked(bs, Positions(bs, n), HealthyOf(bs, n))
  {
    if n > 0 {
      HealthyArePicked(bs, n - 1);
    }
  }

  /** `out` holds what stands at the positions `at`. */
  ghost predicate Picked(bs: seq<Backend>, at: seq<nat>, out: seq<Backend>) {
    |out| == |at| && forall k :: 0 <= k < |at| ==> at[k] < |bs| && out[k] == bs[at[k]]
  }

  /** The position of the first backend with this id, if any. */
  predicate FirstWithId(bs: seq<Backend>, id: string, i: nat) {
    i < |bs| && bs[i].id == id && forall j :: 0 <= j < i ==> bs[j].id != id
  }

  predicate HasId(bs: seq<Backend>, id: string) {
    exists i :: 0 <= i < |bs| && bs[i].id == id
  }

  class Pool {
    var backends: seq<Backend>

    constructor (backends: seq<Backend>)
      ensures this.backends == backends
    {
      this.backends := backends;
    }

    /** The members with health Healthy, each as often as it is listed and in the order of the list. */
    method Healthy() returns (out: seq<Backend>, ghost at: seq<nat>)
      ensures HealthyPositions(backends, |backends|, at) && Picked(backends, at, out)
      ensures out == HealthyOf(backends, |backends|)
    {
      out := [];
      for i := 0 to |backends|
        invariant out == HealthyOf(backends, i)
      {
        if backends[i].IsHealthy() {
          out := out + [backends[i]];
        }
      }
      at := Positions(backends, |backends|);
      PositionsAreHealthy(backends, |backends|);
      HealthyArePicked(backends, |backends|);
    }

    method Add(b: Backend)
      modifies this
      ensures backends == old(backends) + [b]
    {
      backends := backends + [b];
    }

    /** Drops the first backend with this id and shifts the rest; reports whether there was one. */
    method Remove(id: string) returns (found: bool)
      modifies this
      ensures found == HasId(old(backends), id)
      ensures !found ==> backends == old(backends)
      ensures forall b :: b in backends ==> b in old(backends)
      ensures forall b :: b in old(backends) && b.id != id ==> b in backends
      ensures found ==>
        exists i: nat :: FirstWithId(old(backends), id, i) && backends == old(backends)[..i] + old(backends)[i + 1..]
    {
      for i := 0 to |backends|
        invariant backends == old(backends)
        invariant forall j :: 0 <= j < i ==> backends[j].id != id
      {
        if backends[i].id == id {
          assert FirstWithId(old(backends), id, i);
          backends := backends[..i] + backends[i + 1..];
          return true;
        }
      }
      return false;
    }

    method Get(id: string) returns (r: Option<Backend>)
      ensures r.None? <==> !HasId(backends, id)
      ensures r.Some? ==> exists i: nat :: FirstWithId(backends, id, i) && r.value == backends[i]
    {
      for i := 0 to |backends|
        invariant forall j :: 0 <= j < i ==> backends[j].id != id
      {
        if backends[i].id == id {
          assert FirstWithId(backends, id, i);
          return Some(backends[i]);
        }
      }
      return None;
    }
  }
}
