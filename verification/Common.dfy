/** What several modules need. */
module Common {

  datatype Option<+T> = None | Some(value: T)

  /** Nanoseconds. */
  const SECOND := 1000000000

  /** The clock readings along a run do not decrease. */
  ghost predicate Monotone<T>(run: seq<T>, clock: T -> int) {
    forall i, j :: 0 <= i <= j < |run| ==> clock(run[i]) <= clock(run[j])
  }

  /** A run in clock order, with every reading between `from` and `to`. */
  ghost predicate Within<T>(run: seq<T>, clock: T -> int, from: int, to: int) {
    Monotone(run, clock) && forall i :: 0 <= i < |run| ==> from <= clock(run[i]) <= to
  }

  /** `longer` is `run` and then any number of repetitions of `e`. */
  ghost predicate Repeats<T>(run: seq<T>, e: T, longer: seq<T>) {
    && |run| <= |longer|
    && forall i :: 0 <= i < |longer| ==> longer[i] == if i < |run| then run[i] else e
  }

  lemma RepeatsChain<T>(run: seq<T>, e: T, longer: seq<T>, longest: seq<T>)
    requires Repeats(run, e, longer) && Repeats(longer, e, longest)
    ensures Repeats(run, e, longest)
  {
  }

  lemma RepeatsWithin<T>(run: seq<T>, e: T, longer: seq<T>, clock: T -> int, from: int, to: int)
    requires Repeats(run, e, longer) && Within(run, clock, from, to) && from <= to <= clock(e)
    ensures Within(longer, clock, from, clock(e))
  {
  }

  function Min(a: int, b: int): int {
    if a < b then a else b
  }

  lemma MulMonotone(a: int, b: int, k: int)
    requires a <= b && 0 <= k
    ensures a * k <= b * k
  {
  }

  lemma OneMore(k: int, w: int)
    ensures (k + 1) * w == k * w + w
  {
  }

  lemma Assoc<T>(a: seq<T>, b: seq<T>, c: seq<T>)
    ensures a + (b + c) == a + b + c
  {
  }
}
