/**
  Two graph shapes whose bounds are known in closed form: a chain of tasks of
  equal duration, where every task is critical, and a set of independent
  tasks, where every task is both a root and a leaf.
*/
module Shapes {
  import opened TaskGraph
  import opened Schedule
  import opened ProfileState

  /** Tasks 0 -> 1 -> ... -> n-1, all of type 0. */
  function Chain(n: nat): (app: Application)
    ensures |app.tasks| == n
    ensures forall i :: 0 <= i < n ==>
      app.tasks[i].parents == (if i == 0 then [] else [i - 1]) &&
      app.tasks[i].children == (if i == n - 1 then [] else [i + 1])
  {
    Application(seq(n, (i: int) => Task(if i < 0 then 0 else i, 0,
                                         if i <= 0 then [] else [i - 1],
                                         if i == n - 1 || i < 0 then [] else [i + 1])))
  }

  /** n tasks, all of type 0, with no edges. */
  function Independent(n: nat): (app: Application)
    ensures |app.tasks| == n
    ensures forall i :: 0 <= i < n ==> app.tasks[i].parents == [] && app.tasks[i].children == []
  {
    Application(seq(n, (i: int) => Task(if i < 0 then 0 else i, 0, [], [])))
  }

  /** The numbering 0, 1, ..., n-1. */
  function Identity(n: nat): (rank: seq<nat>)
    ensures |rank| == n && forall i :: 0 <= i < n ==> rank[i] == i
  {
    seq(n, (i: int) => if i < 0 then 0 else i)
  }

  lemma {:induction false} ChainWellFormed(n: nat)
    ensures WellFormed(Chain(n), Identity(n))
  {
  }

  /** The single root and the single leaf of a non-empty chain. */
  lemma {:induction false} ChainEnds(n: nat)
    requires n > 0
    ensures Roots(Chain(n)) == [0] && Leafs(Chain(n)) == [n - 1]
  {
    var app := Chain(n);
    SelectOne(n, (i: nat) => i < |app.tasks| && |app.tasks[i].parents| == 0, 0);
    SelectOne(n, (i: nat) => i < |app.tasks| && |app.tasks[i].children| == 0, n - 1);
  }

  /** Select keeps nothing when nothing below n is accepted. */
  lemma {:induction false} SelectNone(n: nat, keep: nat -> bool)
    requires forall y: nat :: y < n ==> !keep(y)
    ensures Select(n, keep) == []
  {
    if n > 0 {
      SelectNone(n - 1, keep);
    }
  }

  /** Select yields [x] when x is the only index below n that is accepted. */
  lemma {:induction false} SelectOne(n: nat, keep: nat -> bool, x: nat)
    requires x < n
    requires forall y: nat :: y < n ==> (keep(y) <==> y == x)
    ensures Select(n, keep) == [x]
  {
    if n - 1 == x {
      SelectNone(n - 1, keep);
    } else {
      SelectOne(n - 1, keep, x);
    }
  }

  /** Every one of the n tasks lasts d. */
  predicate Uniform(time: seq<real>, n: nat, d: real) {
    |time| == n && forall j :: 0 <= j < n ==> time[j] == d
  }

  /** The time k back-to-back tasks of duration d take, that is k * d. */
  function Span(k: nat, d: real): (total: real)
  {
    if k == 0 then 0.0 else Span(k - 1, d) + d
  }

  lemma {:induction false} SpanNonNegative(k: nat, d: real)
    requires d >= 0.0
    ensures Span(k, d) >= 0.0
  {
    if k > 0 {
      SpanNonNegative(k - 1, d);
    }
  }

  lemma {:induction false} SpanIsProduct(k: nat, d: real)
    ensures Span(k, d) == (k as real) * d
  {
    if k > 0 {
      SpanIsProduct(k - 1, d);
      assert (k as real) * d == ((k - 1) as real) * d + d;
    }
  }

  /** In a chain of tasks of duration d, task i starts at i * d at the earliest. */
  lemma {:induction false} ChainEarliest(n: nat, time: seq<real>, d: real, i: nat)
    requires Uniform(time, n, d) && i < n
    ensures WellFormed(Chain(n), Identity(n))
    ensures Earliest(Chain(n), Identity(n), time, i) == Span(i, d)
  {
    var app, rank := Chain(n), Identity(n);
    ChainWellFormed(n);
    if i > 0 {
      ChainEarliest(n, time, d, i - 1);
      assert app.tasks[i].parents == [i - 1] && rank[i] == i;
      assert Earliest(app, rank, time, i) == LatestFinish(app, rank, time, [i - 1], i);
    }
  }

  /** In a chain of tasks of duration d with deadline n * d, task i starts at
      i * d at the latest: the whole chain is critical. */
  lemma {:induction false} ChainLatest(n: nat, time: seq<real>, d: real, i: nat)
    requires Uniform(time, n, d) && i < n && d >= 0.0
    ensures WellFormed(Chain(n), Identity(n))
    ensures Latest(Chain(n), Identity(n), time, Span(n, d), i) == Span(i, d)
    decreases n - i
  {
    var app, rank, m := Chain(n), Identity(n), Span(n, d);
    ChainWellFormed(n);
    SpanNonNegative(i, d);
    if i < n - 1 {
      ChainLatest(n, time, d, i + 1);
      assert app.tasks[i].children == [i + 1] && rank[i] == i;
      assert Latest(app, rank, time, m, i) == EarliestDeadline(app, rank, time, m, [i + 1], d, i);
    } else {
      assert app.tasks[i].children == [];
    }
  }

  /** An independent task starts at 0 at the earliest and, with deadline m,
      at m minus its own duration (floored at 0) at the latest. */
  lemma {:induction false} IndependentBounds(n: nat, time: seq<real>, m: real, i: nat)
    requires |time| == n && i < n
    ensures WellFormed(Independent(n), Identity(n))
    ensures Earliest(Independent(n), Identity(n), time, i) == 0.0
    ensures Latest(Independent(n), Identity(n), time, m, i) == Clamp(m - time[i])
  {
  }

  /** A chain of n tasks of duration d ends at n * d. */
  lemma {:induction false} ChainMakespan(n: nat, time: seq<real>, d: real, asap: seq<Bound>)
    requires WellFormed(Chain(n), Identity(n))
    requires Uniform(time, n, d) && n > 0 && d >= 0.0
    requires |asap| == n && forall j :: 0 <= j < n ==> asap[j] == At(Earliest(Chain(n), Identity(n), time, j))
    ensures Makespan(asap, time, Leafs(Chain(n))) == Span(n, d)
  {
    ChainEnds(n);
    ChainEarliest(n, time, d, n - 1);
    SpanNonNegative(n, d);
    assert [n - 1][..0] == [];
  }

  /** With the chain's makespan as deadline, every task's latest start equals
      its earliest start: no task of a chain has slack. */
  lemma {:induction false} ChainNoSlack(n: nat, time: seq<real>, d: real, i: nat)
    requires Uniform(time, n, d) && i < n && d >= 0.0
    ensures WellFormed(Chain(n), Identity(n))
    ensures Latest(Chain(n), Identity(n), time, Span(n, d), i) == Earliest(Chain(n), Identity(n), time, i)
  {
    ChainEarliest(n, time, d, i);
    ChainLatest(n, time, d, i);
  }
}
