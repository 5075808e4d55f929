/**
  Reference definitions of the bounds the profiling engine computes, written
  directly as recursions over the task graph rather than as relaxations:

  - Earliest(i): 0 for a root, otherwise the latest finish among i's parents
    (longest path from a root to i);
  - Latest(m, i): for a leaf, m minus its own duration, floored at 0; otherwise
    the earliest latest-start any child allows, i.e. the minimum over children c
    of Latest(m, c) minus i's duration, floored at 0.

  The relaxation passes are proved to reach exactly these values.
*/
module Schedule {
  import opened TaskGraph

  /** max(0, x): no task is ever required to start before time 0. */
  function Clamp(x: real): (r: real)
    ensures r >= 0.0 && r >= x
    ensures r == x || r == 0.0
  {
    if x > 0.0 then x else 0.0
  }

  function Max(a: real, b: real): (r: real)
    ensures r >= a && r >= b && (r == a || r == b)
  {
    if a >= b then a else b
  }

  function Min(a: real, b: real): (r: real)
    ensures r <= a && r <= b && (r == a || r == b)
  {
    if a <= b then a else b
  }

  /** Earliest start of task i given the duration of every task. */
  function Earliest(app: Application, rank: seq<nat>, time: seq<real>, i: nat): (start: real)
    requires Ranked(app, rank) && |time| == |app.tasks| && i < |app.tasks|
    decreases rank[i], 1
  {
    var ps := app.tasks[i].parents;
    if |ps| == 0 then 0.0 else LatestFinish(app, rank, time, ps, rank[i])
  }

  /** Latest finish time among the tasks ps, all ranked below `bound`. */
  function LatestFinish(app: Application, rank: seq<nat>, time: seq<real>, ps: seq<nat>, bound: nat): (finish: real)
    requires Ranked(app, rank) && |time| == |app.tasks| && |ps| > 0
    requires forall p :: p in ps ==> p < |app.tasks| && rank[p] < bound
    ensures forall p :: p in ps ==> finish >= Earliest(app, rank, time, p) + time[p]
    decreases bound, 0, |ps|
  {
    var p := ps[0];
    assert p in ps;
    var finish := Earliest(app, rank, time, p) + time[p];
    if |ps| == 1 then finish
    else
      assert forall q :: q in ps[1..] ==> q in ps;
      Max(LatestFinish(app, rank, time, ps[1..], bound), finish)
  }

  /** Latest start of task i that still lets every leaf finish by m. */
  function Latest(app: Application, rank: seq<nat>, time: seq<real>, m: real, i: nat): (start: real)
    requires Ranked(app, rank) && |time| == |app.tasks| && i < |app.tasks|
    decreases |app.tasks| - rank[i], 1
  {
    var cs := app.tasks[i].children;
    if |cs| == 0 then Clamp(m - time[i]) else EarliestDeadline(app, rank, time, m, cs, time[i], rank[i])
  }

  /** Latest start, for a task of duration d, that the latest starts of the
      tasks cs (all ranked above `bound`) allow. */
  function EarliestDeadline(app: Application, rank: seq<nat>, time: seq<real>, m: real, cs: seq<nat>, d: real, bound: nat): (start: real)
    requires Ranked(app, rank) && |time| == |app.tasks| && |cs| > 0
    requires forall c :: c in cs ==> c < |app.tasks| && bound < rank[c]
    ensures forall c :: c in cs ==> start <= Clamp(Latest(app, rank, time, m, c) - d)
    decreases |app.tasks| - bound, 0, |cs|
  {
    var c := cs[0];
    assert c in cs;
    var start := Clamp(Latest(app, rank, time, m, c) - d);
    if |cs| == 1 then start
    else
      assert forall e :: e in cs[1..] ==> e in cs;
      Min(EarliestDeadline(app, rank, time, m, cs[1..], d, bound), start)
  }

  /** LatestFinish is the maximum finish over ps, attained by one of them. */
  lemma {:induction false} LatestFinishIsMax(app: Application, rank: seq<nat>, time: seq<real>, ps: seq<nat>, bound: nat)
    requires Ranked(app, rank) && |time| == |app.tasks| && |ps| > 0
    requires forall p :: p in ps ==> p < |app.tasks| && rank[p] < bound
    ensures forall p :: p in ps ==> LatestFinish(app, rank, time, ps, bound) >= Earliest(app, rank, time, p) + time[p]
    ensures exists p :: p in ps && LatestFinish(app, rank, time, ps, bound) == Earliest(app, rank, time, p) + time[p]
    decreases |ps|
  {
    assert ps[0] in ps;
    if |ps| > 1 {
      assert forall q :: q in ps[1..] ==> q in ps;
      LatestFinishIsMax(app, rank, time, ps[1..], bound);
      assert ps == [ps[0]] + ps[1..];
    }
  }

  /** EarliestDeadline is the minimum latest start over cs, attained by one of them. */
  lemma {:induction false} EarliestDeadlineIsMin(app: Application, rank: seq<nat>, time: seq<real>, m: real, cs: seq<nat>, d: real, bound: nat)
    requires Ranked(app, rank) && |time| == |app.tasks| && |cs| > 0
    requires forall c :: c in cs ==> c < |app.tasks| && bound < rank[c]
    ensures forall c :: c in cs ==> EarliestDeadline(app, rank, time, m, cs, d, bound) <= Clamp(Latest(app, rank, time, m, c) - d)
    ensures exists c :: c in cs && EarliestDeadline(app, rank, time, m, cs, d, bound) == Clamp(Latest(app, rank, time, m, c) - d)
    decreases |cs|
  {
    assert cs[0] in cs;
    if |cs| > 1 {
      assert forall e :: e in cs[1..] ==> e in cs;
      EarliestDeadlineIsMin(app, rank, time, m, cs[1..], d, bound);
      assert cs == [cs[0]] + cs[1..];
    }
  }

  /** A task starts no earlier than any of its parents finishes. */
  lemma {:induction false} EarliestAfterParents(app: Application, rank: seq<nat>, time: seq<real>, i: nat)
    requires Ranked(app, rank) && |time| == |app.tasks| && i < |app.tasks|
    ensures forall p :: p in app.tasks[i].parents ==>
      Earliest(app, rank, time, i) >= Earliest(app, rank, time, p) + time[p]
  {
    if |app.tasks[i].parents| > 0 {
      LatestFinishIsMax(app, rank, time, app.tasks[i].parents, rank[i]);
    }
  }

  /** A task's latest start leaves room for every child's latest start. */
  lemma {:induction false} LatestBeforeChildren(app: Application, rank: seq<nat>, time: seq<real>, m: real, i: nat)
    requires Ranked(app, rank) && |time| == |app.tasks| && i < |app.tasks|
    ensures forall c :: c in app.tasks[i].children ==>
      Latest(app, rank, time, m, i) <= Clamp(Latest(app, rank, time, m, c) - time[i])
  {
    if |app.tasks[i].children| > 0 {
      EarliestDeadlineIsMin(app, rank, time, m, app.tasks[i].children, time[i], rank[i]);
    }
  }

  /** Latest starts are never negative. */
  lemma {:induction false} LatestNonNegative(app: Application, rank: seq<nat>, time: seq<real>, m: real, i: nat)
    requires Ranked(app, rank) && |time| == |app.tasks| && i < |app.tasks|
    ensures Latest(app, rank, time, m, i) >= 0.0
  {
    if |app.tasks[i].children| > 0 {
      EarliestDeadlineIsMin(app, rank, time, m, app.tasks[i].children, time[i], rank[i]);
    }
  }

  /** With non-negative durations no task starts before time 0. */
  lemma {:induction false} EarliestNonNegative(app: Application, rank: seq<nat>, time: seq<real>, i: nat)
    requires Ranked(app, rank) && |time| == |app.tasks| && i < |app.tasks|
    requires forall j :: 0 <= j < |time| ==> time[j] >= 0.0
    ensures Earliest(app, rank, time, i) >= 0.0
    decreases rank[i]
  {
    var ps := app.tasks[i].parents;
    if |ps| > 0 {
      LatestFinishIsMax(app, rank, time, ps, rank[i]);
      var p :| p in ps && Earliest(app, rank, time, i) == Earliest(app, rank, time, p) + time[p];
      EarliestNonNegative(app, rank, time, p);
    }
  }

  lemma {:induction false} ClampAtLeast(x: real, y: real)
    requires x >= y
    ensures Clamp(x) >= y
  {
  }

  /** When m is no smaller than the finish of every leaf, every task's latest
      start is at or after its earliest start: slack is never negative, with
      or without the floor at 0. */
  lemma {:induction false} SlackNonNegative(app: Application, rank: seq<nat>, time: seq<real>, m: real, i: nat)
    requires WellFormed(app, rank) && |time| == |app.tasks| && i < |app.tasks|
    requires forall l :: 0 <= l < |app.tasks| && |app.tasks[l].children| == 0 ==>
      m >= Earliest(app, rank, time, l) + time[l]
    ensures Latest(app, rank, time, m, i) >= Earliest(app, rank, time, i)
    decreases |app.tasks| - rank[i]
  {
    var cs := app.tasks[i].children;
    if |cs| > 0 {
      EarliestDeadlineIsMin(app, rank, time, m, cs, time[i], rank[i]);
      var c :| c in cs && Latest(app, rank, time, m, i) == Clamp(Latest(app, rank, time, m, c) - time[i]);
      SlackNonNegative(app, rank, time, m, c);
      assert i in app.tasks[c].parents;
      EarliestAfterParents(app, rank, time, c);
      var li, lc := Latest(app, rank, time, m, i), Latest(app, rank, time, m, c);
      var ei, ec := Earliest(app, rank, time, i), Earliest(app, rank, time, c);
      assert li == Clamp(lc - time[i]) && lc >= ec && ec >= ei + time[i];
      ClampAtLeast(lc - time[i], ei);
    }
  }

  /** With non-negative durations and a deadline no earlier than every leaf's
      finish, the floor at 0 in Latest never bites: a task started at its
      latest start finishes by every child's latest start, and a leaf
      finishes by m. So Latest agrees with the unfloored minimum over paths
      of m minus the path's durations. */
  lemma {:induction false} FloorInert(app: Application, rank: seq<nat>, time: seq<real>, m: real, i: nat)
    requires WellFormed(app, rank) && |time| == |app.tasks| && i < |app.tasks|
    requires forall j :: 0 <= j < |time| ==> time[j] >= 0.0
    requires forall l :: 0 <= l < |app.tasks| && |app.tasks[l].children| == 0 ==>
      m >= Earliest(app, rank, time, l) + time[l]
    ensures |app.tasks[i].children| == 0 ==> Latest(app, rank, time, m, i) + time[i] <= m
    ensures forall c :: c in app.tasks[i].children ==>
      Latest(app, rank, time, m, i) + time[i] <= Latest(app, rank, time, m, c)
    ensures |app.tasks[i].children| == 0 ==> Latest(app, rank, time, m, i) == m - time[i]
    ensures |app.tasks[i].children| > 0 ==> exists c :: (c in app.tasks[i].children &&
      Latest(app, rank, time, m, i) == Latest(app, rank, time, m, c) - time[i])
  {
    LatestNonNegative(app, rank, time, m, i);
    if |app.tasks[i].children| > 0 {
      EarliestDeadlineIsMin(app, rank, time, m, app.tasks[i].children, time[i], rank[i]);
    }
    EarliestNonNegative(app, rank, time, i);
    LatestBeforeChildren(app, rank, time, m, i);
    forall c | c in app.tasks[i].children
      ensures Latest(app, rank, time, m, i) + time[i] <= Latest(app, rank, time, m, c)
    {
      assert i in app.tasks[c].parents;
      SlackNonNegative(app, rank, time, m, c);
      EarliestAfterParents(app, rank, time, c);
    }
  }
}
