/**
  NewProfile: average the durations, relax forward from every root, take the
  makespan over the leaves, relax backward from every leaf. The passes are
  proved to reach the reference bounds of the Schedule module exactly.
*/
module Profiling {
  import opened TaskGraph
  import opened Durations
  import opened Schedule
  import opened ProfileState
  import opened Relaxation

  /** A profile in which every forward edge holds, every root has a start of
      at least 0 and no start exceeds its reference value carries exactly the
      reference earliest starts. */
  lemma {:induction false} ForwardFixpoint(app: Application, rank: seq<nat>, q: Profile, j: nat)
    requires WellFormed(app, rank) && Shaped(q, |app.tasks|) && j < |app.tasks|
    requires ForwardClosed(app, q) && ForwardSound(app, rank, q)
    requires forall r :: 0 <= r < |app.tasks| && |app.tasks[r].parents| == 0 ==> q.asap[r].At? && q.asap[r].value >= 0.0
    ensures q.asap[j] == At(Earliest(app, rank, q.time, j))
    decreases rank[j]
  {
    var ps := app.tasks[j].parents;
    if |ps| > 0 {
      forall p | p in ps
        ensures q.asap[j].At? && q.asap[j].value >= Earliest(app, rank, q.time, p) + q.time[p]
      {
        ForwardFixpoint(app, rank, q, p);
        assert j in app.tasks[p].children;
        assert ForwardEdgeHolds(q, p, j);
      }
      LatestFinishIsMax(app, rank, q.time, ps, rank[j]);
    }
  }

  /** A profile in which every backward edge holds, every leaf's latest start
      leaves room to finish by m and no latest start is below its reference
      value carries exactly the reference latest starts. */
  lemma {:induction false} BackwardFixpoint(app: Application, rank: seq<nat>, m: real, q: Profile, j: nat)
    requires WellFormed(app, rank) && Shaped(q, |app.tasks|) && j < |app.tasks|
    requires BackwardClosed(app, q) && BackwardSound(app, rank, m, q)
    requires forall l :: 0 <= l < |app.tasks| && |app.tasks[l].children| == 0 ==>
      q.alap[l].At? && q.alap[l].value <= Clamp(m - q.time[l])
    ensures q.alap[j] == At(Latest(app, rank, q.time, m, j))
    decreases |app.tasks| - rank[j]
  {
    var cs := app.tasks[j].children;
    if |cs| > 0 {
      forall c | c in cs
        ensures q.alap[j].At? && q.alap[j].value <= Clamp(Latest(app, rank, q.time, m, c) - q.time[j])
      {
        BackwardFixpoint(app, rank, m, q, c);
        assert j in app.tasks[c].parents;
        assert BackwardEdgeHolds(q, c, j);
      }
      EarliestDeadlineIsMin(app, rank, q.time, m, cs, q.time[j], rank[j]);
    }
  }

  lemma {:induction false} ForwardFixpointAll(app: Application, rank: seq<nat>, q: Profile)
    requires WellFormed(app, rank) && Shaped(q, |app.tasks|)
    requires ForwardClosed(app, q) && ForwardSound(app, rank, q)
    requires forall r :: r in Roots(app) ==> q.asap[r].At? && q.asap[r].value >= 0.0
    ensures forall j :: 0 <= j < |app.tasks| ==> q.asap[j] == At(Earliest(app, rank, q.time, j))
  {
    forall j | 0 <= j < |app.tasks|
      ensures q.asap[j] == At(Earliest(app, rank, q.time, j))
    {
      ForwardFixpoint(app, rank, q, j);
    }
  }

  lemma {:induction false} BackwardFixpointAll(app: Application, rank: seq<nat>, m: real, q: Profile)
    requires WellFormed(app, rank) && Shaped(q, |app.tasks|)
    requires BackwardClosed(app, q) && BackwardSound(app, rank, m, q)
    requires forall l :: l in Leafs(app) ==> q.alap[l].At? && q.alap[l].value <= Clamp(m - q.time[l])
    ensures forall j :: 0 <= j < |app.tasks| ==> q.alap[j] == At(Latest(app, rank, q.time, m, j))
  {
    forall j | 0 <= j < |app.tasks|
      ensures q.alap[j] == At(Latest(app, rank, q.time, m, j))
    {
      BackwardFixpoint(app, rank, m, q, j);
    }
  }

  /** The forward pass: relax from every root, in ascending order, with start 0. */
  method ForwardPass(app: Application, ghost rank: seq<nat>, p: Profile) returns (q: Profile)
    requires WellFormed(app, rank) && Shaped(p, |app.tasks|)
    requires forall j :: 0 <= j < |app.tasks| ==> p.asap[j] == Unbounded
    ensures Shaped(q, |app.tasks|)
    ensures q.alap == p.alap && q.mobility == p.mobility && q.time == p.time
    ensures forall j :: 0 <= j < |app.tasks| ==> q.asap[j] == At(Earliest(app, rank, p.time, j))
    ensures forall r :: r in Roots(app) ==> q.asap[r] == At(0.0)
    ensures forall j, c :: 0 <= j < |app.tasks| && c in app.tasks[j].children ==>
      q.asap[c].value >= q.asap[j].value + q.time[j]
  {
    var roots := Roots(app);
    q := p;
    var k := 0;
    while k < |roots|
      invariant 0 <= k <= |roots|
      invariant Shaped(q, |app.tasks|) && ForwardRefines(app, p, q)
      invariant ForwardClosed(app, q) && ForwardSound(app, rank, q)
      invariant forall r :: r in roots && r in roots[..k] ==> q.asap[r].At? && q.asap[r].value >= 0.0
    {
      var r := roots[k];
      assert r in roots;
      var before := q;
      q := PropagateASAP(app, rank, before, r, 0.0);
      ForwardStep(app, p, before, q, roots, k);
      k := k + 1;
    }
    assert roots[..k] == roots;
    ForwardFixpointAll(app, rank, q);
  }

  /** One root of the forward pass keeps the loop's invariant. */
  lemma {:induction false} ForwardStep(app: Application, p: Profile, before: Profile, q: Profile, roots: seq<nat>, k: nat)
    requires EdgesInRange(app) && Shaped(p, |app.tasks|) && Shaped(before, |app.tasks|) && Shaped(q, |app.tasks|)
    requires roots == Roots(app) && k < |roots|
    requires ForwardRefines(app, p, before) && ForwardClosed(app, before)
    requires forall r :: r in roots && r in roots[..k] ==> before.asap[r].At? && before.asap[r].value >= 0.0
    requires ForwardRefines(app, before, q)
    requires q.asap[roots[k]].At? && q.asap[roots[k]].value >= 0.0
    ensures ForwardRefines(app, p, q) && ForwardClosed(app, q)
    ensures forall r :: r in roots && r in roots[..k + 1] ==> q.asap[r].At? && q.asap[r].value >= 0.0
  {
    assert roots[..k + 1] == roots[..k] + [roots[k]];
    ForwardRefinesTransitive(app, p, before, q);
    ForwardClosedKept(app, before, q);
    forall r | r in roots && r in roots[..k]
      ensures q.asap[r].At? && q.asap[r].value >= 0.0
    {
      assert NoEarlier(before.asap[r], q.asap[r]);
    }
  }

  /** The backward pass: relax from every leaf, in ascending order, with deadline m. */
  method BackwardPass(app: Application, ghost rank: seq<nat>, p: Profile, m: real) returns (q: Profile)
    requires WellFormed(app, rank) && Shaped(p, |app.tasks|)
    requires forall j :: 0 <= j < |app.tasks| ==> p.asap[j].At? && p.alap[j] == Unbounded
    ensures Shaped(q, |app.tasks|)
    ensures q.asap == p.asap && q.time == p.time
    ensures forall j :: 0 <= j < |app.tasks| ==> q.alap[j] == At(Latest(app, rank, p.time, m, j))
    ensures forall j :: 0 <= j < |app.tasks| ==> q.mobility[j] == Clamp(q.alap[j].value - q.asap[j].value)
    ensures forall l :: l in Leafs(app) ==> q.alap[l].value <= Clamp(m - q.time[l])
    ensures forall c, j :: 0 <= c < |app.tasks| && j in app.tasks[c].parents ==>
      q.alap[j].value <= Clamp(q.alap[c].value - q.time[j])
  {
    var leafs := Leafs(app);
    q := p;
    var k := 0;
    while k < |leafs|
      invariant 0 <= k <= |leafs|
      invariant Shaped(q, |app.tasks|) && BackwardRefines(app, p, q)
      invariant BackwardClosed(app, q) && BackwardSound(app, rank, m, q)
      invariant forall l :: l in leafs && l in leafs[..k] ==> q.alap[l].At? && q.alap[l].value <= Clamp(m - q.time[l])
    {
      var l := leafs[k];
      assert l in leafs;
      var before := q;
      q := PropagateALAP(app, rank, m, before, l, m);
      BackwardStep(app, rank, m, p, before, q, leafs, k);
      k := k + 1;
    }
    assert leafs[..k] == leafs;
    BackwardFixpointAll(app, rank, m, q);
    BackwardMobility(app, p, q);
  }

  /** One leaf of the backward pass keeps the loop's invariant. */
  lemma {:induction false} BackwardStep(app: Application, rank: seq<nat>, m: real, p: Profile, before: Profile, q: Profile,
                                        leafs: seq<nat>, k: nat)
    requires WellFormed(app, rank) && Shaped(p, |app.tasks|) && Shaped(before, |app.tasks|) && Shaped(q, |app.tasks|)
    requires leafs == Leafs(app) && k < |leafs|
    requires BackwardRefines(app, p, before) && BackwardClosed(app, before)
    requires forall l :: l in leafs && l in leafs[..k] ==> before.alap[l].At? && before.alap[l].value <= Clamp(m - before.time[l])
    requires BackwardRefines(app, before, q)
    requires q.alap[leafs[k]].At? && q.alap[leafs[k]].value <= Clamp(m - before.time[leafs[k]])
    ensures BackwardRefines(app, p, q) && BackwardClosed(app, q)
    ensures forall l :: l in leafs && l in leafs[..k + 1] ==> q.alap[l].At? && q.alap[l].value <= Clamp(m - q.time[l])
  {
    assert leafs[..k + 1] == leafs[..k] + [leafs[k]];
    BackwardRefinesTransitive(app, p, before, q);
    BackwardClosedKept(app, before, q);
    forall l | l in leafs && l in leafs[..k]
      ensures q.alap[l].At? && q.alap[l].value <= Clamp(m - q.time[l])
    {
      assert NoLater(before.alap[l], q.alap[l]);
    }
  }

  /** A backward pass that only ever set latest starts through relaxation
      leaves every task's mobility equal to its floored slack. */
  lemma {:induction false} BackwardMobility(app: Application, p: Profile, q: Profile)
    requires EdgesInRange(app) && Shaped(p, |app.tasks|) && Shaped(q, |app.tasks|)
    requires forall j :: 0 <= j < |app.tasks| ==> p.alap[j] == Unbounded && q.alap[j].At? && q.asap[j].At?
    requires BackwardRefines(app, p, q)
    ensures forall j :: 0 <= j < |app.tasks| ==> q.mobility[j] == Clamp(q.alap[j].value - q.asap[j].value)
  {
    forall j | 0 <= j < |app.tasks|
      ensures q.mobility[j] == Clamp(q.alap[j].value - q.asap[j].value)
    {
      assert MobilityFollows(p, q, j);
    }
  }

  /** The profile of an application on a platform. */
  method NewProfile(platform: Platform, app: Application, ghost rank: seq<nat>) returns (prof: Profile)
    requires WellFormed(app, rank) && Covers(platform, app)
    ensures Shaped(prof, |app.tasks|)
    ensures forall i :: 0 <= i < |app.tasks| ==> prof.time[i] == AverageTime(platform, app.tasks[i].kind)
    ensures forall i :: 0 <= i < |app.tasks| ==> prof.asap[i] == At(Earliest(app, rank, prof.time, i))
    ensures forall i :: 0 <= i < |app.tasks| ==>
      prof.alap[i] == At(Latest(app, rank, prof.time, Makespan(prof.asap, prof.time, Leafs(app)), i))
    ensures forall i :: 0 <= i < |app.tasks| ==>
      prof.mobility[i] == prof.alap[i].value - prof.asap[i].value && prof.mobility[i] >= 0.0
  {
    var n := |app.tasks|;
    var time := AverageTimes(platform, app);
    prof := Profile(seq(n, _ => Unbounded), seq(n, _ => Unbounded), seq(n, _ => 0.0), time);
    prof := ForwardPass(app, rank, prof);
    var leafs := Leafs(app);
    var total := Makespan(prof.asap, prof.time, leafs);
    prof := BackwardPass(app, rank, prof, total);
    forall i | 0 <= i < n
      ensures prof.mobility[i] == prof.alap[i].value - prof.asap[i].value
    {
      SlackNonNegative(app, rank, prof.time, total, i);
    }
  }

  /** With non-negative durations and a non-empty application, some leaf is
      critical: it finishes exactly at the makespan and has no slack. */
  lemma {:induction false} CriticalLeaf(app: Application, rank: seq<nat>, time: seq<real>, asap: seq<Bound>)
    requires WellFormed(app, rank) && |app.tasks| > 0
    requires |time| == |app.tasks| && forall j :: 0 <= j < |time| ==> time[j] >= 0.0
    requires |asap| == |app.tasks| && forall j :: 0 <= j < |asap| ==> asap[j] == At(Earliest(app, rank, time, j))
    ensures exists l :: (l in Leafs(app)
      && Earliest(app, rank, time, l) + time[l] == Makespan(asap, time, Leafs(app))
      && Latest(app, rank, time, Makespan(asap, time, Leafs(app)), l) == Earliest(app, rank, time, l))
  {
    var leafs := Leafs(app);
    var m := Makespan(asap, time, leafs);
    SinkExists(app, rank);
    var l: nat := leafs[0];
    if m != 0.0 {
      l :| l in leafs && asap[l].At? && m == asap[l].value + time[l];
    }
    assert l in leafs;
    var e := Earliest(app, rank, time, l);
    EarliestNonNegative(app, rank, time, l);
    assert m >= e + time[l];
    LeafWithoutSlack(app, rank, time, m, l);
  }

  /** A leaf that finishes exactly at m has its latest start equal to its
      earliest start. */
  lemma {:induction false} LeafWithoutSlack(app: Application, rank: seq<nat>, time: seq<real>, m: real, l: nat)
    requires Ranked(app, rank) && |time| == |app.tasks| && l < |app.tasks|
    requires |app.tasks[l].children| == 0 && time[l] >= 0.0 && Earliest(app, rank, time, l) >= 0.0
    requires m == Earliest(app, rank, time, l) + time[l]
    ensures Latest(app, rank, time, m, l) == Earliest(app, rank, time, l)
  {
  }
}
