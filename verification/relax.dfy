/**
  The two relaxations the profiler runs. Each call takes the current profile and
  returns the next one; it only ever raises ASAP entries (forward) or lowers
  ALAP entries (backward), and stops as soon as a candidate does not improve
  the task it reaches.
*/
module Relaxation {
  import opened TaskGraph
  import opened Schedule
  import opened ProfileState

  /** Forward relaxation at task i with candidate start t: if ASAP[i] already
      reaches t nothing happens; otherwise ASAP[i] becomes t and every child is
      relaxed with i's finish time t + time[i]. Only i and tasks ranked above it
      can change. */
  method PropagateASAP(app: Application, ghost rank: seq<nat>, p: Profile, i: nat, t: real) returns (q: Profile)
    requires WellFormed(app, rank) && Shaped(p, |app.tasks|) && i < |app.tasks|
    ensures Shaped(q, |app.tasks|) && ForwardRefines(app, p, q)
    ensures p.asap[i].At? && p.asap[i].value >= t ==> q == p
    ensures !(p.asap[i].At? && p.asap[i].value >= t) ==> q.asap[i] == At(t)
    ensures q.asap[i].At? && q.asap[i].value >= t
    ensures forall j :: 0 <= j < |app.tasks| && j != i && rank[j] <= rank[i] ==> q.asap[j] == p.asap[j]
    ensures ForwardSound(app, rank, p) && t <= Earliest(app, rank, p.time, i) ==> ForwardSound(app, rank, q)
    decreases |app.tasks| - rank[i]
  {
    if p.asap[i].At? && p.asap[i].value >= t {
      return p;
    }
    var raised := p.(asap := p.asap[i := At(t)]);
    q := raised;
    var finish := t + p.time[i];
    var children := app.tasks[i].children;
    var k := 0;
    while k < |children|
      invariant 0 <= k <= |children|
      invariant Shaped(q, |app.tasks|) && ForwardRefines(app, raised, q)
      invariant forall j :: 0 <= j < |app.tasks| && rank[j] <= rank[i] ==> q.asap[j] == raised.asap[j]
      invariant forall c :: c in children && c in children[..k] ==> ForwardEdgeHolds(q, i, c)
      invariant ForwardSound(app, rank, p) && t <= Earliest(app, rank, p.time, i) ==> ForwardSound(app, rank, q)
    {
      var c := children[k];
      assert c in app.tasks[i].children;
      assert i in app.tasks[c].parents;
      EarliestAfterParents(app, rank, p.time, c);
      assert children[..k + 1] == children[..k] + [c];
      var before := q;
      q := PropagateASAP(app, rank, before, c, finish);
      ForwardRefinesTransitive(app, raised, before, q);
      k := k + 1;
    }
    assert children[..k] == children;
    RaiseRefines(app, p, raised, q, i, t);
  }

  /** Raising ASAP[i] to t and then relaxing until every edge out of i holds
      is a forward refinement of the starting profile. */
  lemma {:induction false} RaiseRefines(app: Application, p: Profile, raised: Profile, q: Profile, i: nat, t: real)
    requires EdgesInRange(app) && Shaped(p, |app.tasks|) && Shaped(q, |app.tasks|) && i < |app.tasks|
    requires !(p.asap[i].At? && p.asap[i].value >= t)
    requires raised == p.(asap := p.asap[i := At(t)])
    requires ForwardRefines(app, raised, q)
    requires forall c :: c in app.tasks[i].children ==> ForwardEdgeHolds(q, i, c)
    ensures ForwardRefines(app, p, q)
  {
    assert forall j :: 0 <= j < |app.tasks| ==> NoEarlier(p.asap[j], raised.asap[j]);
  }

  /** Backward relaxation at task i with candidate deadline t: the candidate
      latest start is t - time[i], floored at 0; if ALAP[i] is already no later
      nothing happens; otherwise ALAP[i] becomes the candidate, Mobility[i] is
      recomputed from it, and every parent is relaxed with it as deadline. Only
      i and tasks ranked below it can change. */
  method PropagateALAP(app: Application, ghost rank: seq<nat>, ghost m: real, p: Profile, i: nat, t: real)
    returns (q: Profile)
    requires WellFormed(app, rank) && Shaped(p, |app.tasks|) && i < |app.tasks|
    requires forall j :: 0 <= j < |app.tasks| ==> p.asap[j].At?
    ensures Shaped(q, |app.tasks|) && BackwardRefines(app, p, q)
    ensures p.alap[i].At? && Clamp(t - p.time[i]) >= p.alap[i].value ==> q == p
    ensures !(p.alap[i].At? && Clamp(t - p.time[i]) >= p.alap[i].value) ==>
      q.alap[i] == At(Clamp(t - p.time[i])) && q.mobility[i] == Clamp(q.alap[i].value - q.asap[i].value)
    ensures q.alap[i].At? && q.alap[i].value <= Clamp(t - p.time[i])
    ensures forall j :: 0 <= j < |app.tasks| && j != i && rank[j] >= rank[i] ==> q.alap[j] == p.alap[j]
    ensures BackwardSound(app, rank, m, p) && Clamp(t - p.time[i]) >= Latest(app, rank, p.time, m, i) ==>
      BackwardSound(app, rank, m, q)
    decreases rank[i]
  {
    var start := if t > p.time[i] then t - p.time[i] else 0.0;
    if p.alap[i].At? && start >= p.alap[i].value {
      return p;
    }
    var slack := if start > p.asap[i].value then start - p.asap[i].value else 0.0;
    var lowered := p.(alap := p.alap[i := At(start)], mobility := p.mobility[i := slack]);
    q := lowered;
    var parents := app.tasks[i].parents;
    var k := 0;
    while k < |parents|
      invariant 0 <= k <= |parents|
      invariant Shaped(q, |app.tasks|) && BackwardRefines(app, lowered, q)
      invariant forall j :: 0 <= j < |app.tasks| && rank[j] >= rank[i] ==> q.alap[j] == lowered.alap[j]
      invariant forall j :: j in parents && j in parents[..k] ==> BackwardEdgeHolds(q, i, j)
      invariant BackwardSound(app, rank, m, p) && start >= Latest(app, rank, p.time, m, i) ==>
        BackwardSound(app, rank, m, q)
    {
      var j := parents[k];
      assert j in app.tasks[i].parents;
      assert i in app.tasks[j].children;
      LatestBeforeChildren(app, rank, p.time, m, j);
      assert parents[..k + 1] == parents[..k] + [j];
      var before := q;
      q := PropagateALAP(app, rank, m, before, j, start);
      BackwardRefinesTransitive(app, lowered, before, q);
      k := k + 1;
    }
    assert parents[..k] == parents;
    assert MobilityFollows(lowered, q, i);
    LowerRefines(app, p, lowered, q, i, start);
  }

  /** Lowering ALAP[i] to s (with its mobility) and then relaxing until every
      edge into i's parents holds is a backward refinement of the starting profile. */
  lemma {:induction false} LowerRefines(app: Application, p: Profile, lowered: Profile, q: Profile, i: nat, s: real)
    requires EdgesInRange(app) && Shaped(p, |app.tasks|) && Shaped(q, |app.tasks|) && i < |app.tasks|
    requires s >= 0.0 && p.asap[i].At? && !(p.alap[i].At? && s >= p.alap[i].value)
    requires lowered == p.(alap := p.alap[i := At(s)], mobility := p.mobility[i := Clamp(s - p.asap[i].value)])
    requires BackwardRefines(app, lowered, q)
    requires forall j :: j in app.tasks[i].parents ==> BackwardEdgeHolds(q, i, j)
    ensures BackwardRefines(app, p, q)
  {
    assert forall j :: 0 <= j < |app.tasks| ==> NoLater(p.alap[j], lowered.alap[j]);
    forall j | 0 <= j < |app.tasks|
      ensures MobilityFollows(p, q, j)
    {
      assert MobilityFollows(p, lowered, j) && MobilityFollows(lowered, q, j);
    }
  }
}
