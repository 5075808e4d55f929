/**
  The profile of an application: per task an earliest start (ASAP), a latest
  start (ALAP), the slack between them (Mobility) and the averaged duration the
  three are derived from, together with the conditions the relaxation passes
  keep and the makespan over the leaves.
*/
module ProfileState {
  import opened TaskGraph
  import opened Schedule

  /** A start time or its "not yet constrained" sentinel. In the ASAP array the
      sentinel stands for minus infinity, in the ALAP array for plus infinity. */
  datatype Bound = Unbounded | At(value: real)

  datatype Profile = Profile(asap: seq<Bound>, alap: seq<Bound>, mobility: seq<real>, time: seq<real>)

  /** All four per-task arrays have one entry per task. */
  predicate Shaped(p: Profile, n: nat) {
    |p.asap| == n && |p.alap| == n && |p.mobility| == n && |p.time| == n
  }

  /** An ASAP entry went from a to b without moving earlier. */
  predicate NoEarlier(a: Bound, b: Bound) {
    a.At? ==> b.At? && b.value >= a.value
  }

  /** An ALAP entry went from a to b without moving later. */
  predicate NoLater(a: Bound, b: Bound) {
    a.At? ==> b.At? && b.value <= a.value
  }

  /** Edge j -> c, read forward: once j has a start, c starts no earlier than j finishes. */
  predicate ForwardEdgeHolds(p: Profile, j: nat, c: nat)
    requires j < |p.asap| && c < |p.asap| && j < |p.time|
  {
    p.asap[j].At? ==> p.asap[c].At? && p.asap[c].value >= p.asap[j].value + p.time[j]
  }

  /** Edge j -> c, read backward (j a parent of c): once c has a latest start,
      j has one that leaves room for j's own duration before it, floored at 0. */
  predicate BackwardEdgeHolds(p: Profile, c: nat, j: nat)
    requires c < |p.alap| && j < |p.alap| && j < |p.time|
  {
    p.alap[c].At? ==> p.alap[j].At? && p.alap[j].value <= Clamp(p.alap[c].value - p.time[j])
  }

  predicate ForwardClosed(app: Application, p: Profile)
    requires EdgesInRange(app) && Shaped(p, |app.tasks|)
  {
    forall j, c :: 0 <= j < |app.tasks| && c in app.tasks[j].children ==> ForwardEdgeHolds(p, j, c)
  }

  predicate BackwardClosed(app: Application, p: Profile)
    requires EdgesInRange(app) && Shaped(p, |app.tasks|)
  {
    forall c, j :: 0 <= c < |app.tasks| && j in app.tasks[c].parents ==> BackwardEdgeHolds(p, c, j)
  }

  /** No ASAP entry exceeds the longest-path value. */
  predicate ForwardSound(app: Application, rank: seq<nat>, p: Profile)
    requires Ranked(app, rank) && Shaped(p, |app.tasks|)
  {
    forall j :: 0 <= j < |app.tasks| && p.asap[j].At? ==> p.asap[j].value <= Earliest(app, rank, p.time, j)
  }

  /** No ALAP entry lies below the reference latest start for makespan m. */
  predicate BackwardSound(app: Application, rank: seq<nat>, m: real, p: Profile)
    requires Ranked(app, rank) && Shaped(p, |app.tasks|)
  {
    forall j :: 0 <= j < |app.tasks| && p.alap[j].At? ==> p.alap[j].value >= Latest(app, rank, p.time, m, j)
  }

  /** How an ALAP update at task j shows in the profile: an unchanged latest
      start keeps its mobility; a changed one is at least 0 and comes with the
      mobility recomputed from it. */
  predicate MobilityFollows(p: Profile, q: Profile, j: nat)
    requires j < |p.alap| && j < |p.mobility| && j < |q.alap| && j < |q.asap| && j < |q.mobility|
  {
    if q.alap[j] == p.alap[j] then
      q.mobility[j] == p.mobility[j]
    else
      q.alap[j].At? && q.alap[j].value >= 0.0 && q.asap[j].At? &&
      q.mobility[j] == Clamp(q.alap[j].value - q.asap[j].value)
  }

  /** q arises from p by forward relaxation: only ASAP entries move, none of
      them earlier; every edge that held still holds, and every edge out of a
      task whose start moved holds. */
  predicate ForwardRefines(app: Application, p: Profile, q: Profile)
    requires EdgesInRange(app) && Shaped(p, |app.tasks|) && Shaped(q, |app.tasks|)
  {
    && q.alap == p.alap && q.mobility == p.mobility && q.time == p.time
    && (forall j :: 0 <= j < |app.tasks| ==> NoEarlier(p.asap[j], q.asap[j]))
    && (forall j, c :: 0 <= j < |app.tasks| && c in app.tasks[j].children && ForwardEdgeHolds(p, j, c) ==>
          ForwardEdgeHolds(q, j, c))
    && (forall j, c :: 0 <= j < |app.tasks| && c in app.tasks[j].children && q.asap[j] != p.asap[j] ==>
          ForwardEdgeHolds(q, j, c))
  }

  /** q arises from p by backward relaxation: ASAP and durations are untouched,
      ALAP entries only move earlier, mobility follows every ALAP change, every
      edge that held still holds, and every edge into a task whose latest start
      moved holds. */
  predicate BackwardRefines(app: Application, p: Profile, q: Profile)
    requires EdgesInRange(app) && Shaped(p, |app.tasks|) && Shaped(q, |app.tasks|)
  {
    && q.asap == p.asap && q.time == p.time
    && (forall j :: 0 <= j < |app.tasks| ==> NoLater(p.alap[j], q.alap[j]))
    && (forall j :: 0 <= j < |app.tasks| ==> MobilityFollows(p, q, j))
    && (forall c, j :: 0 <= c < |app.tasks| && j in app.tasks[c].parents && BackwardEdgeHolds(p, c, j) ==>
          BackwardEdgeHolds(q, c, j))
    && (forall c, j :: 0 <= c < |app.tasks| && j in app.tasks[c].parents && q.alap[c] != p.alap[c] ==>
          BackwardEdgeHolds(q, c, j))
  }

  lemma {:induction false} ForwardRefinesTransitive(app: Application, p: Profile, q: Profile, r: Profile)
    requires EdgesInRange(app) && Shaped(p, |app.tasks|) && Shaped(q, |app.tasks|) && Shaped(r, |app.tasks|)
    requires ForwardRefines(app, p, q) && ForwardRefines(app, q, r)
    ensures ForwardRefines(app, p, r)
  {
  }

  lemma {:induction false} BackwardRefinesTransitive(app: Application, p: Profile, q: Profile, r: Profile)
    requires EdgesInRange(app) && Shaped(p, |app.tasks|) && Shaped(q, |app.tasks|) && Shaped(r, |app.tasks|)
    requires BackwardRefines(app, p, q) && BackwardRefines(app, q, r)
    ensures BackwardRefines(app, p, r)
  {
    forall j | 0 <= j < |app.tasks|
      ensures MobilityFollows(p, r, j)
    {
      assert NoLater(p.alap[j], q.alap[j]) && NoLater(q.alap[j], r.alap[j]);
      assert MobilityFollows(p, q, j) && MobilityFollows(q, r, j);
    }
  }

  lemma {:induction false} ForwardClosedKept(app: Application, p: Profile, q: Profile)
    requires EdgesInRange(app) && Shaped(p, |app.tasks|) && Shaped(q, |app.tasks|)
    requires ForwardClosed(app, p) && ForwardRefines(app, p, q)
    ensures ForwardClosed(app, q)
  {
  }

  lemma {:induction false} BackwardClosedKept(app: Application, p: Profile, q: Profile)
    requires EdgesInRange(app) && Shaped(p, |app.tasks|) && Shaped(q, |app.tasks|)
    requires BackwardClosed(app, p) && BackwardRefines(app, p, q)
    ensures BackwardClosed(app, q)
  {
  }

  /** The total length of the schedule: the largest finish time over `leafs`,
      starting from 0 and scanning them in order. An unset start (minus
      infinity) never raises it. */
  function Makespan(asap: seq<Bound>, time: seq<real>, leafs: seq<nat>): (r: real)
    requires |asap| == |time|
    requires forall l :: l in leafs ==> l < |asap|
    ensures r >= 0.0
    ensures forall l :: l in leafs && asap[l].At? ==> r >= asap[l].value + time[l]
    ensures r == 0.0 || exists l :: l in leafs && asap[l].At? && r == asap[l].value + time[l]
  {
    if |leafs| == 0 then 0.0
    else
      var front, l := leafs[..|leafs| - 1], leafs[|leafs| - 1];
      assert leafs == front + [l];
      assert l in leafs && forall x :: x in front ==> x in leafs;
      var total := Makespan(asap, time, front);
      if asap[l].At? && asap[l].value + time[l] > total then asap[l].value + time[l] else total
  }
}
