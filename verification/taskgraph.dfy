/**
  The task graph of an application: an index-addressed sequence of tasks whose
  `parents` and `children` lists hold indices into the same sequence, and the
  three structural queries the profiling engine relies on.
*/
module TaskGraph {

  /** One unit of work. `kind` selects the execution time in every core's table;
      `id` is carried along but never consulted: a task is addressed by its position. */
  datatype Task = Task(id: nat, kind: nat, parents: seq<nat>, children: seq<nat>)

  datatype Application = Application(tasks: seq<Task>)

  predicate StrictlyAscending(s: seq<nat>) {
    forall a, b :: 0 <= a < b < |s| ==> s[a] < s[b]
  }

  /** The indices below `n` accepted by `keep`, scanned upwards from 0. */
  function Select(n: nat, keep: nat -> bool): (r: seq<nat>)
    ensures forall x: nat :: x in r <==> x < n && keep(x)
    ensures forall k :: 0 <= k < |r| ==> r[k] < n
    ensures StrictlyAscending(r)
    ensures |r| <= n
  {
    if n == 0 then []
    else Select(n - 1, keep) + (if keep(n - 1) then [n - 1] else [])
  }

  /** Number of tasks; no structural query returns more indices than this. */
  function Len(app: Application): (r: nat)
    ensures r == |app.tasks|
    ensures |Roots(app)| <= r && |Leafs(app)| <= r
  {
    |app.tasks|
  }

  /** Indices of the tasks without parents, in ascending order. */
  function Roots(app: Application): (r: seq<nat>)
    ensures forall i: nat :: i in r <==> i < |app.tasks| && |app.tasks[i].parents| == 0
    ensures forall k :: 0 <= k < |r| ==> r[k] < |app.tasks|
    ensures StrictlyAscending(r)
  {
    Select(|app.tasks|, (i: nat) => i < |app.tasks| && |app.tasks[i].parents| == 0)
  }

  /** Indices of the tasks without children, in ascending order. */
  function Leafs(app: Application): (r: seq<nat>)
    ensures forall i: nat :: i in r <==> i < |app.tasks| && |app.tasks[i].children| == 0
    ensures forall k :: 0 <= k < |r| ==> r[k] < |app.tasks|
    ensures StrictlyAscending(r)
  {
    Select(|app.tasks|, (i: nat) => i < |app.tasks| && |app.tasks[i].children| == 0)
  }

  /** A task with no edges at all is both a root and a leaf. */
  lemma {:induction false} IsolatedTaskIsRootAndLeaf(app: Application, i: nat)
    requires i < |app.tasks|
    requires |app.tasks[i].parents| == 0 && |app.tasks[i].children| == 0
    ensures i in Roots(app) && i in Leafs(app)
  {
  }

  /** Every parent and child index names a task of the application. */
  predicate EdgesInRange(app: Application) {
    && (forall i, p :: 0 <= i < |app.tasks| && p in app.tasks[i].parents ==> p < |app.tasks|)
    && (forall i, c :: 0 <= i < |app.tasks| && c in app.tasks[i].children ==> c < |app.tasks|)
  }

  /** `rank` is a topological numbering of the tasks: every parent ranks below
      its task and every child above it. Such a numbering exists exactly when
      the graph is acyclic; it is the termination witness of both relaxations. */
  predicate Ranked(app: Application, rank: seq<nat>) {
    && EdgesInRange(app)
    && |rank| == |app.tasks|
    && (forall i :: 0 <= i < |rank| ==> rank[i] < |rank|)
    && (forall i, p :: 0 <= i < |app.tasks| && p in app.tasks[i].parents ==> rank[p] < rank[i])
    && (forall i, c :: 0 <= i < |app.tasks| && c in app.tasks[i].children ==> rank[i] < rank[c])
  }

  /** c is a child of i exactly when i is a parent of c. */
  predicate Symmetric(app: Application) {
    forall i, c :: 0 <= i < |app.tasks| && 0 <= c < |app.tasks| ==>
      (c in app.tasks[i].children <==> i in app.tasks[c].parents)
  }

  /** The shape of graph the profiling engine assumes: acyclic, in range, symmetric. */
  predicate WellFormed(app: Application, rank: seq<nat>) {
    Ranked(app, rank) && Symmetric(app)
  }

  /** An index of highest rank among the first k. */
  lemma {:induction false} HighestRanked(rank: seq<nat>, k: nat) returns (m: nat)
    requires 0 < k <= |rank|
    ensures m < k && forall j :: 0 <= j < k ==> rank[j] <= rank[m]
  {
    if k == 1 {
      m := 0;
    } else {
      m := HighestRanked(rank, k - 1);
      if rank[k - 1] > rank[m] {
        m := k - 1;
      }
    }
  }

  lemma {:induction false} FirstChildRanksAbove(app: Application, rank: seq<nat>, i: nat)
    requires Ranked(app, rank) && i < |app.tasks| && |app.tasks[i].children| > 0
    ensures app.tasks[i].children[0] < |app.tasks| && rank[i] < rank[app.tasks[i].children[0]]
  {
    assert app.tasks[i].children[0] in app.tasks[i].children;
  }

  /** A non-empty acyclic application has at least one leaf: a task of highest rank has no child. */
  lemma {:induction false} SinkExists(app: Application, rank: seq<nat>)
    requires Ranked(app, rank) && |app.tasks| > 0
    ensures |Leafs(app)| > 0
  {
    var m := HighestRanked(rank, |rank|);
    if |app.tasks[m].children| > 0 {
      FirstChildRanksAbove(app, rank, m);
      assert false;
    }
    assert m in Leafs(app);
  }
}
