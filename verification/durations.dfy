/**
  The platform side of profiling: every core has an execution time per task
  type, and a task's estimated duration is the mean of its type's time over all
  cores, because the mapping of tasks onto cores is not known yet.
*/
module Durations {
  import opened TaskGraph

  /** Execution time of each task type on one core, indexed by type. */
  datatype Core = Core(time: seq<real>)

  datatype Platform = Platform(cores: seq<Core>)

  /** Every core has an entry for type `kind`. */
  predicate KindCovered(cores: seq<Core>, kind: nat) {
    forall j :: 0 <= j < |cores| ==> kind < |cores[j].time|
  }

  /** The platform has at least one core, and every core times every task type the application uses. */
  predicate Covers(platform: Platform, app: Application) {
    && |platform.cores| > 0
    && forall i :: 0 <= i < |app.tasks| ==> KindCovered(platform.cores, app.tasks[i].kind)
  }

  /** Sum of the times of type `kind` over `cores`, accumulated from the first core on. */
  function TotalTime(cores: seq<Core>, kind: nat): (total: real)
    requires KindCovered(cores, kind)
  {
    if |cores| == 0 then 0.0
    else TotalTime(cores[..|cores| - 1], kind) + cores[|cores| - 1].time[kind]
  }

  /** Mean time of type `kind` over all cores of the platform. */
  function AverageTime(platform: Platform, kind: nat): (mean: real)
    requires |platform.cores| > 0 && KindCovered(platform.cores, kind)
  {
    TotalTime(platform.cores, kind) / (|platform.cores| as real)
  }

  /** If every core's time lies in [lo, hi] then so does the total divided by the core count. */
  lemma {:induction false} TotalTimeBetween(cores: seq<Core>, kind: nat, lo: real, hi: real)
    requires KindCovered(cores, kind)
    requires forall j :: 0 <= j < |cores| ==> lo <= cores[j].time[kind] <= hi
    ensures (|cores| as real) * lo <= TotalTime(cores, kind) <= (|cores| as real) * hi
  {
    if |cores| > 0 {
      TotalTimeBetween(cores[..|cores| - 1], kind, lo, hi);
    }
  }

  /** The average never leaves the range spanned by the cores' times; in
      particular a platform of identical cores yields exactly their time. */
  lemma {:induction false} AverageWithinRange(platform: Platform, kind: nat, lo: real, hi: real)
    requires |platform.cores| > 0 && KindCovered(platform.cores, kind)
    requires forall j :: 0 <= j < |platform.cores| ==> lo <= platform.cores[j].time[kind] <= hi
    ensures lo <= AverageTime(platform, kind) <= hi
  {
    var n := |platform.cores| as real;
    var total := TotalTime(platform.cores, kind);
    TotalTimeBetween(platform.cores, kind, lo, hi);
    assert n * lo <= total <= n * hi;
    assert total / n * n == total;
  }

  /** The duration table the profiler starts from: one averaged time per task, summing over
      the cores in order and dividing once by the number of cores. */
  method AverageTimes(platform: Platform, app: Application) returns (time: seq<real>)
    requires Covers(platform, app)
    ensures |time| == |app.tasks|
    ensures forall i :: 0 <= i < |app.tasks| ==> time[i] == AverageTime(platform, app.tasks[i].kind)
  {
    var nc := |platform.cores|;
    time := [];
    var i := 0;
    while i < |app.tasks|
      invariant 0 <= i <= |app.tasks|
      invariant |time| == i
      invariant forall k :: 0 <= k < i ==> time[k] == AverageTime(platform, app.tasks[k].kind)
    {
      var kind := app.tasks[i].kind;
      assert KindCovered(platform.cores, kind);
      var sum := 0.0;
      var j := 0;
      while j < nc
        invariant 0 <= j <= nc
        invariant sum == TotalTime(platform.cores[..j], kind)
      {
        assert platform.cores[..j + 1][..j] == platform.cores[..j];
        sum := sum + platform.cores[j].time[kind];
        j := j + 1;
      }
      assert platform.cores[..nc] == platform.cores;
      time := time + [sum / (nc as real)];
      i := i + 1;
    }
  }
}
