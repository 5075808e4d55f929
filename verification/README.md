# Profiling engine of a task-graph scheduler, in Dafny

The Go package `system` computes, for every task of an application (a directed
acyclic graph of tasks) that will run on a multi-core platform, three static
scheduling bounds:

- ASAP, the earliest start;
- ALAP, the latest start that does not delay the whole application;
- Mobility, the floored slack `max(0, ALAP - ASAP)`.

`NewProfile` estimates each task's duration as the mean of its type's time
over all cores. It then relaxes ASAP forward from every root and takes the
makespan as the largest leaf finish time, floored at 0. Finally it relaxes ALAP backward
from every leaf, recomputing Mobility whenever an ALAP value improves.

This project models that engine and proves its behaviour.

| file | module | contents |
|---|---|---|
| `taskgraph.dfy` | `TaskGraph` | `Task` and `Application`, `Len`, `Roots`, `Leafs`, and well-formedness |
| `durations.dfy` | `Durations` | `Core` and `Platform`, and the averaged duration table |
| `schedule.dfy` | `Schedule` | reference definitions `Earliest` (longest path from a root) and `Latest` (tightest deadline through the children) |
| `profile.dfy` | `ProfileState` | the `Profile` record, the conditions the relaxations maintain, and `Makespan` |
| `relax.dfy` | `Relaxation` | `propagateASAP` and `propagateALAP` |
| `newprofile.dfy` | `Profiling` | the two passes and `NewProfile` |
| `shapes.dfy` | `Shapes` | chains and independent tasks, where the bounds have a closed form |

Modelling choices:

- Durations are `real`.
- The infinite sentinels of `profile.go:34-35` are the `Bound` value
  `Unbounded`. In the ASAP array it reads as minus infinity, so any candidate
  beats it. In the ALAP array it reads as plus infinity.
- A `Profile` is an immutable value. Each relaxation takes the current profile
  and returns the next one.
- The graph assumptions the Go code relies on are preconditions, bundled in
  `WellFormed`:
  - every edge index is in range;
  - `c` is a child of `i` exactly when `i` is a parent of `c`;
  - the graph is acyclic.
- Acyclicity is witnessed by a ghost topological numbering `rank`. Parents
  rank below a task and children above it. The relaxations' `decreases`
  clauses use this numbering. The pruning rule is not what makes the
  recursion terminate.
- `Covers` says the platform has at least one core and every core times every
  task type in use.

The partners of the two relaxations are the reference recursions in
`Schedule`. The passes are proved to produce exactly `Earliest` and `Latest`.

## Model

| member | source | states |
|---|---|---|
| TaskGraph.Len | application.go:22-24 | the count is the number of tasks, and neither Roots nor Leafs returns more indices than that |
| TaskGraph.Select | application.go:31-35 | the upward scan yields exactly the indices below n that the filter accepts, strictly ascending and in range |
| TaskGraph.Roots | application.go:27-38 | an index is returned iff it names a task with no parents; the list is strictly ascending and every entry is in range |
| TaskGraph.Leafs | application.go:41-52 | an index is returned iff it names a task with no children; the list is strictly ascending and every entry is in range |
| TaskGraph.IsolatedTaskIsRootAndLeaf | application.go:31-49 | a task with neither parents nor children is reported by both Roots and Leafs |
| TaskGraph.SinkExists | application.go:3-4 | a non-empty acyclic application has at least one leaf, so the makespan is taken over a non-empty set |
| Durations.AverageTimes | profile.go:41-44 | the duration table has one entry per task, equal to the sum over all cores of the time for that task's type divided by the number of cores |
| Durations.AverageWithinRange | profile.go:17-19 | an averaged duration lies between the smallest and the largest per-core time, so identical cores give exactly their time |
| Schedule.EarliestAfterParents | profile.go:74-79 | no task starts before any parent finishes |
| Schedule.LatestBeforeChildren | profile.go:83-102 | a task's latest start leaves room for its own duration before every child's latest start, floored at 0 |
| Schedule.LatestNonNegative | profile.go:83-87 | no latest start is negative |
| Schedule.EarliestNonNegative | profile.go:48-50 | with non-negative durations no earliest start is negative |
| Schedule.FloorInert | profile.go:82-103 | with non-negative durations and a deadline no earlier than every leaf's finish, a task started at its latest start finishes by every child's latest start and, for a leaf, by the deadline; so the floor at 0 never bites: a leaf's latest start is exactly the deadline minus its duration, and any other task's is exactly some child's latest start minus its own duration, which makes it the deadline minus the longest path's durations |
| Schedule.SlackNonNegative | profile.go:95-99 | when the deadline is at least every leaf's finish, every latest start is at or after the earliest start |
| ProfileState.Makespan | profile.go:54-59 | the makespan is at least 0 and at least the finish of every leaf with a start; it is 0 or equal to one such finish |
| Relaxation.PropagateASAP | profile.go:69-80 | if ASAP[i] already reaches t nothing changes; otherwise ASAP[i] becomes t. No ASAP entry moves earlier, ALAP, Mobility and durations are untouched, tasks ranked no higher than i keep their ASAP, and the edges out of every changed task hold afterwards. Given a profile whose ASAP entries are already no later than the longest-path starts and a candidate t no later than Earliest(i), no ASAP entry exceeds its longest-path start afterwards |
| Relaxation.PropagateALAP | profile.go:82-103 | the candidate is max(0, t - time[i]); if ALAP[i] is already no later nothing changes; otherwise ALAP[i] becomes the candidate and Mobility[i] becomes max(0, ALAP[i] - ASAP[i]). No ALAP entry moves later, every changed one is at least 0, ASAP is untouched, tasks ranked no lower than i keep their ALAP, and the edges into every changed task's parents hold. Given a profile whose ALAP entries are already no earlier than the reference latest starts and a floored candidate max(0, t - time[i]) no earlier than Latest(i), no ALAP entry falls below its reference latest start afterwards |
| Profiling.ForwardFixpoint | profile.go:47-50 | a profile whose forward edges all hold, whose roots start at 0 or later and which never exceeds the longest path holds exactly the longest-path starts |
| Profiling.BackwardFixpoint | profile.go:61-64 | a profile whose backward edges all hold, whose leaves start no later than the deadline minus their duration, floored at 0, and which never undershoots the reference holds exactly the reference latest starts |
| Profiling.ForwardPass | profile.go:47-50 | after relaxing from every root with start 0: every ASAP is the longest-path start, every root starts at 0, every edge p -> c has ASAP[c] >= ASAP[p] + time[p], and ALAP, Mobility and durations are untouched |
| Profiling.BackwardPass | profile.go:61-64 | after relaxing from every leaf with deadline m: every ALAP is the reference latest start, every Mobility is max(0, ALAP - ASAP), every leaf has ALAP <= max(0, m - time), every edge p -> c has ALAP[p] <= max(0, ALAP[c] - time[p]), and ASAP is untouched |
| Profiling.BackwardMobility | profile.go:93-99 | once every ALAP entry has been set by relaxation, every Mobility equals the floored slack |
| Profiling.NewProfile | profile.go:20-67 | all four arrays have one entry per task; durations are the averages; ASAP is the longest-path start; ALAP is the reference latest start for the makespan over the leaves; Mobility is ALAP - ASAP and is never negative |
| Profiling.CriticalLeaf | profile.go:52-64 | in a non-empty application with non-negative durations some leaf finishes exactly at the makespan and has no slack |
| Shapes.ChainEnds | application.go:27-52 | a chain's only root is its first task and its only leaf is its last |
| Shapes.ChainEarliest | profile.go:69-80 | in a chain of tasks of equal duration d, task i starts at Span(i, d), that is i * d, at the earliest |
| Shapes.ChainLatest | profile.go:82-103 | in that chain, with d >= 0 and deadline Span(n, d), task i starts at Span(i, d) at the latest |
| Shapes.ChainMakespan | profile.go:52-59 | with d >= 0, when every start is the longest-path start, a chain's makespan is Span(n, d) |
| Shapes.ChainNoSlack | profile.go:20-67 | with d >= 0 and deadline Span(n, d) every task of the chain has its latest start equal to its earliest start |
| Shapes.IndependentBounds | profile.go:20-67 | a task with no edges starts at 0 at the earliest, and at the makespan minus its own duration, floored at 0, at the latest |

## Left out

- Floating point. Durations are exact reals, so float64 rounding does not
  appear. The `math.Inf` sentinels become `Unbounded`. The NaN that dividing by
  zero cores would produce is excluded by the precondition `Covers`.
- `Platform`, `Core` and their loaders (`Load`, `findFixture`) are not part of
  this model. A platform is given as a sequence of per-type time tables.
- `profile_test.go` is not modelled. It compares against an on-disk fixture
  with a floating-point tolerance.
- The running time of the repeated depth-first relaxation is not modelled.
  Only its results and invariants are.
- `Task.ID` is carried in the datatype but nothing reads it. Tasks are
  addressed by position, as in the Go code.
- That `Roots` and `Leafs` do not modify the application holds by
  construction: they are functions of an immutable value.
- That recomputing a profile from the same inputs gives the same arrays holds
  by construction: every operation is deterministic.
- Relaxation.PropagateALAP: requires every ASAP entry to be set. With an unset
  ASAP (minus infinity) the Go code would store an infinite Mobility. That can
  happen only for a task unreachable from every root, and a well-formed
  application has no such task.
- Shared mutable arrays. Both relaxations return a new profile instead of
  writing in place. The Go recursion reuses the loop variable `i` for the
  child or parent index. That has no effect on the values computed, because
  the range expression is evaluated once.
- Graph validation (acyclicity, edge symmetry, index ranges) is not performed
  by the Go code. Here it is a precondition rather than a checked error path.
- Independent tasks do not all get ALAP 0. The code gives each of them the
  makespan minus its own duration, floored at 0, and `Shapes.IndependentBounds`
  states exactly that.
