/** The resource-levelling MILP as a relation: when a candidate assignment of the
    decision variables is feasible (lines 44-49 and 59-93 of optimization_core.py), what
    the objective (lines 52-54) charges for it, and what every feasible or optimal
    assignment is forced to look like.
 */
module Formulation {
  import opened Problem
  import opened Linear

  /** `Σ_{t=1..n} D[a,t]`. */
  function ActiveCount(active: (Activity, int) -> int, a: Activity, n: nat): int
  {
    if n == 0 then 0 else ActiveCount(active, a, n - 1) + active(a, n)
  }

  /** `Σ_{a in acts} r.get((i, j, k), 0) · D[a,t]`. */
  function Usage(p: Params, acts: seq<Activity>, active: (Activity, int) -> int, k: string, t: int): int
  {
    if acts == [] then 0
    else
      var a := acts[|acts| - 1];
      Usage(p, acts[..|acts| - 1], active, k, t) + Requirement(p, a, k) * active(a, t)
  }

  /** The instantaneous usage of resource `k` in period `t`, over all activities. */
  function ResourceUsage(p: Params, active: (Activity, int) -> int, k: string, t: int): int
  {
    Usage(p, p.acts, active, k, t)
  }

  /** The variable declarations: binary `D`, `ActualDur`, `S`, `F >= 1`, `R`, `Late >= 0`. */
  predicate InDomain(p: Params, asg: Assignment)
  {
    && (forall a, t | a in p.acts && 1 <= t <= p.horizon :: 0 <= asg.active(a, t) <= 1)
    && (forall a | a in p.acts ::
          asg.duration(a) >= 1 && asg.start(a) >= 1 && asg.finish(a) >= 1 && asg.late(a) >= 0.0)
    && (forall k | k in p.resources :: asg.peak(k) >= 0.0)
  }

  /** Lines 59-62: a successor starts after its predecessor finishes. */
  predicate PrecedenceHolds(p: Params, asg: Assignment)
    requires PrecedencesWellFormed(p)
  {
    forall j, pair | j in p.projects && j in p.precedences && pair in p.precedences[j] ::
      asg.start(Activity(pair[1], j)) >= asg.finish(Activity(pair[0], j)) + 1
  }

  /** Lines 65-68: the big-M linkage of `S` and `F` to the activity indicators. */
  predicate Linked(p: Params, asg: Assignment, a: Activity)
  {
    var m := BigM(p);
    forall t | 1 <= t <= p.horizon ::
      && asg.start(a) <= t * asg.active(a, t) + m * (1 - asg.active(a, t))
      && asg.finish(a) >= t * asg.active(a, t) - m * (1 - asg.active(a, t))
  }

  /** Lines 71-80 and 92-93 for one activity: window, duration and lateness. */
  predicate ActivityFeasible(p: Params, asg: Assignment, a: Activity)
    requires WellFormed(p) && a in p.acts
  {
    && Linked(p, asg, a)
    && asg.start(a) >= p.earliestStart[a.project]
    && asg.finish(a) <= p.deadlines[a.project]
    && ActiveCount(asg.active, a, p.horizon) == asg.duration(a)
    && asg.finish(a) == asg.start(a) + asg.duration(a) - 1
    && p.minDurations[Key(a)] <= asg.duration(a) <= p.maxDurations[Key(a)]
    && asg.late(a) >= (asg.finish(a) - p.targetFinish[Key(a)]) as real
  }

  /** Lines 83-89: usage never exceeds the peak variable, which stays within capacity. */
  predicate ResourcesFeasible(p: Params, asg: Assignment)
    requires WellFormed(p)
  {
    && (forall k, t | k in p.resources && 1 <= t <= p.horizon ::
          ResourceUsage(p, asg.active, k, t) as real <= asg.peak(k))
    && (forall k | k in p.resources :: asg.peak(k) <= p.capacity[k] as real)
  }

  /** The assignment meets every declaration and every constraint of the model. */
  predicate Feasible(p: Params, asg: Assignment)
    requires WellFormed(p)
  {
    && InDomain(p, asg)
    && PrecedenceHolds(p, asg)
    && (forall a | a in p.acts :: ActivityFeasible(p, asg, a))
    && ResourcesFeasible(p, asg)
  }

  /** `Σ_k w[k]·R[k]`. */
  function PeakCost(p: Params, ks: seq<string>, peak: string -> real): real
    requires forall k | k in ks :: k in p.weights
  {
    if ks == [] then 0.0
    else PeakCost(p, ks[..|ks| - 1], peak) + p.weights[ks[|ks| - 1]] * peak(ks[|ks| - 1])
  }

  /** `Σ_a P[a]·Late[a]`. */
  function LatenessCost(p: Params, acts: seq<Activity>, late: Activity -> real): real
    requires forall a | a in acts :: Key(a) in p.penalties
  {
    if acts == [] then 0.0
    else
      var a := acts[|acts| - 1];
      LatenessCost(p, acts[..|acts| - 1], late) + (p.penalties[Key(a)] as real) * late(a)
  }

  /** `Σ_a cost_per_day·ActualDur[a]`. */
  function DurationCost(p: Params, acts: seq<Activity>, duration: Activity -> int): real
  {
    if acts == [] then 0.0
    else
      var a := acts[|acts| - 1];
      DurationCost(p, acts[..|acts| - 1], duration) + p.costPerDay * (duration(a) as real)
  }

  /** Lines 52-54: the objective the solver minimises. */
  function Objective(p: Params, asg: Assignment): real
    requires WellFormed(p)
  {
    PeakCost(p, p.resources, asg.peak) + LatenessCost(p, p.acts, asg.late)
    + DurationCost(p, p.acts, asg.duration)
  }

  /** A feasible assignment no feasible assignment improves on: what "Optimal" means. */
  ghost predicate Optimal(p: Params, asg: Assignment)
    requires WellFormed(p)
  {
    Feasible(p, asg)
    && forall other | Feasible(p, other) :: Objective(p, asg) <= Objective(p, other)
  }

  // ---------------------------------------------------------------------------------
  // Counting active periods

  /** The number of periods of `1..n` that lie in `[s, f]`. */
  function Overlap(n: nat, s: int, f: int): nat
  {
    if n == 0 then 0 else Overlap(n - 1, s, f) + (if s <= n <= f then 1 else 0)
  }

  /** For `s >= 1`, the overlap of `1..n` with `[s, f]` is the length of `[s, min(n, f)]`. */
  lemma {:induction false} OverlapClosedForm(n: nat, s: int, f: int)
    requires s >= 1
    ensures Overlap(n, s, f) == if f < s || n < s then 0 else (if n < f then n else f) - s + 1
  {
    if n > 0 {
      OverlapClosedForm(n - 1, s, f);
    }
  }

  /** Active periods confined to `[s, f]` number at most the overlap, and strictly fewer
      when some period of the overlap is inactive. */
  lemma {:induction false} CountWithinWindow(active: (Activity, int) -> int, a: Activity, n: nat, s: int, f: int, gap: int)
    requires forall t | 1 <= t <= n :: 0 <= active(a, t) <= 1
    requires forall t | 1 <= t <= n && active(a, t) == 1 :: s <= t <= f
    ensures ActiveCount(active, a, n) <= Overlap(n, s, f)
    ensures 1 <= gap <= n && s <= gap <= f && active(a, gap) == 0 ==> ActiveCount(active, a, n) < Overlap(n, s, f)
  {
    if n > 0 {
      CountWithinWindow(active, a, n - 1, s, f, gap);
    }
  }

  /** An indicator that is exactly the block `[s, f]` counts the overlap. */
  lemma {:induction false} CountOfBlock(active: (Activity, int) -> int, a: Activity, n: nat, s: int, f: int)
    requires forall t | 1 <= t <= n :: active(a, t) == if s <= t <= f then 1 else 0
    ensures ActiveCount(active, a, n) == Overlap(n, s, f)
  {
    if n > 0 {
      CountOfBlock(active, a, n - 1, s, f);
    }
  }

  /** The linkage constraints, the duration count and `F = S + ActualDur - 1` force the
      active periods of a feasible activity to be exactly the contiguous block `[S, F]`,
      and that block lies inside the horizon `1..H`, whatever the project deadline. So
      the formulation admits no activity that pauses and resumes. */
  lemma ActiveBlock(p: Params, asg: Assignment, a: Activity)
    requires WellFormed(p) && a in p.acts
    requires InDomain(p, asg) && ActivityFeasible(p, asg, a)
    ensures 1 <= asg.start(a) <= asg.finish(a) <= p.horizon
    ensures forall t | 1 <= t <= p.horizon ::
              asg.active(a, t) == if asg.start(a) <= t <= asg.finish(a) then 1 else 0
  {
    var s, f, n := asg.start(a), asg.finish(a), p.horizon;
    assert forall t | 1 <= t <= n && asg.active(a, t) == 1 :: s <= t <= f by {
      forall t | 1 <= t <= n && asg.active(a, t) == 1 ensures s <= t <= f {
        assert Linked(p, asg, a);
      }
    }
    CountWithinWindow(asg.active, a, n, s, f, 0);
    OverlapClosedForm(n, s, f);
    assert f <= n;
    forall t | 1 <= t <= n
      ensures asg.active(a, t) == if s <= t <= f then 1 else 0
    {
      if s <= t <= f && asg.active(a, t) == 0 {
        CountWithinWindow(asg.active, a, n, s, f, t);
        assert false;
      }
    }
  }

  /** Conversely, a contiguous block of periods inside the horizon that meets the
      project window, the duration bounds and the lateness definition satisfies every
      per-activity constraint of the model. */
  lemma BlockIsFeasible(p: Params, asg: Assignment, a: Activity)
    requires WellFormed(p) && a in p.acts
    requires 1 <= asg.start(a) && 1 <= asg.duration(a)
    requires asg.finish(a) == asg.start(a) + asg.duration(a) - 1 <= p.horizon
    requires forall t | 1 <= t <= p.horizon ::
               asg.active(a, t) == if asg.start(a) <= t <= asg.finish(a) then 1 else 0
    requires asg.start(a) >= p.earliestStart[a.project] && asg.finish(a) <= p.deadlines[a.project]
    requires p.minDurations[Key(a)] <= asg.duration(a) <= p.maxDurations[Key(a)]
    requires asg.late(a) >= (asg.finish(a) - p.targetFinish[Key(a)]) as real
    ensures ActivityFeasible(p, asg, a)
  {
    CountOfBlock(asg.active, a, p.horizon, asg.start(a), asg.finish(a));
    OverlapClosedForm(p.horizon, asg.start(a), asg.finish(a));
    var m := BigM(p);
    forall t | 1 <= t <= p.horizon
      ensures asg.start(a) <= t * asg.active(a, t) + m * (1 - asg.active(a, t))
      ensures asg.finish(a) >= t * asg.active(a, t) - m * (1 - asg.active(a, t))
    {
      if asg.active(a, t) == 0 {
        assert t * asg.active(a, t) + m * (1 - asg.active(a, t)) == m;
      }
    }
  }

  /** What feasibility guarantees for the timing of each activity: it starts no earlier
      than its project allows, ends by the deadline and inside the horizon, and lasts
      between its minimum and maximum duration. */
  lemma ActivityTiming(p: Params, asg: Assignment, a: Activity)
    requires WellFormed(p) && a in p.acts && Feasible(p, asg)
    ensures p.earliestStart[a.project] <= asg.start(a)
    ensures 1 <= asg.start(a) <= asg.finish(a) <= p.horizon
    ensures asg.finish(a) <= p.deadlines[a.project]
    ensures asg.finish(a) == asg.start(a) + asg.duration(a) - 1
    ensures p.minDurations[Key(a)] <= asg.duration(a) <= p.maxDurations[Key(a)]
  {
    ActiveBlock(p, asg, a);
  }

  // ---------------------------------------------------------------------------------
  // Resource usage

  /** The requirements of the activities of `acts` that run in period `t`. */
  function RunningDemand(p: Params, acts: seq<Activity>, asg: Assignment, k: string, t: int): int
  {
    if acts == [] then 0
    else
      var a := acts[|acts| - 1];
      RunningDemand(p, acts[..|acts| - 1], asg, k, t)
      + (if asg.start(a) <= t <= asg.finish(a) then Requirement(p, a, k) else 0)
  }

  lemma {:induction false} UsageIsDemand(p: Params, acts: seq<Activity>, asg: Assignment, k: string, t: int)
    requires forall a | a in acts :: asg.active(a, t) == if asg.start(a) <= t <= asg.finish(a) then 1 else 0
    ensures Usage(p, acts, asg.active, k, t) == RunningDemand(p, acts, asg, k, t)
  {
    if acts != [] {
      assert forall a | a in acts[..|acts| - 1] :: a in acts;
      UsageIsDemand(p, acts[..|acts| - 1], asg, k, t);
    }
  }

  /** In a feasible assignment the usage of a resource in a period is the sum of the
      requirements of exactly the activities running then (`S <= t <= F`); an absent
      requirement contributes nothing. */
  lemma UsageOfRunning(p: Params, asg: Assignment, k: string, t: int)
    requires WellFormed(p) && Feasible(p, asg) && 1 <= t <= p.horizon
    ensures ResourceUsage(p, asg.active, k, t) == RunningDemand(p, p.acts, asg, k, t)
  {
    forall a | a in p.acts
      ensures asg.active(a, t) == if asg.start(a) <= t <= asg.finish(a) then 1 else 0
    {
      ActiveBlock(p, asg, a);
    }
    UsageIsDemand(p, p.acts, asg, k, t);
  }

  /** With non-negative requirements and indicators, one activity's demand is a lower
      bound of the total usage. */
  lemma {:induction false} UsageAtLeast(p: Params, acts: seq<Activity>, active: (Activity, int) -> int, k: string, t: int, a: Activity)
    requires forall key | key in p.requirements :: p.requirements[key] >= 0
    requires forall b | b in acts :: 0 <= active(b, t)
    requires a in acts
    ensures Usage(p, acts, active, k, t) >= Requirement(p, a, k) * active(a, t)
  {
    var init := acts[..|acts| - 1];
    var last := acts[|acts| - 1];
    assert acts == init + [last];
    assert forall b | b in init :: b in acts;
    UsageNonNegative(p, init, active, k, t);
    if a != last {
      UsageAtLeast(p, init, active, k, t, a);
    }
  }

  lemma {:induction false} UsageNonNegative(p: Params, acts: seq<Activity>, active: (Activity, int) -> int, k: string, t: int)
    requires forall key | key in p.requirements :: p.requirements[key] >= 0
    requires forall b | b in acts :: 0 <= active(b, t)
    ensures Usage(p, acts, active, k, t) >= 0
  {
    if acts != [] {
      assert forall b | b in acts[..|acts| - 1] :: b in acts;
      UsageNonNegative(p, acts[..|acts| - 1], active, k, t);
    }
  }

  // ---------------------------------------------------------------------------------
  // Infeasible inputs

  /** An activity that cannot fit its duration bounds into its window (its minimum
      exceeds its maximum, or the periods from its project's earliest start to the end
      of the horizon or to the deadline) makes the model infeasible; so does an empty
      horizon with any activity at all. */
  lemma InfeasibleDurations(p: Params, asg: Assignment, a: Activity)
    requires WellFormed(p) && a in p.acts
    requires || p.minDurations[Key(a)] > p.maxDurations[Key(a)]
             || p.minDurations[Key(a)] > p.horizon - p.earliestStart[a.project] + 1
             || p.minDurations[Key(a)] > p.deadlines[a.project] - p.earliestStart[a.project] + 1
             || p.horizon == 0
    ensures !Feasible(p, asg)
  {
    if Feasible(p, asg) {
      ActivityTiming(p, asg, a);
      assert false;
    }
  }

  /** With non-negative requirements, an activity that alone needs more of a resource
      than its capacity makes the model infeasible. */
  lemma InfeasibleRequirement(p: Params, asg: Assignment, a: Activity, k: string)
    requires WellFormed(p) && a in p.acts && k in p.resources
    requires forall key | key in p.requirements :: p.requirements[key] >= 0
    requires Requirement(p, a, k) > p.capacity[k]
    ensures !Feasible(p, asg)
  {
    if Feasible(p, asg) {
      ActiveBlock(p, asg, a);
      var t := asg.start(a);
      assert ResourceUsage(p, asg.active, k, t) as real <= asg.peak(k) <= p.capacity[k] as real;
      UsageAtLeast(p, p.acts, asg.active, k, t, a);
      assert false;
    }
  }
}
