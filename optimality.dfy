/** What minimising the objective forces on the two continuous variable families: the
    lateness variables and the peak-usage variables carry only lower bounds in the model
    (lines 48-49, 85 and 93 of optimization_core.py) and appear in the objective (lines
    52-53) with their weights, so an optimal assignment sets them to the least value the
    constraints admit whenever that weight is positive.
 */
module Optimality {
  import opened Problem
  import opened Linear
  import opened Formulation

  /** `max(0, F - TF)`: the least lateness the constraints admit. */
  function LatenessFloor(p: Params, asg: Assignment, a: Activity): real
    requires WellFormed(p) && a in p.acts
  {
    if asg.finish(a) - p.targetFinish[Key(a)] > 0 then (asg.finish(a) - p.targetFinish[Key(a)]) as real
    else 0.0
  }

  /** The assignment with `Late[a]` replaced by `v`. */
  function WithLate(asg: Assignment, a: Activity, v: real): Assignment
  {
    asg.(late := (b: Activity) => if b == a then v else asg.late(b))
  }

  /** The assignment with `R[k]` replaced by `v`. */
  function WithPeak(asg: Assignment, k: string, v: real): Assignment
  {
    asg.(peak := (q: string) => if q == k then v else asg.peak(q))
  }

  /** How often `x` occurs in `s`. */
  function Occurrences<T(==)>(s: seq<T>, x: T): nat
  {
    if s == [] then 0
    else Occurrences(s[..|s| - 1], x) + (if s[|s| - 1] == x then 1 else 0)
  }

  lemma {:induction false} OccursAtLeastOnce<T>(s: seq<T>, x: T)
    requires x in s
    ensures Occurrences(s, x) >= 1
  {
    if s[|s| - 1] != x {
      assert s == s[..|s| - 1] + [s[|s| - 1]];
      OccursAtLeastOnce(s[..|s| - 1], x);
    }
  }

  /** `n` occurrences of a term with coefficient `w` whose variable changes by `d`. */
  function Scaled(n: real, w: real, d: real): real
  {
    n * w * d
  }

  lemma NegativeChange(n: real, w: real, d: real)
    requires n >= 1.0 && w > 0.0 && d < 0.0
    ensures Scaled(n, w, d) < 0.0
  {
    assert n * w > 0.0;
  }

  /** One step of the sums below: adding matching last terms keeps the difference. */
  lemma UpdateStep(sn: real, so: real, c: real, e: real, o: real, w: real, d: real, x: real, y: real)
    requires sn == so + Scaled(c, w, d)
    requires x == y + Scaled(e, w, d)
    requires o == c + e
    ensures sn + x == so + y + Scaled(o, w, d)
  {
    assert (c + e) * w * d == c * w * d + e * w * d;
  }

  lemma ShiftedProduct(w: real, u: real, d: real)
    ensures w * (u + d) == w * u + Scaled(1.0, w, d)
  {
  }

  /** Two lateness functions that differ only at `a`, by `d`, give penalty sums that
      differ by the penalty of `a` times `d`, once per occurrence of `a`. */
  lemma {:induction false} LatenessCostShift(p: Params, acts: seq<Activity>, f: Activity -> real, g: Activity -> real, a: Activity, d: real)
    requires forall b | b in acts :: Key(b) in p.penalties
    requires Key(a) in p.penalties
    requires forall b | b != a :: f(b) == g(b)
    requires f(a) == g(a) + d
    ensures LatenessCost(p, acts, f) == LatenessCost(p, acts, g) + Scaled(Occurrences(acts, a) as real, p.penalties[Key(a)] as real, d)
  {
    if acts != [] {
      var init, last := acts[..|acts| - 1], acts[|acts| - 1];
      assert forall b | b in init :: b in acts;
      LatenessCostShift(p, init, f, g, a, d);
      var e := if last == a then 1.0 else 0.0;
      var w := p.penalties[Key(a)] as real;
      var x, y := (p.penalties[Key(last)] as real) * f(last), (p.penalties[Key(last)] as real) * g(last);
      if last == a {
        ShiftedProduct(w, g(a), d);
      }
      UpdateStep(LatenessCost(p, init, f), LatenessCost(p, init, g),
                 Occurrences(init, a) as real, e, Occurrences(acts, a) as real, w, d, x, y);
    }
  }

  /** Changing one activity's lateness changes the penalty sum by its penalty times the
      change, once per occurrence of the activity in the list. */
  lemma LatenessCostUpdate(p: Params, acts: seq<Activity>, asg: Assignment, a: Activity, v: real)
    requires forall b | b in acts :: Key(b) in p.penalties
    requires Key(a) in p.penalties
    ensures LatenessCost(p, acts, WithLate(asg, a, v).late)
            == LatenessCost(p, acts, asg.late)
               + Scaled(Occurrences(acts, a) as real, p.penalties[Key(a)] as real, v - asg.late(a))
  {
    LatenessCostShift(p, acts, WithLate(asg, a, v).late, asg.late, a, v - asg.late(a));
  }

  /** Two peak functions that differ only at `k`, by `d`, give weighted sums that differ
      by the weight of `k` times `d`, once per occurrence of `k`. */
  lemma {:induction false} PeakCostShift(p: Params, ks: seq<string>, f: string -> real, g: string -> real, k: string, d: real)
    requires forall q | q in ks :: q in p.weights
    requires k in p.weights
    requires forall q | q != k :: f(q) == g(q)
    requires f(k) == g(k) + d
    ensures PeakCost(p, ks, f) == PeakCost(p, ks, g) + Scaled(Occurrences(ks, k) as real, p.weights[k], d)
  {
    if ks != [] {
      var init, last := ks[..|ks| - 1], ks[|ks| - 1];
      assert forall q | q in init :: q in ks;
      PeakCostShift(p, init, f, g, k, d);
      var e := if last == k then 1.0 else 0.0;
      var w := p.weights[k];
      var x, y := p.weights[last] * f(last), p.weights[last] * g(last);
      if last == k {
        ShiftedProduct(w, g(k), d);
      }
      UpdateStep(PeakCost(p, init, f), PeakCost(p, init, g),
                 Occurrences(init, k) as real, e, Occurrences(ks, k) as real, w, d, x, y);
    }
  }

  /** Changing one resource's peak changes the weighted sum by its weight times the
      change, once per occurrence of the resource in the list. */
  lemma PeakCostUpdate(p: Params, ks: seq<string>, asg: Assignment, k: string, v: real)
    requires forall q | q in ks :: q in p.weights
    requires k in p.weights
    ensures PeakCost(p, ks, WithPeak(asg, k, v).peak)
            == PeakCost(p, ks, asg.peak) + Scaled(Occurrences(ks, k) as real, p.weights[k], v - asg.peak(k))
  {
    PeakCostShift(p, ks, WithPeak(asg, k, v).peak, asg.peak, k, v - asg.peak(k));
  }

  /** Lowering the lateness of a listed activity with a positive penalty lowers the
      penalty sum. */
  lemma LatenessCostDecrease(p: Params, acts: seq<Activity>, asg: Assignment, a: Activity, v: real)
    requires forall b | b in acts :: Key(b) in p.penalties
    requires a in acts && p.penalties[Key(a)] > 0 && v < asg.late(a)
    ensures LatenessCost(p, acts, WithLate(asg, a, v).late) < LatenessCost(p, acts, asg.late)
  {
    LatenessCostUpdate(p, acts, asg, a, v);
    OccursAtLeastOnce(acts, a);
    NegativeChange(Occurrences(acts, a) as real, p.penalties[Key(a)] as real, v - asg.late(a));
  }

  /** Lowering the peak of a listed resource with a positive weight lowers the weighted
      peak sum. */
  lemma PeakCostDecrease(p: Params, ks: seq<string>, asg: Assignment, k: string, v: real)
    requires forall q | q in ks :: q in p.weights
    requires k in ks && p.weights[k] > 0.0 && v < asg.peak(k)
    ensures PeakCost(p, ks, WithPeak(asg, k, v).peak) < PeakCost(p, ks, asg.peak)
  {
    PeakCostUpdate(p, ks, asg, k, v);
    OccursAtLeastOnce(ks, k);
    NegativeChange(Occurrences(ks, k) as real, p.weights[k], v - asg.peak(k));
  }

  /** Any lateness value that is non-negative and at least `F - TF` keeps a feasible
      assignment feasible. */
  lemma WithLateFeasible(p: Params, asg: Assignment, a: Activity, v: real)
    requires WellFormed(p) && a in p.acts && Feasible(p, asg)
    requires v >= 0.0 && v >= (asg.finish(a) - p.targetFinish[Key(a)]) as real
    ensures Feasible(p, WithLate(asg, a, v))
  {
    var asg' := WithLate(asg, a, v);
    assert asg'.active == asg.active && asg'.start == asg.start && asg'.finish == asg.finish;
    assert asg'.duration == asg.duration && asg'.peak == asg.peak;
    forall b | b in p.acts ensures ActivityFeasible(p, asg', b) {
      assert ActivityFeasible(p, asg, b);
    }
    assert InDomain(p, asg') by {
      assert InDomain(p, asg);
    }
    assert ResourcesFeasible(p, asg') by {
      assert ResourcesFeasible(p, asg);
    }
    assert PrecedenceHolds(p, asg') by {
      assert PrecedenceHolds(p, asg);
    }
  }

  /** Lowering a feasible lateness to `max(0, F - TF)` keeps the assignment feasible, and
      with a positive penalty it strictly lowers the objective whenever it changes it. */
  lemma LatenessRelaxation(p: Params, asg: Assignment, a: Activity)
    requires WellFormed(p) && a in p.acts && Feasible(p, asg)
    ensures asg.late(a) >= LatenessFloor(p, asg, a)
    ensures Feasible(p, WithLate(asg, a, LatenessFloor(p, asg, a)))
    ensures p.penalties[Key(a)] > 0 && asg.late(a) > LatenessFloor(p, asg, a) ==>
              Objective(p, WithLate(asg, a, LatenessFloor(p, asg, a))) < Objective(p, asg)
  {
    var v := LatenessFloor(p, asg, a);
    assert ActivityFeasible(p, asg, a);
    WithLateFeasible(p, asg, a, v);
    var asg' := WithLate(asg, a, v);
    assert asg'.duration == asg.duration && asg'.peak == asg.peak;
    if p.penalties[Key(a)] > 0 && asg.late(a) > v {
      LatenessCostDecrease(p, p.acts, asg, a, v);
    }
  }

  /** In an optimal assignment, an activity with a positive lateness penalty has lateness
      exactly `max(0, F - TF)`. */
  lemma OptimalLatenessIsTight(p: Params, asg: Assignment, a: Activity)
    requires WellFormed(p) && a in p.acts && Optimal(p, asg)
    requires p.penalties[Key(a)] > 0
    ensures asg.late(a) == LatenessFloor(p, asg, a)
  {
    LatenessRelaxation(p, asg, a);
  }

  /** `max(0, max_{t in 1..n} usage(k, t))`. */
  function MaxUsage(p: Params, active: (Activity, int) -> int, k: string, n: nat): (m: int)
    ensures m >= 0
    ensures forall t | 1 <= t <= n :: ResourceUsage(p, active, k, t) <= m
    ensures m == 0 || exists t | 1 <= t <= n :: ResourceUsage(p, active, k, t) == m
  {
    if n == 0 then 0
    else
      var rest := MaxUsage(p, active, k, n - 1);
      var here := ResourceUsage(p, active, k, n);
      if here > rest then here else rest
  }

  /** Any peak value that is non-negative, covers every period's usage and stays within
      capacity keeps a feasible assignment feasible. */
  lemma WithPeakFeasible(p: Params, asg: Assignment, k: string, v: real)
    requires WellFormed(p) && k in p.resources && Feasible(p, asg)
    requires v >= 0.0 && v <= p.capacity[k] as real
    requires forall t | 1 <= t <= p.horizon :: ResourceUsage(p, asg.active, k, t) as real <= v
    ensures Feasible(p, WithPeak(asg, k, v))
  {
    var asg' := WithPeak(asg, k, v);
    assert asg'.active == asg.active && asg'.start == asg.start && asg'.finish == asg.finish;
    assert asg'.duration == asg.duration && asg'.late == asg.late;
    forall b | b in p.acts ensures ActivityFeasible(p, asg', b) {
      assert ActivityFeasible(p, asg, b);
    }
    assert InDomain(p, asg') by {
      assert InDomain(p, asg);
    }
    assert ResourcesFeasible(p, asg') by {
      assert ResourcesFeasible(p, asg);
    }
    assert PrecedenceHolds(p, asg') by {
      assert PrecedenceHolds(p, asg);
    }
  }

  /** A feasible peak variable is at least the largest usage over the horizon, and so
      that usage is within capacity. */
  lemma PeakCoversMaxUsage(p: Params, asg: Assignment, k: string)
    requires WellFormed(p) && k in p.resources && Feasible(p, asg)
    ensures MaxUsage(p, asg.active, k, p.horizon) as real <= asg.peak(k) <= p.capacity[k] as real
  {
    var mu := MaxUsage(p, asg.active, k, p.horizon);
    assert ResourcesFeasible(p, asg) && InDomain(p, asg);
    if mu != 0 {
      var t :| 1 <= t <= p.horizon && ResourceUsage(p, asg.active, k, t) == mu;
      assert ResourceUsage(p, asg.active, k, t) as real <= asg.peak(k);
    }
  }

  /** Lowering a feasible peak variable to the largest usage over the horizon (or 0)
      keeps the assignment feasible, and with a positive weight it strictly lowers the
      objective whenever it changes it. */
  lemma PeakRelaxation(p: Params, asg: Assignment, k: string)
    requires WellFormed(p) && k in p.resources && Feasible(p, asg)
    ensures asg.peak(k) >= MaxUsage(p, asg.active, k, p.horizon) as real
    ensures Feasible(p, WithPeak(asg, k, MaxUsage(p, asg.active, k, p.horizon) as real))
    ensures p.weights[k] > 0.0 && asg.peak(k) > MaxUsage(p, asg.active, k, p.horizon) as real ==>
              Objective(p, WithPeak(asg, k, MaxUsage(p, asg.active, k, p.horizon) as real)) < Objective(p, asg)
  {
    var mu := MaxUsage(p, asg.active, k, p.horizon);
    var v := mu as real;
    PeakCoversMaxUsage(p, asg, k);
    WithPeakFeasible(p, asg, k, v);
    var asg' := WithPeak(asg, k, v);
    assert asg'.duration == asg.duration && asg'.late == asg.late;
    if p.weights[k] > 0.0 && asg.peak(k) > v {
      PeakCostDecrease(p, p.resources, asg, k, v);
    }
  }

  /** In an optimal assignment, a resource with a positive weight has peak variable
      exactly its peak instantaneous usage over the horizon (0 if it is never used), so
      the reported peak is the resource's real peak. */
  lemma OptimalPeakIsTight(p: Params, asg: Assignment, k: string)
    requires WellFormed(p) && k in p.resources && Optimal(p, asg)
    requires p.weights[k] > 0.0
    ensures asg.peak(k) == MaxUsage(p, asg.active, k, p.horizon) as real
  {
    PeakRelaxation(p, asg, k);
  }
}
