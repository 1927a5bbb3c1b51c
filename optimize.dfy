/** `optimize_plan` end to end (optimization_core.py, lines 4-136): decode the input,
    build the program, hand it to the solver, and turn the solver's answer into the result
    dictionary. The solver is a parameter; all that is assumed of it is that an "Optimal"
    answer is a best satisfying assignment and an "Infeasible" answer means there is
    none.
 */
module Optimize {
  import opened Problem
  import opened Linear
  import opened Formulation
  import opened Optimality
  import opened Records
  import opened Semantics
  import opened Builder
  import Report
  import Lookups

  /** The program the construction produces for well-formed parameters. */
  function Program(p: Params): Lp
    requires WellFormed(p)
  {
    Lp(ObjectiveExpr(p), VariableBounds(p), Constraints(p))
  }

  /** What a correct MILP solver promises about its answer. */
  ghost predicate SolverSound(lp: Lp, out: Report.Outcome)
  {
    && (out.status == Report.Optimal ==>
          && Satisfies(lp, out.values)
          && forall other | Satisfies(lp, other) :: Eval(lp.objective, out.values) <= Eval(lp.objective, other))
    && (out.status == Report.Infeasible ==> forall other :: !Satisfies(lp, other))
  }

  /** An "Optimal" answer for the generated program is optimal for the model. */
  lemma SoundOptimalIsOptimal(p: Params, out: Report.Outcome)
    requires WellFormed(p) && SolverSound(Program(p), out) && out.status == Report.Optimal
    ensures Formulation.Optimal(p, out.values)
    ensures Eval(Program(p).objective, out.values) == Objective(p, out.values)
  {
    SatisfiesIffFeasible(p, out.values);
    ObjectiveMeaning(p, out.values);
    forall other | Feasible(p, other)
      ensures Objective(p, out.values) <= Objective(p, other)
    {
      SatisfiesIffFeasible(p, other);
      ObjectiveMeaning(p, other);
    }
  }

  /** An "Infeasible" answer for the generated program means the model has no feasible
      assignment. */
  lemma SoundInfeasibleIsInfeasible(p: Params, out: Report.Outcome)
    requires WellFormed(p) && SolverSound(Program(p), out) && out.status == Report.Infeasible
    ensures forall asg :: !Feasible(p, asg)
  {
    forall asg ensures !Feasible(p, asg) {
      SatisfiesIffFeasible(p, asg);
    }
  }

  /** Every schedule entry names its activity, fits the project window and the horizon,
      and lasts between the activity's minimum and maximum duration. */
  predicate ScheduleKeepsPlan(p: Params, schedule: seq<Report.ScheduleEntry>)
    requires WellFormed(p)
  {
    && |schedule| == |p.acts|
    && forall n | 0 <= n < |p.acts| ::
         var a, e := p.acts[n], schedule[n];
         && e.activity == a.id && e.project == a.project
         && p.earliestStart[a.project] <= e.start <= e.finish <= p.horizon
         && e.finish <= p.deadlines[a.project]
         && e.finish == e.start + e.duration - 1
         && p.minDurations[Key(a)] <= e.duration <= p.maxDurations[Key(a)]
  }

  /** The pair `[pred.id, succ.id]` is listed among the precedences of their project. */
  predicate Precedes(p: Params, pred: Activity, succ: Activity)
  {
    && pred.project == succ.project && pred.project in p.projects && pred.project in p.precedences
    && [pred.id, succ.id] in p.precedences[pred.project]
  }

  /** A successor's entry starts after its predecessor's entry finishes. */
  predicate ScheduleKeepsPrecedence(p: Params, schedule: seq<Report.ScheduleEntry>)
  {
    forall n, m | 0 <= n < |schedule| && 0 <= m < |schedule| && n < |p.acts| && m < |p.acts|
                  && Precedes(p, p.acts[n], p.acts[m]) ::
      schedule[n].finish < schedule[m].start
  }

  /** Every reported daily usage is within the reported peak of its resource. */
  predicate DailyWithinPeak(daily: map<int, map<string, int>>, peak: map<string, real>)
  {
    forall t, k | t in daily && k in daily[t] :: k in peak && daily[t][k] as real <= peak[k]
  }

  lemma FeasibleSchedule(p: Params, asg: Assignment, schedule: seq<Report.ScheduleEntry>)
    requires WellFormed(p) && Feasible(p, asg)
    requires |schedule| == |p.acts| && forall n | 0 <= n < |p.acts| :: schedule[n] == Report.ScheduleEntryOf(p.acts[n], asg)
    ensures ScheduleKeepsPlan(p, schedule) && ScheduleKeepsPrecedence(p, schedule)
  {
    forall n | 0 <= n < |p.acts| {
      ActivityTiming(p, asg, p.acts[n]);
    }
    forall n, m | 0 <= n < |schedule| && 0 <= m < |schedule| && n < |p.acts| && m < |p.acts|
                  && Precedes(p, p.acts[n], p.acts[m])
      ensures schedule[n].finish < schedule[m].start
    {
      var pred, succ := p.acts[n], p.acts[m];
      var pair := [pred.id, succ.id];
      assert Activity(pair[0], pred.project) == pred && Activity(pair[1], pred.project) == succ;
    }
  }

  lemma FeasibleDaily(p: Params, asg: Assignment, daily: map<int, map<string, int>>, peak: map<string, real>)
    requires WellFormed(p) && Feasible(p, asg)
    requires forall t | t in daily :: 1 <= t <= p.horizon && daily[t] == Report.UsageRow(p, asg.active, t)
    requires forall k :: k in peak <==> k in p.resources
    requires forall k | k in peak :: peak[k] == asg.peak(k)
    ensures DailyWithinPeak(daily, peak)
    ensures forall t, k | t in daily && k in daily[t] :: daily[t][k] == RunningDemand(p, p.acts, asg, k, t)
  {
    forall t, k | t in daily && k in daily[t]
      ensures daily[t][k] == RunningDemand(p, p.acts, asg, k, t)
    {
      UsageOfRunning(p, asg, k, t);
    }
  }

  /** What the result dictionary guarantees about the plan, given the solver's answer:
      the dictionary reports the answer as `Report.Reports` describes, and the plan it
      reports is an optimal one. */
  ghost predicate Guarantees(p: Params, out: Report.Outcome, results: Report.Results)
    requires WellFormed(p)
  {
    var asg := out.values;
    && Report.Reports(p, Program(p).objective, out, results)
    && (out.status == Report.Infeasible ==> forall other :: !Feasible(p, other))
    && (out.status == Report.Optimal ==>
          && results.Solved?
          && Formulation.Optimal(p, asg)
          && results.objectiveValue == Objective(p, asg)
          && ScheduleKeepsPlan(p, results.schedule)
          && ScheduleKeepsPrecedence(p, results.schedule)
          && DailyWithinPeak(results.dailyUsage, results.peakResourceUsage)
          && (forall t, k | t in results.dailyUsage && k in results.dailyUsage[t] ::
                results.dailyUsage[t][k] == RunningDemand(p, p.acts, asg, k, t))
          && (forall k | k in results.peakResourceUsage && k in p.weights && p.weights[k] > 0.0 ::
                results.peakResourceUsage[k] == MaxUsage(p, asg.active, k, p.horizon) as real)
          && (forall a | a in p.acts && p.penalties[Key(a)] > 0 :: asg.late(a) == LatenessFloor(p, asg, a)))
  }

  /** The result dictionary extracted from a sound solver's answer keeps every
      guarantee. */
  lemma ResultsGuarantees(p: Params, out: Report.Outcome, results: Report.Results)
    requires WellFormed(p) && SolverSound(Program(p), out)
    requires Report.Reports(p, Program(p).objective, out, results)
    ensures Guarantees(p, out, results)
  {
    if out.status == Report.Optimal {
      var asg := out.values;
      SoundOptimalIsOptimal(p, out);
      FeasibleSchedule(p, asg, results.schedule);
      FeasibleDaily(p, asg, results.dailyUsage, results.peakResourceUsage);
      forall k | k in p.resources && p.weights[k] > 0.0
        ensures asg.peak(k) == MaxUsage(p, asg.active, k, p.horizon) as real
      {
        OptimalPeakIsTight(p, asg, k);
      }
      forall a | a in p.acts && p.penalties[Key(a)] > 0
        ensures asg.late(a) == LatenessFloor(p, asg, a)
      {
        OptimalLatenessIsTight(p, asg, a);
      }
    }
    if out.status == Report.Infeasible {
      SoundInfeasibleIsInfeasible(p, out);
    }
  }

  /** The whole of `optimize_plan`. A failing lookup, in decoding or in the
      construction, is returned as the error; the solver is not run then. */
  method OptimizePlan(raw: RawData, solve: Lp -> Report.Outcome) returns (res: Result<Report.Results>)
    requires forall lp :: SolverSound(lp, solve(lp))
    ensures Decode(raw).Err? ==> res == Err(Decode(raw).error)
    ensures Decode(raw).Ok? ==> (res.Err? <==> !WellFormed(Decode(raw).value))
    ensures Decode(raw).Ok? && res.Err? ==> Explains(Decode(raw).value, res.error)
    ensures Decode(raw).Ok? && res.Err? ==> Lookups.BuildError(Decode(raw).value) == Lookups.Some(res.error)
    ensures res.Ok? ==> WellFormed(Decode(raw).value)
                        && Guarantees(Decode(raw).value, solve(Program(Decode(raw).value)), res.value)
  {
    var decoded := Decode(raw);
    if decoded.Err? {
      return Err(decoded.error);
    }
    var p := decoded.value;
    var lp := Build(p);
    if lp.Err? {
      return Err(lp.error);
    }
    var out := solve(lp.value);
    var results := Report.Extract(p, lp.value.objective, out);
    ResultsGuarantees(p, out, results);
    return Ok(results);
  }
}
