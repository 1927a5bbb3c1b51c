/** The result dictionary that `optimize_plan` returns once the solver has finished
    (optimization_core.py, lines 99-136): for an optimal solution the objective value, the
    schedule, the peak usages, the late activities and the usage of every busy period;
    otherwise only the solver status and an error message.
 */
module Report {
  import opened Problem
  import opened Linear
  import Formulation

  /** The solver statuses PuLP reports through `LpStatus`. */
  datatype Status = NotSolved | Optimal | Infeasible | Unbounded | Undefined

  /** `LpStatus[status]`. */
  function StatusName(s: Status): (name: string)
    ensures name == "Optimal" <==> s == Optimal
  {
    match s
    case NotSolved => "Not Solved"
    case Optimal => "Optimal"
    case Infeasible => "Infeasible"
    case Unbounded => "Unbounded"
    case Undefined => "Undefined"
  }

  /** What the solver hands back: its status and the value of every variable. */
  datatype Outcome = Outcome(status: Status, values: Assignment)

  /** Lines 110-116. */
  datatype ScheduleEntry = ScheduleEntry(activity: string, project: string, start: int, finish: int, duration: int)

  /** Lines 118-122. */
  datatype LateEntry = LateEntry(activity: string, project: string, daysLate: real)

  /** Lines 100-107 and 136. */
  datatype Results =
    | Solved(status: string, objectiveValue: real, schedule: seq<ScheduleEntry>,
             peakResourceUsage: map<string, real>, lateness: seq<LateEntry>,
             dailyUsage: map<int, map<string, int>>)
    | Failed(status: string, error: string)

  const FailureMessage: string := "Optimizasyon başarısız oldu. Kısıtlar sağlanamıyor olabilir."

  /** Line 117: lateness below this is treated as none. */
  const LatenessThreshold: real := 0.01

  function ScheduleEntryOf(a: Activity, asg: Assignment): ScheduleEntry
  {
    ScheduleEntry(a.id, a.project, asg.start(a), asg.finish(a), asg.duration(a))
  }

  function LateEntryOf(a: Activity, late: Activity -> real): LateEntry
  {
    LateEntry(a.id, a.project, late(a))
  }

  /** The lateness list for the activities of `acts`. */
  function LateEntries(acts: seq<Activity>, late: Activity -> real): seq<LateEntry>
  {
    if acts == [] then []
    else
      var a := acts[|acts| - 1];
      LateEntries(acts[..|acts| - 1], late) + (if late(a) > LatenessThreshold then [LateEntryOf(a, late)] else [])
  }

  /** The positions of `acts` whose lateness exceeds the threshold, in increasing order. */
  function LateIndices(acts: seq<Activity>, late: Activity -> real): (ix: seq<nat>)
    ensures forall m | 0 <= m < |ix| :: ix[m] < |acts|
  {
    if acts == [] then []
    else
      var n := |acts| - 1;
      LateIndices(acts[..n], late) + (if late(acts[n]) > LatenessThreshold then [n] else [])
  }

  /** The late positions are increasing, and a position is taken exactly when its
      lateness exceeds the threshold. */
  lemma {:induction false} LateIndicesFilter(acts: seq<Activity>, late: Activity -> real)
    ensures forall m, m' | 0 <= m < m' < |LateIndices(acts, late)| :: LateIndices(acts, late)[m] < LateIndices(acts, late)[m']
    ensures forall n :: n in LateIndices(acts, late) <==> 0 <= n < |acts| && late(acts[n]) > LatenessThreshold
  {
    if acts != [] {
      var n := |acts| - 1;
      var init := acts[..n];
      LateIndicesFilter(init, late);
      assert forall q | 0 <= q < n :: init[q] == acts[q];
    }
  }

  /** The lateness list holds the entries of the activities at the late positions, in
      that order. */
  lemma {:induction false} LateEntriesAtIndices(acts: seq<Activity>, late: Activity -> real)
    ensures |LateEntries(acts, late)| == |LateIndices(acts, late)|
    ensures forall m | 0 <= m < |LateIndices(acts, late)| ::
              LateEntries(acts, late)[m] == LateEntryOf(acts[LateIndices(acts, late)[m]], late)
  {
    if acts != [] {
      var n := |acts| - 1;
      var init := acts[..n];
      LateEntriesAtIndices(init, late);
      var ix0 := LateIndices(init, late);
      assert forall m | 0 <= m < |ix0| :: init[ix0[m]] == acts[ix0[m]];
    }
  }

  /** The lateness list is the subsequence of activities whose lateness exceeds the
      threshold, in schedule order. */
  lemma LateEntriesAreFiltered(acts: seq<Activity>, late: Activity -> real)
    ensures var ix := LateIndices(acts, late);
            && |LateEntries(acts, late)| == |ix|
            && (forall m | 0 <= m < |ix| :: LateEntries(acts, late)[m] == LateEntryOf(acts[ix[m]], late))
            && (forall m, m' | 0 <= m < m' < |ix| :: ix[m] < ix[m'])
            && (forall n :: n in ix <==> 0 <= n < |acts| && late(acts[n]) > LatenessThreshold)
  {
    LateIndicesFilter(acts, late);
    LateEntriesAtIndices(acts, late);
  }

  /** An activity is reported late exactly when its lateness exceeds the threshold. */
  lemma LateEntriesMembers(acts: seq<Activity>, late: Activity -> real, a: Activity)
    requires a in acts
    ensures LateEntryOf(a, late) in LateEntries(acts, late) <==> late(a) > LatenessThreshold
  {
    LateEntriesAreFiltered(acts, late);
    var ix := LateIndices(acts, late);
    var es := LateEntries(acts, late);
    var n :| 0 <= n < |acts| && acts[n] == a;
    if late(a) > LatenessThreshold {
      assert n in ix;
      var m :| 0 <= m < |ix| && ix[m] == n;
      assert es[m] == LateEntryOf(a, late);
    }
    if LateEntryOf(a, late) in es {
      var m :| 0 <= m < |es| && es[m] == LateEntryOf(a, late);
      assert ix[m] in ix;
      assert late(acts[ix[m]]) == late(a);
    }
  }

  /** `daily_res` for period `t`: the usage of every resource. */
  function UsageRow(p: Params, active: (Activity, int) -> int, t: int): (row: map<string, int>)
    ensures forall k :: k in row <==> k in p.resources
  {
    map k | k in p.resources :: Formulation.ResourceUsage(p, active, k, t)
  }

  /** Lines 109-122: one schedule entry per activity, and a lateness entry for each
      activity whose lateness exceeds the threshold, both in activity order. */
  method ScheduleAndLateness(acts: seq<Activity>, asg: Assignment)
    returns (schedule: seq<ScheduleEntry>, lateness: seq<LateEntry>)
    ensures |schedule| == |acts|
    ensures forall n | 0 <= n < |acts| :: schedule[n] == ScheduleEntryOf(acts[n], asg)
    ensures lateness == LateEntries(acts, asg.late)
  {
    schedule, lateness := [], [];
    for n := 0 to |acts|
      invariant |schedule| == n
      invariant forall q | 0 <= q < n :: schedule[q] == ScheduleEntryOf(acts[q], asg)
      invariant lateness == LateEntries(acts[..n], asg.late)
    {
      var a := acts[n];
      assert acts[..n + 1][..n] == acts[..n];
      schedule := schedule + [ScheduleEntry(a.id, a.project, asg.start(a), asg.finish(a), asg.duration(a))];
      if asg.late(a) > LatenessThreshold {
        lateness := lateness + [LateEntry(a.id, a.project, asg.late(a))];
      }
    }
    assert acts[..|acts|] == acts;
  }

  /** Lines 124-125: the value of `R[k]` for every resource. */
  method PeakUsage(K: seq<string>, asg: Assignment) returns (peak: map<string, real>)
    ensures forall k :: k in peak <==> k in K
    ensures forall k | k in peak :: peak[k] == asg.peak(k)
  {
    peak := map[];
    for n := 0 to |K|
      invariant forall k :: k in peak <==> k in K[..n]
      invariant forall k | k in peak :: peak[k] == asg.peak(k)
    {
      assert K[..n + 1] == K[..n] + [K[n]];
      peak := peak[K[n] := asg.peak(K[n])];
    }
    assert K[..|K|] == K;
  }

  /** Lines 128-130: `daily_res`, starting from 0 for every resource and then set to
      each resource's usage. */
  method DailyRow(p: Params, active: (Activity, int) -> int, t: int) returns (row: map<string, int>)
    ensures row == UsageRow(p, active, t)
  {
    var K := p.resources;
    row := map k | k in K :: 0;
    for q := 0 to |K|
      invariant forall k :: k in row <==> k in K
      invariant forall k | k in row :: row[k] == if k in K[..q] then Formulation.ResourceUsage(p, active, k, t) else 0
    {
      assert K[..q + 1] == K[..q] + [K[q]];
      row := row[K[q] := Formulation.ResourceUsage(p, active, K[q], t)];
    }
    assert K[..|K|] == K;
  }

  /** Line 131: `any(val > 0 for val in daily_res.values())`. */
  method AnyPositive(K: seq<string>, row: map<string, int>) returns (used: bool)
    requires forall k | k in K :: k in row
    ensures used <==> exists k | k in K :: row[k] > 0
  {
    used := false;
    for q := 0 to |K|
      invariant used <==> exists r | 0 <= r < q :: row[K[r]] > 0
    {
      if row[K[q]] > 0 {
        used := true;
      }
    }
  }

  /** Lines 127-132: the usage row of every period in which some resource is used. */
  method DailyUsage(p: Params, active: (Activity, int) -> int) returns (daily: map<int, map<string, int>>)
    ensures forall t :: t in daily <==>
              1 <= t <= p.horizon && exists k | k in p.resources :: Formulation.ResourceUsage(p, active, k, t) > 0
    ensures forall t | t in daily :: daily[t] == UsageRow(p, active, t)
  {
    daily := map[];
    for t := 1 to p.horizon + 1
      invariant forall u :: u in daily <==>
                  1 <= u < t && exists k | k in p.resources :: Formulation.ResourceUsage(p, active, k, u) > 0
      invariant forall u | u in daily :: daily[u] == UsageRow(p, active, u)
    {
      var row := DailyRow(p, active, t);
      var used := AnyPositive(p.resources, row);
      if used {
        daily := daily[t := row];
      }
    }
  }

  /** Lines 99-136: `res` is the result dictionary for the solver's answer `outcome` on a
      program with objective `objective`. */
  ghost predicate Reports(p: Params, objective: LinExpr, outcome: Outcome, res: Results)
  {
    && (outcome.status != Optimal ==> res == Failed(StatusName(outcome.status), FailureMessage))
    && (outcome.status == Optimal ==> res.Solved?)
    && (res.Solved? ==>
          var asg := outcome.values;
          && res.status == "Optimal"
          && res.objectiveValue == Eval(objective, asg)
          && |res.schedule| == |p.acts|
          && (forall n | 0 <= n < |p.acts| :: res.schedule[n] == ScheduleEntryOf(p.acts[n], asg))
          && res.lateness == LateEntries(p.acts, asg.late)
          && (forall k :: k in res.peakResourceUsage <==> k in p.resources)
          && (forall k | k in res.peakResourceUsage :: res.peakResourceUsage[k] == asg.peak(k))
          && (forall t :: t in res.dailyUsage <==>
                1 <= t <= p.horizon && exists k | k in p.resources :: Formulation.ResourceUsage(p, asg.active, k, t) > 0)
          && (forall t | t in res.dailyUsage :: res.dailyUsage[t] == UsageRow(p, asg.active, t)))
  }

  /** Lines 99-136: the result dictionary. */
  method Extract(p: Params, objective: LinExpr, outcome: Outcome) returns (res: Results)
    ensures Reports(p, objective, outcome, res)
  {
    if outcome.status != Optimal {
      return Failed(StatusName(outcome.status), FailureMessage);
    }
    var asg := outcome.values;
    var schedule, lateness := ScheduleAndLateness(p.acts, asg);
    var peak := PeakUsage(p.resources, asg);
    var daily := DailyUsage(p, asg.active);
    return Solved(StatusName(Optimal), Eval(objective, asg), schedule, peak, lateness, daily);
  }
}
