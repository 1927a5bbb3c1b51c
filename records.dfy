/** The linear records the construction adds to the program, one function per `prob +=`
    statement of optimization_core.py (lines 52-93) and per variable declaration (lines
    44-49), grouped in the order and with the nesting of the source's loops; and the
    proof that satisfying every record is the same as being feasible.
 */
module Records {
  import opened Problem
  import opened Linear
  import opened Formulation

  /** `f(xs[0]) + f(xs[1]) + ...`: the records a `for x in xs` loop adds. */
  function ConcatMap<T, U>(xs: seq<T>, f: T --> seq<U>): seq<U>
    requires forall x | x in xs :: f.requires(x)
  {
    if xs == [] then [] else ConcatMap(xs[..|xs| - 1], f) + f(xs[|xs| - 1])
  }

  /** Every record of the loop holds exactly when every iteration's records hold. */
  lemma {:induction false} AllHoldConcatMap<T>(xs: seq<T>, f: T --> seq<Constraint>, asg: Assignment)
    requires forall x | x in xs :: f.requires(x)
    ensures AllHold(ConcatMap(xs, f), asg) <==> forall x | x in xs :: AllHold(f(x), asg)
  {
    if xs != [] {
      var init, last := xs[..|xs| - 1], xs[|xs| - 1];
      assert xs == init + [last];
      AllHoldConcatMap(init, f, asg);
      AllHoldConcat(ConcatMap(init, f), f(last), asg);
    }
  }

  /** `range(1, H + 1)`. */
  function Periods(h: nat): (ts: seq<int>)
    ensures |ts| == h && forall n | 0 <= n < h :: ts[n] == n + 1
  {
    seq(h, n => n + 1)
  }

  lemma PeriodsMembers(h: nat)
    ensures forall t :: t in Periods(h) <==> 1 <= t <= h
  {
    var ts := Periods(h);
    forall t | 1 <= t <= h ensures t in ts {
      assert ts[t - 1] == t;
    }
  }

  // ---------------------------------------------------------------------------------
  // One record per `prob +=` statement

  /** Line 62: `S[(i, j)] >= F[(p, j)] + 1` for the pair `(p, i)`. */
  function PrecedenceRecord(j: string, pair: seq<string>): Constraint
    requires |pair| == 2
  {
    Constraint(VarExpr(Start(Activity(pair[1], j))), Ge, LinExpr([Term(1.0, Finish(Activity(pair[0], j)))], 1.0))
  }

  /** Line 67: `S <= t·D + M·(1 - D)`, that is `S <= (t - M)·D + M`. */
  function StartLinkRecord(a: Activity, t: int, m: int): Constraint
  {
    Constraint(VarExpr(Start(a)), Le, LinExpr([Term((t - m) as real, Active(a, t))], m as real))
  }

  /** Line 68: `F >= t·D - M·(1 - D)`, that is `F >= (t + M)·D - M`. */
  function FinishLinkRecord(a: Activity, t: int, m: int): Constraint
  {
    Constraint(VarExpr(Finish(a)), Ge, LinExpr([Term((t + m) as real, Active(a, t))], -(m as real)))
  }

  /** Lines 72-73: `S >= t0[j]` and `F <= PD[j]`. */
  function WindowStartRecord(a: Activity, earliest: int): Constraint
  {
    Constraint(VarExpr(Start(a)), Ge, ConstExpr(earliest as real))
  }

  function WindowFinishRecord(a: Activity, deadline: int): Constraint
  {
    Constraint(VarExpr(Finish(a)), Le, ConstExpr(deadline as real))
  }

  /** `D[a,1] + ... + D[a,n]`. */
  function CountTerms(a: Activity, n: nat): (ts: seq<Term>)
    ensures |ts| == n
  {
    seq(n, i => Term(1.0, Active(a, i + 1)))
  }

  /** Line 77: `lpSum(D[(i, j, t)] for t in T) == ActualDur[(i, j)]`. */
  function CountRecord(a: Activity, h: nat): Constraint
  {
    Constraint(LinExpr(CountTerms(a, h), 0.0), Eq, VarExpr(Duration(a)))
  }

  /** Line 78: `F == S + ActualDur - 1`. */
  function FinishDurationRecord(a: Activity): Constraint
  {
    Constraint(VarExpr(Finish(a)), Eq, LinExpr([Term(1.0, Start(a)), Term(1.0, Duration(a))], -1.0))
  }

  /** Lines 79-80: `ActualDur >= min_dur` and `ActualDur <= max_dur`. */
  function MinDurationRecord(a: Activity, d: int): Constraint
  {
    Constraint(VarExpr(Duration(a)), Ge, ConstExpr(d as real))
  }

  function MaxDurationRecord(a: Activity, d: int): Constraint
  {
    Constraint(VarExpr(Duration(a)), Le, ConstExpr(d as real))
  }

  /** `r.get((i, j, k), 0) · D[(i, j, t)]` for each activity of `acts`. */
  function UsageTerms(p: Params, acts: seq<Activity>, k: string, t: int): (ts: seq<Term>)
    ensures |ts| == |acts|
  {
    seq(|acts|, n requires 0 <= n < |acts| => Term(Requirement(p, acts[n], k) as real, Active(acts[n], t)))
  }

  /** Line 85: the usage of `k` in period `t` is at most `R[k]`. */
  function PeakRecord(p: Params, k: string, t: int): Constraint
  {
    Constraint(LinExpr(UsageTerms(p, p.acts, k, t), 0.0), Le, VarExpr(Peak(k)))
  }

  /** Line 89: `R[k] <= max_res_capacity[k]`. */
  function CapacityRecord(k: string, capacity: int): Constraint
  {
    Constraint(VarExpr(Peak(k)), Le, ConstExpr(capacity as real))
  }

  /** Line 93: `Late >= F - TF`. */
  function LatenessRecord(a: Activity, target: int): Constraint
  {
    Constraint(VarExpr(Late(a)), Ge, LinExpr([Term(1.0, Finish(a))], -(target as real)))
  }

  /** A lower or upper bound of a variable declaration. */
  function AtLeast(v: Var, c: real): Constraint { Constraint(VarExpr(v), Ge, ConstExpr(c)) }
  function AtMost(v: Var, c: real): Constraint { Constraint(VarExpr(v), Le, ConstExpr(c)) }

  // ---------------------------------------------------------------------------------
  // The records of each loop of the source

  predicate PairsWellShaped(p: Params, j: string)
  {
    j in p.precedences ==> forall pair | pair in p.precedences[j] :: |pair| == 2
  }

  /** Lines 60-62 for one project: nothing when the project has no precedence entry. */
  function ProjectPrecedenceRecords(p: Params, j: string): seq<Constraint>
    requires PairsWellShaped(p, j)
  {
    if j in p.precedences then
      ConcatMap(p.precedences[j], (pair: seq<string>) requires |pair| == 2 => [PrecedenceRecord(j, pair)])
    else []
  }

  function PrecedenceRecords(p: Params, js: seq<string>): seq<Constraint>
    requires forall j | j in js :: PairsWellShaped(p, j)
  {
    ConcatMap(js, (j: string) requires PairsWellShaped(p, j) => ProjectPrecedenceRecords(p, j))
  }

  /** Lines 66-68 for one activity. */
  function LinkRecords(p: Params, a: Activity): seq<Constraint>
  {
    ConcatMap(Periods(p.horizon), (t: int) => [StartLinkRecord(a, t, BigM(p)), FinishLinkRecord(a, t, BigM(p))])
  }

  function AllLinkRecords(p: Params, acts: seq<Activity>): seq<Constraint>
  {
    ConcatMap(acts, (a: Activity) => LinkRecords(p, a))
  }

  /** Lines 72-73 for one activity. */
  function WindowRecords(p: Params, a: Activity): seq<Constraint>
    requires a.project in p.earliestStart && a.project in p.deadlines
  {
    [WindowStartRecord(a, p.earliestStart[a.project]), WindowFinishRecord(a, p.deadlines[a.project])]
  }

  function AllWindowRecords(p: Params, acts: seq<Activity>): seq<Constraint>
    requires forall a | a in acts :: a.project in p.earliestStart && a.project in p.deadlines
  {
    ConcatMap(acts, (a: Activity) requires a.project in p.earliestStart && a.project in p.deadlines => WindowRecords(p, a))
  }

  /** Lines 77-80 for one activity. */
  function DurationRecords(p: Params, a: Activity): seq<Constraint>
    requires Key(a) in p.minDurations && Key(a) in p.maxDurations
  {
    [CountRecord(a, p.horizon), FinishDurationRecord(a),
     MinDurationRecord(a, p.minDurations[Key(a)]), MaxDurationRecord(a, p.maxDurations[Key(a)])]
  }

  function AllDurationRecords(p: Params, acts: seq<Activity>): seq<Constraint>
    requires forall a | a in acts :: Key(a) in p.minDurations && Key(a) in p.maxDurations
  {
    ConcatMap(acts, (a: Activity) requires Key(a) in p.minDurations && Key(a) in p.maxDurations => DurationRecords(p, a))
  }

  /** Lines 84-85 for one resource. */
  function PeakRecords(p: Params, k: string): seq<Constraint>
  {
    ConcatMap(Periods(p.horizon), (t: int) => [PeakRecord(p, k, t)])
  }

  function AllPeakRecords(p: Params, ks: seq<string>): seq<Constraint>
  {
    ConcatMap(ks, (k: string) => PeakRecords(p, k))
  }

  /** Lines 88-89. */
  function CapacityRecords(p: Params, ks: seq<string>): seq<Constraint>
    requires forall k | k in ks :: k in p.capacity
  {
    ConcatMap(ks, (k: string) requires k in p.capacity => [CapacityRecord(k, p.capacity[k])])
  }

  /** Lines 92-93. */
  function LatenessRecords(p: Params, acts: seq<Activity>): seq<Constraint>
    requires forall a | a in acts :: Key(a) in p.targetFinish
  {
    ConcatMap(acts, (a: Activity) requires Key(a) in p.targetFinish => [LatenessRecord(a, p.targetFinish[Key(a)])])
  }

  /** Every constraint of lines 59-93, in the order the source adds them. */
  function Constraints(p: Params): seq<Constraint>
    requires WellFormed(p)
  {
    PrecedenceRecords(p, p.projects) + AllLinkRecords(p, p.acts) + AllWindowRecords(p, p.acts)
    + AllDurationRecords(p, p.acts) + AllPeakRecords(p, p.resources) + CapacityRecords(p, p.resources)
    + LatenessRecords(p, p.acts)
  }

  /** The bounds of one activity's variables (lines 44-47 and 49). */
  function ActivityBounds(p: Params, a: Activity): seq<Constraint>
  {
    ConcatMap(Periods(p.horizon), (t: int) => [AtLeast(Active(a, t), 0.0), AtMost(Active(a, t), 1.0)])
    + [AtLeast(Duration(a), 1.0), AtLeast(Start(a), 1.0), AtLeast(Finish(a), 1.0), AtLeast(Late(a), 0.0)]
  }

  /** The bounds of every variable declaration (lines 44-49). */
  function VariableBounds(p: Params): seq<Constraint>
  {
    ConcatMap(p.acts, (a: Activity) => ActivityBounds(p, a))
    + ConcatMap(p.resources, (k: string) => [AtLeast(Peak(k), 0.0)])
  }

  /** `w[k]·R[k]` for each resource of `ks`. */
  function PeakTerms(p: Params, ks: seq<string>): (ts: seq<Term>)
    requires forall k | k in ks :: k in p.weights
    ensures |ts| == |ks|
  {
    seq(|ks|, n requires 0 <= n < |ks| => Term(p.weights[ks[n]], Peak(ks[n])))
  }

  /** `P[(i, j)]·Late[(i, j)]` for each activity of `acts`. */
  function LatenessTerms(p: Params, acts: seq<Activity>): (ts: seq<Term>)
    requires forall a | a in acts :: Key(a) in p.penalties
    ensures |ts| == |acts|
  {
    seq(|acts|, n requires 0 <= n < |acts| => Term(p.penalties[Key(acts[n])] as real, Late(acts[n])))
  }

  /** `cost_per_day·ActualDur[(i, j)]` for each activity of `acts`. */
  function DurationTerms(p: Params, acts: seq<Activity>): (ts: seq<Term>)
    ensures |ts| == |acts|
  {
    seq(|acts|, n requires 0 <= n < |acts| => Term(p.costPerDay, Duration(acts[n])))
  }

  /** Lines 52-54: the objective expression. */
  function ObjectiveExpr(p: Params): LinExpr
    requires WellFormed(p)
  {
    LinExpr(PeakTerms(p, p.resources) + LatenessTerms(p, p.acts) + DurationTerms(p, p.acts), 0.0)
  }
}
