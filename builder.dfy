/** The construction of the program handed to the solver (optimization_core.py, lines
    41-93), step by step as the source runs it: the objective sums, then each loop of
    `prob +=` statements in turn. A lookup that fails (a Python `KeyError`, or a
    precedence entry that does not unpack into two names) ends the construction with
    that error.
 */
module Builder {
  import opened Problem
  import opened Linear
  import opened Formulation
  import opened Records
  import opened Semantics
  import opened Lookups

  /** Every reported construction error names a lookup that fails, so the parameters
      are not well formed. */
  lemma ExplainedIsIllFormed(p: Params, e: KeyError)
    requires Explains(p, e) && !e.MissingActivities?
    ensures !WellFormed(p)
  {
    match e
    case UnknownActivity(a) =>
      var pair :| pair in p.precedences[a.project] && |pair| == 2 && (pair[0] == a.id || pair[1] == a.id);
      assert pair[0] == a.id ==> Activity(pair[0], a.project) == a;
      assert pair[1] == a.id ==> Activity(pair[1], a.project) == a;
    case MalformedPair(j, pair) =>
    case MissingEarliestStart(j) =>
      var a :| a in p.acts && a.project == j && j !in p.earliestStart;
    case MissingDeadline(j) =>
      var a :| a in p.acts && a.project == j && j !in p.deadlines;
    case MissingWeight(k) =>
    case MissingCapacity(k) =>
    case MissingPenalty(a) =>
    case MissingMinDuration(a) =>
    case MissingMaxDuration(a) =>
    case MissingTargetFinish(a) =>
  }

  /** Lines 52-54: the three sums of the objective, in order; `w[k]` is looked up for
      every resource before `P[(i, j)]` for any activity. */
  method BuildObjective(p: Params) returns (res: Result<LinExpr>)
    ensures res.Err? <==> ObjectiveError(p).Some?
    ensures res.Err? ==> ObjectiveError(p) == Some(res.error)
    ensures res.Err? ==> Explains(p, res.error) && !res.error.MissingActivities?
    ensures res.Ok? ==> && (forall k | k in p.resources :: k in p.weights)
                        && (forall a | a in p.acts :: Key(a) in p.penalties)
    ensures res.Ok? ==> res.value == LinExpr(PeakTerms(p, p.resources) + LatenessTerms(p, p.acts) + DurationTerms(p, p.acts), 0.0)
  {
    var K, acts := p.resources, p.acts;
    var peakTerms: seq<Term> := [];
    for n := 0 to |K|
      invariant forall k | k in K[..n] :: k in p.weights
      invariant WeightsError(p, K) == WeightsError(p, K[n..])
      invariant |peakTerms| == n
      invariant forall q | 0 <= q < n :: peakTerms[q] == Term(p.weights[K[q]], Peak(K[q]))
    {
      var k := K[n];
      assert K[n..][0] == k && K[n..][1..] == K[n + 1..];
      if k !in p.weights {
        return Err(MissingWeight(k));
      }
      peakTerms := peakTerms + [Term(p.weights[k], Peak(k))];
      assert K[..n + 1] == K[..n] + [k];
    }
    assert K[..|K|] == K && K[|K|..] == [];
    var lateTerms: seq<Term> := [];
    for n := 0 to |acts|
      invariant forall a | a in acts[..n] :: Key(a) in p.penalties
      invariant PenaltiesError(p, acts) == PenaltiesError(p, acts[n..])
      invariant |lateTerms| == n
      invariant forall q | 0 <= q < n :: lateTerms[q] == Term(p.penalties[Key(acts[q])] as real, Late(acts[q]))
    {
      var a := acts[n];
      assert acts[n..][0] == a && acts[n..][1..] == acts[n + 1..];
      if Key(a) !in p.penalties {
        return Err(MissingPenalty(a));
      }
      lateTerms := lateTerms + [Term(p.penalties[Key(a)] as real, Late(a))];
      assert acts[..n + 1] == acts[..n] + [a];
    }
    assert acts[..|acts|] == acts && acts[|acts|..] == [];
    var durationTerms: seq<Term> := [];
    for n := 0 to |acts|
      invariant |durationTerms| == n
      invariant forall q | 0 <= q < n :: durationTerms[q] == Term(p.costPerDay, Duration(acts[q]))
    {
      durationTerms := durationTerms + [Term(p.costPerDay, Duration(acts[n]))];
    }
    assert peakTerms == PeakTerms(p, K);
    assert lateTerms == LatenessTerms(p, acts);
    assert durationTerms == DurationTerms(p, acts);
    return Ok(LinExpr(peakTerms + lateTerms + durationTerms, 0.0));
  }

  /** The precedence entry of `j`, if any, holds only pairs of listed activities of `j`. */
  predicate ProjectPrecedenceOk(p: Params, j: string)
  {
    && PairsWellShaped(p, j)
    && (j in p.precedences ==>
          forall pair | pair in p.precedences[j] :: |pair| == 2 && Activity(pair[0], j) in p.acts && Activity(pair[1], j) in p.acts)
  }

  lemma PrecedenceOkIsWellFormed(p: Params)
    requires forall j | j in p.projects :: ProjectPrecedenceOk(p, j)
    ensures PrecedencesWellFormed(p) && forall j | j in p.projects :: PairsWellShaped(p, j)
  {
  }

  /** Lines 60-62 for one project: one record per pair of its precedence entry; each
      pair must unpack into two names, and `S[(i, j)]` then `F[(p, j)]` must name listed
      activities. */
  method BuildProjectPrecedence(p: Params, j: string) returns (res: Result<seq<Constraint>>)
    requires j in p.projects
    ensures res.Err? <==> ProjectPrecedenceError(p, j).Some?
    ensures res.Err? ==> ProjectPrecedenceError(p, j) == Some(res.error)
    ensures res.Err? ==> Explains(p, res.error) && !res.error.MissingActivities?
    ensures res.Ok? ==> ProjectPrecedenceOk(p, j) && res.value == ProjectPrecedenceRecords(p, j)
  {
    if j !in p.precedences {
      return Ok([]);
    }
    var pairs, acts := p.precedences[j], p.acts;
    var records: seq<Constraint> := [];
    for q := 0 to |pairs|
      invariant forall r | 0 <= r < q :: |pairs[r]| == 2
      invariant forall r | 0 <= r < q :: Activity(pairs[r][0], j) in acts && Activity(pairs[r][1], j) in acts
      invariant records == ConcatMap(pairs[..q], (pair: seq<string>) requires |pair| == 2 => [PrecedenceRecord(j, pair)])
      invariant PairsError(p, j, pairs) == PairsError(p, j, pairs[q..])
    {
      var pair := pairs[q];
      assert pairs[q..][0] == pair && pairs[q..][1..] == pairs[q + 1..];
      assert pairs[..q + 1] == pairs[..q] + [pair];
      if |pair| != 2 {
        return Err(MalformedPair(j, pair));
      }
      var succ, pred := Activity(pair[1], j), Activity(pair[0], j);
      if succ !in acts {
        return Err(UnknownActivity(succ));
      }
      if pred !in acts {
        return Err(UnknownActivity(pred));
      }
      records := records + [PrecedenceRecord(j, pair)];
    }
    assert pairs[..|pairs|] == pairs && pairs[|pairs|..] == [];
    return Ok(records);
  }

  /** Lines 59-62: the precedence records of every project, in project order. */
  method BuildPrecedence(p: Params) returns (res: Result<seq<Constraint>>)
    ensures res.Err? <==> PrecedenceError(p, p.projects).Some?
    ensures res.Err? ==> PrecedenceError(p, p.projects) == Some(res.error)
    ensures res.Err? ==> Explains(p, res.error) && !res.error.MissingActivities?
    ensures res.Ok? ==> PrecedencesWellFormed(p) && forall j | j in p.projects :: PairsWellShaped(p, j)
    ensures res.Ok? ==> res.value == PrecedenceRecords(p, p.projects)
  {
    var J := p.projects;
    var records: seq<Constraint> := [];
    for n := 0 to |J|
      invariant forall j | j in J[..n] :: ProjectPrecedenceOk(p, j)
      invariant records == PrecedenceRecords(p, J[..n])
      invariant PrecedenceError(p, J) == PrecedenceError(p, J[n..])
    {
      var j := J[n];
      assert J[n..][0] == j && J[n..][1..] == J[n + 1..];
      assert J[..n + 1] == J[..n] + [j];
      var block := BuildProjectPrecedence(p, j);
      if block.Err? {
        return Err(block.error);
      }
      records := records + block.value;
    }
    assert J[..|J|] == J && J[|J|..] == [];
    PrecedenceOkIsWellFormed(p);
    return Ok(records);
  }

  /** Lines 65-68: two linkage records per activity and period. */
  method BuildLinks(p: Params) returns (records: seq<Constraint>)
    ensures records == AllLinkRecords(p, p.acts)
  {
    var acts, h, m := p.acts, p.horizon, BigM(p);
    records := [];
    for n := 0 to |acts|
      invariant records == AllLinkRecords(p, acts[..n])
    {
      var a := acts[n];
      assert acts[..n + 1] == acts[..n] + [a];
      var block: seq<Constraint> := [];
      for t := 1 to h + 1
        invariant block == ConcatMap(Periods(h)[..t - 1], (t: int) => [StartLinkRecord(a, t, BigM(p)), FinishLinkRecord(a, t, BigM(p))])
      {
        assert Periods(h)[..t] == Periods(h)[..t - 1] + [t];
        block := block + [StartLinkRecord(a, t, m), FinishLinkRecord(a, t, m)];
      }
      assert Periods(h)[..h] == Periods(h);
      records := records + block;
    }
    assert acts[..|acts|] == acts;
  }

  /** Lines 71-73: `t0[j]` and then `PD[j]` for each activity. */
  method BuildWindow(p: Params) returns (res: Result<seq<Constraint>>)
    ensures res.Err? <==> WindowError(p, p.acts).Some?
    ensures res.Err? ==> WindowError(p, p.acts) == Some(res.error)
    ensures res.Err? ==> Explains(p, res.error) && !res.error.MissingActivities?
    ensures res.Ok? ==> forall a | a in p.acts :: a.project in p.earliestStart && a.project in p.deadlines
    ensures res.Ok? ==> res.value == AllWindowRecords(p, p.acts)
  {
    var acts := p.acts;
    var records: seq<Constraint> := [];
    for n := 0 to |acts|
      invariant forall a | a in acts[..n] :: a.project in p.earliestStart && a.project in p.deadlines
      invariant WindowError(p, acts) == WindowError(p, acts[n..])
      invariant records == AllWindowRecords(p, acts[..n])
    {
      var a := acts[n];
      assert acts[..n + 1] == acts[..n] + [a];
      assert acts[n..][0] == a && acts[n..][1..] == acts[n + 1..];
      if a.project !in p.earliestStart {
        return Err(MissingEarliestStart(a.project));
      }
      if a.project !in p.deadlines {
        return Err(MissingDeadline(a.project));
      }
      records := records + [WindowStartRecord(a, p.earliestStart[a.project]), WindowFinishRecord(a, p.deadlines[a.project])];
    }
    assert acts[..|acts|] == acts && acts[|acts|..] == [];
    return Ok(records);
  }

  /** Lines 76-80: the count, the finish link, then `min_dur` and `max_dur` for each
      activity. */
  method BuildDurations(p: Params) returns (res: Result<seq<Constraint>>)
    ensures res.Err? <==> DurationsError(p, p.acts).Some?
    ensures res.Err? ==> DurationsError(p, p.acts) == Some(res.error)
    ensures res.Err? ==> Explains(p, res.error) && !res.error.MissingActivities?
    ensures res.Ok? ==> forall a | a in p.acts :: Key(a) in p.minDurations && Key(a) in p.maxDurations
    ensures res.Ok? ==> res.value == AllDurationRecords(p, p.acts)
  {
    var acts := p.acts;
    var records: seq<Constraint> := [];
    for n := 0 to |acts|
      invariant forall a | a in acts[..n] :: Key(a) in p.minDurations && Key(a) in p.maxDurations
      invariant DurationsError(p, acts) == DurationsError(p, acts[n..])
      invariant records == AllDurationRecords(p, acts[..n])
    {
      var a := acts[n];
      assert acts[..n + 1] == acts[..n] + [a];
      assert acts[n..][0] == a && acts[n..][1..] == acts[n + 1..];
      if Key(a) !in p.minDurations {
        return Err(MissingMinDuration(a));
      }
      if Key(a) !in p.maxDurations {
        return Err(MissingMaxDuration(a));
      }
      records := records + [CountRecord(a, p.horizon), FinishDurationRecord(a),
                            MinDurationRecord(a, p.minDurations[Key(a)]), MaxDurationRecord(a, p.maxDurations[Key(a)])];
    }
    assert acts[..|acts|] == acts && acts[|acts|..] == [];
    return Ok(records);
  }

  /** Lines 83-85: one peak record per resource and period. */
  method BuildPeaks(p: Params) returns (records: seq<Constraint>)
    ensures records == AllPeakRecords(p, p.resources)
  {
    var K, h := p.resources, p.horizon;
    records := [];
    for n := 0 to |K|
      invariant records == AllPeakRecords(p, K[..n])
    {
      var k := K[n];
      assert K[..n + 1] == K[..n] + [k];
      var block: seq<Constraint> := [];
      for t := 1 to h + 1
        invariant block == ConcatMap(Periods(h)[..t - 1], (t: int) => [PeakRecord(p, k, t)])
      {
        assert Periods(h)[..t] == Periods(h)[..t - 1] + [t];
        block := block + [PeakRecord(p, k, t)];
      }
      assert Periods(h)[..h] == Periods(h);
      records := records + block;
    }
    assert K[..|K|] == K;
  }

  /** Lines 88-89: `max_res_capacity[k]` for each resource. */
  method BuildCapacity(p: Params) returns (res: Result<seq<Constraint>>)
    ensures res.Err? <==> CapacityError(p, p.resources).Some?
    ensures res.Err? ==> CapacityError(p, p.resources) == Some(res.error)
    ensures res.Err? ==> Explains(p, res.error) && !res.error.MissingActivities?
    ensures res.Ok? ==> forall k | k in p.resources :: k in p.capacity
    ensures res.Ok? ==> res.value == CapacityRecords(p, p.resources)
  {
    var K := p.resources;
    var records: seq<Constraint> := [];
    for n := 0 to |K|
      invariant forall k | k in K[..n] :: k in p.capacity
      invariant records == CapacityRecords(p, K[..n])
      invariant CapacityError(p, K) == CapacityError(p, K[n..])
    {
      var k := K[n];
      assert K[n..][0] == k && K[n..][1..] == K[n + 1..];
      assert K[..n + 1] == K[..n] + [k];
      if k !in p.capacity {
        return Err(MissingCapacity(k));
      }
      records := records + [CapacityRecord(k, p.capacity[k])];
    }
    assert K[..|K|] == K && K[|K|..] == [];
    return Ok(records);
  }

  /** Lines 92-93: `TF[(i, j)]` for each activity. */
  method BuildLateness(p: Params) returns (res: Result<seq<Constraint>>)
    ensures res.Err? <==> TargetsError(p, p.acts).Some?
    ensures res.Err? ==> TargetsError(p, p.acts) == Some(res.error)
    ensures res.Err? ==> Explains(p, res.error) && !res.error.MissingActivities?
    ensures res.Ok? ==> forall a | a in p.acts :: Key(a) in p.targetFinish
    ensures res.Ok? ==> res.value == LatenessRecords(p, p.acts)
  {
    var acts := p.acts;
    var records: seq<Constraint> := [];
    for n := 0 to |acts|
      invariant forall a | a in acts[..n] :: Key(a) in p.targetFinish
      invariant TargetsError(p, acts) == TargetsError(p, acts[n..])
      invariant records == LatenessRecords(p, acts[..n])
    {
      var a := acts[n];
      assert acts[..n + 1] == acts[..n] + [a];
      assert acts[n..][0] == a && acts[n..][1..] == acts[n + 1..];
      if Key(a) !in p.targetFinish {
        return Err(MissingTargetFinish(a));
      }
      records := records + [LatenessRecord(a, p.targetFinish[Key(a)])];
    }
    assert acts[..|acts|] == acts && acts[|acts|..] == [];
    return Ok(records);
  }

  /** Lines 41-93: the whole program, or the first lookup that fails (`BuildError`). The variable
      bounds come from the declarations of lines 44-49, which look nothing up. */
  method Build(p: Params) returns (res: Result<Lp>)
    ensures res.Err? <==> !WellFormed(p)
    ensures res.Err? ==> BuildError(p) == Some(res.error)
    ensures res.Err? ==> Explains(p, res.error)
    ensures res.Ok? ==> WellFormed(p) && res.value == Lp(ObjectiveExpr(p), VariableBounds(p), Constraints(p))
    ensures res.Ok? ==> forall asg :: Satisfies(res.value, asg) <==> Feasible(p, asg)
    ensures res.Ok? ==> forall asg :: Eval(res.value.objective, asg) == Objective(p, asg)
  {
    var objective := BuildObjective(p);
    if objective.Err? {
      ExplainedIsIllFormed(p, objective.error);
      return Err(objective.error);
    }
    var precedence := BuildPrecedence(p);
    if precedence.Err? {
      ExplainedIsIllFormed(p, precedence.error);
      return Err(precedence.error);
    }
    var links := BuildLinks(p);
    var window := BuildWindow(p);
    if window.Err? {
      ExplainedIsIllFormed(p, window.error);
      return Err(window.error);
    }
    var durations := BuildDurations(p);
    if durations.Err? {
      ExplainedIsIllFormed(p, durations.error);
      return Err(durations.error);
    }
    var peaks := BuildPeaks(p);
    var capacity := BuildCapacity(p);
    if capacity.Err? {
      ExplainedIsIllFormed(p, capacity.error);
      return Err(capacity.error);
    }
    var lateness := BuildLateness(p);
    if lateness.Err? {
      ExplainedIsIllFormed(p, lateness.error);
      return Err(lateness.error);
    }
    assert WellFormed(p);
    var lp := Lp(objective.value, VariableBounds(p),
                 precedence.value + links + window.value + durations.value + peaks + capacity.value + lateness.value);
    assert lp.constraints == Constraints(p);
    forall asg
      ensures Satisfies(lp, asg) <==> Feasible(p, asg)
    {
      SatisfiesIffFeasible(p, asg);
    }
    forall asg
      ensures Eval(lp.objective, asg) == Objective(p, asg)
    {
      ObjectiveMeaning(p, asg);
    }
    return Ok(lp);
  }
}
