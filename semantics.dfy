/** What the records of each loop of optimization_core.py (lines 44-93) say about an
    assignment, and the resulting equivalence: an assignment satisfies the generated
    program exactly when it is feasible in the sense of module Formulation, and the
    generated objective evaluates to Formulation's objective.
 */
module Semantics {
  import opened Problem
  import opened Linear
  import opened Formulation
  import opened Records

  // ---------------------------------------------------------------------------------
  // Single records

  lemma PrecedenceRecordMeaning(j: string, pair: seq<string>, asg: Assignment)
    requires |pair| == 2
    ensures AllHold([PrecedenceRecord(j, pair)], asg)
            <==> asg.start(Activity(pair[1], j)) >= asg.finish(Activity(pair[0], j)) + 1
  {
    AllHoldSingle(PrecedenceRecord(j, pair), asg);
    EvalSingle(1.0, Start(Activity(pair[1], j)), 0.0, asg);
    EvalSingle(1.0, Finish(Activity(pair[0], j)), 1.0, asg);
  }

  lemma StartLinkMeaning(a: Activity, t: int, m: int, asg: Assignment)
    ensures Holds(StartLinkRecord(a, t, m), asg)
            <==> asg.start(a) <= t * asg.active(a, t) + m * (1 - asg.active(a, t))
  {
    var d := asg.active(a, t);
    EvalSingle(1.0, Start(a), 0.0, asg);
    EvalSingle((t - m) as real, Active(a, t), m as real, asg);
    assert t * d + m * (1 - d) == (t - m) * d + m;
    assert ((t - m) * d) as real == (t - m) as real * d as real;
  }

  lemma FinishLinkMeaning(a: Activity, t: int, m: int, asg: Assignment)
    ensures Holds(FinishLinkRecord(a, t, m), asg)
            <==> asg.finish(a) >= t * asg.active(a, t) - m * (1 - asg.active(a, t))
  {
    var d := asg.active(a, t);
    EvalSingle(1.0, Finish(a), 0.0, asg);
    EvalSingle((t + m) as real, Active(a, t), -(m as real), asg);
    assert t * d - m * (1 - d) == (t + m) * d - m;
    assert ((t + m) * d) as real == (t + m) as real * d as real;
  }

  lemma CapacityRecordMeaning(k: string, capacity: int, asg: Assignment)
    ensures AllHold([CapacityRecord(k, capacity)], asg) <==> asg.peak(k) <= capacity as real
  {
    AllHoldSingle(CapacityRecord(k, capacity), asg);
    EvalSingle(1.0, Peak(k), 0.0, asg);
  }

  lemma WindowRecordsMeaning(p: Params, a: Activity, asg: Assignment)
    requires a.project in p.earliestStart && a.project in p.deadlines
    ensures AllHold(WindowRecords(p, a), asg)
            <==> asg.start(a) >= p.earliestStart[a.project] && asg.finish(a) <= p.deadlines[a.project]
  {
    EvalSingle(1.0, Start(a), 0.0, asg);
    EvalSingle(1.0, Finish(a), 0.0, asg);
    AllHoldTwo(WindowStartRecord(a, p.earliestStart[a.project]), WindowFinishRecord(a, p.deadlines[a.project]), asg);
  }

  lemma LinkPairMeaning(a: Activity, t: int, m: int, asg: Assignment)
    ensures AllHold([StartLinkRecord(a, t, m), FinishLinkRecord(a, t, m)], asg)
            <==> && asg.start(a) <= t * asg.active(a, t) + m * (1 - asg.active(a, t))
                 && asg.finish(a) >= t * asg.active(a, t) - m * (1 - asg.active(a, t))
  {
    AllHoldTwo(StartLinkRecord(a, t, m), FinishLinkRecord(a, t, m), asg);
    StartLinkMeaning(a, t, m, asg);
    FinishLinkMeaning(a, t, m, asg);
  }

  lemma BinaryBoundsMeaning(a: Activity, t: int, asg: Assignment)
    ensures AllHold([AtLeast(Active(a, t), 0.0), AtMost(Active(a, t), 1.0)], asg)
            <==> 0 <= asg.active(a, t) <= 1
  {
    BoundMeaning(Active(a, t), 0.0, asg);
    BoundMeaning(Active(a, t), 1.0, asg);
    AllHoldTwo(AtLeast(Active(a, t), 0.0), AtMost(Active(a, t), 1.0), asg);
  }

  lemma PeakBoundMeaning(k: string, asg: Assignment)
    ensures AllHold([AtLeast(Peak(k), 0.0)], asg) <==> asg.peak(k) >= 0.0
  {
    BoundMeaning(Peak(k), 0.0, asg);
    AllHoldSingle(AtLeast(Peak(k), 0.0), asg);
  }

  lemma BoundMeaning(v: Var, c: real, asg: Assignment)
    ensures Holds(AtLeast(v, c), asg) <==> Value(asg, v) >= c
    ensures Holds(AtMost(v, c), asg) <==> Value(asg, v) <= c
  {
    EvalSingle(1.0, v, 0.0, asg);
  }

  /** `D[a,1] + ... + D[a,n]` evaluates to the number of active periods. */
  lemma {:induction false} EvalCountTerms(a: Activity, n: nat, asg: Assignment)
    ensures EvalTerms(CountTerms(a, n), asg) == ActiveCount(asg.active, a, n) as real
  {
    if n > 0 {
      assert CountTerms(a, n)[..n - 1] == CountTerms(a, n - 1);
      EvalCountTerms(a, n - 1, asg);
    }
  }

  /** The peak record's left-hand side evaluates to the resource usage. */
  lemma {:induction false} EvalUsageTerms(p: Params, acts: seq<Activity>, k: string, t: int, asg: Assignment)
    ensures EvalTerms(UsageTerms(p, acts, k, t), asg) == Usage(p, acts, asg.active, k, t) as real
  {
    if acts != [] {
      var init := acts[..|acts| - 1];
      assert UsageTerms(p, acts, k, t)[..|acts| - 1] == UsageTerms(p, init, k, t);
      EvalUsageTerms(p, init, k, t, asg);
    }
  }

  lemma CountRecordMeaning(a: Activity, h: nat, asg: Assignment)
    ensures Holds(CountRecord(a, h), asg) <==> ActiveCount(asg.active, a, h) == asg.duration(a)
  {
    EvalCountTerms(a, h, asg);
    EvalSingle(1.0, Duration(a), 0.0, asg);
  }

  lemma FinishDurationMeaning(a: Activity, asg: Assignment)
    ensures Holds(FinishDurationRecord(a), asg) <==> asg.finish(a) == asg.start(a) + asg.duration(a) - 1
  {
    EvalSingle(1.0, Finish(a), 0.0, asg);
    EvalPair(1.0, Start(a), 1.0, Duration(a), -1.0, asg);
  }

  lemma PeakRecordMeaning(p: Params, k: string, t: int, asg: Assignment)
    ensures AllHold([PeakRecord(p, k, t)], asg) <==> ResourceUsage(p, asg.active, k, t) as real <= asg.peak(k)
  {
    AllHoldSingle(PeakRecord(p, k, t), asg);
    EvalUsageTerms(p, p.acts, k, t, asg);
    EvalSingle(1.0, Peak(k), 0.0, asg);
  }

  lemma LatenessRecordMeaning(a: Activity, target: int, asg: Assignment)
    ensures AllHold([LatenessRecord(a, target)], asg) <==> asg.late(a) >= (asg.finish(a) - target) as real
  {
    AllHoldSingle(LatenessRecord(a, target), asg);
    EvalSingle(1.0, Late(a), 0.0, asg);
    EvalSingle(1.0, Finish(a), -(target as real), asg);
    assert Eval(LatenessRecord(a, target).rhs, asg) == (asg.finish(a) - target) as real;
  }

  // ---------------------------------------------------------------------------------
  // The records of each loop

  lemma AllHoldSingle(c: Constraint, asg: Assignment)
    ensures AllHold([c], asg) <==> Holds(c, asg)
  {
    assert [c][0] == c;
  }

  lemma AllHoldTwo(c: Constraint, d: Constraint, asg: Assignment)
    ensures AllHold([c, d], asg) <==> Holds(c, asg) && Holds(d, asg)
  {
    assert [c, d][0] == c && [c, d][1] == d;
  }

  /** Lines 59-62: the precedence records hold exactly when every listed pair of every
      listed project is respected; projects without a precedence entry add nothing. */
  lemma PrecedenceRecordsMeaning(p: Params, asg: Assignment)
    requires PrecedencesWellFormed(p)
    ensures forall j | j in p.projects :: PairsWellShaped(p, j)
    ensures AllHold(PrecedenceRecords(p, p.projects), asg) <==> PrecedenceHolds(p, asg)
  {
    AllHoldConcatMap(p.projects, (j: string) requires PairsWellShaped(p, j) => ProjectPrecedenceRecords(p, j), asg);
    forall j | j in p.projects && j in p.precedences
      ensures AllHold(ProjectPrecedenceRecords(p, j), asg)
              <==> forall pair | pair in p.precedences[j] ::
                     asg.start(Activity(pair[1], j)) >= asg.finish(Activity(pair[0], j)) + 1
    {
      AllHoldConcatMap(p.precedences[j], (pair: seq<string>) requires |pair| == 2 => [PrecedenceRecord(j, pair)], asg);
      forall pair | pair in p.precedences[j] {
        PrecedenceRecordMeaning(j, pair, asg);
      }
    }
  }

  /** Lines 65-68 for one activity. */
  lemma LinkRecordsMeaning(p: Params, a: Activity, asg: Assignment)
    ensures AllHold(LinkRecords(p, a), asg) <==> Linked(p, asg, a)
  {
    AllHoldConcatMap(Periods(p.horizon), (t: int) => [StartLinkRecord(a, t, BigM(p)), FinishLinkRecord(a, t, BigM(p))], asg);
    PeriodsMembers(p.horizon);
    var m := BigM(p);
    if AllHold(LinkRecords(p, a), asg) {
      forall t | 1 <= t <= p.horizon
        ensures && asg.start(a) <= t * asg.active(a, t) + m * (1 - asg.active(a, t))
                && asg.finish(a) >= t * asg.active(a, t) - m * (1 - asg.active(a, t))
      {
        assert t in Periods(p.horizon);
        LinkPairMeaning(a, t, m, asg);
      }
    }
    if Linked(p, asg, a) {
      forall t | t in Periods(p.horizon)
        ensures AllHold([StartLinkRecord(a, t, m), FinishLinkRecord(a, t, m)], asg)
      {
        LinkPairMeaning(a, t, m, asg);
      }
    }
  }

  lemma AllLinkRecordsMeaning(p: Params, asg: Assignment)
    ensures AllHold(AllLinkRecords(p, p.acts), asg) <==> forall a | a in p.acts :: Linked(p, asg, a)
  {
    AllHoldConcatMap(p.acts, (a: Activity) => LinkRecords(p, a), asg);
    forall a | a in p.acts {
      LinkRecordsMeaning(p, a, asg);
    }
  }

  /** Lines 71-73. */
  lemma AllWindowRecordsMeaning(p: Params, asg: Assignment)
    requires WellFormed(p)
    ensures AllHold(AllWindowRecords(p, p.acts), asg)
            <==> forall a | a in p.acts ::
                   asg.start(a) >= p.earliestStart[a.project] && asg.finish(a) <= p.deadlines[a.project]
  {
    AllHoldConcatMap(p.acts, (a: Activity) requires a.project in p.earliestStart && a.project in p.deadlines => WindowRecords(p, a), asg);
    forall a | a in p.acts {
      WindowRecordsMeaning(p, a, asg);
    }
  }

  /** Lines 76-80 for one activity. */
  lemma DurationRecordsMeaning(p: Params, a: Activity, asg: Assignment)
    requires Key(a) in p.minDurations && Key(a) in p.maxDurations
    ensures AllHold(DurationRecords(p, a), asg)
            <==> && ActiveCount(asg.active, a, p.horizon) == asg.duration(a)
                 && asg.finish(a) == asg.start(a) + asg.duration(a) - 1
                 && p.minDurations[Key(a)] <= asg.duration(a) <= p.maxDurations[Key(a)]
  {
    CountRecordMeaning(a, p.horizon, asg);
    FinishDurationMeaning(a, asg);
    EvalSingle(1.0, Duration(a), 0.0, asg);
    var c1, c2 := CountRecord(a, p.horizon), FinishDurationRecord(a);
    var c3, c4 := MinDurationRecord(a, p.minDurations[Key(a)]), MaxDurationRecord(a, p.maxDurations[Key(a)]);
    AllHoldTwo(c1, c2, asg);
    AllHoldTwo(c3, c4, asg);
    assert [c1, c2, c3, c4] == [c1, c2] + [c3, c4];
    AllHoldConcat([c1, c2], [c3, c4], asg);
  }

  lemma AllDurationRecordsMeaning(p: Params, asg: Assignment)
    requires WellFormed(p)
    ensures AllHold(AllDurationRecords(p, p.acts), asg)
            <==> forall a | a in p.acts ::
                   && ActiveCount(asg.active, a, p.horizon) == asg.duration(a)
                   && asg.finish(a) == asg.start(a) + asg.duration(a) - 1
                   && p.minDurations[Key(a)] <= asg.duration(a) <= p.maxDurations[Key(a)]
  {
    AllHoldConcatMap(p.acts, (a: Activity) requires Key(a) in p.minDurations && Key(a) in p.maxDurations => DurationRecords(p, a), asg);
    forall a | a in p.acts {
      DurationRecordsMeaning(p, a, asg);
    }
  }

  /** Lines 83-85 for one resource. */
  lemma PeakRecordsMeaning(p: Params, k: string, asg: Assignment)
    ensures AllHold(PeakRecords(p, k), asg)
            <==> forall t | 1 <= t <= p.horizon :: ResourceUsage(p, asg.active, k, t) as real <= asg.peak(k)
  {
    AllHoldConcatMap(Periods(p.horizon), (t: int) => [PeakRecord(p, k, t)], asg);
    PeriodsMembers(p.horizon);
    forall t | t in Periods(p.horizon) {
      PeakRecordMeaning(p, k, t, asg);
    }
  }

  lemma AllPeakRecordsMeaning(p: Params, asg: Assignment)
    ensures AllHold(AllPeakRecords(p, p.resources), asg)
            <==> forall k, t | k in p.resources && 1 <= t <= p.horizon ::
                   ResourceUsage(p, asg.active, k, t) as real <= asg.peak(k)
  {
    AllHoldConcatMap(p.resources, (k: string) => PeakRecords(p, k), asg);
    forall k | k in p.resources {
      PeakRecordsMeaning(p, k, asg);
    }
  }

  /** Lines 88-89. */
  lemma CapacityRecordsMeaning(p: Params, asg: Assignment)
    requires WellFormed(p)
    ensures AllHold(CapacityRecords(p, p.resources), asg)
            <==> forall k | k in p.resources :: asg.peak(k) <= p.capacity[k] as real
  {
    AllHoldConcatMap(p.resources, (k: string) requires k in p.capacity => [CapacityRecord(k, p.capacity[k])], asg);
    forall k | k in p.resources {
      CapacityRecordMeaning(k, p.capacity[k], asg);
    }
  }

  /** Lines 92-93. */
  lemma LatenessRecordsMeaning(p: Params, asg: Assignment)
    requires WellFormed(p)
    ensures AllHold(LatenessRecords(p, p.acts), asg)
            <==> forall a | a in p.acts :: asg.late(a) >= (asg.finish(a) - p.targetFinish[Key(a)]) as real
  {
    AllHoldConcatMap(p.acts, (a: Activity) requires Key(a) in p.targetFinish => [LatenessRecord(a, p.targetFinish[Key(a)])], asg);
    forall a | a in p.acts {
      LatenessRecordMeaning(a, p.targetFinish[Key(a)], asg);
    }
  }

  /** The bounds of one activity's variables. */
  lemma ActivityBoundsMeaning(p: Params, a: Activity, asg: Assignment)
    ensures AllHold(ActivityBounds(p, a), asg)
            <==> && (forall t | 1 <= t <= p.horizon :: 0 <= asg.active(a, t) <= 1)
                 && asg.duration(a) >= 1 && asg.start(a) >= 1 && asg.finish(a) >= 1 && asg.late(a) >= 0.0
  {
    var ts := Periods(p.horizon);
    var binary := ConcatMap(ts, (t: int) => [AtLeast(Active(a, t), 0.0), AtMost(Active(a, t), 1.0)]);
    var r1, r2 := [AtLeast(Duration(a), 1.0), AtLeast(Start(a), 1.0)], [AtLeast(Finish(a), 1.0), AtLeast(Late(a), 0.0)];
    assert ActivityBounds(p, a) == binary + (r1 + r2);
    AllHoldConcat(binary, r1 + r2, asg);
    AllHoldConcat(r1, r2, asg);
    AllHoldTwo(r1[0], r1[1], asg);
    AllHoldTwo(r2[0], r2[1], asg);
    AllHoldConcatMap(ts, (t: int) => [AtLeast(Active(a, t), 0.0), AtMost(Active(a, t), 1.0)], asg);
    PeriodsMembers(p.horizon);
    forall t | t in ts {
      BinaryBoundsMeaning(a, t, asg);
    }
    BoundMeaning(Duration(a), 1.0, asg);
    BoundMeaning(Start(a), 1.0, asg);
    BoundMeaning(Finish(a), 1.0, asg);
    BoundMeaning(Late(a), 0.0, asg);
  }

  /** Lines 44-49: the declared bounds hold exactly when the assignment is in the
      variables' domains. */
  lemma VariableBoundsMeaning(p: Params, asg: Assignment)
    ensures AllHold(VariableBounds(p), asg) <==> InDomain(p, asg)
  {
    var actBounds := ConcatMap(p.acts, (a: Activity) => ActivityBounds(p, a));
    var peakBounds := ConcatMap(p.resources, (k: string) => [AtLeast(Peak(k), 0.0)]);
    AllHoldConcat(actBounds, peakBounds, asg);
    AllHoldConcatMap(p.acts, (a: Activity) => ActivityBounds(p, a), asg);
    AllHoldConcatMap(p.resources, (k: string) => [AtLeast(Peak(k), 0.0)], asg);
    forall k | k in p.resources {
      PeakBoundMeaning(k, asg);
    }
    forall a | a in p.acts {
      ActivityBoundsMeaning(p, a, asg);
    }
  }

  lemma AllHoldSeven(c1: seq<Constraint>, c2: seq<Constraint>, c3: seq<Constraint>, c4: seq<Constraint>,
                     c5: seq<Constraint>, c6: seq<Constraint>, c7: seq<Constraint>, asg: Assignment)
    ensures AllHold(c1 + c2 + c3 + c4 + c5 + c6 + c7, asg)
            <==> && AllHold(c1, asg) && AllHold(c2, asg) && AllHold(c3, asg) && AllHold(c4, asg)
                 && AllHold(c5, asg) && AllHold(c6, asg) && AllHold(c7, asg)
  {
    AllHoldConcat(c1, c2, asg);
    AllHoldConcat(c1 + c2, c3, asg);
    AllHoldConcat(c1 + c2 + c3, c4, asg);
    AllHoldConcat(c1 + c2 + c3 + c4, c5, asg);
    AllHoldConcat(c1 + c2 + c3 + c4 + c5, c6, asg);
    AllHoldConcat(c1 + c2 + c3 + c4 + c5 + c6, c7, asg);
  }

  /** The constraint list holds exactly when each loop's records hold. */
  lemma ConstraintBlocks(p: Params, asg: Assignment)
    requires WellFormed(p) && forall j | j in p.projects :: PairsWellShaped(p, j)
    ensures AllHold(Constraints(p), asg)
            <==> && AllHold(PrecedenceRecords(p, p.projects), asg)
                 && AllHold(AllLinkRecords(p, p.acts), asg)
                 && AllHold(AllWindowRecords(p, p.acts), asg)
                 && AllHold(AllDurationRecords(p, p.acts), asg)
                 && AllHold(AllPeakRecords(p, p.resources), asg)
                 && AllHold(CapacityRecords(p, p.resources), asg)
                 && AllHold(LatenessRecords(p, p.acts), asg)
  {
    AllHoldSeven(PrecedenceRecords(p, p.projects), AllLinkRecords(p, p.acts), AllWindowRecords(p, p.acts),
                 AllDurationRecords(p, p.acts), AllPeakRecords(p, p.resources), CapacityRecords(p, p.resources),
                 LatenessRecords(p, p.acts), asg);
  }

  /** The per-activity records of every loop together say that each activity is
      feasible. */
  lemma ActivityRecordsMeaning(p: Params, asg: Assignment)
    requires WellFormed(p)
    ensures && AllHold(AllLinkRecords(p, p.acts), asg)
            && AllHold(AllWindowRecords(p, p.acts), asg)
            && AllHold(AllDurationRecords(p, p.acts), asg)
            && AllHold(LatenessRecords(p, p.acts), asg)
            <==> forall a | a in p.acts :: ActivityFeasible(p, asg, a)
  {
    AllLinkRecordsMeaning(p, asg);
    AllWindowRecordsMeaning(p, asg);
    AllDurationRecordsMeaning(p, asg);
    LatenessRecordsMeaning(p, asg);
  }

  /** Every constraint record holds exactly when the assignment meets lines 59-93. */
  lemma ConstraintsMeaning(p: Params, asg: Assignment)
    requires WellFormed(p)
    ensures AllHold(Constraints(p), asg)
            <==> && PrecedenceHolds(p, asg)
                 && (forall a | a in p.acts :: ActivityFeasible(p, asg, a))
                 && ResourcesFeasible(p, asg)
  {
    PrecedenceRecordsMeaning(p, asg);
    ConstraintBlocks(p, asg);
    ActivityRecordsMeaning(p, asg);
    AllPeakRecordsMeaning(p, asg);
    CapacityRecordsMeaning(p, asg);
  }

  /** The generated program's feasible set is exactly Formulation's feasible set. */
  lemma SatisfiesIffFeasible(p: Params, asg: Assignment)
    requires WellFormed(p)
    ensures Satisfies(Lp(ObjectiveExpr(p), VariableBounds(p), Constraints(p)), asg) <==> Feasible(p, asg)
  {
    VariableBoundsMeaning(p, asg);
    ConstraintsMeaning(p, asg);
  }

  // ---------------------------------------------------------------------------------
  // The objective

  lemma {:induction false} EvalPeakTerms(p: Params, ks: seq<string>, asg: Assignment)
    requires forall n | 0 <= n < |ks| :: ks[n] in p.weights
    ensures forall k | k in ks :: k in p.weights
    ensures EvalTerms(PeakTerms(p, ks), asg) == PeakCost(p, ks, asg.peak)
  {
    if ks != [] {
      var init := ks[..|ks| - 1];
      assert PeakTerms(p, ks)[..|ks| - 1] == PeakTerms(p, init);
      EvalPeakTerms(p, init, asg);
    }
  }

  lemma {:induction false} EvalLatenessTerms(p: Params, acts: seq<Activity>, asg: Assignment)
    requires forall n | 0 <= n < |acts| :: Key(acts[n]) in p.penalties
    ensures forall a | a in acts :: Key(a) in p.penalties
    ensures EvalTerms(LatenessTerms(p, acts), asg) == LatenessCost(p, acts, asg.late)
  {
    if acts != [] {
      var init := acts[..|acts| - 1];
      assert LatenessTerms(p, acts)[..|acts| - 1] == LatenessTerms(p, init);
      EvalLatenessTerms(p, init, asg);
    }
  }

  lemma {:induction false} EvalDurationTerms(p: Params, acts: seq<Activity>, asg: Assignment)
    ensures EvalTerms(DurationTerms(p, acts), asg) == DurationCost(p, acts, asg.duration)
  {
    if acts != [] {
      var init := acts[..|acts| - 1];
      assert DurationTerms(p, acts)[..|acts| - 1] == DurationTerms(p, init);
      EvalDurationTerms(p, init, asg);
    }
  }

  /** Lines 52-54: the generated objective evaluates to Formulation's objective. */
  lemma ObjectiveMeaning(p: Params, asg: Assignment)
    requires WellFormed(p)
    ensures Eval(ObjectiveExpr(p), asg) == Objective(p, asg)
  {
    var t1 := PeakTerms(p, p.resources);
    var t2 := LatenessTerms(p, p.acts);
    var t3 := DurationTerms(p, p.acts);
    EvalTermsConcat(t1, t2, asg);
    EvalTermsConcat(t1 + t2, t3, asg);
    EvalPeakTerms(p, p.resources, asg);
    EvalLatenessTerms(p, p.acts, asg);
    EvalDurationTerms(p, p.acts, asg);
  }
}
