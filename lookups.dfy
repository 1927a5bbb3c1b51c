/** Which lookup of the construction (optimization_core.py, lines 52-93) fails first.
    Python evaluates the objective sums and the `prob +=` loops in order and stops at the
    first `KeyError` (or the `ValueError` of a precedence entry that is not a pair), so the
    error the construction reports is determined by the parameters: these functions give
    it, section by section, and the lemmas say what each one means.
 */
module Lookups {
  import opened Problem

  datatype Option<T> = None | Some(value: T)

  /** The first element whose check fails, scanning from the front. */
  function FirstFailure<T>(xs: seq<T>, check: T -> Option<KeyError>): Option<KeyError>
  {
    if xs == [] then None
    else if check(xs[0]).Some? then check(xs[0])
    else FirstFailure(xs[1..], check)
  }

  /** No element fails exactly when no check fails; otherwise the result is the failure
      of some element all of whose predecessors pass. */
  lemma {:induction false} FirstFailureMeaning<T>(xs: seq<T>, check: T -> Option<KeyError>)
    ensures FirstFailure(xs, check).None? <==> forall n | 0 <= n < |xs| :: check(xs[n]).None?
    ensures FirstFailure(xs, check).Some? ==>
              exists n | 0 <= n < |xs| :: check(xs[n]) == FirstFailure(xs, check) && forall m | 0 <= m < n :: check(xs[m]).None?
  {
    if xs != [] && check(xs[0]).None? {
      var tail := xs[1..];
      FirstFailureMeaning(tail, check);
      assert forall n | 1 <= n < |xs| :: tail[n - 1] == xs[n];
      if FirstFailure(xs, check).Some? {
        var n :| 0 <= n < |tail| && check(tail[n]) == FirstFailure(tail, check) && forall m | 0 <= m < n :: check(tail[m]).None?;
        assert check(xs[n + 1]) == FirstFailure(xs, check);
        assert forall m | 0 <= m < n + 1 :: check(xs[m]).None? by {
          forall m | 0 <= m < n + 1 ensures check(xs[m]).None? {
            if m > 0 {
              assert xs[m] == tail[m - 1];
            }
          }
        }
      }
      if forall n | 0 <= n < |xs| :: check(xs[n]).None? {
        assert forall n | 0 <= n < |tail| :: check(tail[n]).None? by {
          forall n | 0 <= n < |tail| ensures check(tail[n]).None? {
            assert tail[n] == xs[n + 1];
          }
        }
      }
    }
  }

  /** The first of two failures, `a` if it is one. */
  function Either(a: Option<KeyError>, b: Option<KeyError>): Option<KeyError>
  {
    if a.Some? then a else b
  }

  // ---------------------------------------------------------------------------------
  // The lookup of one element

  /** Line 52: `w[k]`. */
  function WeightCheck(p: Params, k: string): Option<KeyError>
  {
    if k in p.weights then None else Some(MissingWeight(k))
  }

  /** Line 53: `P[(i, j)]`. */
  function PenaltyCheck(p: Params, a: Activity): Option<KeyError>
  {
    if Key(a) in p.penalties then None else Some(MissingPenalty(a))
  }

  /** Lines 61-62 for one entry: the unpacking into `p, i`, then `S[(i, j)]`, then
      `F[(p, j)]`. */
  function PairCheck(p: Params, j: string, pair: seq<string>): Option<KeyError>
  {
    if |pair| != 2 then Some(MalformedPair(j, pair))
    else if Activity(pair[1], j) !in p.acts then Some(UnknownActivity(Activity(pair[1], j)))
    else if Activity(pair[0], j) !in p.acts then Some(UnknownActivity(Activity(pair[0], j)))
    else None
  }

  /** Lines 72-73: `t0[j]`, then `PD[j]`. */
  function WindowCheck(p: Params, a: Activity): Option<KeyError>
  {
    if a.project !in p.earliestStart then Some(MissingEarliestStart(a.project))
    else if a.project !in p.deadlines then Some(MissingDeadline(a.project))
    else None
  }

  /** Lines 79-80: `min_dur[(i, j)]`, then `max_dur[(i, j)]`. */
  function DurationCheck(p: Params, a: Activity): Option<KeyError>
  {
    if Key(a) !in p.minDurations then Some(MissingMinDuration(a))
    else if Key(a) !in p.maxDurations then Some(MissingMaxDuration(a))
    else None
  }

  /** Line 89: `max_res_capacity[k]`. */
  function CapacityCheck(p: Params, k: string): Option<KeyError>
  {
    if k in p.capacity then None else Some(MissingCapacity(k))
  }

  /** Line 93: `TF[(i, j)]`. */
  function TargetCheck(p: Params, a: Activity): Option<KeyError>
  {
    if Key(a) in p.targetFinish then None else Some(MissingTargetFinish(a))
  }

  // ---------------------------------------------------------------------------------
  // The first failure of each loop

  function WeightsError(p: Params, ks: seq<string>): Option<KeyError>
  {
    FirstFailure(ks, (k: string) => WeightCheck(p, k))
  }

  function PenaltiesError(p: Params, acts: seq<Activity>): Option<KeyError>
  {
    FirstFailure(acts, (a: Activity) => PenaltyCheck(p, a))
  }

  function PairsError(p: Params, j: string, pairs: seq<seq<string>>): Option<KeyError>
  {
    FirstFailure(pairs, (pair: seq<string>) => PairCheck(p, j, pair))
  }

  /** Line 60: a project without a precedence entry adds nothing. */
  function ProjectPrecedenceError(p: Params, j: string): Option<KeyError>
  {
    if j in p.precedences then PairsError(p, j, p.precedences[j]) else None
  }

  function PrecedenceError(p: Params, js: seq<string>): Option<KeyError>
  {
    FirstFailure(js, (j: string) => ProjectPrecedenceError(p, j))
  }

  function WindowError(p: Params, acts: seq<Activity>): Option<KeyError>
  {
    FirstFailure(acts, (a: Activity) => WindowCheck(p, a))
  }

  function DurationsError(p: Params, acts: seq<Activity>): Option<KeyError>
  {
    FirstFailure(acts, (a: Activity) => DurationCheck(p, a))
  }

  function CapacityError(p: Params, ks: seq<string>): Option<KeyError>
  {
    FirstFailure(ks, (k: string) => CapacityCheck(p, k))
  }

  function TargetsError(p: Params, acts: seq<Activity>): Option<KeyError>
  {
    FirstFailure(acts, (a: Activity) => TargetCheck(p, a))
  }

  /** Lines 52-53: every `w[k]` is read before any `P[(i, j)]`. */
  function ObjectiveError(p: Params): Option<KeyError>
  {
    Either(WeightsError(p, p.resources), PenaltiesError(p, p.acts))
  }

  /** Lines 52-93: the objective, then the precedence, window, duration, capacity and
      lateness loops; the linkage and peak loops look nothing up. */
  function BuildError(p: Params): Option<KeyError>
  {
    Either(ObjectiveError(p),
      Either(PrecedenceError(p, p.projects),
        Either(WindowError(p, p.acts),
          Either(DurationsError(p, p.acts),
            Either(CapacityError(p, p.resources), TargetsError(p, p.acts))))))
  }

  // ---------------------------------------------------------------------------------
  // What each first failure means

  /** The first resource, in the order of `K`, without a weight. */
  lemma WeightsErrorMeaning(p: Params, ks: seq<string>)
    ensures WeightsError(p, ks).None? <==> forall k | k in ks :: k in p.weights
    ensures WeightsError(p, ks).Some? ==>
              exists n | 0 <= n < |ks| :: && WeightsError(p, ks) == Some(MissingWeight(ks[n])) && ks[n] !in p.weights
                                          && forall m | 0 <= m < n :: ks[m] in p.weights
  {
    FirstFailureMeaning(ks, (k: string) => WeightCheck(p, k));
  }

  /** The first activity, in the order of `all_activities`, without a penalty. */
  lemma PenaltiesErrorMeaning(p: Params, acts: seq<Activity>)
    ensures PenaltiesError(p, acts).None? <==> forall a | a in acts :: Key(a) in p.penalties
    ensures PenaltiesError(p, acts).Some? ==>
              exists n | 0 <= n < |acts| :: && PenaltiesError(p, acts) == Some(MissingPenalty(acts[n])) && Key(acts[n]) !in p.penalties
                                            && forall m | 0 <= m < n :: Key(acts[m]) in p.penalties
  {
    FirstFailureMeaning(acts, (a: Activity) => PenaltyCheck(p, a));
  }

  /** The first entry of a project's precedence list that is not a pair of its listed
      activities; of such an entry, a wrong length is reported first, then an unknown
      successor, then an unknown predecessor. */
  lemma PairsErrorMeaning(p: Params, j: string, pairs: seq<seq<string>>)
    ensures PairsError(p, j, pairs).None? <==>
              forall pair | pair in pairs :: |pair| == 2 && Activity(pair[0], j) in p.acts && Activity(pair[1], j) in p.acts
    ensures PairsError(p, j, pairs).Some? ==>
              exists n | 0 <= n < |pairs| :: && PairsError(p, j, pairs) == PairCheck(p, j, pairs[n])
                                             && forall m | 0 <= m < n :: PairCheck(p, j, pairs[m]).None?
  {
    FirstFailureMeaning(pairs, (pair: seq<string>) => PairCheck(p, j, pair));
  }

  /** A reported pair error names a lookup that indeed fails. */
  lemma PairCheckExplains(p: Params, j: string, pair: seq<string>)
    requires j in p.projects && j in p.precedences && pair in p.precedences[j]
    requires PairCheck(p, j, pair).Some?
    ensures Explains(p, PairCheck(p, j, pair).value)
  {
  }

  /** The first project, in the order of `J`, with a faulty precedence entry. */
  lemma PrecedenceErrorMeaning(p: Params, js: seq<string>)
    ensures PrecedenceError(p, js).None? <==> forall j | j in js :: ProjectPrecedenceError(p, j).None?
    ensures PrecedenceError(p, js).Some? ==>
              exists n | 0 <= n < |js| :: && PrecedenceError(p, js) == ProjectPrecedenceError(p, js[n])
                                          && forall m | 0 <= m < n :: ProjectPrecedenceError(p, js[m]).None?
  {
    FirstFailureMeaning(js, (j: string) => ProjectPrecedenceError(p, j));
  }

  /** The first activity whose project lacks a start, or else a deadline. */
  lemma WindowErrorMeaning(p: Params, acts: seq<Activity>)
    ensures WindowError(p, acts).None? <==> forall a | a in acts :: a.project in p.earliestStart && a.project in p.deadlines
    ensures WindowError(p, acts).Some? ==>
              exists n | 0 <= n < |acts| :: && WindowError(p, acts) == WindowCheck(p, acts[n])
                                            && forall m | 0 <= m < n :: acts[m].project in p.earliestStart && acts[m].project in p.deadlines
  {
    FirstFailureMeaning(acts, (a: Activity) => WindowCheck(p, a));
  }

  /** The first activity without a minimum, or else a maximum, duration. */
  lemma DurationsErrorMeaning(p: Params, acts: seq<Activity>)
    ensures DurationsError(p, acts).None? <==> forall a | a in acts :: Key(a) in p.minDurations && Key(a) in p.maxDurations
    ensures DurationsError(p, acts).Some? ==>
              exists n | 0 <= n < |acts| :: && DurationsError(p, acts) == DurationCheck(p, acts[n])
                                            && forall m | 0 <= m < n :: Key(acts[m]) in p.minDurations && Key(acts[m]) in p.maxDurations
  {
    FirstFailureMeaning(acts, (a: Activity) => DurationCheck(p, a));
  }

  /** The first resource without a capacity. */
  lemma CapacityErrorMeaning(p: Params, ks: seq<string>)
    ensures CapacityError(p, ks).None? <==> forall k | k in ks :: k in p.capacity
    ensures CapacityError(p, ks).Some? ==>
              exists n | 0 <= n < |ks| :: && CapacityError(p, ks) == Some(MissingCapacity(ks[n])) && ks[n] !in p.capacity
                                          && forall m | 0 <= m < n :: ks[m] in p.capacity
  {
    FirstFailureMeaning(ks, (k: string) => CapacityCheck(p, k));
  }

  /** The first activity without a target finish time. */
  lemma TargetsErrorMeaning(p: Params, acts: seq<Activity>)
    ensures TargetsError(p, acts).None? <==> forall a | a in acts :: Key(a) in p.targetFinish
    ensures TargetsError(p, acts).Some? ==>
              exists n | 0 <= n < |acts| :: && TargetsError(p, acts) == Some(MissingTargetFinish(acts[n])) && Key(acts[n]) !in p.targetFinish
                                            && forall m | 0 <= m < n :: Key(acts[m]) in p.targetFinish
  {
    FirstFailureMeaning(acts, (a: Activity) => TargetCheck(p, a));
  }

  /** The precedence loops find no failure exactly when every precedence entry is a
      list of pairs of listed activities, and a failure they find names a failing
      lookup. */
  lemma PrecedenceErrorWellFormed(p: Params)
    ensures PrecedenceError(p, p.projects).None? <==> PrecedencesWellFormed(p)
    ensures PrecedenceError(p, p.projects).Some? ==>
              Explains(p, PrecedenceError(p, p.projects).value) && !PrecedenceError(p, p.projects).value.MissingActivities?
  {
    PrecedenceErrorMeaning(p, p.projects);
    assert PrecedencesWellFormed(p) <==> forall j | j in p.projects :: ProjectPrecedenceError(p, j).None? by {
      forall j | j in p.projects && j in p.precedences {
        PairsErrorMeaning(p, j, p.precedences[j]);
      }
    }
    if PrecedenceError(p, p.projects).Some? {
      var n :| && 0 <= n < |p.projects| && PrecedenceError(p, p.projects) == ProjectPrecedenceError(p, p.projects[n])
               && forall m | 0 <= m < n :: ProjectPrecedenceError(p, p.projects[m]).None?;
      var j := p.projects[n];
      var pairs := p.precedences[j];
      PairsErrorMeaning(p, j, pairs);
      var q :| 0 <= q < |pairs| && PairsError(p, j, pairs) == PairCheck(p, j, pairs[q])
               && forall m | 0 <= m < q :: PairCheck(p, j, pairs[m]).None?;
      PairCheckExplains(p, j, pairs[q]);
    }
  }

  /** The window loop's failure names a project of a listed activity that lacks a start
      or a deadline. */
  lemma WindowErrorExplains(p: Params)
    requires WindowError(p, p.acts).Some?
    ensures Explains(p, WindowError(p, p.acts).value) && !WindowError(p, p.acts).value.MissingActivities?
  {
    WindowErrorMeaning(p, p.acts);
    var n :| 0 <= n < |p.acts| && WindowError(p, p.acts) == WindowCheck(p, p.acts[n])
             && forall m | 0 <= m < n :: p.acts[m].project in p.earliestStart && p.acts[m].project in p.deadlines;
    assert p.acts[n] in p.acts;
  }

  /** The construction finds no failing lookup exactly when the parameters are well
      formed, and the failure it finds names a lookup that indeed fails. */
  lemma BuildErrorMeaning(p: Params)
    ensures BuildError(p).None? <==> WellFormed(p)
    ensures BuildError(p).Some? ==> Explains(p, BuildError(p).value) && !BuildError(p).value.MissingActivities?
  {
    WeightsErrorMeaning(p, p.resources);
    PenaltiesErrorMeaning(p, p.acts);
    PrecedenceErrorWellFormed(p);
    WindowErrorMeaning(p, p.acts);
    if WindowError(p, p.acts).Some? {
      WindowErrorExplains(p);
    }
    DurationsErrorMeaning(p, p.acts);
    CapacityErrorMeaning(p, p.resources);
    TargetsErrorMeaning(p, p.acts);
  }
}
