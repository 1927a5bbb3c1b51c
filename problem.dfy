/** The optimizer's parameters: the dictionary it receives, its decoding into tuple-keyed
    tables and the project-major activity list, and the key lookups that raise when a
    table lacks an entry (optimization_core.py, lines 17-38 and the lookups of 52-93).
 */
module Problem {
  import opened Keys

  /** An activity `i` of project `j`, the pair `(i, j)` of the source. */
  datatype Activity = Activity(id: string, project: string)

  /** The tuple `(i, j)` under which the per-activity tables are keyed. */
  function Key(a: Activity): seq<string> { [a.id, a.project] }

  /** The tuple `(i, j, k)` under which resource requirements are keyed. */
  function RequirementKey(a: Activity, k: string): seq<string> { [a.id, a.project, k] }

  /** The parameter dictionary, field by field; composite keys are still strings. */
  datatype RawData = RawData(
    projects: seq<string>,
    activities: map<string, seq<string>>,
    timePeriods: int,
    resources: seq<string>,
    precedences: map<string, seq<seq<string>>>,
    resourceRequirements: map<string, int>,
    resourceWeights: map<string, real>,
    earliestStartTimes: map<string, int>,
    projectDeadlines: map<string, int>,
    maxResourceCapacity: map<string, int>,
    targetFinishTimes: map<string, int>,
    latenessPenalties: map<string, int>,
    minDurations: map<string, int>,
    maxDurations: map<string, int>,
    costPerDay: real)

  /** The decoded parameters: tuple-keyed tables, the horizon length `H` and the list
      `all_activities`. */
  datatype Params = Params(
    projects: seq<string>,
    activities: map<string, seq<string>>,
    horizon: nat,
    resources: seq<string>,
    precedences: map<string, seq<seq<string>>>,
    requirements: map<seq<string>, int>,
    weights: map<string, real>,
    earliestStart: map<string, int>,
    deadlines: map<string, int>,
    capacity: map<string, int>,
    targetFinish: map<seq<string>, int>,
    penalties: map<seq<string>, int>,
    minDurations: map<seq<string>, int>,
    maxDurations: map<seq<string>, int>,
    costPerDay: real,
    acts: seq<Activity>)

  /** The exceptions the source raises while reading its tables: a `KeyError` for an
      absent key, and the `ValueError` of unpacking a precedence entry that is not a pair. */
  datatype KeyError =
    | MissingActivities(project: string)
    | MissingWeight(resource: string)
    | MissingPenalty(activity: Activity)
    | MalformedPair(project: string, pair: seq<string>)
    | UnknownActivity(activity: Activity)
    | MissingEarliestStart(project: string)
    | MissingDeadline(project: string)
    | MissingMinDuration(activity: Activity)
    | MissingMaxDuration(activity: Activity)
    | MissingCapacity(resource: string)
    | MissingTargetFinish(activity: Activity)

  datatype Result<T> = Ok(value: T) | Err(error: KeyError)

  /** The big-M constant `M = H + 100` of the start/finish linkage. */
  function BigM(p: Params): int { p.horizon + 100 }

  /** The activities of project `j` in the order its list gives them. */
  function ProjectActivities(j: string, ids: seq<string>): (s: seq<Activity>)
    ensures |s| == |ids|
    ensures forall n | 0 <= n < |ids| :: s[n] == Activity(ids[n], j)
  {
    seq(|ids|, n requires 0 <= n < |ids| => Activity(ids[n], j))
  }

  /** `[(i, j) for j in J for i in I[j]]`: the activities listed project by project. */
  function AllActivities(projects: seq<string>, activities: map<string, seq<string>>): seq<Activity>
    requires forall n | 0 <= n < |projects| :: projects[n] in activities
  {
    if projects == [] then []
    else
      var j := projects[|projects| - 1];
      AllActivities(projects[..|projects| - 1], activities) + ProjectActivities(j, activities[j])
  }

  /** An activity is listed exactly when its project is listed and the project's
      activity list names it. */
  lemma {:induction false} AllActivitiesMembers(projects: seq<string>, activities: map<string, seq<string>>, a: Activity)
    requires forall n | 0 <= n < |projects| :: projects[n] in activities
    ensures a in AllActivities(projects, activities) <==> a.project in projects && a.id in activities[a.project]
  {
    if projects != [] {
      var init := projects[..|projects| - 1];
      var j := projects[|projects| - 1];
      AllActivitiesMembers(init, activities, a);
      assert projects == init + [j];
      var block := ProjectActivities(j, activities[j]);
      assert a in block <==> a.project == j && a.id in activities[j] by {
        if a in block {
          var n :| 0 <= n < |block| && block[n] == a;
        }
        if a.project == j && a.id in activities[j] {
          var n :| 0 <= n < |activities[j]| && activities[j][n] == a.id;
          assert block[n] == a;
        }
      }
    }
  }

  /** The list holds one entry per (project, listed activity) pair, duplicates included. */
  function ListedCount(projects: seq<string>, activities: map<string, seq<string>>): nat
    requires forall n | 0 <= n < |projects| :: projects[n] in activities
  {
    if projects == [] then 0
    else ListedCount(projects[..|projects| - 1], activities) + |activities[projects[|projects| - 1]]|
  }

  /** Index of a project in the project list. */
  function PositionOf(projects: seq<string>, j: string): (u: nat)
    requires j in projects
    ensures u < |projects| && projects[u] == j
    ensures forall v | 0 <= v < u :: projects[v] != j
  {
    if projects[0] == j then 0 else 1 + PositionOf(projects[1..], j)
  }

  /** The list holds one entry per (project, listed activity) pair. */
  lemma {:induction false} AllActivitiesLength(projects: seq<string>, activities: map<string, seq<string>>)
    requires forall u | 0 <= u < |projects| :: projects[u] in activities
    ensures |AllActivities(projects, activities)| == ListedCount(projects, activities)
  {
    if projects != [] {
      AllActivitiesLength(projects[..|projects| - 1], activities);
    }
  }

  /** The list is project-major: when no project is listed twice, an activity of an
      earlier project never comes after an activity of a later one. */
  lemma {:induction false} AllActivitiesProjectMajor(projects: seq<string>, activities: map<string, seq<string>>, n: nat, m: nat)
    requires forall u | 0 <= u < |projects| :: projects[u] in activities
    requires forall u, v | 0 <= u < v < |projects| :: projects[u] != projects[v]
    requires n <= m < |AllActivities(projects, activities)|
    ensures AllActivities(projects, activities)[n].project in projects
    ensures AllActivities(projects, activities)[m].project in projects
    ensures PositionOf(projects, AllActivities(projects, activities)[n].project)
            <= PositionOf(projects, AllActivities(projects, activities)[m].project)
  {
    var acts := AllActivities(projects, activities);
    assert projects != [];
    var init := projects[..|projects| - 1];
    var j := projects[|projects| - 1];
    var front := AllActivities(init, activities);
    var block := ProjectActivities(j, activities[j]);
    assert acts == front + block;
    assert projects == init + [j];
    if m < |front| {
      AllActivitiesProjectMajor(init, activities, n, m);
      assert acts[n] == front[n] && acts[m] == front[m];
      PositionPrefix(init, j, front[n].project);
      PositionPrefix(init, j, front[m].project);
    } else {
      assert acts[m] == block[m - |front|];
      PositionLast(init, j);
      if n < |front| {
        assert acts[n] == front[n];
        assert front[n] in front;
        AllActivitiesMembers(init, activities, front[n]);
        PositionPrefix(init, j, front[n].project);
      } else {
        assert acts[n] == block[n - |front|];
      }
    }
  }

  lemma {:induction false} PositionPrefix(init: seq<string>, j: string, x: string)
    requires x in init
    ensures PositionOf(init + [j], x) == PositionOf(init, x)
  {
    if init[0] != x {
      assert (init + [j])[1..] == init[1..] + [j];
      PositionPrefix(init[1..], j, x);
    }
  }

  lemma {:induction false} PositionLast(init: seq<string>, j: string)
    requires forall u, v | 0 <= u < v < |init + [j]| :: (init + [j])[u] != (init + [j])[v]
    ensures PositionOf(init + [j], j) == |init|
  {
    var u := PositionOf(init + [j], j);
    assert (init + [j])[|init|] == j;
    if u < |init| {
      assert false;
    }
  }

  /** The first listed project that has no activity list, if any (the `KeyError` of
      `I[j]` on line 35). */
  function FirstUnlisted(projects: seq<string>, activities: map<string, seq<string>>): (r: string)
    requires exists n | 0 <= n < |projects| :: projects[n] !in activities
    ensures r in projects && r !in activities
    ensures exists n | 0 <= n < |projects| :: projects[n] == r && forall m | 0 <= m < n :: projects[m] in activities
  {
    if projects[0] !in activities then projects[0]
    else
      assert exists n | 0 <= n < |projects[1..]| :: projects[1..][n] !in activities by {
        var n :| 0 <= n < |projects| && projects[n] !in activities;
        assert projects[1..][n - 1] == projects[n];
      }
      FirstUnlisted(projects[1..], activities)
  }

  /** Lines 17-38: decode the composite keys and list the activities; fails exactly when
      a project has no activity list, with the `KeyError` of the first such project. */
  function Decode(raw: RawData): (r: Result<Params>)
    ensures r.Err? <==> exists n | 0 <= n < |raw.projects| :: raw.projects[n] !in raw.activities
    ensures r.Err? ==> r.error == MissingActivities(FirstUnlisted(raw.projects, raw.activities))
    ensures r.Err? ==> r.error.MissingActivities? && r.error.project in raw.projects
                       && r.error.project !in raw.activities
    ensures r.Ok? ==> r.value.horizon == (if raw.timePeriods > 0 then raw.timePeriods else 0)
    ensures r.Ok? ==> forall a :: a in r.value.acts <==> a.project in raw.projects && a.id in raw.activities[a.project]
    ensures r.Ok? ==> r.value.acts == AllActivities(raw.projects, raw.activities)
    ensures r.Ok? ==> r.value.projects == raw.projects && r.value.resources == raw.resources
                      && r.value.precedences == raw.precedences && r.value.activities == raw.activities
    ensures r.Ok? ==> && r.value.weights == raw.resourceWeights && r.value.earliestStart == raw.earliestStartTimes
                      && r.value.deadlines == raw.projectDeadlines && r.value.capacity == raw.maxResourceCapacity
                      && r.value.costPerDay == raw.costPerDay
    ensures r.Ok? ==> && r.value.requirements == DecodeKeys(raw.resourceRequirements)
                      && r.value.targetFinish == DecodeKeys(raw.targetFinishTimes)
                      && r.value.penalties == DecodeKeys(raw.latenessPenalties)
                      && r.value.minDurations == DecodeKeys(raw.minDurations)
                      && r.value.maxDurations == DecodeKeys(raw.maxDurations)
  {
    if exists n | 0 <= n < |raw.projects| :: raw.projects[n] !in raw.activities then
      Err(MissingActivities(FirstUnlisted(raw.projects, raw.activities)))
    else
      var acts := AllActivities(raw.projects, raw.activities);
      assert forall a :: a in acts <==> a.project in raw.projects && a.id in raw.activities[a.project] by {
        forall a ensures a in acts <==> a.project in raw.projects && a.id in raw.activities[a.project] {
          AllActivitiesMembers(raw.projects, raw.activities, a);
        }
      }
      Ok(Params(
        projects := raw.projects,
        activities := raw.activities,
        horizon := if raw.timePeriods > 0 then raw.timePeriods else 0,
        resources := raw.resources,
        precedences := raw.precedences,
        requirements := DecodeKeys(raw.resourceRequirements),
        weights := raw.resourceWeights,
        earliestStart := raw.earliestStartTimes,
        deadlines := raw.projectDeadlines,
        capacity := raw.maxResourceCapacity,
        targetFinish := DecodeKeys(raw.targetFinishTimes),
        penalties := DecodeKeys(raw.latenessPenalties),
        minDurations := DecodeKeys(raw.minDurations),
        maxDurations := DecodeKeys(raw.maxDurations),
        costPerDay := raw.costPerDay,
        acts := acts))
  }

  /** Every precedence entry of a listed project is a pair of activities of that project. */
  predicate PrecedencesWellFormed(p: Params)
  {
    forall j, pair | j in p.projects && j in p.precedences && pair in p.precedences[j] ::
      |pair| == 2 && Activity(pair[0], j) in p.acts && Activity(pair[1], j) in p.acts
  }

  /** Every lookup the model construction makes succeeds. */
  predicate WellFormed(p: Params)
  {
    && (forall k | k in p.resources :: k in p.weights && k in p.capacity)
    && (forall a | a in p.acts ::
          && Key(a) in p.penalties
          && a.project in p.earliestStart && a.project in p.deadlines
          && Key(a) in p.minDurations && Key(a) in p.maxDurations
          && Key(a) in p.targetFinish)
    && PrecedencesWellFormed(p)
  }

  /** The error names a lookup that indeed fails. */
  predicate Explains(p: Params, e: KeyError)
  {
    match e
    case MissingActivities(j) => j in p.projects && j !in p.activities
    case MissingWeight(k) => k in p.resources && k !in p.weights
    case MissingPenalty(a) => a in p.acts && Key(a) !in p.penalties
    case MalformedPair(j, pair) =>
      j in p.projects && j in p.precedences && pair in p.precedences[j] && |pair| != 2
    case UnknownActivity(a) =>
      a.project in p.projects && a.project in p.precedences && a !in p.acts
      && exists pair | pair in p.precedences[a.project] :: |pair| == 2 && (pair[0] == a.id || pair[1] == a.id)
    case MissingEarliestStart(j) => exists a | a in p.acts :: a.project == j && j !in p.earliestStart
    case MissingDeadline(j) => exists a | a in p.acts :: a.project == j && j !in p.deadlines
    case MissingMinDuration(a) => a in p.acts && Key(a) !in p.minDurations
    case MissingMaxDuration(a) => a in p.acts && Key(a) !in p.maxDurations
    case MissingCapacity(k) => k in p.resources && k !in p.capacity
    case MissingTargetFinish(a) => a in p.acts && Key(a) !in p.targetFinish
  }

  /** `r.get((i, j, k), 0)`: an absent requirement counts as zero. */
  function Requirement(p: Params, a: Activity, k: string): int
  {
    if RequirementKey(a, k) in p.requirements then p.requirements[RequirementKey(a, k)] else 0
  }
}
