# Multi-project resource levelling, modelled in Dafny

`optimize_plan` (optimization_core.py) takes a parameter dictionary describing several
projects. Each project has activities, precedence pairs, a start/deadline window,
per-activity minimum and maximum durations, target finish times with lateness penalties,
per-resource requirement tables, resource weights and resource capacities. From these it
builds a mixed-integer linear program over a horizon of periods `1..H`. The program's
variables are:

- the binary indicators `D[i,j,t]`;
- the start `S`, finish `F` and duration `ActualDur` of each activity;
- the peak usage `R[k]` of each resource;
- the lateness `Late` of each activity.

The objective is weighted peak usage plus lateness penalties plus a cost per day of duration.
The program goes to a solver, and the answer becomes a result dictionary: a schedule, the
late activities, the peak usages and a sparse table of daily usage. If the solver does not
report "Optimal", the dictionary holds only the solver status and an error message.

The model follows the function's four steps:

| module | file | what it holds |
|---|---|---|
| `Keys` | keys.dfy | `k.split(',')` on composite keys, its inverse `Join`, and the decoded tables |
| `Problem` | problem.dfy | the raw dictionary, the decoded parameters, the activity list `all_activities`, the lookups that raise `KeyError`/`ValueError` |
| `Linear` | linear.dfy | linear expressions, constraint records, assignments of every variable, and their evaluation |
| `Formulation` | formulation.dfy | what the constraints mean, in integer terms (`Feasible`), the objective, and the contiguity of each activity's active periods |
| `Records` | records.dfy | the records each constraint loop adds, in source order, and the variable bounds and objective terms |
| `Semantics` | semantics.dfy | each block of records, and the whole program, is satisfied exactly when the integer constraints hold |
| `Lookups` | lookups.dfy | which lookup of the construction fails first, section by section, in source order |
| `Builder` | builder.dfy | the imperative construction, loop by loop, with its lookup errors |
| `Optimality` | optimality.dfy | what minimisation forces on the `Late` and `R` variables |
| `Report` | report.dfy | the imperative extraction of the result dictionary |
| `Optimize` | optimize.dfy | `optimize_plan` end to end, for any solver that answers correctly |

The solver is a parameter (`solve: Lp -> Report.Outcome`). The only assumption about it is
`Optimize.SolverSound`:

- an "Optimal" answer satisfies every bound and constraint and minimises the objective;
- an "Infeasible" answer means that nothing satisfies them.

Under that assumption `Optimize.OptimizePlan` proves the following:

- the reported schedule respects windows, durations, the horizon and precedences;
- the objective value is the model objective of an optimal plan;
- each daily usage is the summed requirement of the activities running that day, and is
  within the reported peak;
- every positively weighted peak equals the largest daily usage;
- every positively penalised lateness is `max(0, F - TF)`.

Two properties one might doubt are settled by the code:

- **Contiguity.** Could an activity pause and resume inside its window? The constraints
  at lines 65-68 and 77-78 rule this out: in any feasible
  assignment, an activity is active exactly from its start to its finish
  (`Formulation.ActiveBlock`).
- **Duration validation.** A check that the minimum duration does not exceed the maximum
  does not exist in the code. With such data the program is built anyway and has no
  feasible assignment (`Formulation.InfeasibleDurations`), so a correct solver cannot
  answer "Optimal". It may answer "Infeasible", or another status such as "Not Solved"
  or "Undefined"; each of these gives the failure dictionary. The same holds for a
  requirement above capacity (`Formulation.InfeasibleRequirement`).

## Model

| member | source | states |
|---|---|---|
| Keys.Split | optimization_core.py:23 | `k.split(',')` yields at least one part, no part contains the separator, and joining the parts gives back the key |
| Keys.SplitJoin | optimization_core.py:23 | splitting the join of separator-free parts gives back the parts, so the decoding round trip holds |
| Keys.SplitInjective | optimization_core.py:23 | two keys with the same split are the same key, so decoding loses no entry |
| Keys.DecodeKeys | optimization_core.py:23 | the tuple-keyed table has exactly the split keys, each with the original value |
| Keys.DecodedLookup | optimization_core.py:28-31 | a tuple is in the decoded table exactly when its comma-joined string is a key of the raw table, with the same value |
| Problem.AllActivitiesMembers | optimization_core.py:35 | an activity is in `all_activities` exactly when its project is listed and its id is in that project's list |
| Problem.AllActivitiesLength | optimization_core.py:35 | `all_activities` has one entry per listed id, project by project |
| Problem.AllActivitiesProjectMajor | optimization_core.py:35 | the activity list is ordered project by project, in the order of `J` |
| Problem.FirstUnlisted | optimization_core.py:35 | when some project has no activity list, the project reported is the first one in `J` that lacks one |
| Problem.Decode | optimization_core.py:17-38 | decoding fails exactly when a project has no activity list, with the error of the first such project in `J`; otherwise the horizon is `len(range(1, T+1))`, the activity list is `all_activities` of line 35 (see the three `AllActivities` lemmas for its members, length and order), every composite-key table is the decoded raw table, and every plain table and the cost per day are those of the input |
| Formulation.ActiveBlock | optimization_core.py:65-68 | in any assignment within the variable domains that meets one activity's constraints, the start and finish lie in the horizon and the activity is active exactly on the periods from its start to its finish |
| Formulation.BlockIsFeasible | optimization_core.py:65-93 | conversely, a block of activity inside the window, with a duration within bounds and lateness at least `F - TF`, meets every per-activity constraint |
| Formulation.ActivityTiming | optimization_core.py:70-80 | a feasible assignment starts each activity no sooner than its project's start, finishes it by the deadline and within the horizon, with `F = S + dur - 1` and the duration within bounds |
| Formulation.UsageOfRunning | optimization_core.py:83-85 | in a feasible assignment the usage summed on line 85 is the total requirement of the activities running at that period |
| Formulation.UsageAtLeast | optimization_core.py:85 | with non-negative requirements, the usage of a period is at least any single activity's share |
| Formulation.InfeasibleDurations | optimization_core.py:71-80 | an activity whose minimum duration exceeds its maximum, or that cannot fit its window, makes the program infeasible |
| Formulation.InfeasibleRequirement | optimization_core.py:83-89 | an activity needing more of a resource than its capacity makes the program infeasible |
| Optimality.LatenessCostDecrease | optimization_core.py:53 | lowering a positively penalised lateness lowers the penalty sum |
| Optimality.PeakCostDecrease | optimization_core.py:52 | lowering a positively weighted peak lowers the weighted peak sum |
| Optimality.LatenessRelaxation | optimization_core.py:49 | lateness is at least `max(0, F - TF)`, setting it to that stays feasible, and (with a positive penalty) doing so lowers the objective when lateness was above it |
| Optimality.OptimalLatenessIsTight | optimization_core.py:92-93 | in an optimal assignment a positively penalised lateness equals `max(0, F - TF)` |
| Optimality.MaxUsage | optimization_core.py:83-85 | the largest usage of a resource over the horizon (zero when there is none): non-negative, at least every period's usage, and attained |
| Optimality.PeakCoversMaxUsage | optimization_core.py:83-89 | a feasible peak lies between the largest usage and the capacity |
| Optimality.PeakRelaxation | optimization_core.py:48 | setting a peak to the largest usage stays feasible, and (with a positive weight) lowers the objective when the peak was above it |
| Optimality.OptimalPeakIsTight | optimization_core.py:83-85 | in an optimal assignment a positively weighted peak equals the largest daily usage |
| Records.PeriodsMembers | optimization_core.py:36 | a period is in `T` exactly when it lies between 1 and `H` |
| Semantics.PrecedenceRecordsMeaning | optimization_core.py:59-62 | the precedence records hold exactly when every listed successor starts after its predecessor's finish |
| Semantics.StartLinkMeaning | optimization_core.py:67 | the start-linkage record for period `t` holds exactly when `S <= t*D + M*(1-D)` in integers |
| Semantics.FinishLinkMeaning | optimization_core.py:68 | the finish-linkage record for period `t` holds exactly when `F >= t*D - M*(1-D)` in integers |
| Semantics.AllLinkRecordsMeaning | optimization_core.py:65-68 | the linkage records of all activities hold exactly when every activity is linked at every period |
| Semantics.AllWindowRecordsMeaning | optimization_core.py:71-73 | the window records hold exactly when every activity lies in its project's window |
| Semantics.CountRecordMeaning | optimization_core.py:77 | the count record holds exactly when the active periods number `ActualDur` |
| Semantics.FinishDurationMeaning | optimization_core.py:78 | the finish-duration record holds exactly when `F = S + ActualDur - 1` |
| Semantics.AllDurationRecordsMeaning | optimization_core.py:76-80 | the duration records hold exactly when every activity's count, finish, minimum and maximum constraints do |
| Semantics.PeakRecordMeaning | optimization_core.py:85 | the peak record of a period holds exactly when the summed usage is at most `R[k]` |
| Semantics.AllPeakRecordsMeaning | optimization_core.py:83-85 | the peak records hold exactly when every period's usage is within every resource's peak |
| Semantics.CapacityRecordsMeaning | optimization_core.py:88-89 | the capacity records hold exactly when every peak is within its capacity |
| Semantics.LatenessRecordsMeaning | optimization_core.py:92-93 | the lateness records hold exactly when every lateness is at least `F - TF` |
| Semantics.VariableBoundsMeaning | optimization_core.py:44-49 | the declared bounds and categories hold exactly when every variable is in its domain |
| Semantics.ConstraintsMeaning | optimization_core.py:58-93 | all constraint records hold exactly when precedence, every per-activity constraint and the resource limits hold |
| Semantics.SatisfiesIffFeasible | optimization_core.py:44-93 | an assignment satisfies the built program exactly when it is feasible for the model |
| Semantics.ObjectiveMeaning | optimization_core.py:52-54 | the built objective evaluates to weighted peaks plus penalised lateness plus the daily cost of duration |
| Lookups.FirstFailureMeaning | optimization_core.py:52-93 | a scan finds no failure exactly when every element passes; otherwise its failure is that of an element all of whose predecessors pass |
| Lookups.WeightsErrorMeaning | optimization_core.py:52 | no weight error exactly when every resource has a weight; otherwise the error names the first resource, in the order of `K`, without one |
| Lookups.PenaltiesErrorMeaning | optimization_core.py:53 | no penalty error exactly when every activity has a penalty; otherwise the error names the first activity without one |
| Lookups.PairsErrorMeaning | optimization_core.py:61-62 | no error exactly when every entry of a project's list is a pair of its listed activities; otherwise the error is that of the first faulty entry |
| Lookups.PrecedenceErrorMeaning | optimization_core.py:59-62 | no precedence error exactly when no project's list is faulty; otherwise the error is that of the first faulty project in the order of `J` |
| Lookups.WindowErrorMeaning | optimization_core.py:71-73 | no window error exactly when every activity's project has a start and a deadline; otherwise the error is that of the first activity lacking one |
| Lookups.DurationsErrorMeaning | optimization_core.py:76-80 | no duration error exactly when every activity has a minimum and a maximum duration; otherwise the error is that of the first activity lacking one |
| Lookups.CapacityErrorMeaning | optimization_core.py:88-89 | no capacity error exactly when every resource has a capacity; otherwise the error names the first resource without one |
| Lookups.TargetsErrorMeaning | optimization_core.py:92-93 | no target error exactly when every activity has a target finish; otherwise the error names the first activity without one |
| Lookups.PrecedenceErrorWellFormed | optimization_core.py:59-62 | the precedence loops find no error exactly when the precedence lists are well formed, and an error they find names a failing lookup |
| Lookups.WindowErrorExplains | optimization_core.py:71-73 | a window error names a listed activity's project without a start or a deadline |
| Lookups.BuildErrorMeaning | optimization_core.py:52-93 | the construction's first failing lookup is absent exactly when the parameters are well formed, and when present it names a lookup that indeed fails |
| Builder.ExplainedIsIllFormed | optimization_core.py:52-93 | any lookup error the construction can report shows the parameters are not well formed |
| Builder.BuildObjective | optimization_core.py:52-54 | the objective is built from every weight, penalty and duration term, or the error is exactly `Lookups.ObjectiveError`: the first resource without a weight, else the first activity without a penalty |
| Builder.BuildProjectPrecedence | optimization_core.py:60-62 | one project's precedence records, or the error is exactly `Lookups.ProjectPrecedenceError`: the first entry that is not a pair (`ValueError`), else names an unknown successor, else an unknown predecessor |
| Builder.BuildPrecedence | optimization_core.py:59-62 | the precedence records of every project in order, or the error is exactly `Lookups.PrecedenceError`, the first project's first faulty entry |
| Builder.BuildLinks | optimization_core.py:65-68 | the two linkage records per activity and period, in loop order |
| Builder.BuildWindow | optimization_core.py:71-73 | the window records, or the error is exactly `Lookups.WindowError`: for the first activity whose project lacks a start or a deadline, the missing start, else the missing deadline |
| Builder.BuildDurations | optimization_core.py:76-80 | the four duration records per activity, or the error is exactly `Lookups.DurationsError`: for the first activity lacking one, the missing minimum, else the missing maximum |
| Builder.BuildPeaks | optimization_core.py:83-85 | one peak record per resource and period, in loop order |
| Builder.BuildCapacity | optimization_core.py:88-89 | the capacity records, or the error is exactly `Lookups.CapacityError`, the first resource without a capacity |
| Builder.BuildLateness | optimization_core.py:92-93 | the lateness records, or the error is exactly `Lookups.TargetsError`, the first activity without a target finish |
| Builder.Build | optimization_core.py:41-93 | construction fails exactly when some lookup fails, and the error is `Lookups.BuildError`, the first failing lookup in source order. Otherwise it returns the program, and an assignment satisfies the program exactly when it is feasible, with the objective evaluating to the model objective |
| Report.StatusName | optimization_core.py:99 | the status name is "Optimal" exactly for the optimal status |
| Report.LateIndicesFilter | optimization_core.py:117 | the late positions increase, and a position is late exactly when its lateness exceeds 0.01 |
| Report.LateEntriesAreFiltered | optimization_core.py:109-122 | the lateness list is, in order, the entries of exactly the activities whose lateness exceeds 0.01 |
| Report.LateEntriesMembers | optimization_core.py:117-122 | an activity's entry is in the lateness list exactly when its lateness exceeds 0.01 |
| Report.ScheduleAndLateness | optimization_core.py:109-122 | one schedule entry per activity in order, and the filtered lateness list |
| Report.PeakUsage | optimization_core.py:124-125 | the peak table has exactly the resources, each with the value of its peak variable |
| Report.DailyRow | optimization_core.py:128-130 | the row starts at zero for every resource and ends with every resource's usage |
| Report.AnyPositive | optimization_core.py:131 | the test holds exactly when some resource's usage is positive |
| Report.DailyUsage | optimization_core.py:127-132 | a period is reported exactly when it is in the horizon and some resource is used, and its row is the usage of every resource |
| Report.Extract | optimization_core.py:99-136 | a non-optimal status gives the status and the fixed error message. Otherwise the result has the objective value, the schedule, the lateness list, the peaks and the sparse daily usage |
| Optimize.SoundOptimalIsOptimal | optimization_core.py:96-102 | an "Optimal" answer from a correct solver is optimal for the model, with the reported objective equal to the model objective |
| Optimize.SoundInfeasibleIsInfeasible | optimization_core.py:96-99 | an "Infeasible" answer from a correct solver means no plan is feasible |
| Optimize.FeasibleSchedule | optimization_core.py:109-116 | the schedule of a feasible assignment respects windows, the horizon, durations and precedences |
| Optimize.FeasibleDaily | optimization_core.py:124-132 | each reported daily usage is the demand of the running activities, and is within the reported peak |
| Optimize.ResultsGuarantees | optimization_core.py:96-136 | the dictionary extracted from a correct solver's answer reports that answer (`Report.Reports`: status, objective value, the schedule entry of each activity from its `S`, `F` and `ActualDur`, lateness list, peak table keyed by the resources with the `R` values, sparse daily table) and keeps every guarantee above |
| Optimize.OptimizePlan | optimization_core.py:4-136 | decoding and lookup errors are reported exactly when they occur, and a lookup error is the first failing lookup (`Lookups.BuildError`). Otherwise the result is the failure dictionary for a non-optimal status; for an "Optimal" status it is the dictionary `Report.Reports` describes, and the schedule, lateness, peaks and daily usage of an optimal plan come with the guarantees above |

## Left out

- The MILP solver (PuLP's `prob.solve()`, line 96) is a parameter. Only its correctness, `Optimize.SolverSound`, is assumed; its algorithm, time limits and numerical tolerance are not modelled.
- Floating point: `value()` of an integer or binary variable is an exact integer, and continuous variables, weights and the cost per day are exact reals.
- `round(value(Late), 2)` at line 121 is not modelled. The lateness list reports the unrounded value.
- Constraint names (the f-strings on lines 62-93) are not modelled. Neither is PuLP's rejection of a repeated name: the model builds the program, with the repeated records as repeated constraints, where the source raises. A name repeats when:
  - an activity id is listed twice in one project;
  - a project is listed twice in `J`;
  - a resource is listed twice in `K`;
  - a pair is repeated in one project's precedence list (`Precedence_{p}_{i}_{j}`, line 62);
  - two distinct activities have underscore-joined names that coincide: activity `A_1` of project `J` and activity `A` of project `1_J` both give `ProjectWindow_Start_A_1_J` (line 72).
- Keys.SplitJoin and Keys.DecodedLookup require the ids to be free of commas, as the encoding `"i,j"` presumes. With a comma inside an id, the source's decoding is ambiguous.
- The construction collects each loop's records and then concatenates them. The order of records is the same as that of the successive `prob +=` statements.
- The `LpProblem` object is not modelled as an object. `Builder` returns the program as a value: its objective, its bounds and its records.
- Whether the dictionary's lists and maps are built in place is not modelled: `Report` builds them as values. The lists keep the source's order. `peak_resource_usage` and `daily_usage` are Dafny maps, which have no order, so the insertion order of their keys (visible in the JSON output) is not modelled.
- A missing top-level field (`data["projects"]` through `data["cost_per_day"]`, lines 17-32) raises a `KeyError` in the source. The raw dictionary is modelled as a record with every field present, so that error cannot arise in the model.
- The `__main__` block (lines 139 onwards) is sample input and printing.
- api.py and celery_worker.py are not part of this model. They handle HTTP and task-queue plumbing around `optimize_plan`.
