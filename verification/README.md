# A model of the baton-harness daemon, with proofs

The daemon takes the issues of a milestone, orders them by their blockers, runs a worker on each, gates every result on
CI, merges it, and survives being killed at any point. This project models the code around the subprocess calls and
proves what it promises. Every call to `gh`, `git` or the worker is a parameter that holds its answer, so the theorems
quantify over all answers, refusals and interruptions included.

| file | models |
|---|---|
| `Dag`, `TopologicalSorter`, `Scheduler` | the blocker graph, the sorter underneath, the scheduler with transitive parking |
| `Labels`, `FailureStore`, `FailureTally`, `Redispatch` | label states, the failure budget with its file, the re-dispatch window with its file |
| `Trace`, `Park` | the history of a unit, the park transition |
| `CiGate` | which job counts for a check name, the green predicate, the polling loop |
| `Outcomes`, `WorkUnit`, `UnitHistory` | one work unit: what each issue is due, dispatch checks, outcome protocol, the serial loop, and what its history says |
| `Text`, `Decimal`, `Provenance`, `TrailerFormat`, `Recovery`, `MergeBranch` | the provenance trailer, its parser and its documented form, crash classification, the merge and its cuts |
| `AfterRun` | the hook that reconciles labels after a worker |
| `Heartbeat`, `AlertIdentity`, `AlertEpisodes` | the stall alert shared by two threads, whose issue it names, and when a reset lets it alert again |
| `Json`, `RuleMatching`, `RuleComparison`, `RuleOrder`, `RuleDefaults`, `RulesetDrift` | ruleset comparison |
| `Redact`, `Poll`, `ScenarioVerify` | span-union redaction, one poll cycle, the ordered subsequence check |

`graphlib` is not part of the repository; `TopologicalSorter` follows the Python standard library's documentation of it
(predecessor counters, each node handed out once, `done` releasing successors).

## Where the code and its documentation differ

The model follows the code. Each difference below is stated exactly, shown by a concrete input, or both.

- `_rules_equal` calls its matching order-independent. `RuleComparison.OrderMatters` shows two orders of the desired
  rules with different verdicts. The order of the live rules never matters exactly for order-safe desired lists
  (`RuleOrder.LiveOrderIsIrrelevantExactly`), and the order of the desired rules never matters exactly when any two of
  one type conflict or have the same parameters (`RuleOrder.DesiredOrderIsIrrelevantExactly`). The verdict finds every
  one-to-one assignment exactly for order-safe lists (`RuleComparison.AgreementIsExact`).
- `_first_structural_diff` says it mirrors `_content_equal`. They part exactly on a key that is null on one side and
  absent on the other (`RulesetDrift.ComparatorsAgree`, `RulesetDrift.ComparatorsDisagree`).
- `_classify_check_runs` is documented to be red when any required check fails. A check that has not reported masks a
  later failure (`CiGate.RedExactlyWhenUnmasked`, `CiGate.MaskedFailure`), and with nothing required it is green on no evidence
  (`CiGate.GreenNeedsEvidence`).
- The trailer parser is documented to look for the exact line ending in `ci=green`. It reads any line that goes on with
  something int() accepts; the two agree exactly on the lines that are not lax (`TrailerFormat.ReadersAgreeExactly`,
  `TrailerFormat.LogsAgreeExactly`, `TrailerFormat.GreenIsNotChecked`).
- `_reconcile_labels` says exactly one state label is left. That holds exactly under `AfterRunHook.Settles`
  (`AfterRunHook.SettlesExactly`, `AfterRunHook.StaleLabelSurvives`).
- The heartbeat's snapshot is said to prevent a mixed-issue alert. An alert is about one issue when no call was half
  written at the owner read and no identity field was written before the issue read
  (`AlertIdentity.UndisturbedIsOfOneCall`); the exact condition on the writes is `AlertIdentity.ReadsOfOneCall`, with
  `AlertIdentity.OfOneCallExactly` and `AlertIdentity.OfOneRepositoryExactly` for the values. A tick left alone can still mix two issues
  (`AlertIdentity.HalfWrittenIsMixed`), as can one that is interrupted (`Heartbeat.SnapshotCanBeTorn`).
- A reset is said to start an episode that can alert. It cannot exactly when a tick that had read the latch before the
  reset raises it after (`AlertEpisodes.NoAlertOfItsOwn`, `AlertEpisodes.CanAlertExactly`). The reset may fall between
  an alert and its latch write, and then nothing at all is delivered in the episode (`Heartbeat.MutedExactly`,
  `Heartbeat.EpisodeCanBeMuted`), or between the snapshot and the alert, and then the alert is about the issue before
  (`AlertEpisodes.AlertOfTheIssueBefore`).
- The progress predicate is said to measure the current worker. The progress time outlives its issue, so a worker that
  has not reported yet is alerted for the progress of the one before it (`Heartbeat.ProgressTimeIsStale`).
- The drain loop is said to process all ready units. A ready issue that its milestone's listing leaves out is taken out
  of the pool with its milestone and is in no unit (`Polling.MemberExactlyWhenListed`,
  `Polling.ListingCanDropAnIssue`).
- A merge that git reports as up to date is reported as merged and labelled, though nothing is committed; recovery calls
  the issue done exactly when an earlier run committed (`MergeBranch.ReentryConverges`).
- `mark_parked` promises one terminal state per issue, but `mark_done` does not look at the parked set; disjointness is an
  invariant of the loop (`Parking.ParkSettles`, `Parking.MergeSettles`).

## Model

| member | source | states |
|---|---|---|
| `Dag.BuildDag` | src/baton_harness/chain/dag.py:41-76 | Every member is a key, only members block, and each in-scope blocker keeps its multiplicity, duplicates included |
| `Dag.OrderIsAcyclic` | src/baton_harness/chain/scheduler.py:79-88 | A list of all issues that puts blockers first leaves no room for a cycle |
| `Dag.LowestUnmet` | src/baton_harness/chain/scheduler.py:90-103 | Along a topological order every unmet issue leads down its blockers to an unmet issue whose own blockers are all met |
| `TopologicalSorting.TopologicalSorter.Prepare` | src/baton_harness/chain/scheduler.py:79-88 | `prepare`: reports a cycle exactly when the graph has one, and the report is a real cycle |
| `TopologicalSorting.TopologicalSorter.GetReady` | src/baton_harness/chain/scheduler.py:90-103 | Hands out, once each, exactly the nodes whose blockers are all finished and that were never handed out |
| `TopologicalSorting.TopologicalSorter.Done` | src/baton_harness/chain/scheduler.py:105-115 | Finishes a node exactly when it is handed out and unfinished; the predecessor counters keep counting unfinished blockers, duplicate blockers included |
| `TopologicalSorting.TopologicalSorter.FindCycle` | src/baton_harness/chain/scheduler.py:79-88 | Peeling unblocked nodes either yields a topological order of the whole graph or a cycle, never both |
| `Scheduling.IssueScheduler.constructor` | src/baton_harness/chain/scheduler.py:53-77 | The reverse adjacency names exactly the issues that list a blocker |
| `Scheduling.IssueScheduler.GetReady` | src/baton_harness/chain/scheduler.py:90-103 | Returns the newly unblocked issues minus the parked ones and consumes all of them |
| `Scheduling.IssueScheduler.MarkDone` | src/baton_harness/chain/scheduler.py:105-115 | Adds the issue to done; nothing here looks at the parked set |
| `Scheduling.IssueScheduler.MarkParked` | src/baton_harness/chain/scheduler.py:117-137 | The worklist parks exactly what reaches the issue over dependents without passing through done or parked issues |
| `Scheduling.ParkingIsExact` | src/baton_harness/chain/scheduler.py:117-137 | The "already done" skip never cuts the closure: what is parked is exactly what transitively depends on the issue, and none of it is done |
| `Scheduling.IssueScheduler.IsActive` | src/baton_harness/chain/scheduler.py:139-150 | Active exactly while some issue is neither done nor parked |
| `Labels.AssertSingleState` | src/baton_harness/chain/labels.py:48-89 | No violation exactly when one state label is present; the zero-state violation exactly when none is |
| `Labels.TargetStateFromObserved` | src/baton_harness/chain/labels.py:97-139 | A block wins over an open pull request; never agent-failed |
| `Failures.FailureTally.RecordAndCheck` | src/baton_harness/chain/failure_tally.py:39-51 | Counts one charge and is exhausted exactly from the configured count on |
| `Failures.FailureTally.Reset` | src/baton_harness/chain/failure_tally.py:53-65 | Clears the count and the alert flag of that issue and of no other |
| `Failures.ExhaustedExactlyAtBudget` | src/baton_harness/chain/failure_tally.py:39-65 | Over any run: a charge is exhausted exactly when it is at least the `max_count`-th since the last clear |
| `FailureStore.Load` | src/baton_harness/chain/failure_tally.py:103-124 | The loading loops: integer counts under int() of their keys, the last entry winning; one key that is no number empties the whole tally, while an alerted entry that is none is skipped |
| `FailureStore.LoadUndoesWrite` | src/baton_harness/chain/failure_tally.py:103-144 | Loading a document that was written for some counts and alert flags gives back exactly those |
| `Failures.FailureTally.Persist` | src/baton_harness/chain/failure_tally.py:126-159 | After a successful write the file holds the whole state; a failed one leaves the file as it was |
| `Failures.FailureTally.SetAlerted` | src/baton_harness/chain/failure_tally.py:78-89 | Flags the issue and touches no count |
| `Failures.Live` | src/baton_harness/chain/failure_tally.py:26-159 | Over any series of charges, clears, alert flags and restarts, any of whose writes may fail, the tally is where its history puts it and every charge in that history reports the budget truly |
| `Failures.RestartsAreInvisible` | src/baton_harness/chain/failure_tally.py:103-159 | When every write succeeds restarts change nothing: the tally ends as one that was never restarted |
| `Failures.RestartForgets` | src/baton_harness/chain/failure_tally.py:103-159 | A restart forgets exactly what came after the latest write that succeeded |
| `Failures.FlagOutlivesRestarts` | src/baton_harness/chain/failure_tally.py:78-101 | An alert flag that was saved holds until its issue is cleared, whatever restarts and failed writes follow |
| `Redispatch.ExceedsThreshold` | src/baton_harness/chain/redispatch.py:53-93 | Exceeded exactly when the number of marks in the half-open window is above `max_count` |
| `Redispatch.PruneKeepsCount` | src/baton_harness/chain/redispatch.py:161-188 | Pruning below the window leaves the count of the window unchanged |
| `Redispatch.PruneTwice` | src/baton_harness/chain/redispatch.py:161-188 | Pruning at successive ticks is pruning the full history once at the later bound |
| `Redispatch.RedispatchTally.constructor` | src/baton_harness/chain/redispatch.py:119-147 | A readable document gives its tick and, for every key that int() reads, marks under that issue; an unreadable one counts as empty |
| `Redispatch.RedispatchTally.Resume` | src/baton_harness/chain/redispatch.py:194-221 | Loading what an earlier tally saved gives back its marks, so its history goes on |
| `Redispatch.RedispatchTally.AdvanceTick` | src/baton_harness/chain/redispatch.py:151-159 | Advances the tick by one and touches no mark |
| `Redispatch.RedispatchTally.RecordAndCheck` | src/baton_harness/chain/redispatch.py:161-188 | The verdict from the pruned list is the verdict of the complete mark history; the state after a successful persist is the state on disk |
| `Redispatch.WindowBudget` | src/baton_harness/chain/redispatch.py:53-93 | In any history with the verdicts the complete mark lists give, no window of `window_ticks` ticks holds more than `max_count` allowed re-dispatches of an issue |
| `Redispatch.RefusedExactly` | src/baton_harness/chain/redispatch.py:53-93 | In any such history an attempt is refused exactly when it, the earlier attempts for the issue in its window and the loaded marks of that window are together more than `max_count` |
| `Redispatch.PruneDropsOnly` | src/baton_harness/chain/redispatch.py:161-188 | Pruning drops exactly the marks that are not after the bound |
| `Redispatch.Live` | src/baton_harness/chain/redispatch.py:101-269 | Over any series of ticks, attempts and restarts whose persists succeed every attempt is in one history, and the budget holds for windows that span restarts |
| `Redispatch.DecodeUndoesEncode` | src/baton_harness/chain/redispatch.py:194-247 | Reading the JSON document back gives the marks that were written: issue numbers survive being string keys |
| `Redispatch.Restart` | src/baton_harness/chain/redispatch.py:194-247 | A restart after a successful persist changes neither tick nor marks nor the history the verdicts are held to |
| `Tracing.BlockersComeFirst` | src/baton_harness/chain/daemon/work_unit.py:452-507 | In an orderly history an issue is launched or merged only after every one of its in-scope blockers was merged |
| `UnitHistory.LaunchedInOrder` | src/baton_harness/chain/daemon/work_unit.py:452-940 | In the history of a finished unit exactly the issues due a launch were launched, each once, right after its start edit and after every blocker was merged; an issue whose preflight refused is not among them |
| `UnitHistory.ParkedAsDue` | src/baton_harness/chain/daemon/park.py:50-163 | In the history of a finished unit every issue that was due a park has exactly the one its ending calls for, with the labels read for it and the state of its budget, right after a label edit that treats it as that class demands, with an alert after it exactly when none was sent before (or the read-back breaks the single-state rule); nothing settles or launches it afterwards |
| `UnitHistory.MergedAsDue` | src/baton_harness/chain/daemon/gh_api_helpers.py:423-438 | In the history of a finished unit every issue that was due a merge has exactly one, right after the edit that takes agent-in-progress and agent-done off; an issue recovery knew merged has that event and no other |
| `UnitHistory.BackstopIsSent` | src/baton_harness/chain/daemon/work_unit.py:1035-1064 | In the history of a finished unit, when a launched worker finished without leaving a state label but with an open pull request, the next thing after the launch is an edit after which agent-done is the only state label and agent-in-progress is off |
| `UnitHistory.OrphanIsCleared` | src/baton_harness/chain/daemon/work_unit.py:638-715 | In the history of a finished unit the first thing about an orphan is that agent-in-progress is taken off it, or, when its window is breached, an alert |
| `UnitHistory.UntouchedIsUntold` | src/baton_harness/chain/daemon/work_unit.py:452-507 | The history of a finished unit says nothing about an issue that was not handled |
| `UnitHistory.StoryStands` | src/baton_harness/chain/daemon/work_unit.py:509-1256 | Everything the history says about a handled issue stands in one piece: the events its replies call for, in order, and nothing else |
| `UnitHistory.OpeningIs` | src/baton_harness/chain/daemon/work_unit.py:638-1064 | What happens to an issue before it is settled, edit by edit: an orphan is cleared, the start is announced, a refusal undone, a torn label set put right, each exactly when the checks and replies call for it |
| `UnitHistory.BudgetAfterUnit` | src/baton_harness/chain/failure_tally.py:39-65 | Where the failure count of an issue stands after a unit, by its ending: free after a gated merge, one more after a charged park, free again when the limit was reached and agent-failed is confirmed, and otherwise as before |
| `UnitHistory.AttemptsAfterUnit` | src/baton_harness/chain/daemon/work_unit.py:638-715 | The window tally got exactly one attempt, with the verdict of the ending, for each orphan handled afresh and none for any other issue |
| `Tracing.AtMostOnce` | src/baton_harness/chain/daemon/work_unit.py:452-507 | In an orderly history no issue is launched twice, settled twice, or launched after it was settled |
| `Tracing.LaunchIsAnnounced` | src/baton_harness/chain/daemon/work_unit.py:806-826 | A launch comes right after the edit that removes agent-ready and adds agent-in-progress |
| `Parking.ParkEdit` | src/baton_harness/chain/daemon/park.py:61-106 | The edit treats the labels as the park class demands: charged and terminal parks leave only their target state even if the first read failed, uncharged parks repair a zero state, the rest leave state labels alone; added and removed labels never overlap |
| `Parking.TreatmentIs` | src/baton_harness/chain/daemon/park.py:61-106 | The state labels after a park, class by class: agent-failed for a terminal or exhausted charged park, agent-ready for another charged park or an uncharged one on a zero state, and otherwise what they were |
| `Parking.ParkContext.ParkIssue` | src/baton_harness/chain/daemon/park.py:50-163 | The whole park: the edit, the charge, the exact closure, the reason, the alerts, and a budget freed exactly when an accepted edit reads back agent-failed as the sole state |
| `Parking.ParkContext.ChargeBudget` | src/baton_harness/chain/daemon/park.py:71-79 | Only charged parks count against the budget, and exhaustion is the tally reaching its limit |
| `Parking.ParkContext.VerifyPark` | src/baton_harness/chain/daemon/park.py:133-163 | The read-back alerts on a state that is not single and frees the budget only on a confirmed agent-failed |
| `Parking.ParkSettles` | src/baton_harness/chain/daemon/park.py:108-111 | Parking keeps the bookkeeping exact: parked is the closure of the reasons and disjoint from done |
| `Parking.MergeSettles` | src/baton_harness/chain/daemon/work_unit.py:509-512 | Merging keeps it too: done is the merged list, duplicate-free and in an order that puts blockers first |
| `Parking.ParkContext.RecordMerge` | src/baton_harness/chain/daemon/gh_api_helpers.py:423-438 | A gated merge takes agent-in-progress and agent-done off, marks the issue done once, appends it to the merged list and clears its budget |
| `CiGate.QueryActionJobs` | src/baton_harness/chain/merge.py:420-452 | One job per name: the last listed in the highest-id run that contains the name |
| `CiGate.WinnerIsUnique` | src/baton_harness/chain/merge.py:420-452 | With distinct run ids that job is determined by the snapshot |
| `CiGate.WinnerStands` | src/baton_harness/chain/merge.py:420-452 | A winner is the last job of its name in its run, and no run that lists the name has a higher id |
| `CiGate.ClassifyCheckRuns` | src/baton_harness/chain/merge.py:496-518 | Green exactly when the last job of every required name is completed with success, neutral or skipped; red exactly when, with all earlier names passing, some last job has failure, cancelled, timed out or action required; otherwise not yet |
| `CiGate.GreenMeansWinnersPass` | src/baton_harness/chain/merge.py:496-518 | A snapshot is green exactly when the winning job of every required name is completed with success, neutral or skipped |
| `CiGate.RedMeansAWinnerFails` | src/baton_harness/chain/merge.py:507-510 | A snapshot is red only when the winning job of some required name has failure, cancelled, timed out or action required |
| `CiGate.GreenIgnoresOrder` | src/baton_harness/chain/merge.py:496-518 | Green depends on the set of required names only |
| `CiGate.GreenNeedsEvidence` | src/baton_harness/chain/merge.py:496-518 | An empty job list is green exactly when nothing is required |
| `CiGate.RedExactlyWhenUnmasked` | src/baton_harness/chain/merge.py:496-518 | The code is red whenever some required job fails exactly when no absent or pending check stands before the first failing one |
| `CiGate.MaskedFailure` | src/baton_harness/chain/merge.py:496-518 | A concrete snapshot with a failing required job that the code keeps waiting on |
| `CiGate.EvaluateCi` | src/baton_harness/chain/merge.py:662-727 | The first poll that settles anything decides: an API error raises, green and red are those of its snapshot, and a snapshot that settles nothing gives a timeout only once the deadline has passed; there are at most ceil(timeout / step) + 1 polls when each round takes at least `step` |
| `WorkUnits.PlanDispatch` | src/baton_harness/chain/daemon/work_unit.py:717-896 | Before a launch: refused exactly when one of the last checks fails, with the park class the failing check calls for |
| `WorkUnits.PlanAfterLaunch` | src/baton_harness/chain/daemon/work_unit.py:964-1256 | After a launch: the gate exactly for a zero-state issue with an open pull request or a single state with a created one; otherwise the park class of the outcome protocol |
| `WorkUnits.WorkUnit.LaunchWorker` | src/baton_harness/chain/daemon/launch_gate.py:446-516 | A refused preflight launches nothing and parks the issue with its state intact; otherwise the launch stands right after the start edit and the outcome protocol decides the fate |
| `UnitHistory.RefusedIsRestored` | src/baton_harness/chain/daemon/launch_gate.py:474-508 | In the history of a finished unit an issue whose preflight refused it was never launched, and the start edit is undone at once: agent-ready back, agent-in-progress off |
| `WorkUnits.WorkUnit.RunCiGate` | src/baton_harness/chain/daemon/gh_api_helpers.py:304-480 | Terminal bookkeeping of the gate: merged exactly when the merge reports it, else parked with its state intact |
| `WorkUnits.WorkUnit.Reenter` | src/baton_harness/chain/daemon/work_unit.py:532-636 | Re-entry without a worker: merged exactly when a pull request was found and its merge reports success |
| `WorkUnits.WorkUnit.HandleIssue` | src/baton_harness/chain/daemon/work_unit.py:509-1256 | Every actionable pop ends in exactly one of done or parked, as `FateOf` states from the labels and replies, launches a worker exactly when allowed, and leaves exactly the label edits, alerts and budget entries its replies call for |
| `WorkUnits.WorkUnit.HandleFresh` | src/baton_harness/chain/daemon/work_unit.py:638-715 | An orphan is recorded in the window tally and parked for good when it breaches |
| `WorkUnits.WorkUnit.Refill` | src/baton_harness/chain/daemon/work_unit.py:453-458 | After taking in the frontier nothing unblocked is left out and nothing parked is pending |
| `WorkUnits.UnblockedIsNotParked` | src/baton_harness/chain/scheduler.py:90-103 | What becomes unblocked is never parked, so filtering the frontier loses nothing |
| `WorkUnits.WorkUnit.PopFront` | src/baton_harness/chain/daemon/work_unit.py:488-507 | Each pass pops an issue never popped before |
| `WorkUnits.WorkUnit.Drain` | src/baton_harness/chain/daemon/work_unit.py:452-507 | The loop terminates after at most as many pops as there are issues, with every ending deserved and nobody stuck |
| `Outcomes.BudgetOne` | src/baton_harness/chain/daemon/park.py:71-79 | Whatever way an issue ends, the entries it leaves keep the unit's budget history exactly what its endings call for, issue by issue |
| `Outcomes.FateInOrder` | src/baton_harness/chain/daemon/work_unit.py:509-1256 | The ending of an issue as one cascade over recovery, labels and replies, in the order of the loop: a raised worker is charged, a refused preflight leaves the state intact, unreadable or torn labels are distrusted, a pull request goes through the gate |
| `Outcomes.CountsAreSettled` | src/baton_harness/chain/failure_tally.py:39-65 | After the unit a count is zero for a gated merge, one more for a charged park (zero when agent-failed was reached and confirmed), and otherwise what it was |
| `Outcomes.CountUntouched` | src/baton_harness/chain/failure_tally.py:39-65 | The count an issue is charged against is the one the unit found, whatever was charged to other issues before |
| `Outcomes.AttemptOne` | src/baton_harness/chain/daemon/work_unit.py:638-715 | The window tally gets one attempt for each orphan handled, and its verdict is the one foretold when the unit began |
| `WorkUnits.NothingIsStuck` | src/baton_harness/chain/daemon/work_unit.py:452-507 | Once every unblocked issue was dealt with, whatever is neither done nor parked waits, itself or through blockers, for an issue nobody may act on |
| `WorkUnits.RunWorkUnit` | src/baton_harness/chain/daemon/work_unit.py:350-1256 | A whole unit: rejected exactly when its graph is cyclic; otherwise merged issues stand in a duplicate-free topological order, every ending is the one that signals, replies and window verdicts call for, the launches, every label edit, park and alert of the history, the tally entries, the new counts and the recorded attempts are exactly those of the endings, and every issue is merged, held back by a parked one, or waits for one that nobody greenlit and that shows no trace of work |
| `RuleComparison.RuleParamsEqual` | src/baton_harness/chain/ruleset_status.py:433-469 | True exactly when every desired key has the same value live, or is absent live and desired at its documented default |
| `RuleDefaults.OmittedDefaultsDoNotMatter` | src/baton_harness/chain/ruleset_status.py:433-469 | Leaving out of the live rules any parameters that are at their documented default changes no verdict |
| `RuleDefaults.UnmentionedDoNotMatter` | src/baton_harness/chain/ruleset_status.py:441-450 | Nor do parameters that no desired rule of the type mentions |
| `RuleDefaults.OmittedBlockAgrees` | src/baton_harness/chain/ruleset_status.py:337-361 | A live rule without a parameter block satisfies exactly the desired parameters at the defaults of the table |
| `RuleComparison.GroupByType` | src/baton_harness/chain/ruleset_status.py:500-506 | Groups the rules by type, each group in list order |
| `RuleComparison.MatchOccurrences` | src/baton_harness/chain/ruleset_status.py:512-535 | The nested loops compute the greedy assignment: each desired rule takes the first unmatched live rule that fits |
| `RuleComparison.GroupsDecide` | src/baton_harness/chain/ruleset_status.py:508-536 | Comparing type by type gives the verdict of one greedy pass over the two whole lists of equal length |
| `RuleComparison.RulesEqual` | src/baton_harness/chain/ruleset_status.py:472-536 | The verdict is greedy success on lists of equal length |
| `RuleComparison.AgreementIsAMatching` | src/baton_harness/chain/ruleset_status.py:472-536 | A true verdict comes with a one-to-one, type-preserving assignment in which every pair fits |
| `RuleComparison.AgreementIsExact` | src/baton_harness/chain/ruleset_status.py:511-535 | Completeness: the verdict finds such an assignment whenever one exists, whatever is live, exactly when no later desired rule adds parameters to an earlier one of its type it does not conflict with |
| `RuleComparison.AgreementIsReflexive` | src/baton_harness/chain/ruleset_status.py:472-536 | A rule list agrees with itself |
| `RuleComparison.OrderMatters` | src/baton_harness/chain/ruleset_status.py:511-535 | The same desired rules in two orders against the same live rules get different verdicts |
| `RuleOrder.LiveOrderIsIrrelevantExactly` | src/baton_harness/chain/ruleset_status.py:511-535 | The verdict is independent of the order of the live rules exactly when no later desired rule adds parameters to an earlier one of its type it does not conflict with |
| `RuleOrder.DesiredOrderIsIrrelevantExactly` | src/baton_harness/chain/ruleset_status.py:511-535 | The verdict is independent of the order of the desired rules exactly when any two of one type conflict on a key or have the same parameters, and then it is independent of both orders |
| `RuleOrder.Realign` | src/baton_harness/chain/ruleset_status.py:521-535 | A one-to-one assignment follows the desired rules through any reordering |
| `RuleMatching.GreedyIsSound` | src/baton_harness/chain/ruleset_status.py:521-535 | Greedy success gives a one-to-one assignment |
| `RuleMatching.GreedyIsComplete` | src/baton_harness/chain/ruleset_status.py:521-535 | On an order-safe list greedy succeeds whenever an assignment exists |
| `RuleMatching.GreedyExactlyWhenOrderSafe` | src/baton_harness/chain/ruleset_status.py:521-535 | Greedy succeeds on whatever live rules have an assignment exactly when the desired list is order-safe |
| `RuleMatching.SameKeysAreOrderSafe` | src/baton_harness/chain/ruleset_status.py:511-535 | Desired rules of one type that name the same parameters are order-safe |
| `RulesetDrift.StripKeepsPaths` | src/baton_harness/chain/ruleset_status.py:364-387 | Along any path without a comment key the stripped document holds the stripped value, and nothing else appears |
| `RulesetDrift.StripLeavesNoComment` | src/baton_harness/chain/ruleset_status.py:364-387 | No comment key is left at any depth |
| `RulesetDrift.StripIsIdempotent` | src/baton_harness/chain/ruleset_status.py:364-387 | Stripping twice is stripping once |
| `RulesetDrift.ContentEqual` | src/baton_harness/chain/ruleset_status.py:539-570 | Equal exactly when every compared key is present on both sides with the same comment-free value or on neither, and `rules` agree |
| `RulesetDrift.FirstStructuralDiff` | src/baton_harness/chain/ruleset_status.py:760-794 | Names the first compared key, in order, that differs when an absent key reads as null; none exactly when all look equal |
| `RulesetDrift.RulesAreRead` | src/baton_harness/chain/ruleset_status.py:500-506 | A list of rules written as JSON is read back with its types and parameters |
| `RulesetDrift.ComparatorsAgree` | src/baton_harness/chain/ruleset_status.py:760-794 | `_content_equal` accepts exactly when `_first_structural_diff` finds nothing and no compared key is null on one side and absent on the other |
| `RulesetDrift.ComparatorsDisagree` | src/baton_harness/chain/ruleset_status.py:760-794 | A document pair on which they disagree |
| `RulesetDrift.NoDriftFromItself` | src/baton_harness/chain/ruleset_status.py:539-570 | A ruleset shows no drift against itself |
| `Provenance.FetchProvenanceMerges` | src/baton_harness/chain/recovery.py:182-209 | The record and line loops collect exactly the issues named by trailer lines, numbers being read as int() reads them |
| `Provenance.TrailingSpaceIgnored` | src/baton_harness/chain/recovery.py:185-195 | White space that strip removes around a record changes no line that names an issue |
| `Provenance.TrailerLineIsRead` | src/baton_harness/chain/recovery.py:196-203 | The trailer line in full is read as its issue, whatever white space stands around it |
| `Text.LineEnds` | src/baton_harness/chain/recovery.py:194-196 | A message is cut into lines at each of the ten characters that splitlines knows |
| `Provenance.LogRoundTrip` | src/baton_harness/chain/recovery.py:182-209 | Parsing a rendered log of any commits gives exactly the issues their messages name |
| `Provenance.MergeBodyRoundTrip` | src/baton_harness/chain/merge.py:824-828 | The message of a merge names the merged issue and no other, for branch names without line breaks |
| `Provenance.MergesRoundTrip` | src/baton_harness/chain/recovery.py:182-209 | Parsing the log of any list of merges gives back exactly the merged issues |
| `TrailerFormat.ReadersAgreeExactly` | src/baton_harness/chain/recovery.py:196-203 | The parser and the documented exact line agree on a line exactly unless the line starts with the prefix, int() reads the first token after it, and what follows the prefix is not a plain numeral and ` ci=green` |
| `TrailerFormat.LogsAgreeExactly` | src/baton_harness/chain/recovery.py:150-209 | On a whole log the parser finds all that is documented, and no more exactly when each lax line only repeats an issue a documented line names |
| `TrailerFormat.GreenIsNotChecked` | src/baton_harness/chain/recovery.py:196-203 | A trailer that says `ci=red` is read like a green one |
| `Decimal.RoundTrip` | src/baton_harness/chain/recovery.py:200-203 | int(), which also reads digits of other scripts, signs, underscores and white space around the number, undoes str() on every integer |
| `Decimal.ZerosAreRead` | src/baton_harness/chain/recovery.py:200-203 | int() reads over leading zeros, after a sign too |
| `Decimal.UnderscoreIsRead` | src/baton_harness/chain/recovery.py:200-203 | int() reads over one underscore between digits |
| `Decimal.NotANumber` | src/baton_harness/chain/recovery.py:200-203 | int() takes nothing for a number that is empty, a lone sign, or has a character that is neither a digit nor an underscore inside |
| `Reconstruction.HeadOfOneIssue` | src/baton_harness/chain/recovery.py:267-283 | A head branch belongs to at most one issue |
| `Reconstruction.HeadOfNames` | src/baton_harness/chain/recovery.py:267-283 | A head matches an issue exactly when it is `baton/`, anything, a dash and the number |
| `Reconstruction.FindIssuePr` | src/baton_harness/chain/daemon/gh_api_helpers.py:136-143 | Returns the first matching pull request, and finds one exactly when recovery sees an open one |
| `Reconstruction.Classify` | src/baton_harness/chain/recovery.py:347-380 | The six rules in order of precedence amount to one condition on the signals for each class |
| `Reconstruction.Reconstruct` | src/baton_harness/chain/recovery.py:335-387 | The four sets hold exactly the members whose signals say so, and no issue is in two |
| `MergeBranch.Forge.PersistCiGreen` | src/baton_harness/chain/merge.py:916-969 | Label and comment may fail independently; success is reported exactly when both landed |
| `MergeBranch.Forge.MergeIssueBranch` | src/baton_harness/chain/merge.py:785-874 | Commits exactly what git commits into a feature branch on green, adds agent-merged whenever git merged, up to date included, and the edit landed, and ends as its cause demands |
| `MergeBranch.CrashIsRecovered` | src/baton_harness/chain/recovery.py:347-361 | After a run cut or refused anywhere: done exactly when a commit and the label are there, back to the gate when only a commit is, other issues unaffected |
| `MergeBranch.DoneMeansBothLanded` | src/baton_harness/chain/recovery.py:347-355 | For an issue never merged before, done means that this run landed both its commit and its label |
| `MergeBranch.DoneAfterRuns` | src/baton_harness/chain/recovery.py:347-361 | After any series of cut runs the issue is done exactly when some run committed and some run labelled it |
| `MergeBranch.ReentryConverges` | src/baton_harness/chain/merge.py:785-874 | However many runs were cut, one more on a green gate that git merges, be it only to find it up to date, and whose label lands, leaves the issue done exactly when it or an earlier run committed |
| `AfterRunHook.Classify` | src/baton_harness/after_run.py:232-355 | Each outcome exactly under its evidence; the first clean `gh pr list` of three decides |
| `AfterRunHook.Issue.Reconcile` | src/baton_harness/after_run.py:363-607 | Edits land in order until one is not accepted, 0 is returned exactly when all landed, and then agent-ready is gone and the issue, unless blocked before, has agent-done for an open pull request and blocked otherwise; a failed fetch edits nothing and returns 1 |
| `AfterRunHook.Issue.RunHook` | src/baton_harness/after_run.py:615-668 | A transient outcome fails the hook with the labels untouched |
| `AfterRunHook.RerunConverges` | src/baton_harness/after_run.py:363-607 | However many runs are cut off wherever, one that completes leaves what a single uninterrupted run leaves |
| `AfterRunHook.FirstEditRetires` | src/baton_harness/after_run.py:457-533 | Once any edit has landed the issue no longer carries agent-ready |
| `AfterRunHook.SettlesExactly` | src/baton_harness/after_run.py:363-607 | A completed run leaves exactly one state label exactly under a condition on the labels it started from |
| `AfterRunHook.StaleLabelSurvives` | src/baton_harness/after_run.py:457-533 | A stale agent-failed survives a successful run |
| `AfterRunHook.ZeroStateWindow` | src/baton_harness/after_run.py:486-533 | From a lone agent-ready the only cut without a state label lies between the two edits |
| `AfterRunHook.BackstopConverges` | src/baton_harness/chain/daemon/work_unit.py:1028-1080 | The backstop edit takes any labels without a state label to the one state a completed successful run leaves |
| `Heartbeat.AtMostOneAlertPerEpisode` | src/baton_harness/chain/heartbeat.py:319-440 | Under every interleaving of single reads and writes at most one alert is delivered between two resets of the latch |
| `Heartbeat.AlwaysDebounced` | src/baton_harness/chain/heartbeat.py:319-440 | The invariant behind it: a delivery since the reset has raised the latch or is about to |
| `Heartbeat.LatchFollowsDelivery` | src/baton_harness/chain/heartbeat.py:374-439 | The latch goes up exactly at the step after a delivered alert, so an undelivered alert never sets it |
| `Heartbeat.UninterruptedReadsAgree` | src/baton_harness/chain/heartbeat.py:328-336 | A snapshot no write interrupts copies the shared fields as they stand, half written or not |
| `AlertIdentity.AlertComesFrom` | src/baton_harness/chain/heartbeat.py:319-440 | Under every interleaving an alert has the owner, repository and issue written by the calls numbered at their reads |
| `AlertIdentity.UndisturbedIsOfOneCall` | src/baton_harness/chain/heartbeat.py:328-336 | An alert is about one issue when no call was half written at the owner read and no identity field was written before the issue read |
| `AlertIdentity.ReadsOfOneCall` | src/baton_harness/chain/heartbeat.py:319-336 | The three reads fall on one call exactly when each write outstanding at the owner read, and no other, landed before its field was read |
| `AlertIdentity.OfOneCallExactly` | src/baton_harness/chain/heartbeat.py:319-336 | When every new identity changes every value, an alert is about one issue exactly when its reads fall on calls naming the same thing |
| `AlertIdentity.OfOneRepositoryExactly` | src/baton_harness/chain/heartbeat.py:319-336 | When all issues are of one repository, an alert is about one issue, or none, exactly when its three reads fall all on marks or all on cleared calls |
| `AlertIdentity.HalfWrittenShows` | src/baton_harness/chain/heartbeat.py:119-139 | The write counts of the three fields agree exactly while no call is half written |
| `AlertIdentity.HalfWrittenIsMixed` | src/baton_harness/chain/heartbeat.py:119-139 | A run whose eight monitor steps are consecutive still mixes two issues, because the daemon paused between two writes |
| `Heartbeat.UninterruptedTick` | src/baton_harness/chain/heartbeat.py:319-440 | An uninterrupted run of the single steps is the sequential tick, in the fields it leaves and in the alerts it delivers |
| `Heartbeat.SnapshotCanBeTorn` | src/baton_harness/chain/heartbeat.py:319-336 | A run that alerts with the owner of one issue and the repository of the next |
| `Heartbeat.MutedExactly` | src/baton_harness/chain/heartbeat.py:374-439 | In any run the latch is up with nothing at all delivered since the reset exactly when that reset fell between an alert and its latch write, and the write has been made |
| `Heartbeat.EpisodeCanBeMuted` | src/baton_harness/chain/heartbeat.py:374-378 | A run in which that happens |
| `AlertEpisodes.NoAlertOfItsOwn` | src/baton_harness/chain/heartbeat.py:319-440 | In any run the latch is up without an alert delivered since the reset by a tick that read the latch after it, exactly when a tick that had read the latch before the reset raised it after |
| `AlertEpisodes.CanAlertExactly` | src/baton_harness/chain/heartbeat.py:338-440 | Between ticks, with an issue marked and no alert of its own yet, an episode can still alert, at some time, exactly when no such tick raised the latch |
| `AlertEpisodes.StraddledStaysSilent` | src/baton_harness/chain/heartbeat.py:319-440 | An episode in which that happened delivers no alert of its own before the next reset |
| `AlertEpisodes.AlertOfTheIssueBefore` | src/baton_harness/chain/heartbeat.py:319-378 | A run whose reset falls between the snapshot and its alert: the alert names the first issue and raises the latch of the second |
| `Heartbeat.ProgressTimeIsStale` | src/baton_harness/chain/heartbeat.py:119-139 | After `clear` and a new mark whose worker has not reported yet, a tick at any time alerts exactly when the mark is past the stall threshold or the old progress time is past its own, and the alert is delivered; a worker younger than both thresholds is only alerted for progress noted before its mark |
| `Heartbeat.LivenessState.MarkInProgress` | src/baton_harness/chain/heartbeat.py:93-124 | The six writes of the call, in sequence |
| `Heartbeat.LivenessState.Clear` | src/baton_harness/chain/heartbeat.py:126-139 | The six writes of the call, in sequence |
| `Heartbeat.LivenessState.HeartbeatTick` | src/baton_harness/chain/heartbeat.py:338-440 | The sequential tick delivers exactly when the mark is past the stall threshold or an active worker's progress past its own, the latch is down and the alert goes through; at most once, and raising the latch exactly with it |
| `Redaction.RecordOccurrences` | src/baton_harness/redact.py:90-96 | The find loop records every occurrence of a secret, self-overlapping ones included, and nothing else |
| `Redaction.RecordSecrets` | src/baton_harness/redact.py:87-101 | Every occurrence of every non-empty secret is recorded, and only those |
| `Redaction.SortedOrders` | src/baton_harness/redact.py:108-109 | Sorting keeps the spans and orders them |
| `Redaction.Merge` | src/baton_harness/redact.py:107-112 | Merged spans are strictly separated and cover exactly the union |
| `Redaction.Rebuild` | src/baton_harness/redact.py:113-119 | Every uncovered character stays in order, with one marker per maximal covered run |
| `Redaction.RedactSecrets` | src/baton_harness/redact.py:39-119 | The output is the text masked by the union of all spans; a failed scan gives the marker or an error, never the text |
| `Redaction.NoSurvivingSecret` | src/baton_harness/redact.py:103-119 | No surviving stretch of original text contains a non-empty secret |
| `Polling.SelectWorkUnit` | src/baton_harness/chain/daemon/poll.py:1019-1078 | Picks the lowest milestone, else the lowest issue number, with all its listed issues |
| `Polling.DrainOne` | src/baton_harness/chain/daemon/poll.py:736-834 | A unit is expanded to its open members and skipped exactly when, after the first, a greenlit member lost its green light |
| `Polling.Drain` | src/baton_harness/chain/daemon/poll.py:723-854 | The loop ends, units come in strictly increasing key order, milestones first, and every ready issue has its unit |
| `Polling.MemberExactlyWhenListed` | src/baton_harness/chain/daemon/poll.py:723-776 | A ready issue is a member of the one unit made for its key exactly when its milestone listing, if there is one, still has it |
| `Polling.ListingCanDropAnIssue` | src/baton_harness/chain/daemon/poll.py:746-770 | A ready issue that its milestone listing leaves out is in no unit |
| `Polling.InOneUnitOnly` | src/baton_harness/chain/daemon/poll.py:714-977 | When GitHub lists every issue under one key, no issue is in two units of a cycle |
| `Polling.OrphanScan` | src/baton_harness/chain/daemon/poll.py:899-977 | Seeds one unit for each milestone or single issue that was neither drained nor seeded before |
| `Polling.PollCycle` | src/baton_harness/chain/daemon/poll.py:714-977 | Across both phases no milestone and no un-milestoned issue gets two units, and what was dispatched is what the run units held |
| `ScenarioVerification.IsOrderedSubsequence` | src/baton_harness/scenario/verify.py:93-115 | True exactly when some strictly increasing placement puts every expected entry on an object that has all its key-value pairs |
| `ScenarioVerification.TakeMatch` | src/baton_harness/scenario/verify.py:107-112 | A match may always be taken at once |
| `ScenarioVerification.InsertionKeepsMatch` | src/baton_harness/scenario/verify.py:93-115 | Inserting entries into the log never turns a match into a mismatch |
| `ScenarioVerification.ExpectingLess` | src/baton_harness/scenario/verify.py:71-115 | Dropping an expected entry or some of its keys never does either |

## Left out

- Subprocess, network and file plumbing, atomic file replacement, tokens and environment handling: they appear as
  answers or as a "persist succeeded" flag.
- Exceptions that leave the work-unit loop, such as a failed checkout inside a merge that is not caught: the merge reply
  `MergeRaised` covers the caught ones.
- The steps of a work unit around the loop: setting up the feature branch, opening the completion pull request, fetching
  blockers, session report, run log and alert wording.
- The poll step that alerts once about an excluded issue and flags it: the flags and their persistence are modelled, the
  poll step is not.
- A worker exception (`LaunchRaised`) stands for any exception of the launch call; the model counts it as a launch, as
  the code charges it, even if the exception came before the worker.
- The regular expressions of `redact.py`: structural matches are any non-empty spans inside the text; per-value
  exceptions while searching are not modelled because searching a string for a string does not raise.
- `int()` and `str()` refuse numbers of more than 4300 digits since Python 3.11, and Unicode versions after 14 add digits:
  neither is modelled. Floating-point JSON numbers are not modelled either.
- Python's looser readings elsewhere: `True == 1` inside JSON values and the lower-casing of label names. Labels are an
  enumeration.
- JSON shapes on which the comparison code raises (a rule without a type, `"parameters": null` on the desired side):
  `RulesetDrift.Comparable` excludes them.
- CiGate.QueryActionJobs: runs with equal ids are ordered by the stable sort in the code; here their relative order is
  left open, and uniqueness of the winner asks for distinct ids.
- Authentication errors and fallbacks inside `_query_action_jobs`, and the diagnostic text of `CiDiagnostic`.
- `merge_issue_branches`, worktree garbage collection and the tick-start label checks of `_poll_and_run`: they add only
  simpler members.
- Polling.PollCycle: says that no unit is made twice; that no issue is in two units also needs GitHub to list every
  issue under one milestone and is stated under that condition (`Polling.InOneUnitOnly`).
- Heartbeat times are whole seconds, and a failing time subtraction (mixed time zones) is not modelled.
- Cycle search of `graphlib`: its own depth-first search is replaced by peeling and walking, which reports some cycle,
  not necessarily the same one.
- Iteration order over sets is left open everywhere; no theorem depends on it.
- The vendored worker: it is its result string and the labels it leaves.
