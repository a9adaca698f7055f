/** The CI gate: which job counts for a name, the green predicate, and the polling loop.
    Models _query_action_jobs, _classify_check_runs and evaluate_ci of src/baton_harness/chain/merge.py. */
module CiGate {
  import opened Prelude

  datatype Status = Completed | Unfinished(text: string)

  datatype Conclusion =
    | Success | Neutral | Skipped
    | Failure | Cancelled | TimedOut | ActionRequired
    | NoConclusion
    | Unrecognised(text: string)

  datatype Job = Job(name: string, status: Status, conclusion: Conclusion)
  datatype Run = Run(id: int, jobs: seq<Job>)

  datatype CiResult = Green | Red | Timeout
  datatype MergeOutcome = MERGED | CI_FAILED | CI_TIMEOUT | MERGE_CONFLICT

  // ----- Which job speaks for a name -----

  /** The last job of that name. */
  ghost function LastNamed(jobs: seq<Job>, name: string): Option<Job> {
    if jobs == [] then None
    else if jobs[|jobs| - 1].name == name then Some(jobs[|jobs| - 1])
    else LastNamed(jobs[..|jobs| - 1], name)
  }

  lemma {:induction false} LastNamedAppend(a: seq<Job>, b: seq<Job>, name: string)
    ensures LastNamed(a + b, name) == if LastNamed(b, name).Some? then LastNamed(b, name) else LastNamed(a, name)
    decreases |b|
  {
    if b == [] {
      assert a + b == a;
    } else {
      assert (a + b)[..|a + b| - 1] == a + b[..|b| - 1];
      LastNamedAppend(a, b[..|b| - 1], name);
    }
  }

  lemma {:induction false} LastNamedIsThere(jobs: seq<Job>, name: string)
    ensures LastNamed(jobs, name).Some? <==> exists job :: job in jobs && job.name == name
    ensures LastNamed(jobs, name).Some? ==>
              LastNamed(jobs, name).value in jobs && LastNamed(jobs, name).value.name == name
  {
    if jobs != [] {
      var front, last := jobs[..|jobs| - 1], jobs[|jobs| - 1];
      LastNamedIsThere(front, name);
      assert jobs == front + [last];
      if last.name == name { assert last in jobs; }
    }
  }

  /** Position `k` holds the last job of the name. */
  ghost predicate IsLast(jobs: seq<Job>, name: string, k: int) {
    0 <= k < |jobs| && jobs[k].name == name && forall j :: k < j < |jobs| ==> jobs[j].name != name
  }

  lemma {:induction false} LastNamedIsLast(jobs: seq<Job>, name: string)
    ensures forall k :: IsLast(jobs, name, k) ==> LastNamed(jobs, name) == Some(jobs[k])
    ensures LastNamed(jobs, name).Some? ==> exists k :: IsLast(jobs, name, k)
  {
    if jobs != [] {
      var front, end := jobs[..|jobs| - 1], |jobs| - 1;
      LastNamedIsLast(front, name);
      if jobs[end].name == name {
        assert IsLast(jobs, name, end);
      } else {
        forall k ensures IsLast(jobs, name, k) <==> IsLast(front, name, k) {
          assert 0 <= k < end ==> jobs[k] == front[k];
        }
      }
    }
  }

  ghost predicate Ascending(runs: seq<Run>) {
    forall i, j :: 0 <= i < j < |runs| ==> runs[i].id <= runs[j].id
  }

  function InsertRun(run: Run, sorted: seq<Run>): (r: seq<Run>)
    ensures multiset(r) == multiset(sorted) + multiset{run}
  {
    if sorted == [] || sorted[|sorted| - 1].id <= run.id then sorted + [run]
    else
      assert sorted == sorted[..|sorted| - 1] + [sorted[|sorted| - 1]];
      InsertRun(run, sorted[..|sorted| - 1]) + [sorted[|sorted| - 1]]
  }

  lemma {:induction false} InsertAscends(run: Run, sorted: seq<Run>)
    requires Ascending(sorted)
    ensures Ascending(InsertRun(run, sorted))
    ensures forall x :: x in InsertRun(run, sorted) ==> x == run || x in sorted
  {
    if sorted != [] && sorted[|sorted| - 1].id > run.id {
      var front, last := sorted[..|sorted| - 1], sorted[|sorted| - 1];
      InsertAscends(run, front);
      forall i | 0 <= i < |InsertRun(run, front)| ensures InsertRun(run, front)[i].id <= last.id {
        assert InsertRun(run, front)[i] in InsertRun(run, front);
      }
    }
  }

  /** `sorted(workflow_runs, key=id)` */
  function SortRuns(runs: seq<Run>): (r: seq<Run>)
    ensures multiset(r) == multiset(runs) && Ascending(r)
  {
    if runs == [] then []
    else
      InsertAscends(runs[|runs| - 1], SortRuns(runs[..|runs| - 1]));
      assert runs == runs[..|runs| - 1] + [runs[|runs| - 1]];
      InsertRun(runs[|runs| - 1], SortRuns(runs[..|runs| - 1]))
  }

  /** `job` is the last one of its name in a run, and no run with a higher id has the name. */
  ghost predicate Wins(runs: seq<Run>, name: string, job: Job) {
    exists run :: run in runs && LastNamed(run.jobs, name) == Some(job)
      && forall other :: other in runs && LastNamed(other.jobs, name).Some? ==> other.id <= run.id
  }

  lemma WinnerIsUnique(runs: seq<Run>, name: string, a: Job, b: Job)
    requires Wins(runs, name, a) && Wins(runs, name, b)
    requires forall r, s :: r in runs && s in runs && r.id == s.id ==> r == s
    ensures a == b
  {
    var r :| r in runs && LastNamed(r.jobs, name) == Some(a)
      && forall other :: other in runs && LastNamed(other.jobs, name).Some? ==> other.id <= r.id;
    var s :| s in runs && LastNamed(s.jobs, name) == Some(b)
      && forall other :: other in runs && LastNamed(other.jobs, name).Some? ==> other.id <= s.id;
    assert r.id == s.id;
  }

  ghost function Flatten(runs: seq<Run>): seq<Job> {
    if runs == [] then [] else Flatten(runs[..|runs| - 1]) + runs[|runs| - 1].jobs
  }

  /** All jobs, in the order in which `by_name` is overwritten. */
  ghost function InIdOrder(runs: seq<Run>): seq<Job> {
    Flatten(SortRuns(runs))
  }

  lemma NothingNamed(name: string)
    ensures LastNamed([], name) == None
  {
  }

  /** In id order, the last job of a name is the winner. */
  lemma {:induction false} LastOfSortedWins(runs: seq<Run>, name: string)
    requires Ascending(runs)
    ensures LastNamed(Flatten(runs), name).Some? <==> exists run :: run in runs && LastNamed(run.jobs, name).Some?
    ensures LastNamed(Flatten(runs), name).Some? ==> Wins(runs, name, LastNamed(Flatten(runs), name).value)
  {
    hide LastNamed;
    if runs == [] {
      NothingNamed(name);
    } else {
      var front, last := runs[..|runs| - 1], runs[|runs| - 1];
      assert runs == front + [last];
      LastOfSortedWins(front, name);
      LastNamedAppend(Flatten(front), last.jobs, name);
      if LastNamed(last.jobs, name).Some? {
        assert last in runs;
      } else if LastNamed(Flatten(front), name).Some? {
        var job := LastNamed(Flatten(front), name).value;
        var run :| run in front && LastNamed(run.jobs, name) == Some(job)
          && forall other :: other in front && LastNamed(other.jobs, name).Some? ==> other.id <= run.id;
        assert run in runs;
      }
    }
  }

  ghost predicate Lists(jobs: seq<Job>, name: string) {
    exists job :: job in jobs && job.name == name
  }

  ghost predicate Reports(runs: seq<Run>, name: string) {
    exists run :: run in runs && LastNamed(run.jobs, name).Some?
  }

  /** _query_action_jobs after the API calls succeeded: `by_name` is overwritten run by run in id order. */
  method QueryActionJobs(runs: seq<Run>) returns (jobs: seq<Job>)
    ensures forall i, j :: 0 <= i < j < |jobs| ==> jobs[i].name != jobs[j].name
    ensures forall job :: job in jobs ==> Wins(runs, job.name, job)
    ensures forall name :: Lists(jobs, name) <==> Reports(runs, name)
    ensures forall name :: LastNamed(jobs, name) == LastNamed(InIdOrder(runs), name)
  {
    var sorted := SortRuns(runs);
    var byName: map<string, Job> := map[];
    for i := 0 to |sorted|
      invariant IsLastNamed(byName, Flatten(sorted[..i]))
    {
      byName := OverwriteAll(byName, Flatten(sorted[..i]), sorted[i].jobs);
      assert sorted[..i + 1][..i] == sorted[..i];
    }
    assert sorted[..|sorted|] == sorted;
    jobs := Values(byName, Flatten(sorted));
    AllWin(runs, sorted, byName, jobs);
    forall name ensures LastNamed(jobs, name) == LastNamed(InIdOrder(runs), name) {
      assert LastNamed(Flatten(sorted), name) == if name in byName then Some(byName[name]) else None;
      LastNamedIsThere(jobs, name);
      LastNamedIsThere(Flatten(sorted), name);
      if name in byName { assert byName[name] in jobs; }
    }
  }

  /** A winner spelled out: the last of its name among the jobs of a run, and no run that lists the name has a higher
      id. */
  lemma WinnerStands(runs: seq<Run>, name: string, job: Job)
    requires Wins(runs, name, job)
    ensures exists run, k :: run in runs && IsLast(run.jobs, name, k) && run.jobs[k] == job
              && forall other, j :: other in runs && IsLast(other.jobs, name, j) ==> other.id <= run.id
  {
    hide IsLast, LastNamed;
    var run :| run in runs && LastNamed(run.jobs, name) == Some(job)
      && forall other :: other in runs && LastNamed(other.jobs, name).Some? ==> other.id <= run.id;
    forall jobs ensures forall k :: IsLast(jobs, name, k) ==> 0 <= k < |jobs| && LastNamed(jobs, name) == Some(jobs[k])
                ensures LastNamed(jobs, name).Some? ==> exists k :: IsLast(jobs, name, k) {
      IsLastBounds(jobs, name);
      LastNamedIsLast(jobs, name);
    }
    var k :| IsLast(run.jobs, name, k);
    assert run.jobs[k] == job;
  }

  lemma IsLastBounds(jobs: seq<Job>, name: string)
    ensures forall k :: IsLast(jobs, name, k) ==> 0 <= k < |jobs|
  {
  }

  /** Whatever name a run lists is reported. */
  lemma ListedIsReported(runs: seq<Run>, run: Run, k: nat)
    requires run in runs && k < |run.jobs|
    ensures Reports(runs, run.jobs[k].name)
  {
    LastNamedIsThere(run.jobs, run.jobs[k].name);
    assert run.jobs[k] in run.jobs;
  }

  /** `by_name` holds for every name the last job seen under it. */
  ghost predicate IsLastNamed(byName: map<string, Job>, seen: seq<Job>) {
    forall name {:trigger name in byName} {:trigger LastNamed(seen, name)} ::
      LastNamed(seen, name) == if name in byName then Some(byName[name]) else None
  }

  lemma Overwrite(byName: map<string, Job>, seen: seq<Job>, job: Job)
    requires IsLastNamed(byName, seen)
    ensures IsLastNamed(byName[job.name := job], seen + [job])
  {
    assert (seen + [job])[..|seen|] == seen;
    var grown := byName[job.name := job];
    forall name ensures LastNamed(seen + [job], name) == if name in grown then Some(grown[name]) else None {
      assert LastNamed(seen, name) == if name in byName then Some(byName[name]) else None;
    }
  }

  method OverwriteAll(byName0: map<string, Job>, ghost seen: seq<Job>, listed: seq<Job>)
      returns (byName: map<string, Job>)
    requires IsLastNamed(byName0, seen)
    ensures IsLastNamed(byName, seen + listed)
  {
    byName := byName0;
    assert seen + listed[..0] == seen;
    for j := 0 to |listed|
      invariant IsLastNamed(byName, seen + listed[..j])
    {
      Overwrite(byName, seen + listed[..j], listed[j]);
      assert seen + listed[..j + 1] == seen + listed[..j] + [listed[j]];
      byName := byName[listed[j].name := listed[j]];
    }
    assert listed[..|listed|] == listed;
  }

  /** `list(by_name.values())` */
  method Values(byName: map<string, Job>, ghost seen: seq<Job>) returns (jobs: seq<Job>)
    requires IsLastNamed(byName, seen)
    ensures forall i, j :: 0 <= i < j < |jobs| ==> jobs[i].name != jobs[j].name
    ensures forall job :: job in jobs <==> job.name in byName && byName[job.name] == job
  {
    forall name | name in byName ensures byName[name].name == name { LastNamedIsThere(seen, name); }
    jobs := [];
    var rest := byName.Keys;
    while rest != {}
      invariant rest <= byName.Keys
      invariant forall i, j :: 0 <= i < j < |jobs| ==> jobs[i].name != jobs[j].name
      invariant forall job :: job in jobs <==> job.name in byName && job.name !in rest && byName[job.name] == job
    {
      var name := AnyOf(rest);
      jobs := jobs + [byName[name]];
      rest := rest - {name};
    }
  }

  lemma AllWin(runs: seq<Run>, sorted: seq<Run>, byName: map<string, Job>, jobs: seq<Job>)
    requires sorted == SortRuns(runs) && IsLastNamed(byName, Flatten(sorted))
    requires forall job :: job in jobs <==> job.name in byName && byName[job.name] == job
    ensures forall job :: job in jobs ==> Wins(runs, job.name, job)
    ensures forall name :: Lists(jobs, name) <==> Reports(runs, name)
  {
    forall run ensures run in runs <==> run in sorted {
      assert run in runs <==> run in multiset(runs);
      assert run in sorted <==> run in multiset(sorted);
    }
    forall job | job in jobs ensures Wins(runs, job.name, job) {
      LastOfSortedWins(sorted, job.name);
      assert LastNamed(Flatten(sorted), job.name) == Some(job);
    }
    forall name ensures Lists(jobs, name) <==> Reports(runs, name) {
      LastOfSortedWins(sorted, name);
      LastNamedIsThere(Flatten(sorted), name);
      if name in byName { assert byName[name] in jobs; }
    }
  }

  // ----- The green predicate -----

  datatype Verdict = Passing | Failing | NotYet

  /** A failing conclusion counts whatever the status says; a pass needs a completed run. */
  function JobVerdict(job: Job): Verdict {
    match job.conclusion
    case Failure => Failing
    case Cancelled => Failing
    case TimedOut => Failing
    case ActionRequired => Failing
    case Success => if job.status.Completed? then Passing else NotYet
    case Neutral => if job.status.Completed? then Passing else NotYet
    case Skipped => if job.status.Completed? then Passing else NotYet
    case NoConclusion => NotYet
    case Unrecognised(_) => NotYet
  }

  /** The verdict on a check name, given a job list; an absent check is not there yet. */
  ghost function CheckVerdict(jobs: seq<Job>, name: string): Verdict {
    match LastNamed(jobs, name)
    case None => NotYet
    case Some(job) => JobVerdict(job)
  }

  ghost predicate PassingUpTo(jobs: seq<Job>, required: seq<string>, n: nat)
    requires n <= |required|
  {
    forall i :: 0 <= i < n ==> CheckVerdict(jobs, required[i]).Passing?
  }

  ghost predicate AllPassing(jobs: seq<Job>, required: seq<string>) {
    PassingUpTo(jobs, required, |required|)
  }

  /** The first required check that is not passing is a failing one. */
  ghost predicate FailsFirst(jobs: seq<Job>, required: seq<string>) {
    exists i :: 0 <= i < |required| && CheckVerdict(jobs, required[i]).Failing? && PassingUpTo(jobs, required, i)
  }

  /** None while some required check is not there yet. */
  ghost function Classification(jobs: seq<Job>, required: seq<string>): Option<CiResult> {
    if AllPassing(jobs, required) then Some(Green)
    else if FailsFirst(jobs, required) then Some(Red)
    else None
  }

  /** The last job of the name is completed with a passing conclusion. */
  ghost predicate Passes(jobs: seq<Job>, name: string) {
    exists k ::
      IsLast(jobs, name, k) && jobs[k].status == Completed && jobs[k].conclusion in {Success, Neutral, Skipped}
  }

  /** The last job of the name has a failing conclusion, completed or not. */
  ghost predicate Fails(jobs: seq<Job>, name: string) {
    exists k :: IsLast(jobs, name, k) && jobs[k].conclusion in {Failure, Cancelled, TimedOut, ActionRequired}
  }

  lemma VerdictIs(jobs: seq<Job>, name: string)
    ensures CheckVerdict(jobs, name).Passing? <==> Passes(jobs, name)
    ensures CheckVerdict(jobs, name).Failing? <==> Fails(jobs, name)
  {
    LastNamedIsLast(jobs, name);
    if k :| IsLast(jobs, name, k) { assert LastNamed(jobs, name) == Some(jobs[k]); }
  }

  /** _classify_check_runs: None means not yet. Green when every required check passes, red when the first that does
      not pass fails. */
  method ClassifyCheckRuns(jobs: seq<Job>, required: seq<string>) returns (result: Option<CiResult>)
    ensures result == Classification(jobs, required)
    ensures result == Some(Green) <==>
            forall name :: name in required ==>
              exists k :: IsLast(jobs, name, k) && jobs[k].status == Completed
                          && jobs[k].conclusion in {Success, Neutral, Skipped}
    ensures result == Some(Red) <==>
            exists i :: 0 <= i < |required|
              && (exists k :: IsLast(jobs, required[i], k)
                              && jobs[k].conclusion in {Failure, Cancelled, TimedOut, ActionRequired})
              && forall m :: 0 <= m < i ==>
                   exists k :: IsLast(jobs, required[m], k) && jobs[k].status == Completed
                               && jobs[k].conclusion in {Success, Neutral, Skipped}
    ensures result != Some(Timeout)
  {
    hide IsLast;
    ClassificationIs(jobs, required);
    var byName := OverwriteAll(map[], [], jobs);
    assert [] + jobs == jobs;
    for i := 0 to |required|
      invariant PassingUpTo(jobs, required, i)
    {
      var name := required[i];
      assert CheckVerdict(jobs, name) == if name in byName then JobVerdict(byName[name]) else NotYet;
      var verdict := if name in byName then JobVerdict(byName[name]) else NotYet;
      if !verdict.Passing? {
        return if verdict.Failing? then Some(Red) else None;
      }
    }
    return Some(Green);
  }

  lemma ClassificationIs(jobs: seq<Job>, required: seq<string>)
    ensures Classification(jobs, required) == Some(Green) <==> forall name :: name in required ==> Passes(jobs, name)
    ensures Classification(jobs, required) == Some(Red) <==>
            exists i :: 0 <= i < |required| && Fails(jobs, required[i])
                        && forall m :: 0 <= m < i ==> Passes(jobs, required[m])
  {
    hide CheckVerdict, Passes, Fails;
    forall name ensures CheckVerdict(jobs, name).Passing? <==> Passes(jobs, name)
                ensures CheckVerdict(jobs, name).Failing? <==> Fails(jobs, name) {
      VerdictIs(jobs, name);
    }
    if forall name :: name in required ==> Passes(jobs, name) {
      forall i | 0 <= i < |required| ensures CheckVerdict(jobs, required[i]).Passing? {
        assert required[i] in required;
      }
    }
    if i :| 0 <= i < |required| && Fails(jobs, required[i]) && forall m :: 0 <= m < i ==> Passes(jobs, required[m]) {
      assert !CheckVerdict(jobs, required[i]).Passing?;
      assert PassingUpTo(jobs, required, i);
    }
  }

  /** Green looks at the set of required names only, so neither order nor repetition matters. */
  lemma GreenIgnoresOrder(jobs: seq<Job>, required: seq<string>, reordered: seq<string>)
    requires forall name :: name in required <==> name in reordered
    ensures AllPassing(jobs, required) <==> AllPassing(jobs, reordered)
  {
    forall i | 0 <= i < |required| ensures required[i] in reordered { assert required[i] in required; }
    forall i | 0 <= i < |reordered| ensures reordered[i] in required { assert reordered[i] in reordered; }
  }

  /** Green needs a job unless nothing is required; then it is granted on no evidence at all. */
  lemma GreenNeedsEvidence(jobs: seq<Job>, required: seq<string>)
    ensures AllPassing([], required) <==> required == []
    ensures required != [] && AllPassing(jobs, required) ==> jobs != []
  {
    if required != [] {
      assert !CheckVerdict([], required[0]).Passing?;
    }
  }

  /** The documentation's red: some required check has a failing conclusion. */
  ghost predicate SomeFailing(jobs: seq<Job>, required: seq<string>) {
    exists i :: 0 <= i < |required| && CheckVerdict(jobs, required[i]).Failing?
  }

  /** No absent or pending required check stands before the first failing one. */
  ghost predicate Unmasked(jobs: seq<Job>, required: seq<string>) {
    forall i, j :: 0 <= i < j < |required|
      && CheckVerdict(jobs, required[i]).NotYet? && CheckVerdict(jobs, required[j]).Failing?
      ==> exists k :: 0 <= k < i && CheckVerdict(jobs, required[k]).Failing?
  }

  /** The code is red exactly when the documentation is, exactly when the failure is not masked. */
  lemma RedExactlyWhenUnmasked(jobs: seq<Job>, required: seq<string>)
    ensures (FailsFirst(jobs, required) <==> SomeFailing(jobs, required)) <==> Unmasked(jobs, required)
  {
    if SomeFailing(jobs, required) {
      var first := FirstFailing(jobs, required);
      if i :| 0 <= i < first && CheckVerdict(jobs, required[i]).NotYet? {
        forall k | 0 <= k < |required| && CheckVerdict(jobs, required[k]).Failing?
          ensures !PassingUpTo(jobs, required, k) {
          assert i < first <= k && !CheckVerdict(jobs, required[i]).Passing?;
        }
      } else {
        forall i | 0 <= i < first ensures CheckVerdict(jobs, required[i]).Passing? {
          assert !CheckVerdict(jobs, required[i]).NotYet?;
        }
        assert PassingUpTo(jobs, required, first);
      }
    }
  }

  lemma FirstFailing(jobs: seq<Job>, required: seq<string>) returns (first: nat)
    requires SomeFailing(jobs, required)
    ensures first < |required| && CheckVerdict(jobs, required[first]).Failing?
    ensures forall k :: 0 <= k < first ==> !CheckVerdict(jobs, required[k]).Failing?
  {
    first :| first < |required| && CheckVerdict(jobs, required[first]).Failing?;
    while true
      invariant first < |required| && CheckVerdict(jobs, required[first]).Failing?
      decreases first
    {
      if forall k :: 0 <= k < first ==> !CheckVerdict(jobs, required[k]).Failing? { return; }
      var k :| 0 <= k < first && CheckVerdict(jobs, required[k]).Failing?;
      first := k;
    }
  }

  /** A failed check behind one that has not reported yet: red by the documentation, not by the code. */
  lemma MaskedFailure()
    ensures exists jobs: seq<Job>, required: seq<string> ::
              SomeFailing(jobs, required) && !FailsFirst(jobs, required) && !AllPassing(jobs, required)
  {
    var lint := Job("lint", Completed, Failure);
    var jobs, required := [lint], ["test", "lint"];
    assert LastNamed(jobs, "lint") == Some(lint);
    assert jobs[..0] == [] && LastNamed(jobs, "test") == None;
    assert CheckVerdict(jobs, required[1]).Failing? && CheckVerdict(jobs, required[0]).NotYet?;
    assert SomeFailing(jobs, required);
    forall i | 0 <= i < |required| && CheckVerdict(jobs, required[i]).Failing?
      ensures !PassingUpTo(jobs, required, i) {
      assert i == 1 && !CheckVerdict(jobs, required[0]).Passing?;
    }
  }

  // ----- The polling loop -----

  datatype Poll = Answered(runs: seq<Run>) | ApiError

  datatype GateReply = Decided(result: CiResult) | Raised

  /** The classification of a snapshot. */
  ghost function Classified(runs: seq<Run>, required: seq<string>): Option<CiResult> {
    Classification(InIdOrder(runs), required)
  }

  /** With distinct run ids, a snapshot is green exactly when the winning job of every required name is completed with
      a passing conclusion. */
  lemma GreenMeansWinnersPass(runs: seq<Run>, required: seq<string>)
    requires forall r, s :: r in runs && s in runs && r.id == s.id ==> r == s
    ensures Classified(runs, required) == Some(Green) <==>
            forall name :: name in required ==>
              exists job :: Wins(runs, name, job) && job.status == Completed
                            && job.conclusion in {Success, Neutral, Skipped}
  {
    hide Wins, CheckVerdict;
    forall name ensures CheckVerdict(InIdOrder(runs), name).Passing? <==> WinnerPasses(runs, name) {
      PassingMeansWinner(runs, name);
    }
    if forall name :: name in required ==> WinnerPasses(runs, name) {
      forall i | 0 <= i < |required| ensures CheckVerdict(InIdOrder(runs), required[i]).Passing? {
        assert required[i] in required;
      }
    }
  }

  /** It is red only when the winning job of some required name has a failing conclusion. */
  lemma RedMeansAWinnerFails(runs: seq<Run>, required: seq<string>) returns (name: string, job: Job)
    requires Classified(runs, required) == Some(Red)
    ensures name in required && Wins(runs, name, job)
    ensures job.conclusion in {Failure, Cancelled, TimedOut, ActionRequired}
  {
    hide Wins, InIdOrder, CheckVerdict;
    var i :| 0 <= i < |required| && CheckVerdict(InIdOrder(runs), required[i]).Failing?;
    SortedSame(runs, required[i]);
    FailingIsThere(InIdOrder(runs), required[i]);
    name, job := required[i], LastNamed(InIdOrder(runs), required[i]).value;
  }

  lemma FailingIsThere(jobs: seq<Job>, name: string)
    requires CheckVerdict(jobs, name).Failing?
    ensures LastNamed(jobs, name).Some?
    ensures LastNamed(jobs, name).value.conclusion in {Failure, Cancelled, TimedOut, ActionRequired}
  {
  }

  ghost predicate WinnerPasses(runs: seq<Run>, name: string) {
    exists job :: Wins(runs, name, job) && job.status == Completed && job.conclusion in {Success, Neutral, Skipped}
  }

  lemma PassingMeansWinner(runs: seq<Run>, name: string)
    requires forall r, s :: r in runs && s in runs && r.id == s.id ==> r == s
    ensures CheckVerdict(InIdOrder(runs), name).Passing? <==> WinnerPasses(runs, name)
  {
    hide InIdOrder;
    SortedSame(runs, name);
    if WinnerPasses(runs, name) {
      var job :| Wins(runs, name, job) && job.status == Completed && job.conclusion in {Success, Neutral, Skipped};
      WinnerIsUnique(runs, name, job, LastNamed(InIdOrder(runs), name).value);
    }
  }

  lemma SortedSame(runs: seq<Run>, name: string)
    ensures LastNamed(InIdOrder(runs), name).Some? <==> Reports(runs, name)
    ensures LastNamed(InIdOrder(runs), name).Some? ==> Wins(runs, name, LastNamed(InIdOrder(runs), name).value)
  {
    var sorted := SortRuns(runs);
    forall run ensures run in runs <==> run in sorted {
      assert run in runs <==> run in multiset(runs);
      assert run in sorted <==> run in multiset(sorted);
    }
    LastOfSortedWins(sorted, name);
  }

  /** The readings of the monotonic clock around poll `k`: one after the snapshot, and, when there is no
      sleep because the poll interval is not positive, one more before the next round. */
  datatype Timing = Timing(start: real, interval: real, timeout: real, now: nat -> real, again: nat -> real)

  /** Every round, its sleep included, advances the clock by at least `step`. */
  ghost predicate Advances(t: Timing, step: real) {
    && t.start <= t.now(0)
    && forall k: nat, next: nat {:trigger t.now(k), t.now(next)} :: next == k + 1 ==> t.now(k) + step <= t.now(next)
  }

  /** Poll `k` settles nothing and the deadline has not passed. */
  ghost predicate KeepsPolling(required: seq<string>, polls: nat -> Poll, t: Timing, k: nat) {
    && polls(k).Answered? && Classified(polls(k).runs, required).None?
    && t.now(k) < t.start + t.timeout
    && (t.interval <= 0.0 ==> t.again(k) < t.start + t.timeout)
  }

  function Ceil(x: real): int {
    -((-x).Floor)
  }

  /** What poll `k` makes evaluate_ci answer. */
  ghost function ReplyOf(required: seq<string>, poll: Poll): GateReply {
    if poll.ApiError? then Raised
    else match Classified(poll.runs, required)
         case Some(result) => Decided(result)
         case None => Decided(Timeout)
  }

  /** What the reply says about the poll it came from and the polls before. */
  lemma SettledBy(required: seq<string>, polls: nat -> Poll, t: Timing, last: nat, reply: GateReply)
    requires forall k: nat :: k < last ==> KeepsPolling(required, polls, t, k)
    requires !KeepsPolling(required, polls, t, last) && reply == ReplyOf(required, polls(last))
    ensures reply == Raised <==> polls(last).ApiError?
    ensures polls(last).Answered? ==>
              var seen := Classified(polls(last).runs, required);
              && (reply == Decided(Green) <==> seen == Some(Green))
              && (reply == Decided(Red) <==> seen == Some(Red))
              && (reply == Decided(Timeout) <==> seen == None)
    ensures reply == Decided(Timeout) ==>
              t.now(last) >= t.start + t.timeout || (t.interval <= 0.0 && t.again(last) >= t.start + t.timeout)
    ensures forall k: nat {:trigger t.now(k)} {:trigger polls(k)} :: k < last ==>
              polls(k).Answered? && Classified(polls(k).runs, required) == None && t.now(k) < t.start + t.timeout
  {
    forall k: nat | k < last
      ensures polls(k).Answered? && Classified(polls(k).runs, required) == None && t.now(k) < t.start + t.timeout
    {
      assert KeepsPolling(required, polls, t, k);
    }
  }

  /** evaluate_ci. The first poll that does not keep polling settles the reply, and it comes no later than
      one after the timeout divided by the time a round takes. */
  method EvaluateCi(required: seq<string>, polls: nat -> Poll, t: Timing, ghost step: real)
      returns (reply: GateReply, count: nat)
    requires step > 0.0 && Advances(t, step)
    ensures count > 0 && reply == ReplyOf(required, polls(count - 1))
    ensures forall k: nat :: k < count - 1 ==> KeepsPolling(required, polls, t, k)
    ensures !KeepsPolling(required, polls, t, count - 1)
    ensures reply == Raised <==> polls(count - 1).ApiError?
    ensures polls(count - 1).Answered? ==>
              var seen := Classified(polls(count - 1).runs, required);
              && (reply == Decided(Green) <==> seen == Some(Green))
              && (reply == Decided(Red) <==> seen == Some(Red))
              && (reply == Decided(Timeout) <==> seen == None)
    ensures reply == Decided(Timeout) ==>
              t.now(count - 1) >= t.start + t.timeout
              || (t.interval <= 0.0 && t.again(count - 1) >= t.start + t.timeout)
    ensures forall k: nat {:trigger t.now(k)} {:trigger polls(k)} :: k < count - 1 ==>
              polls(k).Answered? && Classified(polls(k).runs, required) == None && t.now(k) < t.start + t.timeout
    ensures t.timeout >= 0.0 ==> count <= Ceil(t.timeout / step) + 1
    ensures t.timeout <= 0.0 ==> count == 1
  {
    hide KeepsPolling, ReplyOf, Classified, Bounds, Advances;
    ghost var limit := if t.timeout <= 0.0 then 1 else Ceil(t.timeout / step) + 1;
    RoundsAreBounded(step, t.timeout, limit);
    reply, count := PollUntil(required, polls, t, step, Spent(step), limit);
    SettledBy(required, polls, t, count - 1, reply);
  }

  /** The time that rounds of length `step` take. */
  ghost function Spent(step: real): nat -> real {
    n => n as real * step
  }

  /** Each round adds `step`, and while the time spent is below the timeout another round stays within the limit. */
  ghost predicate Bounds(spent: nat -> real, step: real, timeout: real, limit: int) {
    spent(0) == 0.0 && limit >= 1
    && (forall n: nat, next: nat {:trigger spent(n), spent(next)} :: next == n + 1 ==> spent(next) == spent(n) + step)
    && (forall n: nat {:trigger spent(n)} :: spent(n) < timeout ==> n + 1 < limit)
  }

  lemma RoundsAreBounded(step: real, timeout: real, limit: int)
    requires step > 0.0 && limit == if timeout <= 0.0 then 1 else Ceil(timeout / step) + 1
    ensures Bounds(Spent(step), step, timeout, limit)
  {
    forall n: nat ensures Spent(step)(n) < timeout ==> n + 1 < limit {
      BelowCeil(n, step, timeout);
    }
    forall n: nat, next: nat | next == n + 1 ensures Spent(step)(next) == Spent(step)(n) + step {
      OneMoreRound(n, step);
    }
    if timeout > 0.0 { BelowCeil(0, step, timeout); }
  }

  /** The first `n` polls settled nothing, and the clock shows it. */
  ghost predicate Polled(required: seq<string>, polls: nat -> Poll, t: Timing, spent: nat -> real, limit: int, n: nat) {
    && (forall k: nat :: k < n ==> KeepsPolling(required, polls, t, k))
    && t.start + spent(n) <= t.now(n) && n < limit
  }

  lemma PolledOnce(required: seq<string>, polls: nat -> Poll, t: Timing, step: real, spent: nat -> real, limit: int,
                   n: nat)
    requires Advances(t, step) && Bounds(spent, step, t.timeout, limit)
    requires Polled(required, polls, t, spent, limit, n) && KeepsPolling(required, polls, t, n)
    ensures Polled(required, polls, t, spent, limit, n + 1)
  {
  }

  /** The loop of evaluate_ci; `spent(n)` is the time `n` rounds take at least. */
  method PollUntil(required: seq<string>, polls: nat -> Poll, t: Timing,
                   ghost step: real, ghost spent: nat -> real, ghost limit: int)
      returns (reply: GateReply, count: nat)
    requires Advances(t, step) && Bounds(spent, step, t.timeout, limit)
    ensures count > 0 && Polled(required, polls, t, spent, limit, count - 1)
    ensures !KeepsPolling(required, polls, t, count - 1) && reply == ReplyOf(required, polls(count - 1))
  {
    count := 0;
    while true
      invariant Polled(required, polls, t, spent, limit, count)
      decreases limit - count
    {
      var result := Round(required, polls, t, count);
      if result.Some? { return result.value, count + 1; }
      PolledOnce(required, polls, t, step, spent, limit, count);
      count := count + 1;
    }
  }

  /** One round: the snapshot, then the deadline. */
  method Round(required: seq<string>, polls: nat -> Poll, t: Timing, k: nat) returns (reply: Option<GateReply>)
    ensures reply.None? <==> KeepsPolling(required, polls, t, k)
    ensures reply.Some? ==> reply.value == ReplyOf(required, polls(k))
  {
    var deadline := t.start + t.timeout;
    reply := PollOnce(required, polls(k));
    if reply.Some? { return; }
    if t.now(k) >= deadline { return Some(Decided(Timeout)); }
    if t.interval <= 0.0 && t.again(k) >= deadline { return Some(Decided(Timeout)); }
  }

  /** One round up to the deadline check: None when the snapshot settles nothing. */
  method PollOnce(required: seq<string>, poll: Poll) returns (reply: Option<GateReply>)
    ensures reply.None? <==> poll.Answered? && Classified(poll.runs, required).None?
    ensures reply.Some? ==> reply.value == ReplyOf(required, poll)
  {
    if poll.ApiError? { return Some(Raised); }
    var jobs := QueryActionJobs(poll.runs);
    SameNames(jobs, InIdOrder(poll.runs), required);
    var result := ClassifyCheckRuns(jobs, required);
    return if result.Some? then Some(Decided(result.value)) else None;
  }

  lemma SameNames(a: seq<Job>, b: seq<Job>, required: seq<string>)
    requires forall name :: LastNamed(a, name) == LastNamed(b, name)
    ensures Classification(a, required) == Classification(b, required)
  {
    forall name ensures CheckVerdict(a, name) == CheckVerdict(b, name) {}
    forall i | 0 <= i <= |required| ensures PassingUpTo(a, required, i) <==> PassingUpTo(b, required, i) {}
  }

  lemma OneMoreRound(n: nat, step: real)
    ensures (n + 1) as real * step == n as real * step + step
  {
  }

  lemma BelowCeil(n: nat, step: real, timeout: real)
    requires step > 0.0
    ensures n as real * step < timeout ==> n < Ceil(timeout / step)
  {
    if n as real * step < timeout {
      assert n as real < timeout / step;
    }
  }
}
