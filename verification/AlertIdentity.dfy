/** Whose issue a stall alert names. The owner, repository and issue of an alert are read one by one while the daemon
    writes them one by one; this traces each back to the call that wrote it.
    Models the identity fields of LivenessState and of the snapshot in src/baton_harness/chain/heartbeat.py. */
module AlertIdentity {
  import opened Prelude
  import opened Heartbeat

  datatype Identity = Identity(owner: Option<string>, repo: Option<string>, issue: Option<int>)

  const NOBODY := Identity(None, None, None)

  /** What a call writes into the identity fields; NoteProgress writes none of them. */
  function IdentityOf(c: Call): Option<Identity> {
    match c
    case MarkInProgress(o, r, i, _, _) => Some(Identity(Some(o), Some(r), Some(i)))
    case Clear => Some(NOBODY)
    case NoteProgress(_) => None
  }

  /** An identity call that begins is the next one. */
  ghost function Begun(s: State, calls: seq<Identity>, a: Action): seq<Identity> {
    if a.Begin? && s.todo == [] && IdentityOf(a.call).Some? then calls + [IdentityOf(a.call).value] else calls
  }

  /** The identities of a run in the order of the calls that set them; the first is that of the fresh object. */
  ghost function Calls(limits: Thresholds, run: seq<Action>): seq<Identity> {
    if run == [] then [NOBODY]
    else
      var front := run[..|run| - 1];
      Begun(After(limits, front), Calls(limits, front), run[|run| - 1])
  }

  /** How many writes of each identity field were made: the number of a field is that of the call it comes from. */
  datatype Tally = Tally(owner: nat, repo: nat, issue: nat)

  function Count(t: Tally, w: Write): Tally {
    match w
    case Owner(_) => t.(owner := t.owner + 1)
    case Repo(_) => t.(repo := t.repo + 1)
    case Issue(_) => t.(issue := t.issue + 1)
    case _ => t
  }

  function Tallied(s: State, t: Tally, a: Action): Tally {
    if a == DaemonStep && s.todo != [] then Count(t, s.todo[0]) else t
  }

  ghost function Written(limits: Thresholds, run: seq<Action>): Tally {
    if run == [] then Tally(0, 0, 0)
    else
      var front := run[..|run| - 1];
      Tallied(After(limits, front), Written(limits, front), run[|run| - 1])
  }

  /** The writes made when the monitor last took the step at `pc`. */
  ghost function WrittenAt(limits: Thresholds, run: seq<Action>, pc: Pc): Tally {
    if run == [] then Tally(0, 0, 0)
    else
      var front, a := run[..|run| - 1], run[|run| - 1];
      if a.MonitorStep? && After(limits, front).pc == pc then Written(limits, front) else WrittenAt(limits, front, pc)
  }

  // ----- Each field comes from the call of its number -----

  ghost predicate NoIdentity(todo: seq<Write>) {
    forall k :: 0 <= k < |todo| ==> !todo[k].Owner? && !todo[k].Repo? && !todo[k].Issue?
  }

  /** The last `left` of the three identity writes of a call are still to be made. */
  ghost predicate StillToWrite(todo: seq<Write>, id: Identity, left: int) {
    (left == 0 && NoIdentity(todo))
    || (left == 1 && |todo| >= 1 && todo[0] == Issue(id.issue) && NoIdentity(todo[1..]))
    || (left == 2 && |todo| >= 2 && todo[0] == Repo(id.repo) && todo[1] == Issue(id.issue) && NoIdentity(todo[2..]))
    || (left == 3 && |todo| >= 3 && todo[0] == Owner(id.owner) && todo[1] == Repo(id.repo) && todo[2] == Issue(id.issue)
        && NoIdentity(todo[3..]))
  }

  ghost predicate Traced(s: State, calls: seq<Identity>, t: Tally) {
    && t.issue <= t.repo <= t.owner < |calls| <= t.issue + 2
    && s.shared.owner == calls[t.owner].owner
    && s.shared.repo == calls[t.repo].repo
    && s.shared.issue == calls[t.issue].issue
    && StillToWrite(s.todo, calls[|calls| - 1], 3 * (|calls| - 1) - t.owner - t.repo - t.issue)
  }

  lemma {:induction false} AlwaysTraced(limits: Thresholds, run: seq<Action>)
    ensures Traced(After(limits, run), Calls(limits, run), Written(limits, run))
  {
    if run != [] {
      var front := run[..|run| - 1];
      AlwaysTraced(limits, front);
      StepTraced(limits, After(limits, front), Calls(limits, front), Written(limits, front), run[|run| - 1]);
    }
  }

  lemma StepTraced(limits: Thresholds, s: State, calls: seq<Identity>, t: Tally, a: Action)
    requires Traced(s, calls, t)
    ensures Traced(Next(limits, s, a).0, Begun(s, calls, a), Tallied(s, t, a))
  {
    match a
    case Begin(c) => BeginTraced(s, calls, t, c);
    case DaemonStep => if s.todo != [] { WriteTraced(s, calls, t); }
    case Tick(_) => OthersKeepTrace(limits, s, calls, t, a);
    case MonitorStep(_) => OthersKeepTrace(limits, s, calls, t, a);
  }

  lemma OthersKeepTrace(limits: Thresholds, s: State, calls: seq<Identity>, t: Tally, a: Action)
    requires Traced(s, calls, t) && (a.Tick? || a.MonitorStep?)
    ensures Traced(Next(limits, s, a).0, calls, t)
  {
    var s1 := Next(limits, s, a).0;
    assert s1.todo == s.todo && s1.shared == s.shared.(alerted := s1.shared.alerted);
  }

  lemma BeginTraced(s: State, calls: seq<Identity>, t: Tally, c: Call)
    requires Traced(s, calls, t)
    ensures s.todo == [] && IdentityOf(c).Some? ==>
              Traced(s.(todo := Writes(c)), calls + [IdentityOf(c).value], t)
    ensures s.todo == [] && IdentityOf(c).None? ==> Traced(s.(todo := Writes(c)), calls, t)
  {
  }

  lemma WriteTraced(s: State, calls: seq<Identity>, t: Tally)
    requires Traced(s, calls, t) && s.todo != []
    ensures Traced(s.(shared := Put(s.shared, s.todo[0]), todo := s.todo[1..]), calls, Count(t, s.todo[0]))
  {
    var w, rest := s.todo[0], s.todo[1..];
    assert |s.todo| >= 2 ==> rest[0] == s.todo[1] && rest[1..] == s.todo[2..];
    assert |s.todo| >= 3 ==> rest[1] == s.todo[2] && rest[2..] == s.todo[3..];
  }

  /** The three numbers agree exactly while no call is half written. */
  lemma HalfWrittenShows(limits: Thresholds, run: seq<Action>)
    ensures var t, todo := Written(limits, run), After(limits, run).todo;
            t.owner == t.repo == t.issue <==> !HalfWritten(todo)
  {
    AlwaysTraced(limits, run);
    HalfWrittenTraced(After(limits, run), Calls(limits, run), Written(limits, run));
  }

  /** The owner is written and something is still to come. */
  predicate HalfWritten(todo: seq<Write>) {
    todo != [] && (todo[0].Repo? || todo[0].Issue?)
  }

  lemma HalfWrittenTraced(s: State, calls: seq<Identity>, t: Tally)
    requires Traced(s, calls, t)
    ensures t.owner == t.repo == t.issue <==> !HalfWritten(s.todo)
  {
  }

  // ----- Where the three parts of an alert come from -----

  ghost predicate AtMost(a: Tally, b: Tally) {
    a.owner <= b.owner && a.repo <= b.repo && a.issue <= b.issue
  }

  ghost predicate Read(pc: Pc) {
    pc !in {Idle, ReadAlerted, ReadSince, ReadOwner}
  }

  /** What was read of the snapshot so far comes from the calls numbered at the reads. */
  ghost predicate SeenTraced(s: State, calls: seq<Identity>, t: Tally, atOwner: Tally, atRepo: Tally, atIssue: Tally) {
    && (Read(s.pc) ==>
          AtMost(atOwner, t) && atOwner.owner < |calls| && s.seen.owner == calls[atOwner.owner].owner)
    && (Read(s.pc) && s.pc != ReadRepo ==>
          AtMost(atOwner, atRepo) && AtMost(atRepo, t) && atRepo.repo < |calls|
          && s.seen.repo == calls[atRepo.repo].repo)
    && (Read(s.pc) && s.pc != ReadRepo && s.pc != ReadIssue ==>
          AtMost(atRepo, atIssue) && AtMost(atIssue, t) && atIssue.issue < |calls|
          && s.seen.issue == calls[atIssue.issue].issue)
  }

  lemma {:induction false} AlwaysSeenTraced(limits: Thresholds, run: seq<Action>)
    ensures SeenTraced(After(limits, run), Calls(limits, run), Written(limits, run), WrittenAt(limits, run, ReadOwner),
                       WrittenAt(limits, run, ReadRepo), WrittenAt(limits, run, ReadIssue))
  {
    if run != [] {
      var front, a := run[..|run| - 1], run[|run| - 1];
      AlwaysSeenTraced(limits, front);
      AlwaysTraced(limits, front);
      if a.MonitorStep? {
        ReadTraced(limits, After(limits, front), Calls(limits, front), Written(limits, front),
                   WrittenAt(limits, front, ReadOwner), WrittenAt(limits, front, ReadRepo),
                   WrittenAt(limits, front, ReadIssue), a.reply);
      } else {
        var s, s1 := After(limits, front), After(limits, run);
        assert s1.seen == s.seen && (s1.pc == s.pc || s1.pc == ReadAlerted);
        assert AtMost(Written(limits, front), Written(limits, run));
        assert Calls(limits, front) <= Calls(limits, run);
      }
    }
  }

  lemma ReadTraced(limits: Thresholds, s: State, calls: seq<Identity>, t: Tally, atOwner: Tally, atRepo: Tally,
                   atIssue: Tally, reply: bool)
    requires Traced(s, calls, t) && SeenTraced(s, calls, t, atOwner, atRepo, atIssue)
    ensures SeenTraced(Monitor(limits, s, reply).0, calls, t, if s.pc == ReadOwner then t else atOwner,
                       if s.pc == ReadRepo then t else atRepo, if s.pc == ReadIssue then t else atIssue)
  {
  }

  /** The calls that the owner, the repository and the issue of the latest snapshot come from. */
  ghost function Sources(limits: Thresholds, run: seq<Action>): (nat, nat, nat) {
    (WrittenAt(limits, run, ReadOwner).owner, WrittenAt(limits, run, ReadRepo).repo,
     WrittenAt(limits, run, ReadIssue).issue)
  }

  /** Under every interleaving an alert names the owner, repository and issue of the calls numbered at their reads. */
  lemma AlertComesFrom(limits: Thresholds, run: seq<Action>)
    requires run != [] && Last(limits, run).Delivered?
    ensures var calls, (a, b, c) := Calls(limits, run), Sources(limits, run);
            a < |calls| && b < |calls| && c < |calls|
            && Last(limits, run) == Delivered(calls[a].owner, calls[b].repo, calls[c].issue)
  {
    hide AtMost;
    AlwaysSeenTraced(limits, run[..|run| - 1]);
  }

  // ----- When an alert is about one issue -----

  ghost predicate OfOneCall(calls: seq<Identity>, e: Event) {
    exists k :: 0 <= k < |calls| && e == Delivered(calls[k].owner, calls[k].repo, calls[k].issue)
  }

  /** No call was half written when the owner was read, and no identity field was written before the issue was. */
  ghost predicate Undisturbed(limits: Thresholds, run: seq<Action>) {
    var t := WrittenAt(limits, run, ReadOwner);
    t.owner == t.repo == t.issue && WrittenAt(limits, run, ReadIssue) == t
  }

  /** Then the alert is about one issue. */
  lemma UndisturbedIsOfOneCall(limits: Thresholds, run: seq<Action>)
    requires run != [] && Last(limits, run).Delivered? && Undisturbed(limits, run)
    ensures OfOneCall(Calls(limits, run), Last(limits, run))
  {
    AlertComesFrom(limits, run);
    AlwaysSeenTraced(limits, run[..|run| - 1]);
  }

  /** Any two calls name the same thing or differ in every field, so that every write of a new identity changes every
      value. */
  ghost predicate Apart(calls: seq<Identity>) {
    forall j, k :: 0 <= j < |calls| && 0 <= k < |calls| && calls[j] != calls[k] ==>
      calls[j].owner != calls[k].owner && calls[j].repo != calls[k].repo && calls[j].issue != calls[k].issue
  }

  /** When writes change values, an alert is about one issue exactly when its three reads fall on calls that name the
      same thing. */
  lemma OfOneCallExactly(limits: Thresholds, run: seq<Action>)
    requires run != [] && Last(limits, run).Delivered? && Apart(Calls(limits, run))
    ensures var calls, (a, b, c) := Calls(limits, run), Sources(limits, run);
            a < |calls| && b < |calls| && c < |calls|
            && (OfOneCall(calls, Last(limits, run)) <==> calls[a] == calls[b] == calls[c])
  {
    AlertComesFrom(limits, run);
  }

  /** The calls of a daemon that works on one repository: each marks an issue of it or clears the identity. */
  ghost predicate OneRepository(calls: seq<Identity>, owner: string, repo: string) {
    forall k :: 0 <= k < |calls| && calls[k] != NOBODY ==>
      calls[k].owner == Some(owner) && calls[k].repo == Some(repo) && calls[k].issue.Some?
  }

  /** Within one repository only the cleared identity can mix into an alert, and it does exactly when some of the three
      reads fall on cleared calls and some on marks. */
  lemma OfOneRepositoryExactly(limits: Thresholds, run: seq<Action>, owner: string, repo: string)
    requires run != [] && Last(limits, run).Delivered? && OneRepository(Calls(limits, run), owner, repo)
    ensures var calls, (a, b, c) := Calls(limits, run), Sources(limits, run);
            a < |calls| && b < |calls| && c < |calls|
            && (OfOneCall(calls, Last(limits, run)) <==>
                (calls[a] == NOBODY <==> calls[b] == NOBODY) && (calls[b] == NOBODY <==> calls[c] == NOBODY))
  {
    AlertComesFrom(limits, run);
    var calls, c := Calls(limits, run), Sources(limits, run).2;
    if calls[c] != NOBODY {
      assert calls[c].owner == Some(owner) && calls[c].repo == Some(repo);
    }
  }

  /** A write that changes a value and is outstanding at the owner read, or lands before the issue read without having
      been outstanding, mixes the alert: the reads fall on one call exactly when each later field was written as often
      by its read as the owner was by its own. */
  lemma ReadsOfOneCall(limits: Thresholds, run: seq<Action>)
    requires run != [] && Last(limits, run).Delivered?
    ensures var t := WrittenAt(limits, run, ReadOwner);
            var repoOwed, issueOwed := t.owner - t.repo, t.owner - t.issue;
            var repoWritten := WrittenAt(limits, run, ReadRepo).repo - t.repo;
            var issueWritten := WrittenAt(limits, run, ReadIssue).issue - t.issue;
            0 <= repoWritten && 0 <= issueWritten && 0 <= repoOwed <= issueOwed <= 1
            && (Sources(limits, run).0 == Sources(limits, run).1 == Sources(limits, run).2 <==>
                repoWritten == repoOwed && issueWritten == issueOwed)
  {
    AlwaysSeenTraced(limits, run[..|run| - 1]);
    OwedAtRead(limits, run);
  }

  lemma {:induction false} OwedAtRead(limits: Thresholds, run: seq<Action>)
    ensures var t := WrittenAt(limits, run, ReadOwner); t.issue <= t.repo <= t.owner <= t.issue + 1
  {
    if run != [] {
      AlwaysTraced(limits, run[..|run| - 1]);
      OwedAtRead(limits, run[..|run| - 1]);
    }
  }

  /** Leaving the tick alone is not enough: the daemon may have paused between two of its writes. All monitor steps of
      this run are consecutive, and its alert has the owner of one issue and the rest of another. */
  lemma HalfWrittenIsMixed(limits: Thresholds) returns (paused: seq<Action>, run: seq<Action>)
    ensures OnlyCalls(run, {MarkInProgress("a", "x", 1, 0, true), MarkInProgress("b", "y", 2, 0, true)})
    ensures run == paused + seq(8, _ => MonitorStep(true)) && forall a :: a in paused ==> !a.MonitorStep?
    ensures Last(limits, run) == Delivered(Some("b"), Some("x"), Some(1))
  {
    paused := PausedAfterOwner(limits);
    run := DoThree(limits, paused, CALLS);
    run := DoFour(limits, run, CALLS);
    AlertsNow(limits, run, "b", "x", 1);
    run := Do(limits, run, MonitorStep(true), CALLS);
  }

  lemma AlertsNow(limits: Thresholds, run: seq<Action>, owner: string, repo: string, issue: int)
    requires After(limits, run).pc == Wall && After(limits, run).now == limits.stall + 1
    requires After(limits, run).seen == Liveness(Some(owner), Some(repo), Some(issue), Some(0), false, true, None)
    ensures Next(limits, After(limits, run), MonitorStep(true)).1 == Delivered(Some(owner), Some(repo), Some(issue))
  {
  }

  /** The second call has written its owner and nothing else when a late tick begins. */
  lemma PausedAfterOwner(limits: Thresholds) returns (run: seq<Action>)
    ensures OnlyCalls(run, CALLS) && forall a :: a in run ==> !a.MonitorStep?
    ensures After(limits, run) == State(MARKED_FIRST.(owner := Some("b")), Writes(SECOND)[1..], ReadAlerted,
                                        limits.stall + 1, FRESH)
  {
    run := Do(limits, [], Begin(FIRST), CALLS);
    WholeCall(limits, After(limits, run), "a", "x", 1, 0, true);
    run := WriteTimes(limits, run, 6);
    run := Do(limits, run, Begin(SECOND), CALLS);
    run := Do(limits, run, DaemonStep, CALLS);
    run := Do(limits, run, Tick(limits.stall + 1), CALLS);
  }

  /** Daemon steps only. */
  lemma {:induction false} WriteTimes(limits: Thresholds, run: seq<Action>, n: nat) returns (next: seq<Action>)
    requires OnlyCalls(run, CALLS) && forall a :: a in run ==> !a.MonitorStep?
    ensures OnlyCalls(next, CALLS) && forall a :: a in next ==> !a.MonitorStep?
    ensures After(limits, next) == Times(limits, After(limits, run), DaemonStep, n)
  {
    next := run;
    if n > 0 {
      next := WriteTimes(limits, run, n - 1);
      next := Do(limits, next, DaemonStep, CALLS);
    }
  }
}
