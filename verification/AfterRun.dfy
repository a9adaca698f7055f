/** The after-run hook: classifying a worker's run and reconciling the issue's labels, with every label edit liable to
    be refused or cut off.
    Models src/baton_harness/after_run.py and the zero-state convergence of
    src/baton_harness/chain/daemon/work_unit.py. */
module AfterRunHook {
  import opened Prelude
  import opened Labels

  datatype RunOutcome =
    | UncommittedChanges | NoCommits | CommittedNoPr | PrOpened | TransientError | WorkerTriedMerge

  // ----- _classify -----

  /** One `gh pr list`: a failure, output that is not JSON, or a number of open pull requests. */
  datatype PrReply = Failed | Garbled | Open(count: nat)

  const MAX_ATTEMPTS: nat := 3

  /** What the worktree and GitHub show; `ahead` is None when `git cherry` fails. */
  datatype Evidence = Evidence(sentinel: bool, dirty: bool, ahead: Option<nat>, prs: nat -> PrReply)

  /** Attempt `k` is the first with a clean reply. */
  ghost predicate Decides(prs: nat -> PrReply, k: nat) {
    k < MAX_ATTEMPTS && prs(k).Open? && forall j: nat :: j < k ==> !prs(j).Open?
  }

  method Classify(e: Evidence) returns (outcome: RunOutcome)
    ensures outcome == WorkerTriedMerge <==> e.sentinel
    ensures outcome == UncommittedChanges <==> !e.sentinel && e.dirty
    ensures outcome == NoCommits <==> !e.sentinel && !e.dirty && e.ahead == Some(0)
    ensures outcome == PrOpened <==>
              !e.sentinel && !e.dirty && e.ahead.Some? && e.ahead.value > 0
              && exists k: nat ::
                   k < 3 && e.prs(k).Open? && e.prs(k).count > 0 && forall j: nat :: j < k ==> !e.prs(j).Open?
    ensures outcome == CommittedNoPr <==>
              !e.sentinel && !e.dirty && e.ahead.Some? && e.ahead.value > 0
              && exists k: nat ::
                   k < 3 && e.prs(k).Open? && e.prs(k).count == 0 && forall j: nat :: j < k ==> !e.prs(j).Open?
  {
    if e.sentinel { return WorkerTriedMerge; }
    if e.dirty { return UncommittedChanges; }
    if e.ahead.None? { return TransientError; }
    if e.ahead.value == 0 { return NoCommits; }
    for attempt := 0 to MAX_ATTEMPTS
      invariant forall j: nat :: j < attempt ==> !e.prs(j).Open?
    {
      var reply := e.prs(attempt);
      if reply.Open? {
        assert Decides(e.prs, attempt);
        assert forall k: nat :: Decides(e.prs, k) ==> k == attempt;
        return if reply.count > 0 then PrOpened else CommittedNoPr;
      }
    }
    return TransientError;
  }

  // ----- The edits of _reconcile_labels -----

  /** The label a settled run ends with, unless the issue was blocked to begin with. */
  function Target(outcome: RunOutcome): Label {
    if outcome == PrOpened then AgentDone else Blocked
  }

  /** The edits of one run on the labels it fetched, in order. */
  function Edits(outcome: RunOutcome, labels: set<Label>): seq<LabelEdit> {
    if outcome == TransientError then []
    else (if AgentReady in labels then [LabelEdit([], [AgentReady])] else [])
         + (if Blocked in labels then [] else [LabelEdit([Target(outcome)], [])])
  }

  function ApplyAll(labels: set<Label>, edits: seq<LabelEdit>): set<Label>
    decreases |edits|
  {
    if edits == [] then labels else ApplyAll(edits[0].Apply(labels), edits[1..])
  }

  /** Labels after a run that was cut off once `k` edits had landed. */
  function Cut(outcome: RunOutcome, labels: set<Label>, k: nat): set<Label> {
    ApplyAll(labels, if k < |Edits(outcome, labels)| then Edits(outcome, labels)[..k] else Edits(outcome, labels))
  }

  function Whole(outcome: RunOutcome, labels: set<Label>): set<Label> {
    ApplyAll(labels, Edits(outcome, labels))
  }

  lemma ApplyOneOrTwo(labels: set<Label>, a: LabelEdit, b: LabelEdit)
    ensures ApplyAll(labels, [a]) == a.Apply(labels)
    ensures ApplyAll(labels, [a, b]) == b.Apply(a.Apply(labels))
  {
    assert [a, b][1..] == [b];
    assert ApplyAll(labels, [a, b]) == ApplyAll(a.Apply(labels), [b]);
    assert ApplyAll(a.Apply(labels), [b]) == b.Apply(a.Apply(labels));
  }

  lemma WholeIs(outcome: RunOutcome, labels: set<Label>)
    ensures outcome == TransientError ==> Whole(outcome, labels) == labels
    ensures outcome != TransientError ==>
              Whole(outcome, labels) == labels - {AgentReady} + if Blocked in labels then {} else {Target(outcome)}
  {
    var drop, add := LabelEdit([], [AgentReady]), LabelEdit([Target(outcome)], []);
    ApplyOneOrTwo(labels, drop, add);
    ApplyOneOrTwo(labels, add, drop);
    assert [drop] + [add] == [drop, add] && [drop] + [] == [drop] && [] + [add] == [add];
    assert drop.Apply(labels) == labels - {AgentReady};
    forall now: set<Label> ensures add.Apply(now) == now + {Target(outcome)} { }
    assert AgentReady !in labels ==> labels - {AgentReady} == labels;
  }

  /** Cut off before the second edit only the removal shows. */
  lemma CutIs(outcome: RunOutcome, labels: set<Label>, k: nat)
    ensures Cut(outcome, labels, k) ==
              if k == 0 || outcome == TransientError then labels
              else if AgentReady in labels && k == 1 then labels - {AgentReady}
              else Whole(outcome, labels)
  {
    var edits := Edits(outcome, labels);
    if k == 0 {
      assert k < |edits| ==> edits[..k] == [];
    } else if outcome != TransientError && AgentReady in labels && k == 1 {
      var drop := LabelEdit([], [AgentReady]);
      ApplyOneOrTwo(labels, drop, drop);
      assert (if k < |edits| then edits[..k] else edits) == [drop];
      assert drop.Apply(labels) == labels - {AgentReady};
    } else {
      assert |edits| <= k;
    }
  }

  // ----- Crash safety -----

  /** Labels after a series of runs with one outcome, each cut off somewhere. */
  function CutRuns(outcome: RunOutcome, labels: set<Label>, cuts: seq<nat>): set<Label>
    decreases |cuts|
  {
    if cuts == [] then labels else CutRuns(outcome, Cut(outcome, labels, cuts[0]), cuts[1..])
  }

  /** However many runs are cut off, wherever, one that completes leaves what a single uninterrupted run leaves. */
  lemma {:induction false} RerunConverges(outcome: RunOutcome, labels: set<Label>, cuts: seq<nat>)
    ensures Whole(outcome, CutRuns(outcome, labels, cuts)) == Whole(outcome, labels)
    decreases |cuts|
  {
    if cuts != [] {
      var cut := Cut(outcome, labels, cuts[0]);
      CutIs(outcome, labels, cuts[0]);
      WholeIs(outcome, labels);
      WholeIs(outcome, cut);
      RerunConverges(outcome, cut, cuts[1..]);
    }
  }

  /** Once any edit has landed the issue is no longer eligible for dispatch. */
  lemma FirstEditRetires(outcome: RunOutcome, labels: set<Label>, k: nat)
    requires k > 0 && Edits(outcome, labels) != []
    ensures AgentReady !in Cut(outcome, labels, k)
  {
    CutIs(outcome, labels, k);
    WholeIs(outcome, labels);
  }

  /** What the labels must be for a completed run to leave one state label. */
  predicate Settles(outcome: RunOutcome, labels: set<Label>) {
    if outcome == TransientError then |StateOf(labels)| == 1
    else if Blocked in labels then AgentDone !in labels && AgentFailed !in labels
    else if outcome == PrOpened then AgentFailed !in labels
    else AgentDone !in labels && AgentFailed !in labels
  }

  /** Exactly then: labels the hook does not own are left standing. */
  lemma SettlesExactly(outcome: RunOutcome, labels: set<Label>)
    ensures SingleState(Whole(outcome, labels)) <==> Settles(outcome, labels)
  {
    WholeIs(outcome, labels);
    var now := Whole(outcome, labels);
    if outcome == TransientError {
      var v := AssertSingleState(labels);
      if SingleState(labels) {
        var l :| StateOf(labels) == {l};
      } else {
        if |StateOf(labels)| == 1 { SingletonHasOne(StateOf(labels)); }
      }
    } else {
      var kept := if Blocked in labels then Blocked else Target(outcome);
      assert kept in StateOf(now);
      if Settles(outcome, labels) {
        assert StateOf(now) == {kept};
      } else {
        var extra := if AgentFailed in labels then AgentFailed else AgentDone;
        assert extra in StateOf(now) && extra != kept;
        forall l ensures StateOf(now) != {l} {
          assert StateOf(now) == {l} ==> kept in {l} && extra in {l};
        }
      }
    }
  }

  /** A stale agent-failed survives a successful run. */
  lemma StaleLabelSurvives()
    ensures StateOf(Whole(PrOpened, {AgentReady, AgentFailed})) == {AgentFailed, AgentDone}
  {
    WholeIs(PrOpened, {AgentReady, AgentFailed});
  }

  // ----- The daemon's backstop -----

  /** The only window that leaves no state label is between the two edits of a run on a lone agent-ready. */
  lemma ZeroStateWindow(outcome: RunOutcome, labels: set<Label>, k: nat)
    requires StateOf(labels) == {AgentReady}
    ensures StateOf(Cut(outcome, labels, k)) == {} <==> k == 1 && outcome != TransientError
  {
    assert AgentReady in StateOf(labels);
    assert forall l :: l in labels && l in STATE_LABELS ==> l in StateOf(labels);
    CutIs(outcome, labels, k);
    WholeIs(outcome, labels);
    if k == 1 && outcome != TransientError {
      assert StateOf(labels - {AgentReady}) == {};
    } else if k == 0 || outcome == TransientError {
      assert AgentReady in StateOf(Cut(outcome, labels, k));
    } else {
      assert Target(outcome) in StateOf(Cut(outcome, labels, k));
    }
  }

  /** An issue without any state label, zero-state cuts among them, is converged to the state a completed successful run
      leaves. */
  lemma BackstopConverges(labels: set<Label>)
    requires StateOf(labels) == {}
    ensures StateOf(Backstop().Apply(labels)) == {AgentDone} == StateOf(Whole(PrOpened, labels))
  {
    forall l ensures l in StateOf(Backstop().Apply(labels)) <==> l == AgentDone {
      Backstop().InApply(labels, l);
      assert l in labels && l in STATE_LABELS ==> l in StateOf(labels);
    }
    WholeIs(PrOpened, labels);
    assert Blocked !in labels by { assert Blocked in labels ==> Blocked in StateOf(labels); }
    forall l ensures l in StateOf(Whole(PrOpened, labels)) <==> l == AgentDone {
      assert l in labels && l in STATE_LABELS ==> l in StateOf(labels);
    }
  }

  // ----- The hook against GitHub -----

  /** How one `gh issue edit` goes: it lands, it is refused, or the process is killed before it. */
  datatype EditReply = Accepted | Refused | Killed

  function Answer(replies: (EditReply, EditReply), k: int): EditReply {
    if k == 0 then replies.0 else replies.1
  }

  /** An issue's labels on GitHub. */
  class Issue {
    var labels: set<Label>

    constructor (initial: set<Label>)
      ensures labels == initial
    {
      labels := initial;
    }

    method Edit(edit: LabelEdit, reply: EditReply) returns (landed: bool)
      modifies this
      ensures landed <==> reply == Accepted
      ensures labels == if reply == Accepted then edit.Apply(old(labels)) else old(labels)
    {
      landed := reply == Accepted;
      if landed { labels := edit.Apply(labels); }
    }

    /** _reconcile_labels: `replies` answers its first and second edit; `code` is None when it was killed. Edits land
        until one is not accepted, and the code says why it stopped there. */
    method Reconcile(outcome: RunOutcome, fetched: bool, replies: (EditReply, EditReply))
        returns (code: Option<int>, ghost landed: nat)
      modifies this
      ensures labels == Cut(outcome, old(labels), landed) && landed <= |Edits(outcome, old(labels))|
      ensures outcome != TransientError && !fetched ==> code == Some(1) && landed == 0
      ensures outcome == TransientError ==> code == Some(0) && labels == old(labels)
      ensures outcome != TransientError && code == Some(0) ==>
                labels == old(labels) - {AgentReady}
                  + if Blocked in old(labels) then {} else {if outcome == PrOpened then AgentDone else Blocked}
      ensures outcome != TransientError && fetched ==>
                (forall k :: 0 <= k < landed ==> Answer(replies, k) == Accepted)
                && (landed < |Edits(outcome, old(labels))| ==> Answer(replies, landed) != Accepted)
                && code == if landed == |Edits(outcome, old(labels))| then Some(0)
                           else if Answer(replies, landed) == Killed then None else Some(1)
    {
      landed := 0;
      CutIs(outcome, labels, 0);
      CutIs(outcome, labels, 1);
      CutIs(outcome, labels, 2);
      WholeIs(outcome, labels);
      if outcome == TransientError { return Some(0), 0; }
      if !fetched { return Some(1), 0; }
      var seen := labels;
      var reply := replies.0;
      if AgentReady in seen {
        var ok := Edit(LabelEdit([], [AgentReady]), reply);
        if !ok { return if reply == Killed then None else Some(1), 0; }
        landed := 1;
        reply := replies.1;
      }
      if Blocked !in seen {
        var ok := Edit(LabelEdit([Target(outcome)], []), reply);
        if !ok { return if reply == Killed then None else Some(1), landed; }
        landed := landed + 1;
      }
      return Some(0), landed;
    }

    /** main: a transient outcome fails the hook although the labels are left alone. */
    method RunHook(e: Evidence, fetched: bool, replies: (EditReply, EditReply))
        returns (code: Option<int>, outcome: RunOutcome, ghost landed: nat)
      modifies this
      ensures labels == Cut(outcome, old(labels), landed)
      ensures code == Some(0) ==> outcome != TransientError && labels == Whole(outcome, old(labels))
      ensures outcome == TransientError ==> code == Some(1) && labels == old(labels)
    {
      outcome := Classify(e);
      code, landed := Reconcile(outcome, fetched, replies);
      if code == Some(0) && outcome == TransientError { code := Some(1); }
    }
  }
}
