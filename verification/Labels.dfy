/** State labels, the single-state checker and label edits.
    Models src/baton_harness/chain/labels.py and the effect of a label edit on an issue. */
module Labels {
  import opened Prelude

  /** The label names the daemon and its hooks know, and any other label. */
  datatype Label =
    | AgentReady
    | AgentDone
    | Blocked
    | AgentFailed
    | AgentInProgress
    | AgentMerged
    | Other(name: string)

  const STATE_LABELS: set<Label> := {AgentReady, AgentDone, Blocked, AgentFailed}
  const DISPATCH_EXCLUDE_LABELS: set<Label> := {Blocked, AgentFailed}

  function StateOf(labels: set<Label>): set<Label> {
    labels * STATE_LABELS
  }

  ghost predicate SingleState(labels: set<Label>) {
    exists l :: StateOf(labels) == {l}
  }

  datatype Violation = NoStateLabel | ManyStateLabels(found: set<Label>)

  /** assert_single_state: no violation exactly when one state label is present. */
  function AssertSingleState(labels: set<Label>): (v: Option<Violation>)
    ensures v.None? <==> SingleState(labels)
    ensures v.None? <==> |labels * {AgentReady, AgentDone, Blocked, AgentFailed}| == 1
    ensures v == Some(NoStateLabel) <==> forall l :: l in labels ==> l !in STATE_LABELS
  {
    var found := StateOf(labels);
    if |found| == 1 then
      SingletonHasOne(found);
      None
    else if |found| == 0 then
      assert found == {};
      assert forall l :: l in labels && l in STATE_LABELS ==> l in found;
      Some(NoStateLabel)
    else
      Some(ManyStateLabels(found))
  }

  lemma SingletonHasOne<T>(s: set<T>)
    requires |s| == 1
    ensures exists x :: s == {x}
  {
    if forall x :: x !in s { assert false; }
    var x :| x in s;
    assert |s - {x}| == 0;
    assert s == {x};
  }

  /** target_state_from_observed: a block wins over an open pull request. */
  function TargetStateFromObserved(blocked: bool, prOpen: bool): (target: Label)
    ensures target in STATE_LABELS && target != AgentFailed
    ensures blocked <==> target == Blocked
    ensures target == AgentDone <==> prOpen && !blocked
  {
    if blocked then Blocked else if prOpen then AgentDone else AgentReady
  }

  /** One `gh issue edit` call. */
  datatype LabelEdit = LabelEdit(add: seq<Label>, remove: seq<Label>) {
    function Apply(labels: set<Label>): set<Label> {
      (labels - (set l | l in remove)) + (set l | l in add)
    }

    lemma InApply(labels: set<Label>, l: Label)
      ensures l in Apply(labels) <==> l in add || (l in labels && l !in remove)
    {
    }
  }

  /** The edit that converges an issue found with no state label and an open pull request. */
  function Backstop(): LabelEdit {
    LabelEdit([TargetStateFromObserved(false, true)], [AgentInProgress])
  }

  /** `sorted(labels & STATE_LABELS)`, in the alphabetical order of the label names. */
  function SortedStateLabels(labels: set<Label>): (r: seq<Label>)
    ensures forall l :: l in r <==> l in StateOf(labels)
    ensures forall i, j :: 0 <= i < j < |r| ==> r[i] != r[j]
  {
    (if AgentDone in labels then [AgentDone] else [])
    + (if AgentFailed in labels then [AgentFailed] else [])
    + (if AgentReady in labels then [AgentReady] else [])
    + (if Blocked in labels then [Blocked] else [])
  }
}
