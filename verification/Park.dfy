/** The parking transition: one label edit, the failure budget, the scheduler and the park reason.
    Models src/baton_harness/chain/daemon/park.py. */
module Parking {
  import opened Prelude
  import opened Dag
  import opened TopologicalSorting
  import opened Scheduling
  import opened Labels
  import opened Tracing
  import Failures

  /** What GitHub and the file system answer during one park: both label reads may fail, the edit may be refused, and
      the tally may not be saved after its charge or its clear. */
  datatype ParkReplies = ParkReplies(
    before: Option<set<Label>>, accepted: bool, after: Option<set<Label>>, chargeSaved: bool, clearSaved: bool)

  /** The state labels an issue ends with when the edit goes through on the labels `now`. */
  ghost function TargetStates(cls: ParkClass, exhausted: bool, before: Option<set<Label>>, now: set<Label>)
      : set<Label>
  {
    match cls
    case Charged => {if exhausted then AgentFailed else AgentReady}
    case Terminal => {AgentFailed}
    case Uncharged => if before.Some? && StateOf(before.value) == {} then {AgentReady} else StateOf(now)
    case StateIntact => StateOf(now)
    case UnknownState => StateOf(now)
  }

  /** The edit does the declared treatment on whatever labels the first read saw, and on any labels
      at all when that read failed; it touches nothing but state labels and agent-in-progress. */
  ghost predicate TreatsAs(cls: ParkClass, exhausted: bool, before: Option<set<Label>>, edit: LabelEdit) {
    && (forall now :: (before.Some? ==> now == before.value) ==>
          StateOf(edit.Apply(now)) == TargetStates(cls, exhausted, before, now))
    && (forall now {:trigger edit.Apply(now)} ::
          edit.Apply(now) - STATE_LABELS == now - STATE_LABELS - {AgentInProgress})
    && (forall l :: l in edit.add ==> l !in edit.remove)
    && NoDup(edit.remove)
  }

  /** What that comes to, class by class: the state labels after the edit. */
  lemma TreatmentIs(cls: ParkClass, exhausted: bool, before: Option<set<Label>>, edit: LabelEdit, now: set<Label>)
    requires TreatsAs(cls, exhausted, before, edit) && (before.Some? ==> now == before.value)
    ensures var states := {AgentReady, AgentDone, Blocked, AgentFailed};
            edit.Apply(now) * states ==
            if (cls.Charged? && exhausted) || cls.Terminal? then {AgentFailed}
            else if cls.Charged? then {AgentReady}
            else if cls.Uncharged? && before.Some? && before.value * states == {} then {AgentReady}
            else now * states
    ensures AgentInProgress !in edit.Apply(now)
    ensures forall l :: l !in {AgentReady, AgentDone, Blocked, AgentFailed, AgentInProgress} ==>
              (l in edit.Apply(now) <==> l in now)
  {
    assert StateOf(edit.Apply(now)) == TargetStates(cls, exhausted, before, now);
    assert edit.Apply(now) - STATE_LABELS == now - STATE_LABELS - {AgentInProgress};
    forall l | l !in STATE_LABELS ensures l in edit.Apply(now) <==> l in now && l != AgentInProgress {
      assert l in edit.Apply(now) <==> l in edit.Apply(now) - STATE_LABELS;
      assert l in now - STATE_LABELS - {AgentInProgress} <==> l in now && l != AgentInProgress;
    }
  }

  lemma OthersStay(edit: LabelEdit, target: Label)
    requires target in STATE_LABELS && edit.add == [target]
    requires forall l :: l in edit.remove ==> l == AgentInProgress || l in STATE_LABELS
    requires AgentInProgress in edit.remove
    ensures forall now {:trigger edit.Apply(now)} ::
              edit.Apply(now) - STATE_LABELS == now - STATE_LABELS - {AgentInProgress}
  {
    forall now ensures edit.Apply(now) - STATE_LABELS == now - STATE_LABELS - {AgentInProgress} {
      forall l ensures l in edit.Apply(now) - STATE_LABELS <==> l in now - STATE_LABELS - {AgentInProgress} {
        edit.InApply(now, l);
      }
    }
  }

  lemma OnlyTargetStays(edit: LabelEdit, target: Label, now: set<Label>)
    requires target in STATE_LABELS && edit.add == [target] && target !in edit.remove
    requires forall l :: l in StateOf(now) && l != target ==> l in edit.remove
    ensures StateOf(edit.Apply(now)) == {target}
  {
    forall l ensures l in StateOf(edit.Apply(now)) <==> l == target {
      edit.InApply(now, l);
      assert l in now && l in STATE_LABELS ==> l in StateOf(now);
    }
  }

  /** Swapping every state label for `target`: `found` is what was read, or every other state label. */
  lemma SwapsState(before: Option<set<Label>>, found: set<Label>, target: Label, edit: LabelEdit)
    requires target in STATE_LABELS && edit.add == [target]
    requires edit.remove == [AgentInProgress] + SortedStateLabels(found - {target})
    requires if before.Some? then found == StateOf(before.value) else found == STATE_LABELS - {target}
    ensures forall now :: (before.Some? ==> now == before.value) ==> StateOf(edit.Apply(now)) == {target}
    ensures forall now {:trigger edit.Apply(now)} ::
              edit.Apply(now) - STATE_LABELS == now - STATE_LABELS - {AgentInProgress}
    ensures target !in edit.remove && NoDup(edit.remove)
  {
    var swapped := StateOf(found - {target});
    assert forall l :: l in edit.remove <==> l == AgentInProgress || l in swapped;
    forall now | before.Some? ==> now == before.value ensures StateOf(edit.Apply(now)) == {target} {
      forall l | l in StateOf(now) && l != target ensures l in edit.remove {
        assert l in swapped;
      }
      OnlyTargetStays(edit, target, now);
    }
    OthersStay(edit, target);
  }

  lemma KeepsState(edit: LabelEdit)
    requires edit == LabelEdit([], [AgentInProgress])
    ensures forall now {:trigger edit.Apply(now)} :: edit.Apply(now) == now - {AgentInProgress}
  {
  }

  /** The label part of park_issue, before the edit is sent. */
  method ParkEdit(cls: ParkClass, exhausted: bool, labels: Option<set<Label>>) returns (edit: LabelEdit)
    ensures TreatsAs(cls, exhausted, labels, edit)
  {
    var add: seq<Label> := [];
    var remove := [AgentInProgress];
    if cls.Charged? {
      var target := if exhausted then AgentFailed else AgentReady;
      add := [target];
      var stateLabels := if labels.Some? then StateOf(labels.value) else STATE_LABELS - {target};
      remove := remove + SortedStateLabels(stateLabels - {target});
      SwapsState(labels, stateLabels, target, LabelEdit(add, remove));
    } else if cls.Terminal? {
      add := [AgentFailed];
      var stateLabels := if labels.Some? then StateOf(labels.value) else STATE_LABELS - {AgentFailed};
      remove := remove + SortedStateLabels(stateLabels - {AgentFailed});
      SwapsState(labels, stateLabels, AgentFailed, LabelEdit(add, remove));
    } else if cls.Uncharged? && labels.Some? && StateOf(labels.value) == {} {
      add := [AgentReady];
      SwapsState(labels, {}, AgentReady, LabelEdit(add, remove));
    } else {
      KeepsState(LabelEdit(add, remove));
    }
    edit := LabelEdit(add, remove);
  }

  /** The bookkeeping of a work unit agrees with itself: done is what was merged, in an order that puts
      blockers first, and parked is exactly everything that depends on an issue with a park reason. */
  ghost predicate Settled(g: Graph, done: set<Issue>, merged: seq<Issue>, parked: set<Issue>, roots: set<Issue>) {
    && done == Elems(merged) && NoDup(merged) && BlockersFirst(g, merged)
    && done !! parked
    && (forall m :: m in parked <==> exists k :: k in roots && DependsOn(g, m, k))
  }

  lemma SettledIsClosed(g: Graph, done: set<Issue>, merged: seq<Issue>, parked: set<Issue>, roots: set<Issue>)
    requires Settled(g, done, merged, parked, roots)
    ensures BlockersFinished(g, done, done) && ClosedUpwards(g, parked)
  {
    forall m, b | m in done && b in Blockers(g, m) ensures b in done {
      var i :| 0 <= i < |merged| && merged[i] == m;
      assert b in merged[..i];
    }
    forall m, b | b in parked && b in Blockers(g, m) ensures m in parked {
      var k :| k in roots && DependsOn(g, b, k);
      DependsOnStep(g, m, b, k);
    }
  }

  lemma ParkSettles(g: Graph, done: set<Issue>, merged: seq<Issue>, parked: set<Issue>, roots: set<Issue>,
                    issue: Issue, after: set<Issue>)
    requires Settled(g, done, merged, parked, roots) && issue !in done
    requires forall m :: m in after <==> m in parked || ReachedBy(g, done + parked, m, issue)
    ensures Settled(g, done, merged, after, roots + {issue}) && issue in after && parked <= after
  {
    SettledIsClosed(g, done, merged, parked, roots);
    ParkingIsExact(g, done, parked, issue);
    DependsOnSelf(g, issue);
    forall m ensures m in after <==> m in parked || DependsOn(g, m, issue) {}
    forall m | m in after ensures m !in done {
      if m !in parked { assert DependsOn(g, m, issue); }
    }
    forall m | m in parked ensures m in after {
      assert m in parked || ReachedBy(g, done + parked, m, issue);
    }
  }

  lemma MergeSettles(g: Graph, done: set<Issue>, merged: seq<Issue>, parked: set<Issue>, roots: set<Issue>,
                     issue: Issue)
    requires Settled(g, done, merged, parked, roots)
    requires issue !in done && issue !in parked && BlockersFinished(g, {issue}, done)
    ensures Settled(g, done + {issue}, merged + [issue], parked, roots)
  {
    var longer := merged + [issue];
    forall i, b | 0 <= i < |longer| && b in Blockers(g, longer[i]) ensures b in longer[..i] {
      if i < |merged| {
        assert b in merged[..i];
        assert longer[..i] == merged[..i];
      } else {
        assert issue in {issue} && b in Elems(merged);
        assert longer[..i] == merged;
      }
    }
  }

  /** The read-back shows agent-failed as the only state label. */
  ghost predicate ConfirmsFailed(replies: ParkReplies) {
    replies.accepted && replies.after.Some? && StateOf(replies.after.value) == {AgentFailed}
  }

  /** One alert for the park detail, one more when the read-back breaks the single-state rule. */
  ghost function ParkAlerts(issue: Issue, hasDetail: bool, replies: ParkReplies): seq<Event> {
    (if hasDetail then [Alert(issue)] else [])
    + (if replies.after.Some? && !SingleState(replies.after.value) then [Alert(issue)] else [])
  }

  /** Every park in a history stands right after the label edit that treats the issue as its class says. */
  ghost predicate Treated(trace: seq<Event>) {
    forall i {:trigger TreatedAt(trace, i)} :: 0 <= i < |trace| && trace[i].Parked? ==> TreatedAt(trace, i)
  }

  ghost predicate TreatedAt(trace: seq<Event>, i: nat)
    requires i < |trace| && trace[i].Parked?
  {
    i > 0 && trace[i - 1].Relabel? && trace[i - 1].issue == trace[i].issue && CalledFor(trace[i], trace[i - 1].edit)
  }

  /** The edit treats the issue as the park says, and only a charged park exhausts a budget. */
  ghost predicate CalledFor(park: Event, edit: LabelEdit)
    requires park.Parked?
  {
    TreatsAs(park.parkClass, park.exhausted, park.read, edit) && (park.exhausted ==> park.parkClass.Charged?)
  }

  lemma TreatedMore(trace: seq<Event>, e: Event)
    requires Treated(trace)
    requires e.Parked? ==>
               trace != [] && trace[|trace| - 1].Relabel? && trace[|trace| - 1].issue == e.issue
               && CalledFor(e, trace[|trace| - 1].edit)
    ensures Treated(trace + [e])
  {
    hide CalledFor;
    forall i | 0 <= i < |trace + [e]| && (trace + [e])[i].Parked? ensures TreatedAt(trace + [e], i) {
      if i < |trace| { assert TreatedAt(trace, i); }
    }
  }

  /** The events of one park. */
  ghost function ParkEvents(edit: LabelEdit, park: Event, alerts: seq<Event>): seq<Event>
    requires park.Parked?
  {
    [Relabel(park.issue, edit)] + [park] + alerts
  }

  lemma {:induction false} ParkIsTold(g: Graph, trace: seq<Event>, edit: LabelEdit, park: Event, alerts: seq<Event>)
    requires park.Parked? && forall i :: 0 <= i < |alerts| ==> alerts[i].Alert?
    ensures var after := trace + ParkEvents(edit, park, alerts);
            && MergedIn(after) == MergedIn(trace)
            && LaunchedIn(after) == LaunchedIn(trace)
            && ParkedIn(after) == ParkedIn(trace) + {park.issue}
            && (Orderly(g, trace) && park.issue !in MergedIn(trace) + ParkedIn(trace) ==> Orderly(g, after))
            && (Treated(trace) && CalledFor(park, edit) ==> Treated(after))
    decreases |alerts|
  {
    hide CalledFor, Orderly, Treated;
    var edited := trace + [Relabel(park.issue, edit)];
    var shelved := edited + [park];
    if alerts == [] {
      OneMore(g, trace, Relabel(park.issue, edit));
      OneMore(g, edited, park);
      if Treated(trace) { TreatedMore(trace, Relabel(park.issue, edit)); }
      if Treated(edited) && CalledFor(park, edit) { TreatedMore(edited, park); }
      assert trace + ParkEvents(edit, park, []) == shelved;
    } else {
      var front, last := alerts[..|alerts| - 1], alerts[|alerts| - 1];
      ParkIsTold(g, trace, edit, park, front);
      var before := trace + ParkEvents(edit, park, front);
      OneMore(g, before, last);
      if Treated(before) { TreatedMore(before, last); }
      assert trace + ParkEvents(edit, park, alerts) == before + [last];
    }
  }

  /** The mutable state of one work unit that parking and the CI gate share. */
  class ParkContext {
    const sched: IssueScheduler
    const failures: Failures.FailureTally?
    var parkedReasons: map<Issue, string>
    var mergedIssues: seq<Issue>
    var live: Option<Issue>
    ghost var trace: seq<Event>

    ghost predicate Valid()
      reads this, sched, sched.sorter, failures
    {
      && sched.Valid() && sched.sorter.prepared
      && (failures != null ==> failures.Valid())
      && Settled(sched.sorter.graph, sched.done, mergedIssues, sched.parked, parkedReasons.Keys)
    }

    constructor (sched0: IssueScheduler, failures0: Failures.FailureTally?)
      requires sched0.Valid() && sched0.sorter.prepared && sched0.done == {} && sched0.parked == {}
      requires failures0 != null ==> failures0.Valid()
      ensures Valid() && sched == sched0 && failures == failures0
      ensures parkedReasons == map[] && mergedIssues == [] && live.None? && trace == []
    {
      sched, failures := sched0, failures0;
      parkedReasons, mergedIssues, live, trace := map[], [], None, [];
    }

    /** The history is orderly and tells the same story as the bookkeeping. */
    ghost predicate Told()
      reads this, sched, sched.sorter
    {
      && Orderly(sched.sorter.graph, trace) && Treated(trace)
      && MergedIn(trace) == sched.done
      && ParkedIn(trace) == parkedReasons.Keys
    }

    method ParkIssue(issue: Issue, cls: ParkClass, reason: string, hasDetail: bool, replies: ParkReplies)
        returns (edit: LabelEdit, exhausted: bool)
      requires Valid() && issue !in sched.done
      modifies this, sched`parked, failures
      ensures Valid()
      ensures TreatsAs(cls, exhausted, replies.before, edit)
      ensures parkedReasons == old(parkedReasons)[issue := reason] && mergedIssues == old(mergedIssues)
      ensures live.None? && issue in sched.parked && old(sched.parked) <= sched.parked
      ensures exhausted <==> cls.Charged? && failures != null
                             && old(failures.Peek(issue)) + 1 >= failures.maxCount
      ensures failures != null ==>
                failures.log == old(failures.log)
                  + (if cls.Charged? then [Failures.Charged(issue, old(failures.Peek(issue)) + 1, exhausted)] else [])
                  + (if exhausted && ConfirmsFailed(replies) then [Failures.Cleared(issue)] else [])
      ensures trace == old(trace) + ParkEvents(edit, Parked(issue, cls, replies.before, exhausted),
                                               ParkAlerts(issue, hasDetail, replies))
      ensures old(Told()) && issue !in old(parkedReasons) ==>
                Told() && LaunchedIn(trace) == LaunchedIn(old(trace))
    {
      hide IssueScheduler.Valid, Failures.FailureTally.Valid, Settled, TreatsAs, Orderly, Treated;
      hide MergedIn, ParkedIn, LaunchedIn;
      exhausted := ChargeBudget(issue, cls, replies.chargeSaved);
      edit := ParkEdit(cls, exhausted, replies.before);
      trace := trace + [Relabel(issue, edit)];
      ghost var park := Parked(issue, cls, replies.before, exhausted);
      Shelve(issue, reason, park);
      VerifyPark(issue, exhausted, hasDetail, replies);
      ParkIsTold(sched.sorter.graph, old(trace), edit, park, ParkAlerts(issue, hasDetail, replies));
    }

    /** Alerts, reads the labels back, and frees the budget once agent-failed is confirmed. */
    method VerifyPark(issue: Issue, exhausted: bool, hasDetail: bool, replies: ParkReplies)
      requires failures != null ==> failures.Valid()
      modifies this`trace, failures
      ensures failures != null ==> failures.Valid()
      ensures failures != null ==>
                failures.log == old(failures.log)
                  + (if exhausted && ConfirmsFailed(replies) then [Failures.Cleared(issue)] else [])
      ensures trace == old(trace) + ParkAlerts(issue, hasDetail, replies)
      ensures failures != null ==>
                (failures.log != old(failures.log) <==>
                 exhausted && replies.accepted && replies.after.Some?
                 && replies.after.value * {AgentReady, AgentDone, Blocked, AgentFailed} == {AgentFailed})
      ensures |trace| == |old(trace)| + (if hasDetail then 1 else 0)
                + if replies.after.Some? && |replies.after.value * {AgentReady, AgentDone, Blocked, AgentFailed}| != 1
                  then 1 else 0
    {
      if hasDetail { trace := trace + [Alert(issue)]; }
      if replies.after.None? { return; }
      var violation := AssertSingleState(replies.after.value);
      if exhausted && replies.accepted && StateOf(replies.after.value) == {AgentFailed} && failures != null {
        failures.Reset(issue, replies.clearSaved);
      }
      if violation.Some? { trace := trace + [Alert(issue)]; }
    }

    method ChargeBudget(issue: Issue, cls: ParkClass, saved: bool) returns (exhausted: bool)
      requires failures != null ==> failures.Valid()
      modifies failures
      ensures failures != null ==> failures.Valid()
      ensures exhausted <==> cls.Charged? && failures != null
                             && old(failures.Peek(issue)) + 1 >= failures.maxCount
      ensures failures != null ==>
                failures.log == old(failures.log)
                  + (if cls.Charged? then [Failures.Charged(issue, old(failures.Peek(issue)) + 1, exhausted)] else [])
    {
      exhausted := false;
      if cls.Charged? && failures != null {
        var _, reached := failures.RecordAndCheck(issue, saved);
        exhausted := reached;
      }
    }

    /** Clears liveness, parks the issue with its dependents and notes the reason. */
    method Shelve(issue: Issue, reason: string, ghost park: Event)
      requires Valid() && issue !in sched.done && park.Parked? && park.issue == issue
      modifies this, sched`parked
      ensures Valid()
      ensures parkedReasons == old(parkedReasons)[issue := reason] && mergedIssues == old(mergedIssues)
      ensures live.None? && issue in sched.parked && old(sched.parked) <= sched.parked
      ensures trace == old(trace) + [park]
    {
      hide IssueScheduler.Valid, Failures.FailureTally.Valid, Settled;
      live := None;
      ghost var parked0 := sched.parked;
      sched.MarkParked(issue);
      ParkSettles(sched.sorter.graph, sched.done, mergedIssues, parked0, parkedReasons.Keys, issue, sched.parked);
      parkedReasons := parkedReasons[issue := reason];
      assert parkedReasons.Keys == old(parkedReasons).Keys + {issue};
      trace := trace + [park];
    }

    /** The bookkeeping after a merge: agent-in-progress and agent-done go, liveness is cleared, the issue is
        done and its failure budget is free again when `resets`. */
    method RecordMerge(issue: Issue, resets: bool, saved: bool)
      requires Valid() && issue in sched.consumed && issue !in sched.done && issue !in sched.parked
      modifies this, sched`done, sched.sorter, failures
      ensures Valid()
      ensures sched.done == old(sched.done) + {issue} && mergedIssues == old(mergedIssues) + [issue]
      ensures parkedReasons == old(parkedReasons) && live.None?
      ensures failures != null ==>
                failures.log == old(failures.log) + (if resets then [Failures.Cleared(issue)] else [])
      ensures trace == old(trace) + [Relabel(issue, MERGED_EDIT)] + [Merged(issue)]
      ensures old(Told()) ==> Told() && LaunchedIn(trace) == LaunchedIn(old(trace))
    {
      hide IssueScheduler.Valid, Orderly, Treated, Failures.FailureTally.Valid;
      OneMore(sched.sorter.graph, trace, Relabel(issue, MERGED_EDIT));
      if Treated(trace) { TreatedMore(trace, Relabel(issue, MERGED_EDIT)); }
      trace := trace + [Relabel(issue, MERGED_EDIT)];
      live := None;
      MarkMerged(issue);
      if resets && failures != null { failures.Reset(issue, saved); }
    }

    /** mark_done and the merged list, nothing else. */
    method MarkMerged(issue: Issue)
      requires Valid() && issue in sched.consumed && issue !in sched.done && issue !in sched.parked
      modifies this`mergedIssues, this`trace, sched`done, sched.sorter
      ensures Valid()
      ensures sched.done == old(sched.done) + {issue} && mergedIssues == old(mergedIssues) + [issue]
      ensures trace == old(trace) + [Merged(issue)]
      ensures old(Told()) ==> Told() && LaunchedIn(trace) == LaunchedIn(old(trace))
    {
      hide IssueScheduler.Valid, Orderly, Treated, Failures.FailureTally.Valid;
      BlockersOfConsumed(issue);
      NotParkedYet(issue);
      OneMore(sched.sorter.graph, trace, Merged(issue));
      if Treated(trace) { TreatedMore(trace, Merged(issue)); }
      MergeSettles(sched.sorter.graph, sched.done, mergedIssues, sched.parked, parkedReasons.Keys, issue);
      sched.MarkDone(issue);
      mergedIssues := mergedIssues + [issue];
      trace := trace + [Merged(issue)];
    }

    lemma NotParkedYet(issue: Issue)
      requires Valid() && issue !in sched.parked
      ensures issue !in parkedReasons
    {
      DependsOnSelf(sched.sorter.graph, issue);
    }

    lemma BlockersOfConsumed(issue: Issue)
      requires sched.Valid() && issue in sched.consumed
      ensures BlockersFinished(sched.sorter.graph, {issue}, sched.done)
    {
    }

    /** LivenessState.mark_in_progress. */
    method MarkInProgress(issue: Issue)
      requires Valid() && Told()
      modifies this`live
      ensures Valid() && Told() && live == Some(issue)
    {
      live := Some(issue);
    }

    /** Notes an event that settles nothing: a label edit, an alert or a launch. */
    ghost method Note(e: Event)
      requires Valid() && Told() && !e.Merged? && !e.Parked?
      requires e.Launch? ==> MayFollow(sched.sorter.graph, trace, e)
      modifies this`trace
      ensures Valid() && Told() && trace == old(trace) + [e]
      ensures LaunchedIn(trace) == LaunchedIn(old(trace)) + if e.Launch? then {e.issue} else {}
    {
      OneMore(sched.sorter.graph, trace, e);
      TreatedMore(trace, e);
      trace := trace + [e];
    }

    /** The label transition before a launch, with liveness tracking on. */
    method Start(issue: Issue)
      requires Valid() && Told()
      modifies this`live, this`trace
      ensures Valid() && Told() && live == Some(issue)
      ensures trace == old(trace) + [Relabel(issue, START_EDIT)] && LaunchedIn(trace) == LaunchedIn(old(trace))
    {
      Note(Relabel(issue, START_EDIT));
      MarkInProgress(issue);
    }
  }
}
