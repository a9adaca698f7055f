/** Merging a green issue branch, with the process liable to be killed between its effects, and what recovery makes of
    the result.
    Models merge_issue_branch and _persist_ci_green of src/baton_harness/chain/merge.py. */
module MergeBranch {
  import opened Prelude
  import opened Labels
  import opened CiGate
  import opened Provenance
  import opened Reconstruction

  /** How one write goes: it lands, it is refused, or the process is killed before it. */
  datatype WriteReply = Accepted | Refused | Killed

  /** How `git merge --no-ff` goes. A branch with nothing to merge is up to date: git succeeds and commits nothing. */
  datatype GitMerge = Committed | UpToDate | Conflict | Died

  datatype MergeReplies = MergeReplies(checkout: bool, merge: GitMerge, labelling: WriteReply, comment: WriteReply)

  /** `Dead` stands for a killed process, `Aborted` for an exception. */
  datatype Ending = Returned(outcome: MergeOutcome) | Aborted | Dead

  /** What recovery can later read: the merges of the feature branch, newest first, and the issue's labels. */
  class Forge {
    var merges: seq<Merge>
    var labels: set<Label>
    var comments: nat

    constructor (merges0: seq<Merge>, labels0: set<Label>)
      ensures merges == merges0 && labels == labels0 && comments == 0
    {
      merges, labels, comments := merges0, labels0, 0;
    }

    /** _persist_ci_green: both writes are tried, each may fail by itself; None when killed. */
    method PersistCiGreen(labelling: WriteReply, comment: WriteReply) returns (persisted: Option<bool>)
      modifies `labels, `comments
      ensures labels == old(labels) + if labelling == Accepted then {AgentMerged} else {}
      ensures comments == old(comments) + if labelling != Killed && comment == Accepted then 1 else 0
      ensures persisted.None? <==> labelling == Killed || comment == Killed
      ensures persisted == Some(true) <==> labelling == Accepted && comment == Accepted
    {
      if labelling == Killed { return None; }
      if labelling == Accepted { labels := labels + {AgentMerged}; }
      if comment == Killed { return None; }
      if comment == Accepted { comments := comments + 1; }
      return Some(labelling == Accepted && comment == Accepted);
    }

    /** merge_issue_branch for an evaluated gate. It commits only into a feature branch and only on green, and labels
        only what git merged. */
    method MergeIssueBranch(m: Merge, ci: CiResult, r: MergeReplies) returns (end: Ending)
      modifies this
      ensures (merges, labels) == AfterRun(old(merges), old(labels), MergeRun(m, ci, r))
      ensures var gitMerged :=
                "feature/" <= m.featureBranch && ci == Green && r.checkout && r.merge in {Committed, UpToDate};
              && merges == (if gitMerged && r.merge == Committed then [m] else []) + old(merges)
              && labels == old(labels) + (if gitMerged && r.labelling == Accepted then {AgentMerged} else {})
              && (end == Returned(MERGED) <==> gitMerged && r.labelling != Killed && r.comment != Killed)
              && comments == old(comments)
                   + if gitMerged && r.labelling != Killed && r.comment == Accepted then 1 else 0
      ensures end == Returned(MERGED) && r.labelling == Accepted ==> AgentMerged in labels
      ensures end == Returned(CI_FAILED) <==> "feature/" <= m.featureBranch && ci == Red
      ensures end == Returned(CI_TIMEOUT) <==> "feature/" <= m.featureBranch && ci == Timeout
      ensures end == Returned(MERGE_CONFLICT) <==>
                "feature/" <= m.featureBranch && ci == Green && r.checkout && r.merge == Conflict
      ensures end == Aborted <==> !("feature/" <= m.featureBranch) || (ci == Green && !r.checkout)
    {
      assert [] + merges == merges && labels + {} == labels;
      if !("feature/" <= m.featureBranch) { return Aborted; }
      if ci == Red { return Returned(CI_FAILED); }
      if ci == Timeout { return Returned(CI_TIMEOUT); }
      if !r.checkout { return Aborted; }
      if r.merge == Died { return Dead; }
      if r.merge == Conflict { return Returned(MERGE_CONFLICT); }
      if r.merge == Committed { merges := [m] + merges; }
      var persisted := PersistCiGreen(r.labelling, r.comment);
      if persisted.None? { return Dead; }
      return Returned(MERGED);
    }
  }

  /** git reports success, so the label and the comment are tried. */
  predicate Persists(m: Merge, ci: CiResult, r: MergeReplies) {
    "feature/" <= m.featureBranch && ci == Green && r.checkout && (r.merge == Committed || r.merge == UpToDate)
  }

  /** The merge commit lands. */
  predicate Lands(m: Merge, ci: CiResult, r: MergeReplies) {
    Persists(m, ci, r) && r.merge == Committed
  }

  /** One run of the merge: what is merged, what CI says and how the effects go. */
  datatype MergeRun = MergeRun(merge: Merge, ci: CiResult, replies: MergeReplies) {
    predicate Commits() { Lands(merge, ci, replies) }
    predicate Labels() { Persists(merge, ci, replies) && replies.labelling == Accepted }
  }

  /** The log and the labels after a run that was cut, refused or completed. */
  function AfterRun(before: seq<Merge>, labels: set<Label>, run: MergeRun): (seq<Merge>, set<Label>) {
    ((if run.Commits() then [run.merge] else []) + before, labels + if run.Labels() then {AgentMerged} else {})
  }

  function AfterRuns(before: seq<Merge>, labels: set<Label>, runs: seq<MergeRun>): (seq<Merge>, set<Label>) {
    if runs == [] then (before, labels)
    else
      var earlier := AfterRuns(before, labels, runs[..|runs| - 1]);
      AfterRun(earlier.0, earlier.1, runs[|runs| - 1])
  }

  /** What recovery gathers about an issue from the log and its labels. */
  function Observed(merges: seq<Merge>, heads: seq<string>, labels: set<Label>): Signals {
    Signals(LogIssues(Trailers, Render(Commits(merges))), heads, _ => labels)
  }

  ghost predicate Merged(merges: seq<Merge>, issue: nat) {
    exists m :: m in merges && m.issue == issue
  }

  ghost predicate AllPrintable(merges: seq<Merge>) {
    forall m :: m in merges ==> m.Printable()
  }

  /** Recovery reads the merged issues off the log. */
  lemma ObservedMerges(merges: seq<Merge>, heads: seq<string>, labels: set<Label>)
    requires AllPrintable(merges)
    ensures forall n: nat :: n in Observed(merges, heads, labels).merges <==> Merged(merges, n)
  {
    MergesRoundTrip(merges);
  }

  /** What one run leaves for recovery, wherever it was cut: the issue is done exactly when a commit of it and the label
      are there, and back in the gate when only a commit is. Other issues read as before. */
  lemma CrashIsRecovered(run: MergeRun, before: seq<Merge>, labels: set<Label>, heads: seq<string>)
    requires run.merge.Printable() && AllPrintable(before)
    ensures var issue, after := run.merge.issue, AfterRun(before, labels, run);
            var s, s0 := Observed(after.0, heads, after.1), Observed(before, heads, labels);
            var committed := run.Commits() || Merged(before, issue);
            (IsDone(s, issue) <==> committed && AgentMerged in after.1)
            && (committed && AgentMerged !in after.1 ==> NeedsGate(s, issue))
            && (!run.Commits() && !run.Labels() ==> (NeedsGate(s, issue) <==> NeedsGate(s0, issue)))
            && (forall n: nat :: n != issue ==> (n in s.merges <==> n in s0.merges))
  {
    var after := AfterRun(before, labels, run);
    assert forall x :: x in after.0 <==> x in before || (run.Commits() && x == run.merge);
    ObservedMerges(after.0, heads, after.1);
    ObservedMerges(before, heads, labels);
  }

  /** So for an issue never merged before, done means that this very run landed both its commit and its label. */
  lemma DoneMeansBothLanded(run: MergeRun, before: seq<Merge>, labels: set<Label>, heads: seq<string>)
    requires run.merge.Printable() && AllPrintable(before)
    requires !Merged(before, run.merge.issue) && AgentMerged !in labels
    ensures var after := AfterRun(before, labels, run);
            IsDone(Observed(after.0, heads, after.1), run.merge.issue) <==> run.Commits() && run.Labels()
  {
    CrashIsRecovered(run, before, labels, heads);
  }

  // ----- Re-entry after cuts -----

  ghost predicate RunsOf(runs: seq<MergeRun>, issue: nat) {
    forall r :: r in runs ==> r.merge.issue == issue && r.merge.Printable()
  }

  lemma {:induction false} EffectsAddUp(before: seq<Merge>, labels: set<Label>, runs: seq<MergeRun>, issue: nat)
    requires RunsOf(runs, issue) && AllPrintable(before)
    ensures var after := AfterRuns(before, labels, runs);
            AllPrintable(after.0)
            && (Merged(after.0, issue) <==> Merged(before, issue) || exists r :: r in runs && r.Commits())
            && (AgentMerged in after.1 <==> AgentMerged in labels || exists r :: r in runs && r.Labels())
  {
    if runs != [] {
      var front, last := runs[..|runs| - 1], runs[|runs| - 1];
      assert forall r :: r in runs <==> r in front || r == last;
      EffectsAddUp(before, labels, front, issue);
      var earlier, after := AfterRuns(before, labels, front), AfterRuns(before, labels, runs);
      assert forall x :: x in after.0 <==> x in earlier.0 || (last.Commits() && x == last.merge);
      if last.Commits() { assert last.merge in after.0; }
    }
  }

  /** After any series of runs, each cut or refused anywhere, the issue is done exactly when some run committed and some
      run labelled it, the same one or not. */
  lemma DoneAfterRuns(before: seq<Merge>, labels: set<Label>, runs: seq<MergeRun>, issue: nat, heads: seq<string>)
    requires RunsOf(runs, issue) && AllPrintable(before)
    ensures var after := AfterRuns(before, labels, runs);
            IsDone(Observed(after.0, heads, after.1), issue) <==>
            (Merged(before, issue) || exists r :: r in runs && r.Commits())
            && (AgentMerged in labels || exists r :: r in runs && r.Labels())
  {
    EffectsAddUp(before, labels, runs, issue);
    var after := AfterRuns(before, labels, runs);
    ObservedMerges(after.0, heads, after.1);
  }

  /** Re-entry converges: however many runs were cut off wherever, one more run on a green gate that git merges, be it
      only to find nothing left to merge, and whose label lands, leaves the issue done exactly when it or an earlier run
      committed. */
  lemma ReentryConverges(before: seq<Merge>, labels: set<Label>, cuts: seq<MergeRun>, last: MergeRun,
                         heads: seq<string>)
    requires RunsOf(cuts + [last], last.merge.issue) && AllPrintable(before)
    requires "feature/" <= last.merge.featureBranch && last.ci == Green && last.replies.checkout
    requires last.replies.merge in {Committed, UpToDate} && last.replies.labelling == Accepted
    ensures var after := AfterRuns(before, labels, cuts + [last]);
            IsDone(Observed(after.0, heads, after.1), last.merge.issue) <==>
            last.replies.merge == Committed || Merged(before, last.merge.issue)
            || exists r :: r in cuts && "feature/" <= r.merge.featureBranch && r.ci == Green && r.replies.checkout
                           && r.replies.merge == Committed
  {
    assert last in cuts + [last];
    assert forall r :: r in cuts + [last] <==> r in cuts || r == last;
    assert forall r: MergeRun :: r.Commits() <==> "feature/" <= r.merge.featureBranch && r.ci == Green
                                                  && r.replies.checkout && r.replies.merge == Committed;
    DoneAfterRuns(before, labels, cuts + [last], last.merge.issue, heads);
  }
}
