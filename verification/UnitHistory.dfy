/** What the history of a finished work unit says about each issue, read off the replies it got.
    Models the order of effects in _run_work_unit of src/baton_harness/chain/daemon/work_unit.py,
    _launch_one_issue of launch_gate.py, _run_ci_gate of gh_api_helpers.py and park_issue of park.py. */
module UnitHistory {
  import opened Prelude
  import opened Dag
  import opened Labels
  import opened Tracing
  import opened Parking
  import opened CiGate
  import opened Outcomes
  import opened WorkUnits
  import Failures
  import Redispatch

  /** Everything about a handled issue stands in one piece from `at` on: what comes before it is settled, then the
      settlement `told`. */
  lemma StoryStands(rec: Recovery, replies: Issue -> Replies, endings: map<Issue, Ending>, atLimit: iset<Issue>,
                    trace: seq<Event>, n: Issue) returns (at: nat, told: seq<Event>)
    requires Narrated(rec, replies, endings, atLimit, trace) && n in endings
    ensures var e, r := endings[n], replies(n);
            var before := Opening(rec, n, e.breached, r);
            && Ends(rec, n, e.fate, n in atLimit, Loud(rec, n, e.breached, r), r, told)
            && at + |before| + |told| <= |trace|
            && (forall i :: at <= i < at + |before| ==> trace[i] == before[i - at])
            && (forall i :: at + |before| <= i < at + |before| + |told| ==> trace[i] == told[i - at - |before|])
            && (forall i :: 0 <= i < |trace| && !(at <= i < at + |before| + |told|) ==> trace[i].issue != n)
  {
    hide Ends, Opening, Loud;
    var e, r := endings[n], replies(n);
    var before, story := Opening(rec, n, e.breached, r), About(trace, n);
    told :| Ends(rec, n, e.fate, n in atLimit, Loud(rec, n, e.breached, r), r, told) && story == before + told;
    at :| StandsAt(trace, story, at);
    NothingElse(trace, n, at);
    forall i | at <= i < at + |story| ensures trace[i] == story[i - at] {
      assert trace[at..at + |story|][i - at] == trace[i];
    }
  }

  /** What happens to an issue before it is settled, in full: nothing when recovery has a place for it, an alert when
      its window is breached, and otherwise each label edit and the launch as far as the checks let it come. */
  lemma OpeningIs(rec: Recovery, n: Issue, breached: bool, r: Replies)
    ensures Opening(rec, n, breached, r) ==
            if n in rec.done || n in rec.parkedSeed || n in rec.ciGateReentry then []
            else if breached then [Alert(n)]
            else
              (if n in rec.redispatch then [Relabel(n, LabelEdit([], [AgentInProgress]))] else [])
              + if r.preLabels.None?
                   || (AgentReady in r.preLabels.value && {Blocked, AgentFailed} * r.preLabels.value != {})
                then []
                else
                  [Relabel(n, LabelEdit([AgentInProgress], [AgentReady]))]
                  + if !r.issueFetched || !r.preflightReady then []
                    else if r.launch.LaunchRefused?
                    then [Relabel(n, LabelEdit([AgentReady], [AgentInProgress])), Alert(n)]
                    else
                      [Launch(n)]
                      + if r.launch.Finished? && r.prFound && r.postLabels.Some?
                           && r.postLabels.value * {AgentReady, AgentDone, Blocked, AgentFailed} == {}
                        then [Relabel(n, LabelEdit([AgentDone], [AgentInProgress]))] else []
  {
  }

  // ----- Launches -----

  /** In the history of a finished unit exactly the issues that were due a launch were launched, each once, right after
      its start edit and after every blocker was merged. */
  lemma LaunchedInOrder(g: Graph, rec: Recovery, replies: Issue -> Replies, looping: set<Issue>, atLimit: iset<Issue>,
                        endings: map<Issue, Ending>, result: UnitResult, trace: seq<Event>, n: Issue) returns (at: nat)
    requires result.Ran? && InGoodOrder(g, result.merged, result.parkedReasons, trace)
    requires Recorded(rec, replies, looping, atLimit, endings, result, trace)
    requires n in endings && Launches(rec, n, endings[n].breached, replies(n))
    ensures 0 < at < |trace| && trace[at] == Launch(n)
    ensures trace[at - 1] == Relabel(n, LabelEdit([AgentInProgress], [AgentReady]))
    ensures forall i :: 0 <= i < |trace| && trace[i] == Launch(n) ==> i == at
    ensures forall b :: b in Blockers(g, n) ==> exists j :: 0 <= j < at && trace[j] == Merged(b)
  {
    assert n in LaunchedIn(trace);
    var e :| e in trace && e.Launch? && e.issue == n;
    at :| at < |trace| && trace[at] == e;
    LaunchIsAnnounced(g, trace, at);
    forall i | 0 <= i < |trace| && trace[i] == Launch(n) ensures i == at {
      if i < at { AtMostOnce(g, trace, i, at, n); }
      if at < i { AtMostOnce(g, trace, at, i, n); }
    }
    forall b | b in Blockers(g, n) ensures exists j :: 0 <= j < at && trace[j] == Merged(b) {
      BlockersComeFirst(g, trace, at, b);
    }
  }

  /** A worker that finished without leaving a state label, but with an open pull request, has its labels put right at
      once: the next thing after the launch is an edit that leaves agent-done as the only state label. */
  lemma BackstopIsSent(rec: Recovery, replies: Issue -> Replies, endings: map<Issue, Ending>, atLimit: iset<Issue>,
                       trace: seq<Event>, i: nat, n: Issue) returns (edit: LabelEdit)
    requires Narrated(rec, replies, endings, atLimit, trace) && i < |trace| && trace[i] == Launch(n)
    requires replies(n).launch.Finished? && replies(n).postLabels.Some? && replies(n).prFound
    requires replies(n).postLabels.value * {AgentReady, AgentDone, Blocked, AgentFailed} == {}
    ensures i + 1 < |trace| && trace[i + 1] == Relabel(n, edit)
    ensures var labels := edit.Apply(replies(n).postLabels.value);
            labels * {AgentReady, AgentDone, Blocked, AgentFailed} == {AgentDone} && AgentInProgress !in labels
  {
    var at, told := StoryOfEvent(rec, replies, endings, atLimit, trace, i, n);
    var e, r := endings[n], replies(n);
    var before := Opening(rec, n, e.breached, r);
    EndsDoNotLaunch(rec, n, e.fate, n in atLimit, Loud(rec, n, e.breached, r), r, told);
    var k := i - at;
    LaunchThenBackstop(rec, n, e.breached, r, k);
    edit := Backstop();
    assert trace[i + 1] == before[k + 1];
  }

  /** The story an event belongs to. */
  lemma StoryOfEvent(rec: Recovery, replies: Issue -> Replies, endings: map<Issue, Ending>, atLimit: iset<Issue>,
                     trace: seq<Event>, i: nat, n: Issue) returns (at: nat, told: seq<Event>)
    requires Narrated(rec, replies, endings, atLimit, trace) && i < |trace| && trace[i].issue == n
    ensures n in endings
    ensures var e, r := endings[n], replies(n);
            var before := Opening(rec, n, e.breached, r);
            && Ends(rec, n, e.fate, n in atLimit, Loud(rec, n, e.breached, r), r, told)
            && at <= i < at + |before| + |told| <= |trace|
            && (forall i :: at <= i < at + |before| ==> trace[i] == before[i - at])
            && (forall i :: at + |before| <= i < at + |before| + |told| ==> trace[i] == told[i - at - |before|])
  {
    hide Ends, Opening, Loud;
    UntouchedIsUntold(rec, replies, endings, atLimit, trace, n);
    at, told := StoryStands(rec, replies, endings, atLimit, trace, n);
  }

  /** The history says nothing about an issue that was not handled. */
  lemma UntouchedIsUntold(rec: Recovery, replies: Issue -> Replies, endings: map<Issue, Ending>, atLimit: iset<Issue>,
                          trace: seq<Event>, n: Issue)
    requires Narrated(rec, replies, endings, atLimit, trace)
    ensures n !in endings ==> forall i :: 0 <= i < |trace| ==> trace[i].issue != n
  {
    if n !in endings {
      assert About(trace, n) == [];
      AboutNothing(trace, n);
    }
  }

  lemma EndsDoNotLaunch(rec: Recovery, n: Issue, fate: Fate, last: bool, loud: bool, r: Replies, told: seq<Event>)
    requires Ends(rec, n, fate, last, loud, r, told)
    ensures forall k :: 0 <= k < |told| ==> told[k] != Launch(n)
  {
    hide CalledFor;
  }

  lemma LaunchThenBackstop(rec: Recovery, n: Issue, breached: bool, r: Replies, k: nat)
    requires k < |Opening(rec, n, breached, r)| && Opening(rec, n, breached, r)[k] == Launch(n)
    requires Converges(r)
    ensures k + 1 < |Opening(rec, n, breached, r)| && Opening(rec, n, breached, r)[k + 1] == Relabel(n, Backstop())
  {
  }

  /** An issue whose preflight refused it was never launched, and its start edit is undone at once, with an alert. */
  lemma RefusedIsRestored(rec: Recovery, replies: Issue -> Replies, looping: set<Issue>, endings: map<Issue, Ending>,
                          atLimit: iset<Issue>, result: UnitResult, trace: seq<Event>, n: Issue) returns (at: nat)
    requires result.Ran? && Recorded(rec, replies, looping, atLimit, endings, result, trace)
    requires n in endings && Refuses(rec, n, endings[n].breached, replies(n))
    ensures at + 2 < |trace| && trace[at] == Relabel(n, LabelEdit([AgentInProgress], [AgentReady]))
    ensures trace[at + 1] == Relabel(n, LabelEdit([AgentReady], [AgentInProgress])) && trace[at + 2] == Alert(n)
    ensures n !in LaunchedIn(trace)
  {
    var start, told := StoryStands(rec, replies, endings, atLimit, trace, n);
    var before := Opening(rec, n, endings[n].breached, replies(n));
    var k := |OrphanNotes(rec, n)|;
    assert before[k..] == [Relabel(n, START_EDIT), Relabel(n, REFUSED_EDIT), Alert(n)];
    at := start + k;
    assert trace[start + k] == before[k] && trace[start + (k + 1)] == before[k + 1];
    assert trace[start + (k + 2)] == before[k + 2];
  }

  // ----- Orphans -----

  /** The first thing that happens to an orphan is that agent-in-progress is taken off it, or, when its window is
      breached, an alert. */
  lemma OrphanIsCleared(rec: Recovery, replies: Issue -> Replies, endings: map<Issue, Ending>, atLimit: iset<Issue>,
                        trace: seq<Event>, n: Issue) returns (at: nat)
    requires Narrated(rec, replies, endings, atLimit, trace) && n in endings && n in rec.redispatch
    requires n !in rec.done && n !in rec.parkedSeed && n !in rec.ciGateReentry
    ensures at < |trace| && forall i :: 0 <= i < at ==> trace[i].issue != n
    ensures trace[at] == if endings[n].breached then Alert(n) else Relabel(n, LabelEdit([], [AgentInProgress]))
  {
    var told;
    at, told := StoryStands(rec, replies, endings, atLimit, trace, n);
    assert trace[at + 0] == Opening(rec, n, endings[n].breached, replies(n))[0];
  }

  // ----- Settlements -----

  /** Every issue that was due a park has exactly the one its ending calls for, right after the label edit that treats
      it so; nothing settles or launches the issue afterwards. A park that nobody was told of before sends an alert, and
      any other sends none unless the labels read back break the single-state rule. */
  lemma ParkedAsDue(g: Graph, rec: Recovery, replies: Issue -> Replies, looping: set<Issue>, atLimit: iset<Issue>,
                    endings: map<Issue, Ending>, result: UnitResult, trace: seq<Event>, n: Issue)
      returns (at: nat, edit: LabelEdit)
    requires result.Ran? && InGoodOrder(g, result.merged, result.parkedReasons, trace)
    requires Recorded(rec, replies, looping, atLimit, endings, result, trace)
    requires n in endings && endings[n].fate.FateParked?
    ensures var cls := endings[n].fate.parkClass;
            var exhausted := cls.Charged? && n in atLimit;
            0 < at < |trace| && trace[at] == Parked(n, cls, replies(n).park.before, exhausted)
            && trace[at - 1] == Relabel(n, edit) && TreatsAs(cls, exhausted, replies(n).park.before, edit)
    ensures n !in rec.parkedSeed && !endings[n].breached && !Refuses(rec, n, endings[n].breached, replies(n)) ==>
              at + 1 < |trace| && trace[at + 1] == Alert(n)
    ensures !(n !in rec.parkedSeed && !endings[n].breached && !Refuses(rec, n, endings[n].breached, replies(n)))
            && SingleOrUnread(replies(n).park) ==>
              forall i :: at < i < |trace| ==> trace[i].issue != n
    ensures forall i :: 0 <= i < |trace| && i != at ==> !Settles(trace[i], n)
    ensures forall i :: at < i < |trace| ==> trace[i] != Launch(n)
  {
    hide TreatsAs, Opening, InGoodOrder;
    var start, told := StoryStands(rec, replies, endings, atLimit, trace, n);
    var e, r := endings[n], replies(n);
    var before := Opening(rec, n, e.breached, r);
    edit := ParkStands(rec, n, e.fate, n in atLimit, Loud(rec, n, e.breached, r), r, told);
    at := start + |before| + 1;
    assert trace[start + |before| + 0] == told[0] && trace[start + |before| + 1] == told[1];
    if Loud(rec, n, e.breached, r) { assert trace[start + |before| + 2] == told[2]; }
    SettledOnce(g, result, trace, at, n);
  }

  /** The read-back failed or shows a single state label. */
  ghost predicate SingleOrUnread(park: ParkReplies) {
    park.after.Some? ==> |park.after.value * {AgentReady, AgentDone, Blocked, AgentFailed}| == 1
  }

  lemma ParkStands(rec: Recovery, n: Issue, fate: Fate, last: bool, loud: bool, r: Replies, told: seq<Event>)
      returns (edit: LabelEdit)
    requires Ends(rec, n, fate, last, loud, r, told) && fate.FateParked?
    ensures var exhausted := fate.parkClass.Charged? && last;
            |told| >= 2 && told[0] == Relabel(n, edit)
            && told[1] == Parked(n, fate.parkClass, r.park.before, exhausted)
            && TreatsAs(fate.parkClass, exhausted, r.park.before, edit)
    ensures loud ==> |told| >= 3 && told[2] == Alert(n)
    ensures !loud && SingleOrUnread(r.park) ==> |told| == 2
  {
    if r.park.after.Some? { StatesOf(r.park.after.value); }
    hide TreatsAs;
    var park := Event.Parked(n, fate.parkClass, r.park.before, fate.parkClass.Charged? && last);
    edit :| CalledFor(park, edit) && told == ParkEvents(edit, park, ParkAlerts(n, loud, r.park));
  }

  lemma SettledOnce(g: Graph, result: UnitResult, trace: seq<Event>, at: nat, n: Issue)
    requires result.Ran? && InGoodOrder(g, result.merged, result.parkedReasons, trace)
    requires at < |trace| && Settles(trace[at], n)
    ensures forall i :: 0 <= i < |trace| && i != at ==> !Settles(trace[i], n)
    ensures forall i :: at < i < |trace| ==> trace[i] != Launch(n)
  {
    forall i | 0 <= i < |trace| && i != at ensures !Settles(trace[i], n) && (i > at ==> trace[i] != Launch(n)) {
      if i < at { AtMostOnce(g, trace, i, at, n); } else { AtMostOnce(g, trace, at, i, n); }
    }
  }

  /** Every issue that was due a merge has exactly one; it is right after the edit that takes agent-in-progress and
      agent-done off, unless recovery knew it merged, and then nothing else is said about it. */
  lemma MergedAsDue(g: Graph, rec: Recovery, replies: Issue -> Replies, looping: set<Issue>, atLimit: iset<Issue>,
                    endings: map<Issue, Ending>, result: UnitResult, trace: seq<Event>, n: Issue) returns (at: nat)
    requires result.Ran? && InGoodOrder(g, result.merged, result.parkedReasons, trace)
    requires Recorded(rec, replies, looping, atLimit, endings, result, trace)
    requires n in endings && endings[n].fate.FateMerged?
    ensures at < |trace| && trace[at] == Merged(n)
    ensures n !in rec.done ==> at > 0 && trace[at - 1] == Relabel(n, LabelEdit([], [AgentInProgress, AgentDone]))
    ensures n in rec.done ==> forall i :: 0 <= i < |trace| && i != at ==> trace[i].issue != n
    ensures forall i :: 0 <= i < |trace| && i != at ==> !Settles(trace[i], n)
    ensures forall i :: at < i < |trace| ==> trace[i] != Launch(n)
  {
    hide InGoodOrder, DispatchEvents;
    var start, told := StoryStands(rec, replies, endings, atLimit, trace, n);
    var before := Opening(rec, n, endings[n].breached, replies(n));
    assert told == (if n in rec.done then [] else [Relabel(n, MERGED_EDIT)]) + [Merged(n)];
    at := start + |before| + |told| - 1;
    assert trace[start + |before| + (|told| - 1)] == told[|told| - 1] == Merged(n);
    if n !in rec.done { assert trace[start + |before| + 0] == told[0]; }
    SettledOnce(g, result, trace, at, n);
  }

  // ----- The two tallies -----

  /** Where the failure count of an issue stands after the unit: a gated merge frees it, a charged park adds one or, at
      the limit and with agent-failed confirmed as the only state label, frees it; nothing else moves it. */
  lemma BudgetAfterUnit(rec: Recovery, replies: Issue -> Replies, endings: map<Issue, Ending>,
                        f: Failures.FailureTally, before: seq<Failures.Entry>, n: Issue)
    requires BudgetSettled(rec, replies, endings, f, before)
    ensures var count := Failures.ChargesSinceClear(f.loaded, before, n);
            f.Peek(n) ==
            if n !in endings then count
            else if endings[n].fate.FateMerged? then if n in rec.done then count else 0
            else if !endings[n].fate.parkClass.Charged? then count
            else
              var park := replies(n).park;
              var confirmed := park.accepted && park.after.Some?
                               && park.after.value * {AgentReady, AgentDone, Blocked, AgentFailed} == {AgentFailed};
              if count + 1 >= f.maxCount && confirmed then 0 else count + 1
  {
    assert f.Peek(n) == CountAfter(rec, replies, endings, f.maxCount, n,
                                   Failures.ChargesSinceClear(f.loaded, before, n));
  }

  /** The window tally got one attempt, with the verdict of the ending, for each orphan that was handled afresh, and
      none for any other issue. */
  lemma AttemptsAfterUnit(rec: Recovery, endings: map<Issue, Ending>, t: Redispatch.RedispatchTally,
                          before: seq<Redispatch.Attempt>, tick: int, n: Issue)
    requires WindowSettled(rec, endings, t, before, tick)
    ensures Redispatch.AttemptsOf(t.log[|before|..], n) ==
            if n in endings && n in rec.redispatch && n !in rec.done && n !in rec.parkedSeed && n !in rec.ciGateReentry
            then [Redispatch.Attempt(n, tick, endings[n].breached)] else []
  {
    assert Redispatch.AttemptsOf(t.log[|before|..], n) == AttemptOf(rec, endings, tick, n);
  }
}
