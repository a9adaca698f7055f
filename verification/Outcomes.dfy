/** What each issue of a work unit is due, from what recovery found and the world answers, and what a whole unit owes to
    that: its bookkeeping, its launches, its failure budget and its re-dispatch attempts.
    Models the case analysis of _run_work_unit in src/baton_harness/chain/daemon/work_unit.py. */
module Outcomes {
  import opened Prelude
  import opened Dag
  import opened Labels
  import opened Tracing
  import opened Parking
  import opened CiGate
  import opened Failures
  import opened Redispatch
  import Reconstruction

  type Recovery = Reconstruction.Recovery

  datatype MergeReply = MergeRaised | MergeReturned(outcome: MergeOutcome)
  datatype WorkerResult = PrCreated | NoPrCreated
  datatype LaunchReply = LaunchRaised | LaunchRefused | Finished(result: WorkerResult)

  /** Everything the outside world answers while one issue is handled; an issue is handled at most once. */
  datatype Replies = Replies(
    prFound: bool,
    merge: MergeReply,
    tallyPersists: bool,
    resetPersists: bool,
    preLabels: Option<set<Label>>,
    issueFetched: bool,
    preflightReady: bool,
    launch: LaunchReply,
    postLabels: Option<set<Label>>,
    park: ParkReplies)

  datatype Fate = FateMerged | FateParked(parkClass: ParkClass)

  /** Recovery knows the issue, or a human greenlit it. */
  predicate MayActOn(recovery: Recovery, agentReady: set<Issue>, n: Issue) {
    || n in recovery.done || n in recovery.parkedSeed || n in recovery.ciGateReentry || n in recovery.redispatch
    || n in agentReady
  }

  // ----- When an issue gets which treatment, in the terms of the design -----

  /** Re-entry into the CI gate: not confirmed done, not blocked, but a merge or an open pull request was found. */
  ghost predicate Reenters(rec: Recovery, n: Issue) {
    n !in rec.done && n !in rec.parkedSeed && n in rec.ciGateReentry
  }

  ghost predicate Fresh(rec: Recovery, n: Issue) {
    n !in rec.done && n !in rec.parkedSeed && n !in rec.ciGateReentry
  }

  /** A label that forbids dispatch arrived while agent-ready is still there. */
  ghost predicate Excluded(labels: set<Label>) {
    labels * DISPATCH_EXCLUDE_LABELS != {} && AgentReady in labels
  }

  /** The launch gate is entered only for a fresh issue that is no re-dispatch loop, whose labels could be read and do
      not exclude it, that could be fetched, and with the preflight inputs at hand. */
  ghost predicate EntersLaunch(rec: Recovery, n: Issue, breached: bool, r: Replies) {
    && Fresh(rec, n) && !breached
    && r.preLabels.Some? && !Excluded(r.preLabels.value)
    && r.issueFetched && r.preflightReady
  }

  /** And a worker is launched only when the gate's preflight does not refuse. */
  ghost predicate Launches(rec: Recovery, n: Issue, breached: bool, r: Replies) {
    EntersLaunch(rec, n, breached, r) && !r.launch.LaunchRefused?
  }

  ghost predicate Refuses(rec: Recovery, n: Issue, breached: bool, r: Replies) {
    EntersLaunch(rec, n, breached, r) && r.launch.LaunchRefused?
  }

  /** After the worker: not blocked, and either a torn issue without any state label or a single state plus the
      worker's word that it opened a pull request. */
  ghost predicate GateOpen(r: Replies) {
    && r.launch.Finished? && r.postLabels.Some? && Blocked !in r.postLabels.value
    && (StateOf(r.postLabels.value) == {} || (SingleState(r.postLabels.value) && r.launch.result.PrCreated?))
  }

  ghost predicate MergesVia(r: Replies) {
    r.prFound && r.merge == MergeReturned(MERGED)
  }

  /** An issue is merged only on recovered provenance or through a CI gate that reports a merge. */
  ghost predicate ShouldMerge(rec: Recovery, n: Issue, breached: bool, r: Replies) {
    || n in rec.done
    || (Reenters(rec, n) && MergesVia(r))
    || (Launches(rec, n, breached, r) && GateOpen(r) && MergesVia(r))
  }

  /** A charge is taken exactly when a launched worker raised, or ended unblocked in a single state without a
      pull request to gate. */
  ghost predicate ShouldCharge(rec: Recovery, n: Issue, breached: bool, r: Replies) {
    && Launches(rec, n, breached, r)
    && (|| r.launch.LaunchRaised?
        || (&& r.launch.Finished? && r.postLabels.Some? && Blocked !in r.postLabels.value
            && SingleState(r.postLabels.value) && !(r.launch.result.PrCreated? && r.prFound)))
  }

  /** The labels after the worker cannot be trusted and nothing says what they should be. */
  ghost predicate ShouldDistrust(rec: Recovery, n: Issue, breached: bool, r: Replies) {
    && Launches(rec, n, breached, r) && r.launch.Finished?
    && (r.postLabels.None? ||
        (&& !SingleState(r.postLabels.value)
         && !(StateOf(r.postLabels.value) == {} && r.prFound)))
  }

  ghost predicate ShouldSpare(rec: Recovery, n: Issue, breached: bool, r: Replies) {
    || (Reenters(rec, n) && !MergesVia(r))
    || (&& Fresh(rec, n) && !breached
        && (r.preLabels.None? || (!Excluded(r.preLabels.value) && !(r.issueFetched && r.preflightReady))))
  }

  ghost function FateOf(rec: Recovery, n: Issue, breached: bool, r: Replies): Fate {
    if ShouldMerge(rec, n, breached, r) then FateMerged
    else FateParked(
      if ShouldCharge(rec, n, breached, r) then ParkClass.Charged
      else if Fresh(rec, n) && breached then Terminal
      else if ShouldDistrust(rec, n, breached, r) then UnknownState
      else if ShouldSpare(rec, n, breached, r) then Uncharged
      else StateIntact)
  }

  /** The same as one cascade, in the order in which the loop asks its questions. */
  lemma FateInOrder(rec: Recovery, n: Issue, breached: bool, r: Replies)
    ensures FateOf(rec, n, breached, r) ==
            if n in rec.done then FateMerged
            else if n in rec.parkedSeed then FateParked(StateIntact)
            else if n in rec.ciGateReentry then
              if r.prFound && r.merge == MergeReturned(MERGED) then FateMerged else FateParked(Uncharged)
            else if breached then FateParked(Terminal)
            else if r.preLabels.None? then FateParked(Uncharged)
            else if AgentReady in r.preLabels.value && {Blocked, AgentFailed} * r.preLabels.value != {}
            then FateParked(StateIntact)
            else if !r.issueFetched || !r.preflightReady then FateParked(Uncharged)
            else if r.launch.LaunchRaised? then FateParked(ParkClass.Charged)
            else if r.launch.LaunchRefused? then FateParked(StateIntact)
            else if r.postLabels.None? then FateParked(UnknownState)
            else FateAfterWorker(r.launch.result, r.postLabels.value, r.prFound, r.merge)
  {
    if r.postLabels.Some? { StatesOf(r.postLabels.value); }
  }

  /** The outcome protocol for a worker that finished, by the labels it left. */
  ghost function FateAfterWorker(result: WorkerResult, labels: set<Label>, prFound: bool, merge: MergeReply): Fate {
    var states := labels * {AgentReady, AgentDone, Blocked, AgentFailed};
    var gated := if merge == MergeReturned(MERGED) then FateMerged else FateParked(StateIntact);
    if states == {} then if prFound then gated else FateParked(UnknownState)
    else if |states| > 1 then FateParked(UnknownState)
    else if states == {Blocked} then FateParked(StateIntact)
    else if result.PrCreated? && prFound then gated
    else FateParked(ParkClass.Charged)
  }

  lemma StatesOf(labels: set<Label>)
    ensures SingleState(labels) <==> |StateOf(labels)| == 1
    ensures SingleState(labels) ==> (Blocked in labels <==> StateOf(labels) == {Blocked})
    ensures StateOf(labels) == {} ==> Blocked !in labels
    ensures StateOf(labels) == {} <==> |StateOf(labels)| == 0
  {
    assert Blocked in labels ==> Blocked in StateOf(labels);
    if |StateOf(labels)| == 1 { SingletonHasOne(StateOf(labels)); }
  }

  /** The budget entries one handled issue leaves: a charge, freed at once when agent-failed is confirmed, or a
      reset after a gated merge. */
  ghost function BudgetEntries(rec: Recovery, n: Issue, fate: Fate, count: int, maxCount: int, r: Replies)
      : seq<Entry> {
    match fate
    case FateMerged => if n in rec.done then [] else [Entry.Cleared(n)]
    case FateParked(Charged) =>
      [Entry.Charged(n, count + 1, count + 1 >= maxCount)]
      + (if count + 1 >= maxCount && ConfirmsFailed(r.park) then [Entry.Cleared(n)] else [])
    case FateParked(_) => []
  }

  // ----- What a whole unit owes to its endings -----

  /** How a handled issue ended, and whether its re-dispatch window was found breached. */
  datatype Ending = Ending(breached: bool, fate: Fate)

  /** A crash orphan to be dispatched again. */
  ghost predicate Retried(rec: Recovery, n: Issue) {
    Fresh(rec, n) && n in rec.redispatch
  }

  /** Every ending is the one the design calls for; `looping` holds the orphans that would breach their window. */
  ghost predicate Deserved(rec: Recovery, replies: Issue -> Replies, looping: set<Issue>,
                           endings: map<Issue, Ending>) {
    forall n :: n in endings ==>
      endings[n] == Ending(n in looping, FateOf(rec, n, n in looping, replies(n)))
  }

  /** The bookkeeping is the endings, read by kind. */
  ghost predicate Booked(endings: map<Issue, Ending>, done: set<Issue>, parkedRoots: set<Issue>) {
    (forall n :: n in done <==> n in endings && endings[n].fate.FateMerged?)
    && (forall n :: n in parkedRoots <==> n in endings && endings[n].fate.FateParked?)
  }

  lemma EndOne(rec: Recovery, replies: Issue -> Replies, looping: set<Issue>, endings: map<Issue, Ending>,
               done: set<Issue>, parkedRoots: set<Issue>, n: Issue, e: Ending)
    requires Deserved(rec, replies, looping, endings) && Booked(endings, done, parkedRoots)
    requires n !in done && n !in parkedRoots
    requires e == Ending(n in looping, FateOf(rec, n, n in looping, replies(n)))
    ensures n !in endings && Deserved(rec, replies, looping, endings[n := e])
    ensures e.fate.FateMerged? ==> Booked(endings[n := e], done + {n}, parkedRoots)
    ensures e.fate.FateParked? ==> Booked(endings[n := e], done, parkedRoots + {n})
  {
  }

  /** The issues whose worker was launched. */
  ghost function Launched(rec: Recovery, replies: Issue -> Replies, endings: map<Issue, Ending>): set<Issue> {
    set n | n in endings && Launches(rec, n, endings[n].breached, replies(n))
  }

  lemma LaunchOne(rec: Recovery, replies: Issue -> Replies, endings: map<Issue, Ending>, n: Issue, e: Ending)
    requires n !in endings
    ensures Launched(rec, replies, endings[n := e])
            == Launched(rec, replies, endings) + if Launches(rec, n, e.breached, replies(n)) then {n} else {}
  {
  }

  // ----- What the history says about a handled issue -----

  /** A finished worker left no state label but an open pull request. */
  ghost predicate Converges(r: Replies) {
    r.launch.Finished? && r.postLabels.Some? && StateOf(r.postLabels.value) == {} && r.prFound
  }

  /** What the launch gate leaves. */
  ghost function LaunchNotes(n: Issue, r: Replies): seq<Event> {
    if r.launch.LaunchRefused? then [Relabel(n, REFUSED_EDIT), Alert(n)] else [Launch(n)]
  }

  /** From the launch gate to the CI gate. */
  ghost function GateEvents(n: Issue, r: Replies): seq<Event> {
    LaunchNotes(n, r) + if Converges(r) then [Relabel(n, Backstop())] else []
  }

  ghost function OrphanNotes(rec: Recovery, n: Issue): seq<Event> {
    if n in rec.redispatch then [Relabel(n, CLEARED_EDIT)] else []
  }

  ghost function DispatchEvents(n: Issue, r: Replies): seq<Event> {
    if r.preLabels.None? || Excluded(r.preLabels.value) then []
    else [Relabel(n, START_EDIT)] + if r.issueFetched && r.preflightReady then GateEvents(n, r) else []
  }

  /** Everything before the issue is settled. */
  ghost function Opening(rec: Recovery, n: Issue, breached: bool, r: Replies): seq<Event> {
    if !Fresh(rec, n) then []
    else if breached then [Alert(n)]
    else OrphanNotes(rec, n) + DispatchEvents(n, r)
  }

  /** A park alerts by itself, unless recovery found the issue blocked or the alert was sent before. */
  ghost predicate Loud(rec: Recovery, n: Issue, breached: bool, r: Replies) {
    n !in rec.parkedSeed && !breached && !Refuses(rec, n, breached, r)
  }

  /** The events that settle an issue: the merge with its label edit, or the park right after its own; `last` says that
      a charge would exhaust the budget. */
  ghost predicate Ends(rec: Recovery, n: Issue, fate: Fate, last: bool, loud: bool, r: Replies, told: seq<Event>) {
    match fate
    case FateMerged => told == (if n in rec.done then [] else [Relabel(n, MERGED_EDIT)]) + [Merged(n)]
    case FateParked(cls) =>
      var park := Event.Parked(n, cls, r.park.before, cls.Charged? && last);
      exists edit {:trigger CalledFor(park, edit)} ::
        CalledFor(park, edit) && told == ParkEvents(edit, park, ParkAlerts(n, loud, r.park))
  }

  ghost predicate IsStory(rec: Recovery, n: Issue, e: Ending, last: bool, r: Replies, story: seq<Event>) {
    exists told {:trigger Ends(rec, n, e.fate, last, Loud(rec, n, e.breached, r), r, told)} ::
      Ends(rec, n, e.fate, last, Loud(rec, n, e.breached, r), r, told)
      && story == Opening(rec, n, e.breached, r) + told
  }

  lemma EndsAreAbout(rec: Recovery, n: Issue, fate: Fate, last: bool, loud: bool, r: Replies, told: seq<Event>)
    requires Ends(rec, n, fate, last, loud, r, told)
    ensures AllAbout(told, n)
  {
    hide CalledFor;
  }

  lemma OpeningIsAbout(rec: Recovery, n: Issue, breached: bool, r: Replies)
    ensures AllAbout(Opening(rec, n, breached, r), n)
  {
  }

  /** The history tells of every handled issue its story, in one piece, and of no other issue anything; one more charge
      exhausts the budgets of the issues in `atLimit`. */
  ghost predicate Narrated(rec: Recovery, replies: Issue -> Replies, endings: map<Issue, Ending>, atLimit: iset<Issue>,
                           trace: seq<Event>) {
    forall n {:trigger About(trace, n)} ::
      if n in endings
      then IsStory(rec, n, endings[n], n in atLimit, replies(n), About(trace, n)) && InOnePiece(trace, About(trace, n))
      else About(trace, n) == []
  }

  lemma NarrateOne(rec: Recovery, replies: Issue -> Replies, endings: map<Issue, Ending>, atLimit: iset<Issue>,
                   trace: seq<Event>, n: Issue, e: Ending, told: seq<Event>)
    requires Narrated(rec, replies, endings, atLimit, trace) && n !in endings
    requires Ends(rec, n, e.fate, n in atLimit, Loud(rec, n, e.breached, replies(n)), replies(n), told)
    ensures Narrated(rec, replies, endings[n := e], atLimit,
                     trace + Opening(rec, n, e.breached, replies(n)) + told)
  {
    hide Ends, Opening, Loud, InOnePiece;
    var story := Opening(rec, n, e.breached, replies(n)) + told;
    OpeningIsAbout(rec, n, e.breached, replies(n));
    EndsAreAbout(rec, n, e.fate, n in atLimit, Loud(rec, n, e.breached, replies(n)), replies(n), told);
    assert trace + Opening(rec, n, e.breached, replies(n)) + told == trace + story;
    assert IsStory(rec, n, e, n in atLimit, replies(n), story);
    forall m ensures if m in endings[n := e]
                     then IsStory(rec, m, endings[n := e][m], m in atLimit, replies(m), About(trace + story, m))
                          && InOnePiece(trace + story, About(trace + story, m))
                     else About(trace + story, m) == []
    {
      AboutAppend(trace, story, m);
      AboutOne(story, n, m);
      assert About(trace + story, m) == if n == m then story else About(trace, m);
      PieceStays(trace, story, About(trace, m));
    }
  }

  /** The count of an issue not handled yet is where the unit found it. */
  lemma CountUntouched(rec: Recovery, replies: Issue -> Replies, endings: map<Issue, Ending>, maxCount: int,
                       loaded: map<Issue, int>, before: seq<Entry>, entries: seq<Entry>, n: Issue)
    requires Budgeted(rec, replies, endings, maxCount, loaded, before, entries) && n !in endings
    ensures ChargesSinceClear(loaded, before + entries, n) == ChargesSinceClear(loaded, before, n)
  {
    CountMovesOn(loaded, before, entries, n);
    assert EntriesOf(entries, n) == [];
  }

  /** What a handled issue left in the failure budget, given where its count stood. */
  ghost function BudgetOf(rec: Recovery, replies: Issue -> Replies, endings: map<Issue, Ending>, maxCount: int,
                          n: Issue, count: int): seq<Entry> {
    if n in endings then BudgetEntries(rec, n, endings[n].fate, count, maxCount, replies(n)) else []
  }

  /** The unit's entries are, issue by issue, exactly what the endings leave: no charge too many, no clear too few. */
  ghost predicate Budgeted(rec: Recovery, replies: Issue -> Replies, endings: map<Issue, Ending>, maxCount: int,
                           loaded: map<Issue, int>, before: seq<Entry>, entries: seq<Entry>) {
    forall n {:trigger EntriesOf(entries, n)} ::
      EntriesOf(entries, n) == BudgetOf(rec, replies, endings, maxCount, n, ChargesSinceClear(loaded, before, n))
  }

  lemma BudgetEntriesAreOfOne(rec: Recovery, n: Issue, fate: Fate, count: int, maxCount: int, r: Replies, m: Issue)
    ensures EntriesOf(BudgetEntries(rec, n, fate, count, maxCount, r), m)
            == if m == n then BudgetEntries(rec, n, fate, count, maxCount, r) else []
  {
    var es := BudgetEntries(rec, n, fate, count, maxCount, r);
    if |es| == 1 {
      assert es[..0] == [] && EntriesOf(es[..0], m) == [];
    } else if |es| == 2 {
      assert es[..1][..0] == [] && EntriesOf(es[..1][..0], m) == [];
      assert EntriesOf(es[..1], m) == if m == n then [es[0]] else [];
    }
  }

  lemma BudgetOne(rec: Recovery, replies: Issue -> Replies, endings: map<Issue, Ending>, maxCount: int,
                  loaded: map<Issue, int>, before: seq<Entry>, entries: seq<Entry>, n: Issue, e: Ending)
    requires Budgeted(rec, replies, endings, maxCount, loaded, before, entries) && n !in endings
    ensures var count := ChargesSinceClear(loaded, before + entries, n);
            Budgeted(rec, replies, endings[n := e], maxCount, loaded, before,
                     entries + BudgetEntries(rec, n, e.fate, count, maxCount, replies(n)))
  {
    var count := ChargesSinceClear(loaded, before + entries, n);
    var more := BudgetEntries(rec, n, e.fate, count, maxCount, replies(n));
    CountMovesOn(loaded, before, entries, n);
    assert EntriesOf(entries, n) == [];
    forall m ensures EntriesOf(entries + more, m)
        == BudgetOf(rec, replies, endings[n := e], maxCount, m, ChargesSinceClear(loaded, before, m)) {
      EntriesOfAppend(entries, more, m);
      BudgetEntriesAreOfOne(rec, n, e.fate, count, maxCount, replies(n), m);
      assert EntriesOf(entries, m)
          == BudgetOf(rec, replies, endings, maxCount, m, ChargesSinceClear(loaded, before, m));
    }
  }

  /** Where the count of an issue stands after the unit, by how it ended. */
  ghost function CountAfter(rec: Recovery, replies: Issue -> Replies, endings: map<Issue, Ending>, maxCount: int,
                            n: Issue, count: int): int {
    if n !in endings then count
    else match endings[n].fate
      case FateMerged => if n in rec.done then count else 0
      case FateParked(cls) =>
        if !cls.Charged? then count
        else if count + 1 >= maxCount && ConfirmsFailed(replies(n).park) then 0
        else count + 1
  }

  /** A gated merge clears the count; a charged park adds one, or clears it when agent-failed was reached and
      confirmed; nothing else moves it. */
  lemma CountsAreSettled(rec: Recovery, replies: Issue -> Replies, endings: map<Issue, Ending>, maxCount: int,
                         loaded: map<Issue, int>, before: seq<Entry>, entries: seq<Entry>, n: Issue)
    requires Budgeted(rec, replies, endings, maxCount, loaded, before, entries)
    ensures ChargesSinceClear(loaded, before + entries, n)
            == CountAfter(rec, replies, endings, maxCount, n, ChargesSinceClear(loaded, before, n))
  {
    var count := ChargesSinceClear(loaded, before, n);
    CountMovesOn(loaded, before, entries, n);
    assert EntriesOf(entries, n) == BudgetOf(rec, replies, endings, maxCount, n, count);
    if n in endings {
      var es := BudgetEntries(rec, n, endings[n].fate, count, maxCount, replies(n));
      if |es| > 0 { assert es[..|es| - 1] == if |es| == 1 then [] else [es[0]]; }
      if |es| == 1 { assert CountOn(count, []) == count; }
    }
  }

  /** What a handled issue left in the window tally. */
  ghost function AttemptOf(rec: Recovery, endings: map<Issue, Ending>, tick: int, n: Issue): seq<Attempt> {
    if n in endings && Retried(rec, n) then [Attempt(n, tick, endings[n].breached)] else []
  }

  /** The unit's attempts are, issue by issue, one for each orphan it handled, with its verdict. */
  ghost predicate Attempted(rec: Recovery, endings: map<Issue, Ending>, tick: int, attempts: seq<Attempt>) {
    forall n {:trigger AttemptsOf(attempts, n)} :: AttemptsOf(attempts, n) == AttemptOf(rec, endings, tick, n)
  }

  /** `looping` foretells the verdicts still to come. */
  ghost predicate Foretold(rec: Recovery, endings: map<Issue, Ending>, looping: set<Issue>, loaded: map<int, seq<int>>,
                           log: seq<Attempt>, tick: int, window: int, maxCount: int) {
    (forall n :: n in looping ==> Retried(rec, n))
    && (forall n :: Retried(rec, n) && n !in endings ==>
          (n in looping <==> WouldBreach(loaded, log, tick, window, maxCount, n)))
  }

  lemma AttemptOne(rec: Recovery, endings: map<Issue, Ending>, looping: set<Issue>, loaded: map<int, seq<int>>,
                   log: seq<Attempt>, tick: int, window: int, maxCount: int, attempts: seq<Attempt>, n: Issue,
                   e: Ending)
    requires Attempted(rec, endings, tick, attempts) && n !in endings
    requires Foretold(rec, endings, looping, loaded, log, tick, window, maxCount)
    ensures var more := if Retried(rec, n) then [Attempt(n, tick, e.breached)] else [];
            Attempted(rec, endings[n := e], tick, attempts + more)
            && Foretold(rec, endings[n := e], looping, loaded, log + more, tick, window, maxCount)
  {
    var a := Attempt(n, tick, e.breached);
    var more := if Retried(rec, n) then [a] else [];
    assert attempts + [] == attempts && log + [] == log;
    forall m ensures AttemptsOf(attempts + more, m) == AttemptOf(rec, endings[n := e], tick, m) {
      AttemptsAppend(loaded, attempts, a, m);
      assert AttemptsOf(attempts, m) == AttemptOf(rec, endings, tick, m);
    }
    forall m | Retried(rec, m) && m !in endings[n := e]
      ensures m in looping <==> WouldBreach(loaded, log + more, tick, window, maxCount, m) {
      AttemptsAppend(loaded, log, a, m);
    }
  }

  /** The orphans whose next attempt would breach their window. */
  ghost function Looping(rec: Recovery, tally: RedispatchTally?): set<Issue>
    reads tally
  {
    set n | n in rec.redispatch && Fresh(rec, n) && tally != null && tally.Breaches(n)
  }
}
