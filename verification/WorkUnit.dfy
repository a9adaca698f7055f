/** One work unit: the dispatch-and-merge loop over the dependency graph.
    Models Step 0 and Step 2 of _run_work_unit in src/baton_harness/chain/daemon/work_unit.py and _run_ci_gate in
    src/baton_harness/chain/daemon/gh_api_helpers.py; every gh and git call is replaced by its answer. */
module WorkUnits {
  import opened Prelude
  import opened Dag
  import opened TopologicalSorting
  import opened Scheduling
  import opened Labels
  import opened Tracing
  import opened Parking
  import opened CiGate
  import opened Outcomes
  import Failures
  import Reconstruction
  import Redispatch

  // ----- The branches around a launch -----

  datatype Plan = ParkAs(parkClass: ParkClass, reason: string, alerts: bool) | Gate(converges: bool)

  ghost function GateFate(r: Replies): Fate {
    if r.merge == MergeReturned(MERGED) then FateMerged else FateParked(StateIntact)
  }

  /** The checks before a launch. `started` says whether the start edit was sent before the refusal. */
  method PlanDispatch(ghost rec: Recovery, ghost n: Issue, r: Replies) returns (refusal: Option<Plan>, started: bool)
    requires Fresh(rec, n)
    ensures refusal.None? <==> EntersLaunch(rec, n, false, r)
    ensures refusal.Some? ==>
              refusal.value.ParkAs? && FateOf(rec, n, false, r) == FateParked(refusal.value.parkClass)
              && refusal.value.alerts
    ensures started <==> r.preLabels.Some? && !Excluded(r.preLabels.value)
  {
    if r.preLabels.None? {
      return Some(ParkAs(Uncharged, "label fetch failed pre-dispatch", true)), false;
    }
    if DISPATCH_EXCLUDE_LABELS * r.preLabels.value != {} && AgentReady in r.preLabels.value {
      return Some(ParkAs(StateIntact, "exclude label race on final pre-dispatch fetch", true)), false;
    }
    if !r.issueFetched {
      return Some(ParkAs(Uncharged, "issue fetch failed", true)), true;
    }
    if !r.preflightReady {
      return Some(ParkAs(Uncharged, "preflight refused", true)), true;
    }
    return None, true;
  }

  /** The outcome protocol of a launch, single-state backstop included. */
  method PlanAfterLaunch(ghost rec: Recovery, ghost n: Issue, r: Replies) returns (plan: Plan)
    requires EntersLaunch(rec, n, false, r)
    ensures plan.ParkAs? ==> FateOf(rec, n, false, r) == FateParked(plan.parkClass)
    ensures plan.Gate? ==> FateOf(rec, n, false, r) == GateFate(r)
    ensures plan == Gate(true) <==> Converges(r)
    ensures plan.ParkAs? ==> (plan.alerts <==> !r.launch.LaunchRefused?)
    ensures plan.Gate? ==> r.launch.Finished?
  {
    if r.launch.LaunchRaised? { return ParkAs(Charged, "worker exception", true); }
    if r.launch.LaunchRefused? { return ParkAs(StateIntact, "preflight refused", false); }
    if r.postLabels.None? { return ParkAs(UnknownState, "labels unreadable", true); }
    var postLabels := r.postLabels.value;
    var hasBlocked := Blocked in postLabels;
    var violation := AssertSingleState(postLabels);
    BlockedIsAState(postLabels);
    if violation.Some? {
      var present := StateOf(postLabels);
      if present == {} && !hasBlocked {
        if r.prFound { return Gate(true); }
      }
      return ParkAs(UnknownState, "label invariant violation", true);
    }
    if r.launch.result.PrCreated? && !hasBlocked {
      if !r.prFound { return ParkAs(Charged, "pr_created but no PR located", true); }
      return Gate(false);
    }
    if hasBlocked { return ParkAs(StateIntact, "blocked label set", true); }
    return ParkAs(Charged, "no PR created (agent may have failed)", true);
  }

  lemma BlockedIsAState(labels: set<Label>)
    ensures Blocked in labels ==> StateOf(labels) != {}
    ensures SingleState(labels) ==> StateOf(labels) != {}
  {
    if Blocked in labels { assert Blocked in StateOf(labels); }
    if SingleState(labels) {
      var l :| StateOf(labels) == {l};
      assert l in StateOf(labels);
    }
  }

  ghost function BudgetLog(failures: Failures.FailureTally?): seq<Failures.Entry>
    reads failures
  {
    if failures == null then [] else failures.log
  }

  ghost function WindowLog(tally: Redispatch.RedispatchTally?): seq<Redispatch.Attempt>
    reads tally
  {
    if tally == null then [] else tally.log
  }

  /** The issues whose next charge exhausts their budget. */
  ghost function LimitOf(failures: Failures.FailureTally?): iset<Issue>
    reads failures
  {
    iset n | failures != null && failures.Peek(n) + 1 >= failures.maxCount
  }

  ghost function LimitAfter(failures: Failures.FailureTally?, log: seq<Failures.Entry>): iset<Issue> {
    iset n | failures != null && Failures.ChargesSinceClear(failures.loaded, log, n) + 1 >= failures.maxCount
  }

  lemma LimitIsOfHistory(failures: Failures.FailureTally?)
    requires failures != null ==> failures.Valid()
    ensures LimitOf(failures) == LimitAfter(failures, BudgetLog(failures))
  {
    if failures != null {
      forall n ensures n in LimitOf(failures) <==> n in LimitAfter(failures, failures.log) {
        assert failures.Peek(n) == Failures.ChargesSinceClear(failures.loaded, failures.log, n);
      }
    }
  }

  class WorkUnit {
    const ctx: ParkContext
    const redispatch: Redispatch.RedispatchTally?
    const recovery: Recovery
    const agentReady: set<Issue>
    const replies: Issue -> Replies

    var pending: seq<Issue>
    var seen: set<Issue>
    /** The issues ever taken from the front of `pending`. */
    ghost var popped: set<Issue>
    /** How the handled ones ended. */
    ghost var endings: map<Issue, Ending>
    /** The orphans that would breach their window, and the tallies' histories, when the unit began. */
    ghost const looping: set<Issue>
    ghost const budget0: seq<Failures.Entry>
    ghost const window0: seq<Redispatch.Attempt>
    ghost const tick0: int

    ghost predicate Valid()
      reads this, ctx, ctx.sched, ctx.sched.sorter, ctx.failures, redispatch
    {
      && ctx.Valid() && ctx.Told() && ctx.live.None?
      && LaunchedIn(ctx.trace) <= ctx.sched.done + ctx.parkedReasons.Keys
      && (redispatch != null ==> redispatch.Valid())
    }

    constructor (ctx0: ParkContext, redispatch0: Redispatch.RedispatchTally?, recovery0: Recovery,
                 agentReady0: set<Issue>, replies0: Issue -> Replies)
      ensures ctx == ctx0 && redispatch == redispatch0 && recovery == recovery0
      ensures agentReady == agentReady0 && replies == replies0 && pending == [] && seen == {} && popped == {}
      ensures endings == map[] && looping == Looping(recovery, redispatch)
      ensures budget0 == BudgetLog(ctx.failures) && window0 == WindowLog(redispatch)
      ensures redispatch != null ==> tick0 == redispatch.tick
    {
      ctx, redispatch, recovery, agentReady, replies := ctx0, redispatch0, recovery0, agentReady0, replies0;
      pending, seen, popped, endings := [], {}, {}, map[];
      looping := Looping(recovery0, redispatch0);
      budget0, window0 := BudgetLog(ctx0.failures), WindowLog(redispatch0);
      tick0 := if redispatch0 == null then 0 else redispatch0.tick;
    }

    /** `n` was handed out and is not settled yet. */
    ghost predicate Open(n: Issue)
      reads ctx, ctx.sched
    {
      n in ctx.sched.consumed && n !in ctx.sched.done && n !in ctx.sched.parked
    }

    twostate predicate SettledAs(n: Issue, fate: Fate)
      reads ctx, ctx.sched
    {
      match fate
      case FateMerged =>
        && ctx.sched.done == old(ctx.sched.done) + {n} && ctx.mergedIssues == old(ctx.mergedIssues) + [n]
        && ctx.sched.parked == old(ctx.sched.parked) && ctx.parkedReasons == old(ctx.parkedReasons)
      case FateParked(_) =>
        && ctx.sched.done == old(ctx.sched.done) && ctx.mergedIssues == old(ctx.mergedIssues)
        && n in ctx.sched.parked && old(ctx.sched.parked) <= ctx.sched.parked
        && ctx.parkedReasons.Keys == old(ctx.parkedReasons).Keys + {n}
    }

    /** One more charge would exhaust the budget of the issue. */
    ghost predicate NearLimit(n: Issue)
      reads ctx.failures
    {
      ctx.failures != null && ctx.failures.Peek(n) + 1 >= ctx.failures.maxCount
    }

    /** The history has grown by `before` and by `told`, which settles the issue. */
    twostate predicate Narrates(n: Issue, before: seq<Event>, fate: Fate, loud: bool, told: seq<Event>)
      reads ctx, ctx.failures
    {
      Extends(old(ctx.trace), before, told, ctx.trace)
      && Ends(recovery, n, fate, old(NearLimit(n)), loud, replies(n), told)
    }

    method Park(n: Issue, cls: ParkClass, reason: string, hasDetail: bool) returns (fate: Fate, ghost told: seq<Event>)
      requires ctx.Valid() && ctx.Told() && Open(n)
      modifies ctx, ctx.sched`parked, ctx.failures
      ensures fate == FateParked(cls) && SettledAs(n, fate)
      ensures Narrates(n, [], fate, hasDetail, told)
      ensures ctx.Valid() && ctx.Told() && ctx.live.None?
      ensures LaunchedIn(ctx.trace) == LaunchedIn(old(ctx.trace))
      ensures ctx.failures != null ==>
                ctx.failures.log == old(ctx.failures.log)
                  + BudgetEntries(recovery, n, fate, old(ctx.failures.Peek(n)), ctx.failures.maxCount, replies(n))
    {
      hide IssueScheduler.Valid, Failures.FailureTally.Valid, Redispatch.RedispatchTally.Valid;
      hide Parking.Settled, Orderly, Treated, MergedIn, ParkedIn, LaunchedIn, TreatsAs;
      ctx.NotParkedYet(n);
      var edit, exhausted := ctx.ParkIssue(n, cls, reason, hasDetail, replies(n).park);
      fate := FateParked(cls);
      told := ParkEvents(edit, Event.Parked(n, cls, replies(n).park.before, exhausted),
                         ParkAlerts(n, hasDetail, replies(n).park));
    }

    /** _run_ci_gate: the terminal bookkeeping shared by the normal and the converged path. */
    method RunCiGate(n: Issue) returns (fate: Fate, ghost told: seq<Event>)
      requires ctx.Valid() && ctx.Told() && Open(n) && n !in recovery.done
      modifies ctx, ctx.sched`parked, ctx.sched`done, ctx.sched.sorter, ctx.failures
      ensures fate == if replies(n).merge == MergeReturned(MERGED) then FateMerged else FateParked(StateIntact)
      ensures SettledAs(n, fate)
      ensures Narrates(n, [], fate, true, told)
      ensures ctx.Valid() && ctx.Told() && ctx.live.None?
      ensures LaunchedIn(ctx.trace) == LaunchedIn(old(ctx.trace))
      ensures ctx.failures != null ==>
                ctx.failures.log == old(ctx.failures.log)
                  + BudgetEntries(recovery, n, fate, old(ctx.failures.Peek(n)), ctx.failures.maxCount, replies(n))
    {
      match replies(n).merge
      case MergeRaised =>
        fate, told := Park(n, StateIntact, "merge exception", true);
      case MergeReturned(outcome) =>
        if outcome == MERGED {
          ctx.RecordMerge(n, true, replies(n).resetPersists);
          fate, told := FateMerged, [Relabel(n, MERGED_EDIT)] + [Merged(n)];
        } else {
          fate, told := Park(n, StateIntact, "CI gate", true);
        }
    }

    /** Re-entry into the CI gate without running a worker. */
    method Reenter(n: Issue) returns (fate: Fate, ghost told: seq<Event>)
      requires ctx.Valid() && ctx.Told() && Open(n) && n !in recovery.done
      modifies ctx, ctx.sched`parked, ctx.sched`done, ctx.sched.sorter, ctx.failures
      ensures fate == if MergesVia(replies(n)) then FateMerged else FateParked(Uncharged)
      ensures SettledAs(n, fate)
      ensures Narrates(n, [], fate, true, told)
      ensures ctx.Valid() && ctx.Told() && ctx.live.None?
      ensures LaunchedIn(ctx.trace) == LaunchedIn(old(ctx.trace))
      ensures ctx.failures != null ==>
                ctx.failures.log == old(ctx.failures.log)
                  + BudgetEntries(recovery, n, fate, old(ctx.failures.Peek(n)), ctx.failures.maxCount, replies(n))
    {
      hide IssueScheduler.Valid, Failures.FailureTally.Valid, Redispatch.RedispatchTally.Valid;
      hide Parking.Settled, Orderly, Treated, MergedIn, ParkedIn;
      if !replies(n).prFound {
        fate, told := Park(n, Uncharged, "ci_gate_reentry: no open PR", true);
        return;
      }
      ctx.MarkInProgress(n);
      match replies(n).merge
      case MergeRaised =>
        fate, told := Park(n, Uncharged, "merge exception (ci_gate)", true);
      case MergeReturned(outcome) =>
        if outcome == MERGED {
          ctx.RecordMerge(n, true, replies(n).resetPersists);
          fate, told := FateMerged, [Relabel(n, MERGED_EDIT)] + [Merged(n)];
        } else {
          fate, told := Park(n, Uncharged, "ci_gate_reentry", true);
        }
    }

    /** The label edit of a plan that converges. */
    ghost function BackstopOf(n: Issue, plan: Plan): seq<Event> {
      if plan.Gate? && plan.converges then [Relabel(n, Backstop())] else []
    }

    /** What a call tells goes on from what was noted before it. */
    lemma Continues(trace: seq<Event>, first: seq<Event>, before: seq<Event>, told: seq<Event>)
      requires Extends(trace + first, before, told, ctx.trace)
      ensures Extends(trace, first + before, told, ctx.trace)
      ensures before == [] ==> Extends(trace, first, told, ctx.trace)
    {
      ExtendsAfter(trace, first, before, told, ctx.trace);
      assert first + [] == first;
    }

    /** Carries out what was planned after a launch. */
    method Conclude(n: Issue, plan: Plan) returns (fate: Fate, ghost told: seq<Event>)
      requires ctx.Valid() && ctx.Told() && Open(n) && n !in recovery.done
      modifies ctx, ctx.sched`parked, ctx.sched`done, ctx.sched.sorter, ctx.failures
      ensures fate == if plan.Gate? then GateFate(replies(n)) else FateParked(plan.parkClass)
      ensures SettledAs(n, fate)
      ensures Narrates(n, BackstopOf(n, plan), fate, plan.ParkAs? ==> plan.alerts, told)
      ensures ctx.Valid() && ctx.Told() && ctx.live.None?
      ensures LaunchedIn(ctx.trace) == LaunchedIn(old(ctx.trace))
      ensures ctx.failures != null ==>
                ctx.failures.log == old(ctx.failures.log)
                  + BudgetEntries(recovery, n, fate, old(ctx.failures.Peek(n)), ctx.failures.maxCount, replies(n))
    {
      hide IssueScheduler.Valid, Failures.FailureTally.Valid, Redispatch.RedispatchTally.Valid;
      hide Parking.Settled, Orderly, Treated, MergedIn, ParkedIn, Ends, Extends;
      if plan.ParkAs? {
        fate, told := Park(n, plan.parkClass, plan.reason, plan.alerts);
        return;
      }
      ghost var trace0 := ctx.trace;
      assert trace0 + [] == trace0;
      if plan.converges { ctx.Note(Relabel(n, Backstop())); }
      fate, told := RunCiGate(n);
      Continues(trace0, BackstopOf(n, plan), [], told);
    }

    /** Fresh dispatch: the last checks, the start edit, the launch and what comes of it. */
    method Dispatch(n: Issue)
        returns (fate: Fate, ghost launched: bool, ghost told: seq<Event>)
      requires ctx.Valid() && ctx.Told() && Open(n) && Fresh(recovery, n) && n !in LaunchedIn(ctx.trace)
      modifies ctx, ctx.sched`parked, ctx.sched`done, ctx.sched.sorter, ctx.failures
      ensures fate == FateOf(recovery, n, false, replies(n)) && SettledAs(n, fate)
      ensures Narrates(n, DispatchEvents(n, replies(n)), fate, Loud(recovery, n, false, replies(n)), told)
      ensures ctx.Valid() && ctx.Told() && ctx.live.None?
      ensures launched <==> Launches(recovery, n, false, replies(n))
      ensures LaunchedIn(ctx.trace) == LaunchedIn(old(ctx.trace)) + if launched then {n} else {}
      ensures ctx.failures != null ==>
                ctx.failures.log == old(ctx.failures.log)
                  + BudgetEntries(recovery, n, fate, old(ctx.failures.Peek(n)), ctx.failures.maxCount, replies(n))
    {
      hide IssueScheduler.Valid, Failures.FailureTally.Valid, Redispatch.RedispatchTally.Valid;
      hide Parking.Settled, Orderly, Treated, MergedIn, ParkedIn, Ends, Extends;
      ctx.NotParkedYet(n);
      launched := false;
      var refusal, started := PlanDispatch(recovery, n, replies(n));
      ghost var trace0, announced := ctx.trace, if started then [Relabel(n, START_EDIT)] else [];
      assert trace0 + [] == trace0;
      if started {
        ctx.Start(n);
      }
      if refusal.Some? {
        fate, told := Conclude(n, refusal.value);
        Continues(trace0, announced, [], told);
      } else {
        fate, launched, told := LaunchWorker(n);
        Continues(trace0, announced, GateEvents(n, replies(n)), told);
      }
    }

    /** _launch_one_issue and the outcome protocol: a refused preflight puts agent-ready back and alerts. */
    method LaunchWorker(n: Issue)
        returns (fate: Fate, ghost launched: bool, ghost told: seq<Event>)
      requires ctx.Valid() && ctx.Told() && Open(n) && n !in LaunchedIn(ctx.trace)
      requires ctx.trace != [] && ctx.trace[|ctx.trace| - 1] == Relabel(n, START_EDIT)
      requires EntersLaunch(recovery, n, false, replies(n))
      modifies ctx, ctx.sched`parked, ctx.sched`done, ctx.sched.sorter, ctx.failures
      ensures fate == FateOf(recovery, n, false, replies(n)) && SettledAs(n, fate)
      ensures Narrates(n, GateEvents(n, replies(n)), fate, Loud(recovery, n, false, replies(n)), told)
      ensures ctx.Valid() && ctx.Told() && ctx.live.None?
      ensures launched <==> Launches(recovery, n, false, replies(n))
      ensures LaunchedIn(ctx.trace) == LaunchedIn(old(ctx.trace)) + if launched then {n} else {}
      ensures ctx.failures != null ==>
                ctx.failures.log == old(ctx.failures.log)
                  + BudgetEntries(recovery, n, fate, old(ctx.failures.Peek(n)), ctx.failures.maxCount, replies(n))
    {
      hide IssueScheduler.Valid, Failures.FailureTally.Valid, Redispatch.RedispatchTally.Valid;
      hide Parking.Settled, Orderly, Treated, MergedIn, ParkedIn, LaunchedIn, BudgetEntries, Ends, Extends;
      launched := !replies(n).launch.LaunchRefused?;
      ghost var trace0 := ctx.trace;
      NoteLaunch(n);
      var plan := PlanAfterLaunch(recovery, n, replies(n));
      fate, told := Conclude(n, plan);
      Continues(trace0, LaunchNotes(n, replies(n)), BackstopOf(n, plan), told);
      assert GateEvents(n, replies(n)) == LaunchNotes(n, replies(n)) + BackstopOf(n, plan);
      assert Loud(recovery, n, false, replies(n)) <==> plan.ParkAs? ==> plan.alerts;
    }

    /** What the launch gate leaves in the history. */
    ghost method NoteLaunch(n: Issue)
      requires ctx.Valid() && ctx.Told() && Open(n) && n !in LaunchedIn(ctx.trace)
      requires ctx.trace != [] && ctx.trace[|ctx.trace| - 1] == Relabel(n, START_EDIT)
      modifies ctx`trace
      ensures ctx.Valid() && ctx.Told()
      ensures ctx.trace == old(ctx.trace) + LaunchNotes(n, replies(n))
      ensures LaunchedIn(ctx.trace)
              == LaunchedIn(old(ctx.trace)) + if replies(n).launch.LaunchRefused? then {} else {n}
    {
      hide IssueScheduler.Valid, Failures.FailureTally.Valid, Redispatch.RedispatchTally.Valid;
      hide Parking.Settled, Orderly, Treated, MergedIn, ParkedIn, LaunchedIn;
      if replies(n).launch.LaunchRefused? {
        ctx.Note(Relabel(n, REFUSED_EDIT));
        ctx.Note(Alert(n));
      } else {
        MayLaunch(n);
        ctx.Note(Launch(n));
      }
    }

    lemma MayLaunch(n: Issue)
      requires ctx.Valid() && ctx.Told() && Open(n) && n !in LaunchedIn(ctx.trace)
      requires ctx.trace != [] && ctx.trace[|ctx.trace| - 1] == Relabel(n, START_EDIT)
      ensures MayFollow(ctx.sched.sorter.graph, ctx.trace, Launch(n))
    {
      ctx.BlockersOfConsumed(n);
      ctx.NotParkedYet(n);
    }

    /** One popped issue, from recovery seeding to its settlement. */
    method HandleIssue(n: Issue)
        returns (fate: Fate, ghost breached: bool, ghost launched: bool, ghost told: seq<Event>)
      requires Valid() && Open(n)
      modifies ctx, ctx.sched`parked, ctx.sched`done, ctx.sched.sorter, ctx.failures, redispatch
      ensures Valid() && SettledAs(n, fate)
      ensures Narrates(n, Opening(recovery, n, breached, replies(n)), fate, Loud(recovery, n, breached, replies(n)),
                       told)
      ensures fate == FateOf(recovery, n, breached, replies(n))
      ensures launched <==> Launches(recovery, n, breached, replies(n))
      ensures LaunchedIn(ctx.trace) == LaunchedIn(old(ctx.trace)) + if launched then {n} else {}
      ensures ctx.failures != null ==>
                ctx.failures.log == old(ctx.failures.log)
                  + BudgetEntries(recovery, n, fate, old(ctx.failures.Peek(n)), ctx.failures.maxCount, replies(n))
      ensures redispatch != null ==>
                redispatch.tick == old(redispatch.tick)
                && redispatch.log == old(redispatch.log)
                     + if Retried(recovery, n) then [Redispatch.Attempt(n, redispatch.tick, breached)] else []
      ensures breached == old(WouldLoop(n))
    {
      hide IssueScheduler.Valid, Failures.FailureTally.Valid, Redispatch.RedispatchTally.Valid;
      hide Parking.Settled, Orderly, Treated, MergedIn, ParkedIn, Ends, Extends;
      breached, launched := false, false;
      ctx.NotParkedYet(n);
      if n in recovery.done || n in recovery.parkedSeed || n in recovery.ciGateReentry {
        fate, told := HandleRecovered(n);
      } else {
        fate, breached, launched, told := HandleFresh(n);
      }
    }

    /** Recovery seeding: done, directly blocked, or back into the CI gate. */
    method HandleRecovered(n: Issue) returns (fate: Fate, ghost told: seq<Event>)
      requires ctx.Valid() && ctx.Told() && ctx.live.None? && Open(n) && !Fresh(recovery, n)
      modifies ctx, ctx.sched`parked, ctx.sched`done, ctx.sched.sorter, ctx.failures
      ensures fate == FateOf(recovery, n, false, replies(n)) && SettledAs(n, fate)
      ensures Narrates(n, [], fate, n !in recovery.parkedSeed, told)
      ensures ctx.Valid() && ctx.Told() && ctx.live.None?
      ensures LaunchedIn(ctx.trace) == LaunchedIn(old(ctx.trace))
      ensures ctx.failures != null ==>
                ctx.failures.log == old(ctx.failures.log)
                  + BudgetEntries(recovery, n, fate, old(ctx.failures.Peek(n)), ctx.failures.maxCount, replies(n))
    {
      hide IssueScheduler.Valid, Failures.FailureTally.Valid, Redispatch.RedispatchTally.Valid;
      hide Parking.Settled, Orderly, Treated, MergedIn, ParkedIn;
      if n in recovery.done {
        ctx.MarkMerged(n);
        return FateMerged, [Merged(n)];
      }
      if n in recovery.parkedSeed {
        fate, told := Park(n, StateIntact, "blocked (recovery)", false);
        return;
      }
      fate, told := Reenter(n);
    }

    /** Fresh dispatch, or the re-dispatch of an orphan within its budget. */
    method HandleFresh(n: Issue)
        returns (fate: Fate, ghost breached: bool, ghost launched: bool, ghost told: seq<Event>)
      requires Valid() && Open(n) && Fresh(recovery, n) && n !in LaunchedIn(ctx.trace)
      modifies ctx, ctx.sched`parked, ctx.sched`done, ctx.sched.sorter, ctx.failures, redispatch
      ensures fate == FateOf(recovery, n, breached, replies(n)) && SettledAs(n, fate)
      ensures Narrates(n, Opening(recovery, n, breached, replies(n)), fate, Loud(recovery, n, breached, replies(n)),
                       told)
      ensures ctx.Valid() && ctx.Told() && ctx.live.None? && (redispatch != null ==> redispatch.Valid())
      ensures launched <==> Launches(recovery, n, breached, replies(n))
      ensures LaunchedIn(ctx.trace) == LaunchedIn(old(ctx.trace)) + if launched then {n} else {}
      ensures ctx.failures != null ==>
                ctx.failures.log == old(ctx.failures.log)
                  + BudgetEntries(recovery, n, fate, old(ctx.failures.Peek(n)), ctx.failures.maxCount, replies(n))
      ensures redispatch != null ==>
                redispatch.tick == old(redispatch.tick)
                && redispatch.log == old(redispatch.log)
                     + if n in recovery.redispatch then [Redispatch.Attempt(n, redispatch.tick, breached)] else []
      ensures breached == old(WouldLoop(n))
    {
      var loops := ChecksLoop(n);
      breached := loops;
      fate, launched, told := DispatchUnless(n, loops);
    }

    method DispatchUnless(n: Issue, loops: bool)
        returns (fate: Fate, ghost launched: bool, ghost told: seq<Event>)
      requires ctx.Valid() && ctx.Told() && Open(n) && Fresh(recovery, n) && n !in LaunchedIn(ctx.trace)
      modifies ctx, ctx.sched`parked, ctx.sched`done, ctx.sched.sorter, ctx.failures
      ensures fate == FateOf(recovery, n, loops, replies(n)) && SettledAs(n, fate)
      ensures Narrates(n, Opening(recovery, n, loops, replies(n)), fate, Loud(recovery, n, loops, replies(n)), told)
      ensures ctx.Valid() && ctx.Told() && ctx.live.None?
      ensures launched <==> Launches(recovery, n, loops, replies(n))
      ensures LaunchedIn(ctx.trace) == LaunchedIn(old(ctx.trace)) + if launched then {n} else {}
      ensures ctx.failures != null ==>
                ctx.failures.log == old(ctx.failures.log)
                  + BudgetEntries(recovery, n, fate, old(ctx.failures.Peek(n)), ctx.failures.maxCount, replies(n))
    {
      hide IssueScheduler.Valid, Failures.FailureTally.Valid, Redispatch.RedispatchTally.Valid;
      hide Parking.Settled, Orderly, Treated, MergedIn, ParkedIn, Ends, Extends;
      launched := false;
      if loops {
        fate, told := ParkLooping(n);
      } else {
        ghost var trace0 := ctx.trace;
        ClearOrphan(n);
        fate, launched, told := Dispatch(n);
        Continues(trace0, OrphanNotes(recovery, n), DispatchEvents(n, replies(n)), told);
      }
    }

    /** Takes agent-in-progress off a crash orphan before it is dispatched again. */
    method ClearOrphan(n: Issue)
      requires ctx.Valid() && ctx.Told()
      modifies ctx`trace
      ensures ctx.Valid() && ctx.Told() && LaunchedIn(ctx.trace) == LaunchedIn(old(ctx.trace))
      ensures ctx.trace == old(ctx.trace) + OrphanNotes(recovery, n)
    {
      assert ctx.trace + [] == ctx.trace;
      if n in recovery.redispatch { ctx.Note(Relabel(n, CLEARED_EDIT)); }
    }

    method ParkLooping(n: Issue) returns (fate: Fate, ghost told: seq<Event>)
      requires ctx.Valid() && ctx.Told() && Open(n)
      modifies ctx, ctx.sched`parked, ctx.failures
      ensures fate == FateParked(Terminal) && SettledAs(n, fate)
      ensures Narrates(n, [Alert(n)], fate, false, told)
      ensures ctx.Valid() && ctx.Told() && ctx.live.None?
      ensures LaunchedIn(ctx.trace) == LaunchedIn(old(ctx.trace))
      ensures ctx.failures != null ==> ctx.failures.log == old(ctx.failures.log)
    {
      hide IssueScheduler.Valid, Failures.FailureTally.Valid, Redispatch.RedispatchTally.Valid;
      hide Parking.Settled, Orderly, Treated, MergedIn, ParkedIn, Ends, Extends;
      ghost var trace0 := ctx.trace;
      ctx.Note(Alert(n));
      fate, told := Park(n, Terminal, "redispatch loop", false);
      Continues(trace0, [Alert(n)], [], told);
    }

    /** The issue is an orphan whose next attempt would breach its window. */
    ghost predicate WouldLoop(n: Issue)
      reads redispatch
    {
      redispatch != null && Retried(recovery, n) && redispatch.Breaches(n)
    }

    /** Records a re-dispatch attempt and says whether it breaches the window. */
    method ChecksLoop(n: Issue) returns (loops: bool)
      requires Fresh(recovery, n) && (redispatch != null ==> redispatch.Valid())
      modifies redispatch
      ensures redispatch != null ==>
                redispatch.Valid() && redispatch.tick == old(redispatch.tick)
                && redispatch.log == old(redispatch.log)
                     + if n in recovery.redispatch then [Redispatch.Attempt(n, redispatch.tick, loops)] else []
      ensures loops == old(WouldLoop(n))
    {
      loops := false;
      if n in recovery.redispatch && redispatch != null {
        loops := redispatch.RecordAndCheck(n, replies(n).tallyPersists);
      }
    }

    // ----- The loop -----

    predicate Actionable(n: Issue) {
      MayActOn(recovery, agentReady, n)
    }

    ghost predicate InLoop()
      reads this, ctx, ctx.sched, ctx.sched.sorter, ctx.failures, redispatch
    {
      && Valid()
      && seen == ctx.sched.consumed && ctx.parkedReasons.Keys <= seen
      && NoDup(pending) && Elems(pending) <= seen
      && (forall m :: m in pending ==> m !in ctx.sched.done && m !in ctx.parkedReasons && m !in popped)
      && popped <= seen
      && (forall m :: m in seen ==>
            m in pending || m in ctx.sched.done || m in ctx.sched.parked || !Actionable(m))
    }

    /** The issues that were one charge away from their limit when the unit began. */
    ghost function AtLimit(): iset<Issue> {
      LimitAfter(ctx.failures, budget0)
    }

    /** What the unit has done so far is what its endings call for. */
    ghost predicate OnRecord()
      reads this`endings, ctx`parkedReasons, ctx`trace, ctx.sched`done, ctx.failures, redispatch
    {
      && (forall n :: n in endings ==> Actionable(n))
      && Deserved(recovery, replies, looping, endings)
      && Booked(endings, ctx.sched.done, ctx.parkedReasons.Keys)
      && LaunchedIn(ctx.trace) == Launched(recovery, replies, endings)
      && Narrated(recovery, replies, endings, AtLimit(), ctx.trace)
      && BudgetTold(ctx.failures, BudgetLog(ctx.failures))
      && WindowTold(redispatch, WindowLog(redispatch))
      && (redispatch != null ==> redispatch.tick == tick0)
    }

    ghost predicate BudgetTold(failures: Failures.FailureTally?, log: seq<Failures.Entry>)
      reads this`endings
    {
      budget0 <= log
      && (failures != null ==>
            Budgeted(recovery, replies, endings, failures.maxCount, failures.loaded, budget0, log[|budget0|..]))
    }

    ghost predicate WindowTold(tally: Redispatch.RedispatchTally?, log: seq<Redispatch.Attempt>)
      reads this`endings
    {
      window0 <= log
      && if tally == null then looping == {}
         else
           Attempted(recovery, endings, tick0, log[|window0|..])
           && Foretold(recovery, endings, looping, tally.loaded, log, tick0, tally.windowTicks, tally.maxCount)
    }

    /** `for n in sched.get_ready(): if n not in seen: ...` */
    static method Absorb(ready: set<Issue>, seen0: set<Issue>, pending0: seq<Issue>)
        returns (seen: set<Issue>, pending: seq<Issue>)
      requires NoDup(pending0) && Elems(pending0) <= seen0
      ensures seen == seen0 + ready && NoDup(pending)
      ensures Elems(pending) == Elems(pending0) + (ready - seen0)
      ensures seen == seen0 ==> pending == pending0
    {
      seen, pending := seen0, pending0;
      var rest := ready;
      while rest != {}
        invariant rest <= ready && seen == seen0 + (ready - rest)
        invariant NoDup(pending) && Elems(pending) == Elems(pending0) + (ready - rest - seen0)
        invariant if seen == seen0 then pending == pending0 else exists m :: m in ready && m !in seen0
      {
        var n := AnyOf(rest);
        if n !in seen {
          assert n !in Elems(pending);
          seen := seen + {n};
          pending := pending + [n];
        }
        rest := rest - {n};
      }
    }

    /** Whatever is neither done nor parked waits for an issue nobody may act on. */
    ghost predicate NobodyStuck()
      reads ctx, ctx.sched, ctx.sched.sorter
    {
      forall m :: m in ctx.sched.sorter.graph && m !in ctx.sched.done && m !in ctx.sched.parked ==>
        Waits(ctx.sched.sorter.graph, ctx.sched.done, ctx.sched.parked, IdleIn(ctx.sched.sorter.graph), m)
    }

    /** The per-DAG serial loop. `order` is the topological order the cycle check found. Every pass but the last
        pops an issue never popped before. */
    method Drain(ghost order: seq<Issue>) returns (ghost pops: nat)
      requires InLoop() && OnRecord() && popped == {} && Topological(order)
      modifies this`seen, this`pending, this`popped, this`endings
      modifies ctx, ctx.sched, ctx.sched.sorter, ctx.failures, redispatch
      ensures InLoop() && OnRecord() && NobodyStuck()
      ensures pops == |popped| && popped <= ctx.sched.sorter.graph.Keys
    {
      hide IssueScheduler.Valid, Failures.FailureTally.Valid, Redispatch.RedispatchTally.Valid;
      hide Parking.Settled, Orderly;
      hide Deserved, Booked, Launched, Narrated, Budgeted, Attempted, Foretold;
      pops := 0;
      while ctx.sched.IsActive()
        invariant InLoop() && OnRecord() && pops == |popped| && popped <= ctx.sched.sorter.graph.Keys
        decreases ctx.sched.sorter.graph.Keys - popped
      {
        var idle := Turn(order);
        if idle { return; }
        pops := pops + 1;
      }
    }

    ghost predicate Topological(order: seq<Issue>)
      reads ctx.sched.sorter
    {
      BlockersFirst(ctx.sched.sorter.graph, order) && Elems(order) == ctx.sched.sorter.graph.Keys
    }

    /** One pass through the loop body. */
    method Turn(ghost order: seq<Issue>) returns (idle: bool)
      requires InLoop() && OnRecord() && Topological(order)
      modifies this`seen, this`pending, this`popped, this`endings
      modifies ctx, ctx.sched, ctx.sched.sorter, ctx.failures, redispatch
      ensures InLoop() && OnRecord() && popped <= ctx.sched.sorter.graph.Keys
      ensures if idle then NobodyStuck() && popped == old(popped)
              else exists n :: n !in old(popped) && popped == old(popped) + {n}
    {
      hide IssueScheduler.Valid, Failures.FailureTally.Valid, Redispatch.RedispatchTally.Valid;
      hide Parking.Settled, Orderly;
      hide Deserved, Booked, Launched, Narrated, Budgeted, Attempted, Foretold;
      Refill();
      if pending == [] || !ExistsActionable() {
        FrontierIsIdle(order);
        return true;
      }
      PopFront();
      return false;
    }

    /** `n = pending.pop(0)`, handled when actionable and otherwise left alone for this unit. */
    method PopFront()
      requires InLoop() && OnRecord() && pending != [] && Elems(pending) !! ctx.sched.parked
      modifies this`pending, this`popped, this`endings, ctx, ctx.sched`parked, ctx.sched`done, ctx.sched.sorter,
               ctx.failures, redispatch
      ensures InLoop() && OnRecord()
      ensures exists n :: n !in old(popped) && popped == old(popped) + {n}
    {
      hide IssueScheduler.Valid, Failures.FailureTally.Valid, Redispatch.RedispatchTally.Valid;
      hide Parking.Settled, Orderly;
      hide Deserved, Booked, Launched, Narrated, Budgeted, Attempted, Foretold, FateOf, BudgetEntries, Launches;
      var n := pending[0];
      assert n in Elems(pending);
      assert forall m :: m in pending <==> m == n || m in pending[1..];
      pending := pending[1..];
      popped := popped + {n};
      SettleOrSkip(n);
    }

    method SettleOrSkip(n: Issue)
      requires Valid() && Open(n) && OnRecord() && n !in ctx.parkedReasons.Keys
      modifies this`endings, ctx, ctx.sched`parked, ctx.sched`done, ctx.sched.sorter, ctx.failures, redispatch
      ensures Valid() && OnRecord()
      ensures n in ctx.sched.done || n in ctx.sched.parked || !Actionable(n)
      ensures old(ctx.sched.done) <= ctx.sched.done <= old(ctx.sched.done) + {n}
      ensures old(ctx.sched.parked) <= ctx.sched.parked
      ensures old(ctx.parkedReasons.Keys) <= ctx.parkedReasons.Keys <= old(ctx.parkedReasons.Keys) + {n}
    {
      if Actionable(n) {
        HandleAndBook(n);
      }
    }

    /** Handles an issue and notes how it ended. */
    method HandleAndBook(n: Issue)
      requires Valid() && Open(n) && OnRecord() && Actionable(n) && n !in ctx.parkedReasons
      modifies this`endings, ctx, ctx.sched`parked, ctx.sched`done, ctx.sched.sorter, ctx.failures, redispatch
      ensures Valid() && OnRecord()
      ensures n in ctx.sched.done || n in ctx.sched.parked
      ensures old(ctx.sched.done) <= ctx.sched.done <= old(ctx.sched.done) + {n}
      ensures old(ctx.sched.parked) <= ctx.sched.parked
      ensures old(ctx.parkedReasons.Keys) <= ctx.parkedReasons.Keys <= old(ctx.parkedReasons.Keys) + {n}
    {
      hide IssueScheduler.Valid, Parking.Settled, Orderly, Treated, MergedIn, ParkedIn;
      hide Redispatch.RedispatchTally.Valid, Opening, Ends, Loud;
      hide Deserved, Launched, Narrated, Budgeted, Attempted, Foretold, FateOf, BudgetEntries, Launches;
      ghost var done0, roots0 := ctx.sched.done, ctx.parkedReasons.Keys;
      ghost var spent0, tried0, trace0 := BudgetLog(ctx.failures), WindowLog(redispatch), ctx.trace;
      Foreseen(n);
      var fate, breached, _, told := HandleIssue(n);
      Book(n, Ending(breached, fate), done0, roots0, spent0, tried0, trace0, told);
    }

    lemma Foreseen(n: Issue)
      requires ctx.Valid() && OnRecord() && n !in endings
      ensures n in looping <==> WouldLoop(n)
      ensures n in AtLimit() <==> NearLimit(n)
    {
      hide IssueScheduler.Valid, Parking.Settled, Deserved, Booked, Launched, Budgeted, Attempted, Narrated;
      if ctx.failures != null {
        var f := ctx.failures;
        assert f.log == budget0 + f.log[|budget0|..];
        CountUntouched(recovery, replies, endings, f.maxCount, f.loaded, budget0, f.log[|budget0|..], n);
        assert f.Peek(n) == Failures.ChargesSinceClear(f.loaded, f.log, n);
      }
    }

    /** Notes how an issue ended. */
    ghost method Book(n: Issue, e: Ending, done0: set<Issue>, roots0: set<Issue>, spent0: seq<Failures.Entry>,
                      tried0: seq<Redispatch.Attempt>, trace0: seq<Event>, told: seq<Event>)
      requires Actionable(n) && n !in done0 && n !in roots0 && forall m :: m in endings ==> Actionable(m)
      requires Deserved(recovery, replies, looping, endings) && Booked(endings, done0, roots0)
      requires e == Ending(n in looping, FateOf(recovery, n, n in looping, replies(n)))
      requires e.fate.FateMerged? ==> ctx.sched.done == done0 + {n} && ctx.parkedReasons.Keys == roots0
      requires e.fate.FateParked? ==> ctx.sched.done == done0 && ctx.parkedReasons.Keys == roots0 + {n}
      requires LaunchedIn(ctx.trace) == Launched(recovery, replies, endings)
                                        + if Launches(recovery, n, e.breached, replies(n)) then {n} else {}
      requires Narrated(recovery, replies, endings, AtLimit(), trace0)
      requires ctx.trace == trace0 + Opening(recovery, n, e.breached, replies(n)) + told
      requires Ends(recovery, n, e.fate, n in AtLimit(), Loud(recovery, n, e.breached, replies(n)), replies(n), told)
      requires BudgetTold(ctx.failures, spent0)
      requires if ctx.failures == null then BudgetLog(ctx.failures) == spent0
               else ctx.failures.log == spent0 + BudgetEntries(recovery, n, e.fate,
                      Failures.ChargesSinceClear(ctx.failures.loaded, spent0, n), ctx.failures.maxCount, replies(n))
      requires WindowTold(redispatch, tried0)
      requires if redispatch == null then WindowLog(redispatch) == tried0
               else redispatch.tick == tick0
                    && redispatch.log == tried0
                         + if Retried(recovery, n) then [Redispatch.Attempt(n, tick0, e.breached)] else []
      modifies this`endings
      ensures OnRecord()
    {
      EndOne(recovery, replies, looping, endings, done0, roots0, n, e);
      LaunchOne(recovery, replies, endings, n, e);
      NarrateOne(recovery, replies, endings, AtLimit(), trace0, n, e, told);
      if ctx.failures != null { SpendOne(n, e, spent0); }
      if redispatch != null { TryOne(n, e, tried0); }
      endings := endings[n := e];
    }

    lemma SpendOne(n: Issue, e: Ending, spent0: seq<Failures.Entry>)
      requires BudgetTold(ctx.failures, spent0) && n !in endings && ctx.failures != null
      ensures var f := ctx.failures;
              var count := Failures.ChargesSinceClear(f.loaded, spent0, n);
              var spent := spent0 + BudgetEntries(recovery, n, e.fate, count, f.maxCount, replies(n));
              budget0 <= spent
              && Budgeted(recovery, replies, endings[n := e], f.maxCount, f.loaded, budget0, spent[|budget0|..])
    {
      var f, entries := ctx.failures, spent0[|budget0|..];
      assert spent0 == budget0 + entries;
      BudgetOne(recovery, replies, endings, f.maxCount, f.loaded, budget0, entries, n, e);
      DropKeepsTail(spent0, BudgetEntries(recovery, n, e.fate, Failures.ChargesSinceClear(f.loaded, spent0, n),
                                          f.maxCount, replies(n)), |budget0|);
    }

    lemma TryOne(n: Issue, e: Ending, tried0: seq<Redispatch.Attempt>)
      requires WindowTold(redispatch, tried0) && n !in endings && redispatch != null
      ensures var t := redispatch;
              var tried := tried0 + if Retried(recovery, n) then [Redispatch.Attempt(n, tick0, e.breached)] else [];
              window0 <= tried && Attempted(recovery, endings[n := e], tick0, tried[|window0|..])
              && Foretold(recovery, endings[n := e], looping, t.loaded, tried, tick0, t.windowTicks, t.maxCount)
    {
      var t := redispatch;
      AttemptOne(recovery, endings, looping, t.loaded, tried0, tick0, t.windowTicks, t.maxCount,
                 tried0[|window0|..], n, e);
      DropKeepsTail(tried0, if Retried(recovery, n) then [Redispatch.Attempt(n, tick0, e.breached)] else [], |window0|);
    }

    /** Takes in what became ready and drops what was parked meanwhile. */
    method Refill()
      requires InLoop()
      modifies this`seen, this`pending, ctx.sched`consumed, ctx.sched.sorter
      ensures InLoop() && old(seen) <= seen <= ctx.sched.sorter.graph.Keys && Elems(pending) !! ctx.sched.parked
      ensures Unblocked(ctx.sched.sorter.graph, ctx.sched.consumed, ctx.sched.done) == {}
      ensures seen == old(seen) ==> |pending| <= |old(pending)|
      ensures Elems(pending) <= Elems(old(pending)) + (seen - old(seen))
    {
      hide IssueScheduler.Valid, Failures.FailureTally.Valid, Redispatch.RedispatchTally.Valid;
      hide Parking.Settled, Orderly, Treated, MergedIn, ParkedIn, LaunchedIn, BlockersFinished, MayActOn, Waits;
      UnblockedIsNotParked(ctx.sched.sorter.graph, ctx.sched.done, ctx.mergedIssues, ctx.sched.parked,
                           ctx.parkedReasons.Keys, ctx.sched.consumed);
      WithinGraph();
      AllTakenIn(ctx.sched.sorter.graph, ctx.sched.consumed, ctx.sched.done);
      var ready := ctx.sched.GetReady();
      WithinGraph();
      var seen1, pending1 := Absorb(ready, seen, pending);
      seen := seen1;
      pending := WithoutParked(pending1, ctx.sched.parked);
    }

    lemma WithinGraph()
      requires ctx.sched.Valid()
      ensures ctx.sched.done <= ctx.sched.consumed <= ctx.sched.sorter.graph.Keys
    {
    }

    lemma CountsSettle()
      requires ctx.Valid() && OnRecord()
      ensures ctx.failures != null ==> BudgetSettled(recovery, replies, endings, ctx.failures, budget0)
    {
      if ctx.failures != null {
        var f := ctx.failures;
        assert f.log == budget0 + f.log[|budget0|..];
        forall n ensures f.Peek(n) == CountAfter(recovery, replies, endings, f.maxCount, n,
                                                 Failures.ChargesSinceClear(f.loaded, budget0, n)) {
          CountsAreSettled(recovery, replies, endings, f.maxCount, f.loaded, budget0, f.log[|budget0|..], n);
        }
      }
    }

    lemma IsFinished()
      requires InLoop() && NobodyStuck()
      ensures InGoodOrder(ctx.sched.sorter.graph, ctx.mergedIssues, ctx.parkedReasons, ctx.trace)
      ensures Accounted(ctx.sched.sorter.graph, ctx.mergedIssues, ctx.parkedReasons, IdleIn(ctx.sched.sorter.graph))
    {
      var g := ctx.sched.sorter.graph;
      forall m ensures HeldBack(g, ctx.parkedReasons, m) <==> m in ctx.sched.parked {
        assert m in ctx.sched.parked <==> exists k :: k in ctx.parkedReasons.Keys && DependsOn(g, m, k);
      }
      forall m | m in g && m !in ctx.mergedIssues && !HeldBack(g, ctx.parkedReasons, m)
        ensures exists k :: k in IdleIn(g) && DependsOn(g, m, k)
      {
        assert m !in ctx.sched.done && m !in ctx.sched.parked;
        assert Waits(g, ctx.sched.done, ctx.sched.parked, IdleIn(g), m);
      }
    }

    predicate ExistsActionable()
      reads this
    {
      exists m :: m in pending && Actionable(m)
    }

    ghost function IdleIn(g: Graph): set<Issue> {
      set m | m in g && !Actionable(m)
    }

    lemma FrontierIsIdle(order: seq<Issue>)
      requires InLoop() && Elems(pending) !! ctx.sched.parked && !ExistsActionable()
      requires BlockersFirst(ctx.sched.sorter.graph, order) && Elems(order) == ctx.sched.sorter.graph.Keys
      requires Unblocked(ctx.sched.sorter.graph, ctx.sched.consumed, ctx.sched.done) == {}
      ensures forall m :: m in ctx.sched.sorter.graph && m !in ctx.sched.done && m !in ctx.sched.parked ==>
                Waits(ctx.sched.sorter.graph, ctx.sched.done, ctx.sched.parked, IdleIn(ctx.sched.sorter.graph), m)
    {
      var g := ctx.sched.sorter.graph;
      forall m | m in g && m !in ctx.sched.done && m !in ctx.sched.parked
        ensures Waits(g, ctx.sched.done, ctx.sched.parked, IdleIn(g), m)
      {
        NothingIsStuck(g, order, ctx.sched.done, ctx.mergedIssues, ctx.sched.parked, ctx.parkedReasons.Keys,
                       ctx.sched.consumed, IdleIn(g), m);
      }
    }
  }

  lemma DropKeepsTail<T>(s: seq<T>, t: seq<T>, m: nat)
    requires m <= |s|
    ensures (s + t)[m..] == s[m..] + t
  {
  }

  /** `[n for n in pending if n not in parked]` */
  function WithoutParked(pending: seq<Issue>, parked: set<Issue>): (r: seq<Issue>)
    ensures forall n :: n in r <==> n in pending && n !in parked
    ensures |r| <= |pending| && (NoDup(pending) ==> NoDup(r))
  {
    if pending == [] then []
    else
      var front, last := pending[..|pending| - 1], pending[|pending| - 1];
      assert forall n :: n in pending <==> n in front || n == last;
      if last in parked then WithoutParked(front, parked) else WithoutParked(front, parked) + [last]
  }

  /** Once the unblocked issues are consumed, none is left. */
  lemma AllTakenIn(g: Graph, consumed: set<Issue>, done: set<Issue>)
    ensures Unblocked(g, consumed + Unblocked(g, consumed, done), done) == {}
  {
  }

  /** What newly becomes unblocked is never parked. */
  lemma UnblockedIsNotParked(g: Graph, done: set<Issue>, merged: seq<Issue>, parked: set<Issue>, roots: set<Issue>,
                             consumed: set<Issue>)
    requires Settled(g, done, merged, parked, roots) && roots <= consumed
    ensures Unblocked(g, consumed, done) !! parked
  {
    forall m | m in Unblocked(g, consumed, done) ensures m !in parked {
      assert m in {m} && forall b :: b in Blockers(g, m) ==> b in done;
      if m in parked {
        var k :| k in roots && DependsOn(g, m, k);
        var b := FirstBlocker(g, m, k);
        assert false;
      }
    }
  }

  lemma FirstBlocker(g: Graph, m: Issue, k: Issue) returns (b: Issue)
    requires DependsOn(g, m, k) && m != k
    ensures b in Blockers(g, m) && DependsOn(g, b, k)
  {
    var p :| Chain(g, p) && p[0] == m && p[|p| - 1] == k;
    assert p[0 + 1] in Blockers(g, p[0]);
    ChainSuffix(g, p, 1);
    b := p[1];
  }

  /** An issue that is neither merged nor parked waits for an issue nobody may act on yet. */
  ghost predicate Waits(g: Graph, done: set<Issue>, parked: set<Issue>, idle: set<Issue>, m: Issue) {
    exists k :: k in idle && k !in done && k !in parked && DependsOn(g, m, k)
  }

  /** Nothing gets stuck: once every unblocked issue was handed out and dealt with, whatever is neither done nor
      parked waits, itself or through a chain of blockers, for an issue in `idle`. */
  lemma NothingIsStuck(g: Graph, order: seq<Issue>, done: set<Issue>, merged: seq<Issue>, parked: set<Issue>,
                       roots: set<Issue>, consumed: set<Issue>, idle: set<Issue>, m: Issue)
    requires BlockersFirst(g, order) && Elems(order) == g.Keys
    requires Settled(g, done, merged, parked, roots)
    requires Unblocked(g, consumed, done) == {}
    requires forall k :: k in consumed ==> k in done || k in parked || k in idle
    requires m in g && m !in done && m !in parked
    ensures Waits(g, done, parked, idle, m)
  {
    assert m in Elems(order);
    var at :| 0 <= at < |order| && order[at] == m;
    var low := LowestUnmet(g, order, done, m, at);
    assert low in Elems(order);
    assert low !in Unblocked(g, consumed, done);
    if low in parked {
      SettledIsClosed(g, done, merged, parked, roots);
      var p :| Chain(g, p) && p[0] == m && p[|p| - 1] == low;
      ClosedUnderDependents(g, parked, p);
    }
  }

  datatype UnitResult = CycleFound(cycle: seq<Issue>) | Ran(merged: seq<Issue>, parkedReasons: map<Issue, string>)

  /** Depends on an issue that was parked for a reason of its own. */
  ghost predicate HeldBack(g: Graph, parkedReasons: map<Issue, string>, m: Issue) {
    exists k :: k in parkedReasons && DependsOn(g, m, k)
  }

  /** `agent_ready_issues`, which defaults to the whole membership. */
  function ReadySet(agentReady: Option<set<Issue>>, membership: set<Issue>): set<Issue> {
    if agentReady.Some? then agentReady.value else membership
  }

  /** A finished unit: the merged list is a duplicate-free order that puts blockers first, and it and the park
      reasons are what the orderly history tells, where every park stands right after the edit its class calls for. */
  ghost predicate InGoodOrder(g: Graph, merged: seq<Issue>, parkedReasons: map<Issue, string>, trace: seq<Event>) {
    && NoDup(merged) && BlockersFirst(g, merged)
    && (forall m :: m in merged ==> !HeldBack(g, parkedReasons, m))
    && Orderly(g, trace) && MergedIn(trace) == Elems(merged) && ParkedIn(trace) == parkedReasons.Keys
    && Treated(trace)
  }

  /** Every issue was merged, is held back by a parked issue, or waits for an issue nobody may act on. */
  ghost predicate Accounted(g: Graph, merged: seq<Issue>, parkedReasons: map<Issue, string>, idle: set<Issue>) {
    forall m :: m in g && m !in merged && !HeldBack(g, parkedReasons, m) ==>
      exists k :: k in idle && DependsOn(g, m, k)
  }

  /** Nobody greenlit the issue, and neither the log nor its labels show that it was ever begun or blocked. */
  ghost predicate Untouchable(signals: Reconstruction.Signals, agentReady: set<Issue>, n: Issue) {
    n !in agentReady
    && !Reconstruction.IsDone(signals, n) && !Reconstruction.NeedsGate(signals, n)
    && !Reconstruction.IsHeld(signals, n) && !Reconstruction.IsOrphan(signals, n)
  }

  /** The record of a finished unit: every ending is deserved, and the merged list, the park reasons, the parks and the
      launches in the history are those of the endings. */
  ghost predicate Recorded(rec: Recovery, replies: Issue -> Replies, looping: set<Issue>, atLimit: iset<Issue>,
                           endings: map<Issue, Ending>, result: UnitResult, trace: seq<Event>)
    requires result.Ran?
  {
    && Deserved(rec, replies, looping, endings)
    && Booked(endings, Elems(result.merged), result.parkedReasons.Keys)
    && LaunchedIn(trace) == Launched(rec, replies, endings)
    && Narrated(rec, replies, endings, atLimit, trace)
  }

  /** The failure tally after a unit: its history grew by exactly what the endings leave. */
  ghost predicate BudgetSettled(rec: Recovery, replies: Issue -> Replies, endings: map<Issue, Ending>,
                                f: Failures.FailureTally, before: seq<Failures.Entry>)
    reads f
  {
    && f.Valid() && before <= f.log
    && Budgeted(rec, replies, endings, f.maxCount, f.loaded, before, f.log[|before|..])
    && forall n {:trigger f.Peek(n)} ::
         f.Peek(n) == CountAfter(rec, replies, endings, f.maxCount, n, Failures.ChargesSinceClear(f.loaded, before, n))
  }

  /** The window tally after a unit: one attempt for each orphan that was handled, with its verdict. */
  ghost predicate WindowSettled(rec: Recovery, endings: map<Issue, Ending>, t: Redispatch.RedispatchTally,
                                before: seq<Redispatch.Attempt>, tick: int)
    reads t
  {
    t.Valid() && before <= t.log && t.tick == tick && Attempted(rec, endings, tick, t.log[|before|..])
  }

  /** One run of _run_work_unit up to its completion step: the graph is rejected exactly when it is cyclic, and
      otherwise nothing is left unaccounted for. */
  method RunWorkUnit(membership: set<Issue>, blockedBy: map<Issue, seq<Issue>>, agentReady: Option<set<Issue>>,
                     signals: Reconstruction.Signals, replies: Issue -> Replies,
                     redispatch: Redispatch.RedispatchTally?, failures: Failures.FailureTally?)
      returns (result: UnitResult, ghost g: Graph, ghost trace: seq<Event>, ghost rec: Recovery,
               ghost endings: map<Issue, Ending>)
    requires (redispatch != null ==> redispatch.Valid()) && (failures != null ==> failures.Valid())
    modifies redispatch, failures
    ensures g.Keys == membership
    ensures forall n :: n in membership ==> g[n] == InScope(Blockers(blockedBy, n), membership)
    ensures result.CycleFound? <==> !Acyclic(g)
    ensures result.CycleFound? ==> Cycle(g, result.cycle)
    ensures result.Ran? ==> InGoodOrder(g, result.merged, result.parkedReasons, trace)
    ensures result.Ran? ==>
              Accounted(g, result.merged, result.parkedReasons,
                        set n | n in membership && Untouchable(signals, ReadySet(agentReady, membership), n))
    ensures Reconstruction.Sorts(signals, membership, rec)
    ensures result.Ran? ==>
              Recorded(rec, replies, old(Looping(rec, redispatch)), old(LimitOf(failures)), endings, result, trace)
    ensures result.Ran? && failures != null ==> BudgetSettled(rec, replies, endings, failures, old(failures.log))
    ensures result.Ran? && redispatch != null ==>
              WindowSettled(rec, endings, redispatch, old(redispatch.log), old(redispatch.tick))
    ensures result.CycleFound? ==>
              BudgetLog(failures) == old(BudgetLog(failures)) && WindowLog(redispatch) == old(WindowLog(redispatch))
  {
    var graph := BuildDag(membership, blockedBy);
    g := graph;
    var recovery := Reconstruction.Reconstruct(membership, signals);
    rec := recovery;
    var ready := ReadySet(agentReady, membership);
    result, trace, endings := RunGraph(graph, ready, recovery, replies, redispatch, failures);
    UntouchableIsIdle(signals, membership, recovery, ReadySet(agentReady, membership));
  }

  lemma UntouchableIsIdle(signals: Reconstruction.Signals, membership: set<Issue>, rec: Recovery, ready: set<Issue>)
    requires Reconstruction.Sorts(signals, membership, rec)
    ensures (set n | n in membership && Untouchable(signals, ready, n))
            == set n | n in membership && !MayActOn(rec, ready, n)
  {
  }

  method RunGraph(g: Graph, agentReady: set<Issue>, recovery: Recovery, replies: Issue -> Replies,
                  redispatch: Redispatch.RedispatchTally?, failures: Failures.FailureTally?)
      returns (result: UnitResult, ghost trace: seq<Event>, ghost endings: map<Issue, Ending>)
    requires Scoped(g)
    requires (redispatch != null ==> redispatch.Valid()) && (failures != null ==> failures.Valid())
    modifies redispatch, failures
    ensures result.CycleFound? <==> !Acyclic(g)
    ensures result.CycleFound? ==> Cycle(g, result.cycle)
    ensures result.Ran? ==> InGoodOrder(g, result.merged, result.parkedReasons, trace)
    ensures result.Ran? ==>
              Accounted(g, result.merged, result.parkedReasons, set n | n in g && !MayActOn(recovery, agentReady, n))
    ensures result.Ran? ==> Recorded(recovery, replies, old(Looping(recovery, redispatch)), old(LimitOf(failures)),
                                     endings, result, trace)
    ensures result.Ran? && failures != null ==> BudgetSettled(recovery, replies, endings, failures, old(failures.log))
    ensures result.Ran? && redispatch != null ==>
              WindowSettled(recovery, endings, redispatch, old(redispatch.log), old(redispatch.tick))
    ensures result.CycleFound? ==>
              BudgetLog(failures) == old(BudgetLog(failures)) && WindowLog(redispatch) == old(WindowLog(redispatch))
  {
    hide IssueScheduler.Valid, Deserved, Booked, Launched, Narrated, Budgeted, Attempted, Foretold;
    hide Accounted, InGoodOrder, CountAfter;
    var sched := new IssueScheduler(g);
    var cycle, order := sched.Prepare();
    if cycle != [] { return CycleFound(cycle), [], map[]; }
    var unit := OpenUnit(sched, agentReady, recovery, replies, redispatch, failures);
    result, trace, endings := RunOpened(unit, order);
    assert unit.IdleIn(g) == set n | n in g && !MayActOn(recovery, agentReady, n);
  }

  method RunOpened(unit: WorkUnit, ghost order: seq<Issue>)
      returns (result: UnitResult, ghost trace: seq<Event>, ghost endings: map<Issue, Ending>)
    requires unit.InLoop() && unit.OnRecord() && unit.popped == {} && unit.Topological(order)
    modifies unit, unit.ctx, unit.ctx.sched, unit.ctx.sched.sorter, unit.ctx.failures, unit.redispatch
    ensures result.Ran?
    ensures InGoodOrder(unit.ctx.sched.sorter.graph, result.merged, result.parkedReasons, trace)
    ensures Accounted(unit.ctx.sched.sorter.graph, result.merged, result.parkedReasons,
                      unit.IdleIn(unit.ctx.sched.sorter.graph))
    ensures Recorded(unit.recovery, unit.replies, unit.looping, unit.AtLimit(), endings, result, trace)
    ensures unit.ctx.failures != null ==>
              BudgetSettled(unit.recovery, unit.replies, endings, unit.ctx.failures, unit.budget0)
    ensures unit.redispatch != null ==>
              WindowSettled(unit.recovery, endings, unit.redispatch, unit.window0, unit.tick0)
  {
    var _ := unit.Drain(order);
    unit.IsFinished();
    unit.CountsSettle();
    trace, endings := unit.ctx.trace, unit.endings;
    result := Ran(unit.ctx.mergedIssues, unit.ctx.parkedReasons);
  }

  method OpenUnit(sched: IssueScheduler, agentReady: set<Issue>, recovery: Recovery, replies: Issue -> Replies,
                  redispatch: Redispatch.RedispatchTally?, failures: Failures.FailureTally?)
      returns (unit: WorkUnit)
    requires sched.Valid() && sched.sorter.prepared && sched.done == sched.parked == sched.consumed == {}
    requires (redispatch != null ==> redispatch.Valid()) && (failures != null ==> failures.Valid())
    ensures fresh(unit) && fresh(unit.ctx) && unit.InLoop() && unit.OnRecord() && unit.popped == {}
    ensures unit.looping == Looping(recovery, redispatch) && unit.AtLimit() == LimitOf(failures)
    ensures unit.budget0 == BudgetLog(failures) && unit.window0 == WindowLog(redispatch)
    ensures redispatch != null ==> unit.tick0 == redispatch.tick
    ensures unit.ctx.sched == sched && unit.ctx.failures == failures && unit.redispatch == redispatch
    ensures unit.recovery == recovery && unit.agentReady == agentReady && unit.replies == replies
  {
    var ctx := new ParkContext(sched, failures);
    unit := new WorkUnit(ctx, redispatch, recovery, agentReady, replies);
    LimitIsOfHistory(failures);
  }
}
