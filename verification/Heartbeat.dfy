/** The stall alert and its latch, shared between the daemon thread and the monitor thread.
    Models LivenessState and the stall step of _heartbeat_tick in src/baton_harness/chain/heartbeat.py.
    Times are whole seconds; each single field read or write is one step, in any interleaving. */
module Heartbeat {
  import opened Prelude

  /** The fields of LivenessState. */
  datatype Liveness = Liveness(
    owner: Option<string>, repo: Option<string>, issue: Option<int>, since: Option<int>,
    alerted: bool, workerActive: bool, lastProgress: Option<int>)

  const FRESH := Liveness(None, None, None, None, false, false, None)

  datatype Thresholds = Thresholds(stall: int, progressStall: int)

  // ----- Writer: the daemon -----

  datatype Write =
    | Owner(o: Option<string>) | Repo(r: Option<string>) | Issue(i: Option<int>) | Since(t: Option<int>)
    | Alerted(a: bool) | Active(w: bool) | Progress(p: int)

  function Put(v: Liveness, w: Write): Liveness {
    match w
    case Owner(o) => v.(owner := o)
    case Repo(r) => v.(repo := r)
    case Issue(i) => v.(issue := i)
    case Since(t) => v.(since := t)
    case Alerted(a) => v.(alerted := a)
    case Active(w) => v.(workerActive := w)
    case Progress(p) => v.(lastProgress := Some(p))
  }

  datatype Call =
    | MarkInProgress(owner: string, repo: string, issue: int, now: int, workerActive: bool)
    | Clear
    | NoteProgress(at: int)

  /** The field writes of one call, in program order. */
  function Writes(c: Call): seq<Write> {
    match c
    case MarkInProgress(o, r, i, now, w) =>
      [Owner(Some(o)), Repo(Some(r)), Issue(Some(i)), Since(Some(now)), Alerted(false), Active(w)]
    case Clear => [Owner(None), Repo(None), Issue(None), Since(None), Alerted(false), Active(false)]
    case NoteProgress(at) => [Progress(at)]
  }

  // ----- Reader: the monitor -----

  datatype Pc =
    | Idle
    | ReadAlerted | ReadSince | ReadOwner | ReadRepo | ReadIssue | ReadActive | ReadProgress
    | Wall | WallLatch | Recheck | Stalled | ProgressLatch

  datatype Event =
    | Silent
    | Reset                                                                // the daemon lowers the latch
    | Delivered(owner: Option<string>, repo: Option<string>, issue: Option<int>)
    | Undelivered
    | Latched                                                              // the monitor raises the latch

  /** `todo` is what the daemon's current call has still to write; `now` and `seen` are the locals of the tick. */
  datatype State = State(shared: Liveness, todo: seq<Write>, pc: Pc, now: int, seen: Liveness)

  const START := State(FRESH, [], Idle, 0, FRESH)

  datatype Action =
    | Begin(call: Call)
    | DaemonStep
    | Tick(now: int)
    | MonitorStep(reply: bool)   // `reply` is what alert() returns, if this step calls it

  /** One action; an action that is not enabled changes nothing. */
  function Next(limits: Thresholds, s: State, a: Action): (State, Event) {
    match a
    case Begin(call) => if s.todo == [] then (s.(todo := Writes(call)), Silent) else (s, Silent)
    case DaemonStep =>
      if s.todo == [] then (s, Silent)
      else (s.(shared := Put(s.shared, s.todo[0]), todo := s.todo[1..]),
            if s.todo[0] == Alerted(false) then Reset else Silent)
    case Tick(now) => if s.pc == Idle then (s.(pc := ReadAlerted, now := now), Silent) else (s, Silent)
    case MonitorStep(reply) => Monitor(limits, s, reply)
  }

  function Monitor(limits: Thresholds, s: State, reply: bool): (State, Event) {
    var v, seen := s.shared, s.seen;
    match s.pc
    case Idle => (s, Silent)
    case ReadAlerted => (s.(pc := ReadSince, seen := seen.(alerted := v.alerted)), Silent)
    case ReadSince => (s.(pc := ReadOwner, seen := seen.(since := v.since)), Silent)
    case ReadOwner => (s.(pc := ReadRepo, seen := seen.(owner := v.owner)), Silent)
    case ReadRepo => (s.(pc := ReadIssue, seen := seen.(repo := v.repo)), Silent)
    case ReadIssue => (s.(pc := ReadActive, seen := seen.(issue := v.issue)), Silent)
    case ReadActive => (s.(pc := ReadProgress, seen := seen.(workerActive := v.workerActive)), Silent)
    case ReadProgress => (s.(pc := Wall, seen := seen.(lastProgress := v.lastProgress)), Silent)
    case Wall =>
      if seen.since == None || seen.alerted then (s.(pc := Idle), Silent)
      else if s.now - seen.since.value <= limits.stall then (s.(pc := Recheck), Silent)
      else if reply then (s.(pc := WallLatch), Delivered(seen.owner, seen.repo, seen.issue))
      else (s.(pc := Recheck), Undelivered)
    case WallLatch => (s.(pc := Recheck, shared := v.(alerted := true)), Latched)
    case Recheck =>
      if seen.workerActive && seen.lastProgress.Some? && !v.alerted then (s.(pc := Stalled), Silent)
      else (s.(pc := Idle), Silent)
    case Stalled =>
      if seen.lastProgress.None? || s.now - seen.lastProgress.value <= limits.progressStall
      then (s.(pc := Idle), Silent)
      else if reply then (s.(pc := ProgressLatch), Delivered(seen.owner, seen.repo, seen.issue))
      else (s.(pc := Idle), Undelivered)
    case ProgressLatch => (s.(pc := Idle, shared := v.(alerted := true)), Latched)
  }

  // ----- Runs -----

  function After(limits: Thresholds, run: seq<Action>): State {
    if run == [] then START else Next(limits, After(limits, run[..|run| - 1]), run[|run| - 1]).0
  }

  /** What happened at the last action of a run. */
  function Last(limits: Thresholds, run: seq<Action>): Event
    requires run != []
  {
    Next(limits, After(limits, run[..|run| - 1]), run[|run| - 1]).1
  }

  /** Alerts delivered since the latch was last lowered. */
  ghost function SinceReset(limits: Thresholds, run: seq<Action>): nat {
    if run == [] then 0
    else match Last(limits, run)
      case Reset => 0
      case Delivered(_, _, _) => SinceReset(limits, run[..|run| - 1]) + 1
      case _ => SinceReset(limits, run[..|run| - 1])
  }

  ghost predicate Debounced(s: State, n: nat) {
    n <= 1
    && (n == 1 ==> s.shared.alerted || s.pc == WallLatch || s.pc == ProgressLatch)
    && (s.pc == Stalled ==> n == 0)
    && (Snapshotting(s.pc) && !s.seen.alerted ==> n == 0)
  }

  /** The latch has been read and the wall-clock test is still to come. */
  predicate Snapshotting(pc: Pc) {
    pc in {ReadSince, ReadOwner, ReadRepo, ReadIssue, ReadActive, ReadProgress, Wall}
  }

  lemma {:induction false} AlwaysDebounced(limits: Thresholds, run: seq<Action>)
    ensures Debounced(After(limits, run), SinceReset(limits, run))
  {
    if run != [] { AlwaysDebounced(limits, run[..|run| - 1]); }
  }

  /** Alerts delivered by the actions from `i` on. */
  ghost function DeliveredFrom(limits: Thresholds, run: seq<Action>, i: nat): nat
    requires i <= |run|
    decreases |run|
  {
    if i == |run| then 0
    else DeliveredFrom(limits, run[..|run| - 1], i) + if Last(limits, run).Delivered? then 1 else 0
  }

  ghost predicate NoResetFrom(limits: Thresholds, run: seq<Action>, i: nat)
    requires i <= |run|
  {
    forall k :: i < k <= |run| ==> Last(limits, run[..k]) != Reset
  }

  lemma {:induction false} DeliveredWithinEpisode(limits: Thresholds, run: seq<Action>, i: nat)
    requires i <= |run| && NoResetFrom(limits, run, i)
    ensures DeliveredFrom(limits, run, i) <= SinceReset(limits, run)
    decreases |run|
  {
    if i < |run| {
      var prefix := run[..|run| - 1];
      assert run[..|run|] == run;
      forall k | i < k <= |prefix| ensures Last(limits, prefix[..k]) != Reset {
        assert prefix[..k] == run[..k];
      }
      DeliveredWithinEpisode(limits, prefix, i);
    }
  }

  /** Under every interleaving, at most one alert is delivered between two resets of the latch, wall-clock and
      progress predicates together. */
  lemma AtMostOneAlertPerEpisode(limits: Thresholds, run: seq<Action>, i: nat)
    requires i <= |run| && NoResetFrom(limits, run, i)
    ensures DeliveredFrom(limits, run, i) <= 1
  {
    DeliveredWithinEpisode(limits, run, i);
    AlwaysDebounced(limits, run);
  }

  // ----- Only a delivered alert raises the latch -----

  /** The latest event of the monitor in a run. */
  ghost function LastOfMonitor(limits: Thresholds, run: seq<Action>): Event {
    if run == [] then Silent
    else match Last(limits, run)
      case Delivered(_, _, _) => Last(limits, run)
      case Undelivered => Undelivered
      case Latched => Latched
      case _ => LastOfMonitor(limits, run[..|run| - 1])
  }

  lemma {:induction false} PendingLatchIsDelivered(limits: Thresholds, run: seq<Action>)
    ensures After(limits, run).pc in {WallLatch, ProgressLatch} <==> LastOfMonitor(limits, run).Delivered?
  {
    if run != [] { PendingLatchIsDelivered(limits, run[..|run| - 1]); }
  }

  /** The latch goes up right after a delivered alert and at no other time: an undelivered alert leaves it alone. */
  lemma LatchFollowsDelivery(limits: Thresholds, run: seq<Action>, a: Action)
    ensures Last(limits, run + [a]) == Latched <==> LastOfMonitor(limits, run).Delivered? && a.MonitorStep?
    ensures !After(limits, run).shared.alerted && After(limits, run + [a]).shared.alerted ==>
              Last(limits, run + [a]) == Latched
  {
    assert (run + [a])[..|run|] == run;
    PendingLatchIsDelivered(limits, run);
    NoWriteRaises(limits, run);
    LatchStep(limits, After(limits, run), a);
  }

  lemma LatchStep(limits: Thresholds, s: State, a: Action)
    requires NeverRaises(s.todo)
    ensures Next(limits, s, a).1 == Latched <==> s.pc in {WallLatch, ProgressLatch} && a.MonitorStep?
    ensures !s.shared.alerted && Next(limits, s, a).0.shared.alerted ==> Next(limits, s, a).1 == Latched
  {
  }

  ghost predicate NeverRaises(todo: seq<Write>) {
    forall k :: 0 <= k < |todo| ==> todo[k] != Alerted(true)
  }

  lemma {:induction false} NoWriteRaises(limits: Thresholds, run: seq<Action>)
    ensures NeverRaises(After(limits, run).todo)
  {
    if run != [] { NoWriteRaises(limits, run[..|run| - 1]); }
  }

  // ----- One tick left alone -----

  /** The fields after a tick that no daemon write interrupts, and how many alerts it delivered. */
  function QuietTick(limits: Thresholds, v: Liveness, now: int, wallReply: bool, progressReply: bool): (Liveness, nat) {
    if v.since == None || v.alerted then (v, 0)
    else if now - v.since.value > limits.stall && wallReply then (v.(alerted := true), 1)
    else if v.workerActive && v.lastProgress.Some? && now - v.lastProgress.value > limits.progressStall && progressReply
    then (v.(alerted := true), 1)
    else (v, 0)
  }

  /** `n` steps of the monitor alone. */
  function Alone(limits: Thresholds, s: State, n: nat, reply: bool): State {
    if n == 0 then s else Next(limits, Alone(limits, s, n - 1, reply), MonitorStep(reply)).0
  }

  function Deliveries(e: Event): nat {
    if e.Delivered? then 1 else 0
  }

  /** Alerts delivered by those steps. */
  function AloneDelivers(limits: Thresholds, s: State, n: nat, reply: bool): nat {
    if n == 0 then 0
    else AloneDelivers(limits, s, n - 1, reply)
         + Deliveries(Next(limits, Alone(limits, s, n - 1, reply), MonitorStep(reply)).1)
  }

  /** If no daemon write comes between its reads, the monitor's snapshot is the shared state. */
  lemma UninterruptedReadsAgree(limits: Thresholds, s: State, now: int, reply: bool)
    requires s.pc == Idle
    ensures Alone(limits, Next(limits, s, Tick(now)).0, 7, reply) == s.(pc := Wall, now := now, seen := s.shared)
    ensures AloneDelivers(limits, Next(limits, s, Tick(now)).0, 7, reply) == 0
  {
    hide Next, Monitor;
    var s0 := s.(pc := ReadAlerted, now := now);
    TickStarts(limits, s, now);
    ReadsFour(limits, s0, reply);
    ReadsThree(limits, Alone(limits, s0, 4, reply), reply);
    AloneGoesOn(limits, s0, 4, 3, reply);
  }

  lemma TickStarts(limits: Thresholds, s: State, now: int)
    requires s.pc == Idle
    ensures Next(limits, s, Tick(now)).0 == s.(pc := ReadAlerted, now := now)
  {
  }

  lemma ReadsFour(limits: Thresholds, s: State, reply: bool)
    requires s.pc == ReadAlerted
    ensures Alone(limits, s, 4, reply) == s.(pc := ReadIssue, seen := s.seen.(alerted := s.shared.alerted,
                                             since := s.shared.since, owner := s.shared.owner, repo := s.shared.repo))
    ensures AloneDelivers(limits, s, 4, reply) == 0
  {
    assert Alone(limits, s, 1, reply).pc == ReadSince && AloneDelivers(limits, s, 1, reply) == 0;
    assert Alone(limits, s, 2, reply).pc == ReadOwner && AloneDelivers(limits, s, 2, reply) == 0;
    assert Alone(limits, s, 3, reply).pc == ReadRepo && AloneDelivers(limits, s, 3, reply) == 0;
  }

  lemma ReadsThree(limits: Thresholds, s: State, reply: bool)
    requires s.pc == ReadIssue
    ensures Alone(limits, s, 3, reply) == s.(pc := Wall, seen := s.seen.(issue := s.shared.issue,
                                             workerActive := s.shared.workerActive,
                                             lastProgress := s.shared.lastProgress))
    ensures AloneDelivers(limits, s, 3, reply) == 0
  {
    assert Alone(limits, s, 1, reply).pc == ReadActive && AloneDelivers(limits, s, 1, reply) == 0;
    assert Alone(limits, s, 2, reply).pc == ReadProgress && AloneDelivers(limits, s, 2, reply) == 0;
  }

  lemma {:induction false} AloneGoesOn(limits: Thresholds, s: State, m: nat, n: nat, reply: bool)
    ensures Alone(limits, s, m + n, reply) == Alone(limits, Alone(limits, s, m, reply), n, reply)
    ensures AloneDelivers(limits, s, m + n, reply)
            == AloneDelivers(limits, s, m, reply) + AloneDelivers(limits, Alone(limits, s, m, reply), n, reply)
  {
    hide Next;
    if n > 0 { AloneGoesOn(limits, s, m, n - 1, reply); }
  }

  /** And the whole tick comes to QuietTick. */
  lemma UninterruptedTick(limits: Thresholds, s: State, now: int, wallReply: bool, progressReply: bool)
    requires s.pc == Idle
    ensures var read := Alone(limits, Next(limits, s, Tick(now)).0, 7, wallReply);
            var done := Alone(limits, Next(limits, read, MonitorStep(wallReply)).0, 3, progressReply);
            done.pc == Idle && done.shared == QuietTick(limits, s.shared, now, wallReply, progressReply).0
            && AloneDelivers(limits, Next(limits, s, Tick(now)).0, 7, wallReply)
               + AloneDelivers(limits, read, 1, wallReply)
               + AloneDelivers(limits, Next(limits, read, MonitorStep(wallReply)).0, 3, progressReply)
               == QuietTick(limits, s.shared, now, wallReply, progressReply).1
  {
    UninterruptedReadsAgree(limits, s, now, wallReply);
    var read := s.(pc := Wall, now := now, seen := s.shared);
    assert Alone(limits, read, 0, wallReply) == read;
    assert AloneDelivers(limits, read, 1, wallReply) == Deliveries(Monitor(limits, read, wallReply).1);
    ThreeAlone(limits, Monitor(limits, read, wallReply).0, progressReply);
    FourSteps(limits, read, wallReply, progressReply);
  }

  /** From a consistent snapshot the tick is over within four steps. */
  lemma FourSteps(limits: Thresholds, s: State, wallReply: bool, progressReply: bool)
    requires s.pc == Wall && s.seen == s.shared
    ensures var asked := Monitor(limits, s, wallReply);
            var one := Monitor(limits, asked.0, progressReply);
            var two := Monitor(limits, one.0, progressReply);
            var three := Monitor(limits, two.0, progressReply);
            var quiet := QuietTick(limits, s.shared, s.now, wallReply, progressReply);
            three.0.pc == Idle && three.0.shared == quiet.0
            && Deliveries(asked.1) + Deliveries(one.1) + Deliveries(two.1) + Deliveries(three.1) == quiet.1
  {
    if s.seen.since == None || s.seen.alerted {
      assert Monitor(limits, s, wallReply) == (s.(pc := Idle), Silent);
    } else if s.now - s.seen.since.value > limits.stall && wallReply {
      var latched := s.(pc := Recheck, shared := s.shared.(alerted := true));
      assert Monitor(limits, Monitor(limits, s, wallReply).0, progressReply) == (latched, Latched);
    } else {
      assert Monitor(limits, s, wallReply).0 == s.(pc := Recheck);
    }
  }

  lemma ThreeAlone(limits: Thresholds, s: State, reply: bool)
    ensures var one := Monitor(limits, s, reply);
            var two := Monitor(limits, one.0, reply);
            var three := Monitor(limits, two.0, reply);
            Alone(limits, s, 3, reply) == three.0
            && AloneDelivers(limits, s, 3, reply)
               == Deliveries(one.1) + Deliveries(two.1) + Deliveries(three.1)
  {
    var one := Monitor(limits, s, reply);
    var two := Monitor(limits, one.0, reply);
    assert Alone(limits, s, 1, reply) == one.0;
    assert Alone(limits, s, 2, reply) == two.0;
    assert AloneDelivers(limits, s, 1, reply) == Deliveries(one.1);
    assert AloneDelivers(limits, s, 2, reply) == AloneDelivers(limits, s, 1, reply) + Deliveries(two.1);
  }

  // ----- What an interrupted tick can do -----

  ghost predicate OnlyCalls(run: seq<Action>, calls: set<Call>) {
    forall k :: 0 <= k < |run| && run[k].Begin? ==> run[k].call in calls
  }

  lemma Do(limits: Thresholds, run: seq<Action>, a: Action, calls: set<Call>) returns (next: seq<Action>)
    requires OnlyCalls(run, calls) && (a.Begin? ==> a.call in calls)
    ensures next == run + [a] && OnlyCalls(next, calls)
    ensures After(limits, next) == Next(limits, After(limits, run), a).0
    ensures Last(limits, next) == Next(limits, After(limits, run), a).1
  {
    next := run + [a];
    assert next[..|run|] == run;
  }

  /** `n` steps of one kind. */
  function Times(limits: Thresholds, s: State, a: Action, n: nat): State {
    if n == 0 then s else Next(limits, Times(limits, s, a, n - 1), a).0
  }

  lemma {:induction false} DoTimes(limits: Thresholds, run: seq<Action>, a: Action, n: nat, calls: set<Call>)
      returns (next: seq<Action>)
    requires OnlyCalls(run, calls) && !a.Begin?
    ensures OnlyCalls(next, calls) && After(limits, next) == Times(limits, After(limits, run), a, n)
  {
    if n == 0 {
      next := run;
    } else {
      next := DoTimes(limits, run, a, n - 1, calls);
      next := Do(limits, next, a, calls);
    }
  }

  /** Three writes of the daemon. */
  lemma WritesThree(limits: Thresholds, s: State, a: Write, b: Write, c: Write, rest: seq<Write>)
    requires s.todo == [a, b, c] + rest
    ensures Times(limits, s, DaemonStep, 3) == s.(shared := Put(Put(Put(s.shared, a), b), c), todo := rest)
  {
    hide Put, Monitor;
    var one := s.(shared := Put(s.shared, a), todo := [b, c] + rest);
    var two := s.(shared := Put(Put(s.shared, a), b), todo := [c] + rest);
    assert s.todo[1..] == one.todo && one.todo[1..] == two.todo && two.todo[1..] == rest;
    assert Times(limits, s, DaemonStep, 1) == one;
    assert Times(limits, s, DaemonStep, 2) == two;
  }

  lemma {:induction false} TimesGoOn(limits: Thresholds, s: State, a: Action, m: nat, n: nat)
    ensures Times(limits, s, a, m + n) == Times(limits, Times(limits, s, a, m), a, n)
  {
    hide Next;
    if n > 0 { TimesGoOn(limits, s, a, m, n - 1); }
  }

  /** The six writes of a whole call. */
  lemma WholeCall(limits: Thresholds, s: State, owner: string, repo: string, issue: int, now: int, active: bool)
    requires s.todo == Writes(MarkInProgress(owner, repo, issue, now, active))
    ensures Times(limits, s, DaemonStep, 3) ==
            s.(shared := s.shared.(owner := Some(owner), repo := Some(repo), issue := Some(issue)), todo := s.todo[3..])
    ensures Times(limits, s, DaemonStep, 6) ==
            s.(shared := Liveness(Some(owner), Some(repo), Some(issue), Some(now), false, active,
                                  s.shared.lastProgress), todo := [])
  {
    hide Next, Monitor;
    var late := [Since(Some(now)), Alerted(false), Active(active)];
    assert s.todo == [Owner(Some(owner)), Repo(Some(repo)), Issue(Some(issue))] + late && s.todo[3..] == late;
    WritesThree(limits, s, Owner(Some(owner)), Repo(Some(repo)), Issue(Some(issue)), late);
    assert late == late + [];
    WritesThree(limits, Times(limits, s, DaemonStep, 3), Since(Some(now)), Alerted(false), Active(active), []);
    TimesGoOn(limits, s, DaemonStep, 3, 3);
  }

  const FIRST := MarkInProgress("a", "x", 1, 0, true)
  const SECOND := MarkInProgress("b", "y", 2, 0, true)
  const CALLS := {FIRST, SECOND}
  const MARKED_FIRST := Liveness(Some("a"), Some("x"), Some(1), Some(0), false, true, None)

  /** The first issue marked and a late tick begun. */
  lemma FirstMarked(limits: Thresholds) returns (run: seq<Action>)
    ensures OnlyCalls(run, CALLS)
    ensures After(limits, run) == State(MARKED_FIRST, [], ReadAlerted, limits.stall + 1, FRESH)
  {
    run := Do(limits, [], Begin(FIRST), CALLS);
    WholeCall(limits, After(limits, run), "a", "x", 1, 0, true);
    run := DoTimes(limits, run, DaemonStep, 6, CALLS);
    run := Do(limits, run, Tick(limits.stall + 1), CALLS);
  }

  /** The daemon begins the second call and makes its first three writes. */
  lemma HalfSecond(limits: Thresholds, run: seq<Action>) returns (next: seq<Action>)
    requires OnlyCalls(run, CALLS) && After(limits, run).todo == []
    ensures OnlyCalls(next, CALLS)
    ensures var s := After(limits, run);
            After(limits, next) == s.(shared := s.shared.(owner := Some("b"), repo := Some("y"), issue := Some(2)),
                                      todo := [Since(Some(0)), Alerted(false), Active(true)])
  {
    next := Do(limits, run, Begin(SECOND), CALLS);
    WholeCall(limits, After(limits, next), "b", "y", 2, 0, true);
    next := DoTimes(limits, next, DaemonStep, 3, CALLS);
  }

  /** Reading into locals does not prevent a mixed alert: it can name the owner of one issue and the repository of
      the next. */
  lemma SnapshotCanBeTorn(limits: Thresholds) returns (run: seq<Action>)
    ensures OnlyCalls(run, {MarkInProgress("a", "x", 1, 0, true), MarkInProgress("b", "y", 2, 0, true)})
    ensures run != [] && Last(limits, run) == Delivered(Some("a"), Some("y"), Some(2))
  {
    run := FirstMarked(limits);
    run := DoThree(limits, run, CALLS);
    run := HalfSecond(limits, run);
    run := DoFour(limits, run, CALLS);
    var s := After(limits, run);
    assert s.pc == Wall && s.seen.since == Some(0) && !s.seen.alerted && s.now == limits.stall + 1;
    run := Do(limits, run, MonitorStep(true), CALLS);
  }

  lemma DoThree(limits: Thresholds, run: seq<Action>, calls: set<Call>) returns (next: seq<Action>)
    requires OnlyCalls(run, calls) && After(limits, run).pc == ReadAlerted
    ensures OnlyCalls(next, calls) && next == run + seq(3, _ => MonitorStep(true))
    ensures var s := After(limits, run);
            After(limits, next) == s.(pc := ReadRepo, seen := s.seen.(alerted := s.shared.alerted,
                                      since := s.shared.since, owner := s.shared.owner))
  {
    next := Do(limits, run, MonitorStep(true), calls);
    next := Do(limits, next, MonitorStep(true), calls);
    next := Do(limits, next, MonitorStep(true), calls);
  }

  lemma DoFour(limits: Thresholds, run: seq<Action>, calls: set<Call>) returns (next: seq<Action>)
    requires OnlyCalls(run, calls) && After(limits, run).pc == ReadRepo
    ensures OnlyCalls(next, calls) && next == run + seq(4, _ => MonitorStep(true))
    ensures var s := After(limits, run);
            After(limits, next) == s.(pc := Wall, seen := s.seen.(repo := s.shared.repo, issue := s.shared.issue,
                                      workerActive := s.shared.workerActive, lastProgress := s.shared.lastProgress))
  {
    next := Do(limits, run, MonitorStep(true), calls);
    next := Do(limits, next, MonitorStep(true), calls);
    var s, half := After(limits, run), After(limits, next);
    assert half == s.(pc := ReadActive, seen := s.seen.(repo := s.shared.repo, issue := s.shared.issue));
    next := Do(limits, next, MonitorStep(true), calls);
    next := Do(limits, next, MonitorStep(true), calls);
  }

  lemma AlertSent(limits: Thresholds) returns (run: seq<Action>)
    ensures OnlyCalls(run, CALLS)
    ensures After(limits, run) == State(MARKED_FIRST, [], WallLatch, limits.stall + 1, MARKED_FIRST)
  {
    run := FirstMarked(limits);
    run := DoThree(limits, run, CALLS);
    run := DoFour(limits, run, CALLS);
    run := Do(limits, run, MonitorStep(true), CALLS);
  }

  /** The latest reset fell between an alert and its latch write. */
  ghost predicate LateReset(limits: Thresholds, run: seq<Action>) {
    run != []
    && if Last(limits, run) == Reset then Latching(After(limits, run[..|run| - 1]).pc)
       else LateReset(limits, run[..|run| - 1])
  }

  predicate Latching(pc: Pc) {
    pc == WallLatch || pc == ProgressLatch
  }

  /** An episode is muted, its latch up though nothing was delivered since the reset, exactly when that reset was late
      and the latch write has been made. */
  lemma MutedExactly(limits: Thresholds, run: seq<Action>)
    ensures After(limits, run).shared.alerted && SinceReset(limits, run) == 0 <==>
            LateReset(limits, run) && !Latching(After(limits, run).pc)
  {
    LatchTold(limits, run);
  }

  /** Where the latch stands, given whether the latest reset was late and what was delivered since. */
  ghost predicate LatchStands(s: State, late: bool, n: nat) {
    && (s.shared.alerted ==> late || n > 0)
    && (late && !Latching(s.pc) ==> s.shared.alerted && n == 0)
    && (late && Latching(s.pc) ==> n == 0 && !s.shared.alerted)
    && (Latching(s.pc) ==> late || n == 1)
    && (late ==> s.pc != Stalled && (Snapshotting(s.pc) ==> s.seen.alerted))
  }

  lemma LatchMoves(limits: Thresholds, s: State, late: bool, n: nat, a: Action)
    requires LatchStands(s, late, n) && Debounced(s, n) && NeverRaises(s.todo)
    ensures var next := Next(limits, s, a);
            LatchStands(next.0, if next.1 == Reset then Latching(s.pc) else late,
                        if next.1 == Reset then 0 else n + Deliveries(next.1))
  {
  }

  lemma {:induction false} LatchTold(limits: Thresholds, run: seq<Action>)
    ensures LatchStands(After(limits, run), LateReset(limits, run), SinceReset(limits, run))
  {
    if run != [] {
      var front := run[..|run| - 1];
      LatchTold(limits, front);
      NoWriteRaises(limits, front);
      AlwaysDebounced(limits, front);
      LatchMoves(limits, After(limits, front), LateReset(limits, front), SinceReset(limits, front), run[|run| - 1]);
    }
  }

  /** A reset between an alert and its latch write mutes the new episode: the latch is up though nothing was
      delivered since the reset. */
  lemma EpisodeCanBeMuted(limits: Thresholds) returns (run: seq<Action>)
    ensures After(limits, run).shared.alerted && SinceReset(limits, run) == 0
  {
    run := AlertSent(limits);
    run := HalfSecond(limits, run);
    run := Do(limits, run, DaemonStep, CALLS);
    assert After(limits, run).todo == [Alerted(false), Active(true)];
    run := Do(limits, run, DaemonStep, CALLS);
    assert Last(limits, run) == Reset;
    var reset := run;
    run := Do(limits, run, MonitorStep(true), CALLS);
    assert run[..|run| - 1] == reset;
  }

  /** A progress time outlives the issue it was noted for. An issue marked at `marked`, whose worker has not reported
      yet, is alerted at `now` exactly when its own time is past the stall threshold or the old progress time is past
      the progress threshold, and the alert is delivered. So a worker younger than both thresholds is reported as hung
      for progress noted before it was there. */
  lemma ProgressTimeIsStale(limits: Thresholds, v: Liveness, marked: int, now: int, owner: string, repo: string,
                            issue: int, active: bool, wallReply: bool, progressReply: bool)
    ensures var cleared := PutAll(v, Writes(Clear));
            var next := PutAll(cleared, Writes(MarkInProgress(owner, repo, issue, marked, active)));
            var wall := limits.stall < now - marked && wallReply;
            var alerts := QuietTick(limits, next, now, wallReply, progressReply).1 == 1;
            && (alerts <==>
                wall || (active && v.lastProgress.Some? && limits.progressStall < now - v.lastProgress.value
                         && progressReply))
            && (alerts && !wall && now - marked <= limits.progressStall ==> v.lastProgress.value < marked)
  {
    ClearKeepsProgress(v);
    MarkKeepsProgress(PutAll(v, Writes(Clear)), owner, repo, issue, marked, active);
  }

  function PutAll(v: Liveness, writes: seq<Write>): Liveness
    decreases |writes|
  {
    if writes == [] then v else PutAll(Put(v, writes[0]), writes[1..])
  }

  lemma PutOne(v: Liveness, a: Write, rest: seq<Write>)
    ensures PutAll(v, [a] + rest) == PutAll(Put(v, a), rest)
  {
    assert ([a] + rest)[1..] == rest;
  }

  lemma PutThree(v: Liveness, a: Write, b: Write, c: Write, rest: seq<Write>)
    ensures PutAll(v, [a, b, c] + rest) == PutAll(Put(Put(Put(v, a), b), c), rest)
  {
    assert [a, b, c] + rest == [a] + ([b] + ([c] + rest));
    PutOne(v, a, [b] + ([c] + rest));
    PutOne(Put(v, a), b, [c] + rest);
    PutOne(Put(Put(v, a), b), c, rest);
  }

  lemma PutSix(v: Liveness, w: seq<Write>)
    requires |w| == 6
    ensures PutAll(v, w) == Put(Put(Put(Put(Put(Put(v, w[0]), w[1]), w[2]), w[3]), w[4]), w[5])
  {
    assert w == [w[0], w[1], w[2]] + w[3..] && w[3..] == [w[3], w[4], w[5]] + [];
    PutThree(v, w[0], w[1], w[2], w[3..]);
    PutThree(Put(Put(Put(v, w[0]), w[1]), w[2]), w[3], w[4], w[5], []);
  }

  lemma ClearKeepsProgress(v: Liveness)
    ensures PutAll(v, Writes(Clear)) == FRESH.(lastProgress := v.lastProgress)
  {
    PutSix(v, Writes(Clear));
  }

  lemma MarkKeepsProgress(v: Liveness, owner: string, repo: string, issue: int, now: int, active: bool)
    ensures PutAll(v, Writes(MarkInProgress(owner, repo, issue, now, active)))
            == Liveness(Some(owner), Some(repo), Some(issue), Some(now), false, active, v.lastProgress)
  {
    PutSix(v, Writes(MarkInProgress(owner, repo, issue, now, active)));
  }

  // ----- The object itself -----

  class LivenessState {
    var inProgressOwner: Option<string>
    var inProgressRepo: Option<string>
    var inProgressIssue: Option<int>
    var inProgressSince: Option<int>
    var stallAlerted: bool
    var workerActive: bool
    var lastProgressAt: Option<int>

    function View(): Liveness
      reads this
    {
      Liveness(inProgressOwner, inProgressRepo, inProgressIssue, inProgressSince, stallAlerted, workerActive,
               lastProgressAt)
    }

    constructor ()
      ensures View() == FRESH
    {
      inProgressOwner, inProgressRepo, inProgressIssue, inProgressSince := None, None, None, None;
      stallAlerted, workerActive, lastProgressAt := false, false, None;
    }

    method MarkInProgress(owner: string, repo: string, issue: int, now: int, active: bool)
      modifies this
      ensures View() == PutAll(old(View()), Writes(Call.MarkInProgress(owner, repo, issue, now, active)))
      ensures View() == Liveness(Some(owner), Some(repo), Some(issue), Some(now), false, active, old(lastProgressAt))
    {
      MarkKeepsProgress(View(), owner, repo, issue, now, active);
      inProgressOwner := Some(owner);
      inProgressRepo := Some(repo);
      inProgressIssue := Some(issue);
      inProgressSince := Some(now);
      stallAlerted := false;
      workerActive := active;
    }

    method Clear()
      modifies this
      ensures View() == PutAll(old(View()), Writes(Call.Clear))
      ensures View() == Liveness(None, None, None, None, false, false, old(lastProgressAt))
    {
      ClearKeepsProgress(View());
      inProgressOwner := None;
      inProgressRepo := None;
      inProgressIssue := None;
      inProgressSince := None;
      stallAlerted := false;
      workerActive := false;
    }

    method NoteProgress(now: int)
      modifies this
      ensures View() == old(View()).(lastProgress := Some(now))
    {
      lastProgressAt := Some(now);
    }

    /** Stall detection of one tick; the replies are what alert() returns if it is called. */
    method HeartbeatTick(limits: Thresholds, now: int, wallReply: bool, progressReply: bool) returns (delivered: nat)
      modifies this
      ensures (View(), delivered) == QuietTick(limits, old(View()), now, wallReply, progressReply)
      ensures delivered == 1 <==>
              old(inProgressSince).Some? && !old(stallAlerted)
              && ((now - old(inProgressSince).value > limits.stall && wallReply)
                  || (workerActive && lastProgressAt.Some? && now - lastProgressAt.value > limits.progressStall
                      && progressReply))
      ensures View() == old(View()).(alerted := old(stallAlerted) || delivered == 1) && delivered <= 1
    {
      delivered := 0;
      var alerted, since, active, progress := stallAlerted, inProgressSince, workerActive, lastProgressAt;
      if since.Some? && !alerted {
        if now - since.value > limits.stall {
          if wallReply {
            delivered := delivered + 1;
            stallAlerted := true;
          }
        }
        if active && progress.Some? && !stallAlerted {
          if now - progress.value > limits.progressStall {
            if progressReply {
              delivered := delivered + 1;
              stallAlerted := true;
            }
          }
        }
      }
    }
  }
}
