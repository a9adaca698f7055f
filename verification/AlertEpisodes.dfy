/** Which alerts belong to the episode that a reset of the latch begins, and when such an episode can no longer alert.
    Models the debounce of _heartbeat_tick and the resets of LivenessState in src/baton_harness/chain/heartbeat.py. */
module AlertEpisodes {
  import opened Prelude
  import opened Heartbeat

  /** The current or latest tick read the latch after it was last lowered. */
  ghost predicate FreshRead(limits: Thresholds, run: seq<Action>) {
    run == []
    || var front := run[..|run| - 1];
       if Last(limits, run) == Reset then false
       else FreshRead(limits, front) || (run[|run| - 1].MonitorStep? && After(limits, front).pc == ReadAlerted)
  }

  /** Alerts delivered since the latest reset by ticks that read the latch after it. */
  ghost function Own(limits: Thresholds, run: seq<Action>): nat {
    if run == [] then 0
    else
      var front := run[..|run| - 1];
      match Last(limits, run)
      case Reset => 0
      case Delivered(_, _, _) => Own(limits, front) + if FreshRead(limits, front) then 1 else 0
      case _ => Own(limits, front)
  }

  /** Since the latest reset a tick that had read the latch before it has raised the latch. */
  ghost predicate Straddled(limits: Thresholds, run: seq<Action>) {
    run != []
    && var front := run[..|run| - 1];
       Last(limits, run) != Reset
       && (Straddled(limits, front) || (Last(limits, run) == Latched && !FreshRead(limits, front)))
  }

  /** Where the latch stands, given whether the tick read it in this episode, what the episode's own ticks delivered,
      and whether an older tick raised it. */
  ghost predicate EpisodeStands(s: State, current: bool, own: nat, straddled: bool) {
    && own <= 1
    && (straddled <==> s.shared.alerted && own == 0)
    && (own == 1 ==> current && (s.shared.alerted || Latching(s.pc)))
    && (Latching(s.pc) ==> !s.shared.alerted && (own == 1 <==> current))
    && (s.pc == Stalled ==> !s.shared.alerted)
    && (Snapshotting(s.pc) ==> if current then s.seen.alerted == s.shared.alerted else !s.shared.alerted)
    && (!current && s.shared.alerted ==> straddled)
  }

  lemma EpisodeMoves(limits: Thresholds, s: State, current: bool, own: nat, straddled: bool, a: Action)
    requires EpisodeStands(s, current, own, straddled) && NeverRaises(s.todo)
    ensures var (next, e) := Next(limits, s, a);
            EpisodeStands(next, e != Reset && (current || (a.MonitorStep? && s.pc == ReadAlerted)),
                          if e == Reset then 0 else own + if e.Delivered? && current then 1 else 0,
                          e != Reset && (straddled || (e == Latched && !current)))
  {
  }

  lemma {:induction false} EpisodeTold(limits: Thresholds, run: seq<Action>)
    ensures EpisodeStands(After(limits, run), FreshRead(limits, run), Own(limits, run), Straddled(limits, run))
  {
    if run != [] {
      var front := run[..|run| - 1];
      EpisodeTold(limits, front);
      NoWriteRaises(limits, front);
      EpisodeMoves(limits, After(limits, front), FreshRead(limits, front), Own(limits, front), Straddled(limits, front),
                   run[|run| - 1]);
    }
  }

  /** In every run the latch is up without an alert of the episode's own exactly when a tick that had read the latch
      before the reset raised it after. */
  lemma NoAlertOfItsOwn(limits: Thresholds, run: seq<Action>)
    ensures After(limits, run).shared.alerted && Own(limits, run) == 0 <==> Straddled(limits, run)
  {
    EpisodeTold(limits, run);
  }

  /** Such an episode delivers no alert of its own before the next reset. */
  lemma {:induction false} StraddledStaysSilent(limits: Thresholds, run: seq<Action>, i: nat)
    requires i <= |run| && Straddled(limits, run[..i]) && NoResetFrom(limits, run, i)
    ensures Straddled(limits, run) && Own(limits, run) == 0
    decreases |run|
  {
    assert run[..|run|] == run;
    if i < |run| {
      var front := run[..|run| - 1];
      assert front[..i] == run[..i];
      forall k | i < k <= |front| ensures Last(limits, front[..k]) != Reset {
        assert front[..k] == run[..k];
      }
      StraddledStaysSilent(limits, front, i);
    }
    EpisodeTold(limits, run);
  }

  /** Between ticks, with an issue marked and no alert of its own yet, an episode can alert, at some time and left
      alone, exactly when it is not straddled. */
  lemma CanAlertExactly(limits: Thresholds, run: seq<Action>)
    requires After(limits, run).pc == Idle && After(limits, run).shared.since.Some? && Own(limits, run) == 0
    ensures (exists now :: QuietTick(limits, After(limits, run).shared, now, true, true).1 == 1) <==>
            !Straddled(limits, run)
  {
    EpisodeTold(limits, run);
    var v := After(limits, run).shared;
    assert !v.alerted ==> QuietTick(limits, v, v.since.value + limits.stall + 1, true, true).1 == 1;
  }

  /** One more action, with what it makes of the episode. */
  lemma More(limits: Thresholds, run: seq<Action>, a: Action) returns (next: seq<Action>)
    requires OnlyCalls(run, CALLS) && (a.Begin? ==> a.call in CALLS)
    ensures next == run + [a] && next[..|next| - 1] == run && OnlyCalls(next, CALLS)
    ensures After(limits, next) == Next(limits, After(limits, run), a).0
    ensures Last(limits, next) == Next(limits, After(limits, run), a).1
    ensures Last(limits, next) == Reset ==>
              !FreshRead(limits, next) && SinceReset(limits, next) == 0
              && (LateReset(limits, next) <==> Latching(After(limits, run).pc))
    ensures Last(limits, next) != Reset ==>
              (LateReset(limits, next) <==> LateReset(limits, run))
              && SinceReset(limits, next) == SinceReset(limits, run) + Deliveries(Last(limits, next))
    ensures After(limits, run).pc != ReadAlerted && !FreshRead(limits, run) ==> !FreshRead(limits, next)
    ensures Last(limits, next) == Latched && !FreshRead(limits, run) ==> Straddled(limits, next)
  {
    hide Next, Monitor;
    next := Do(limits, run, a, CALLS);
    assert next[..|next| - 1] == run;
  }

  /** The tick has its snapshot of the first issue when the second is marked. */
  lemma MarkedMeanwhile(limits: Thresholds) returns (run: seq<Action>)
    ensures OnlyCalls(run, CALLS) && !FreshRead(limits, run) && !LateReset(limits, run) && SinceReset(limits, run) == 0
    ensures After(limits, run) == State(Liveness(Some("b"), Some("y"), Some(2), Some(0), false, true, None), [], Wall,
                                        limits.stall + 1, MARKED_FIRST)
  {
    hide FreshRead, LateReset, SinceReset, Straddled, OnlyCalls;
    run := FirstMarked(limits);
    run := DoThree(limits, run, CALLS);
    run := DoFour(limits, run, CALLS);
    run := HalfSecond(limits, run);
    run := Do(limits, run, DaemonStep, CALLS);
    assert After(limits, run).todo == [Alerted(false), Active(true)];
    run := More(limits, run, DaemonStep);
    assert After(limits, run).todo == [Active(true)];
    run := More(limits, run, DaemonStep);
  }

  /** An episode can be straddled although its reset did not fall between an alert and its latch write: the tick had
      taken its snapshot of the first issue, the second was marked, and the alert about the first raised the latch of
      the second. */
  lemma AlertOfTheIssueBefore(limits: Thresholds) returns (run: seq<Action>)
    ensures OnlyCalls(run, {MarkInProgress("a", "x", 1, 0, true), MarkInProgress("b", "y", 2, 0, true)})
    ensures Straddled(limits, run) && !LateReset(limits, run) && SinceReset(limits, run) == 1
    ensures After(limits, run).shared.issue == Some(2) && After(limits, run).shared.alerted
    ensures |run| >= 2 && Last(limits, run[..|run| - 1]) == Delivered(Some("a"), Some("x"), Some(1))
  {
    hide FreshRead, LateReset, SinceReset, Straddled, OnlyCalls;
    run := MarkedMeanwhile(limits);
    assert run + [MonitorStep(true)] != [];
    run := More(limits, run, MonitorStep(true));
    run := More(limits, run, MonitorStep(true));
  }
}
