/** Per-issue budget of charged failures, across restarts.
    Models src/baton_harness/chain/failure_tally.py. */
module Failures {
  import opened Prelude
  import opened Dag
  import opened FailureStore

  /** What happened to the budget, in order. */
  datatype Entry = Charged(issue: Issue, count: int, exhausted: bool) | Cleared(issue: Issue)

  /** Charges to `n` since its budget was last cleared, counting what was loaded at start. */
  ghost function ChargesSinceClear(loaded: map<Issue, int>, log: seq<Entry>, n: Issue): int {
    if log == [] then CountOf(loaded, n)
    else
      var earlier, last := log[..|log| - 1], log[|log| - 1];
      if last == Cleared(n) then 0
      else ChargesSinceClear(loaded, earlier, n) + if last.Charged? && last.issue == n then 1 else 0
  }

  /** Every charge reports the running count and is exhausted exactly from `maxCount` on. */
  ghost predicate WellKept(loaded: map<Issue, int>, maxCount: int, log: seq<Entry>) {
    forall i :: 0 <= i < |log| && log[i].Charged? ==>
      && log[i].count == ChargesSinceClear(loaded, log[..i], log[i].issue) + 1
      && (log[i].exhausted <==> log[i].count >= maxCount)
  }

  lemma LogGrows(loaded: map<Issue, int>, maxCount: int, log: seq<Entry>, e: Entry)
    requires WellKept(loaded, maxCount, log)
    requires e.Charged? ==> e.count == ChargesSinceClear(loaded, log, e.issue) + 1
                            && (e.exhausted <==> e.count >= maxCount)
    ensures WellKept(loaded, maxCount, log + [e])
    ensures forall n :: ChargesSinceClear(loaded, log + [e], n) ==
              if e == Cleared(n) then 0
              else ChargesSinceClear(loaded, log, n) + if e.Charged? && e.issue == n then 1 else 0
  {
    assert (log + [e])[..|log|] == log;
    forall i | 0 <= i < |log| ensures (log + [e])[..i] == log[..i] {}
  }

  /** Number of charges to `n` in `log[lo..]`. */
  ghost function ChargesFrom(log: seq<Entry>, lo: nat, n: Issue): nat
    requires lo <= |log|
    decreases |log|
  {
    if lo == |log| then 0
    else
      var last := log[|log| - 1];
      ChargesFrom(log[..|log| - 1], lo, n) + if last.Charged? && last.issue == n then 1 else 0
  }

  /** Over a whole run: between a clear at `lo - 1` (or the start, with nothing loaded) and a later
      charge with no clear in between, the charge is exhausted exactly when it is at least the
      `maxCount`-th of that stretch. */
  lemma {:induction false} ExhaustedExactlyAtBudget(
      loaded: map<Issue, int>, maxCount: int, log: seq<Entry>, lo: nat, at: nat)
    requires WellKept(loaded, maxCount, log) && lo <= at < |log| && log[at].Charged?
    requires lo == 0 ==> log[at].issue !in loaded
    requires lo > 0 ==> log[lo - 1] == Cleared(log[at].issue)
    requires forall i :: lo <= i < at ==> log[i] != Cleared(log[at].issue)
    ensures log[at].exhausted <==> ChargesFrom(log[..at], lo, log[at].issue) + 1 >= maxCount
  {
    StretchCounts(loaded, log, lo, at, log[at].issue);
  }

  lemma {:induction false} StretchCounts(
      loaded: map<Issue, int>, log: seq<Entry>, lo: nat, hi: nat, n: Issue)
    requires lo <= hi <= |log|
    requires lo == 0 ==> n !in loaded
    requires lo > 0 ==> log[lo - 1] == Cleared(n)
    requires forall i :: lo <= i < hi ==> log[i] != Cleared(n)
    ensures ChargesSinceClear(loaded, log[..hi], n) == ChargesFrom(log[..hi], lo, n)
    decreases hi
  {
    if hi > lo {
      StretchCounts(loaded, log, lo, hi - 1, n);
      assert log[..hi][..hi - 1] == log[..hi - 1];
    }
  }

  /** The entries about one issue. */
  ghost function EntriesOf(log: seq<Entry>, n: Issue): seq<Entry> {
    if log == [] then []
    else
      var last := log[|log| - 1];
      EntriesOf(log[..|log| - 1], n) + if last.issue == n then [last] else []
  }

  lemma {:induction false} EntriesOfAppend(log: seq<Entry>, more: seq<Entry>, n: Issue)
    ensures EntriesOf(log + more, n) == EntriesOf(log, n) + EntriesOf(more, n)
    decreases |more|
  {
    if more == [] {
      assert log + more == log;
    } else {
      assert (log + more)[..|log + more| - 1] == log + more[..|more| - 1];
      EntriesOfAppend(log, more[..|more| - 1], n);
    }
  }

  /** Where a count stands after some entries about its issue. */
  ghost function CountOn(count: int, entries: seq<Entry>): int {
    if entries == [] then count
    else if entries[|entries| - 1].Cleared? then 0
    else CountOn(count, entries[..|entries| - 1]) + 1
  }

  /** Only the entries about an issue move its count. */
  lemma {:induction false} CountMovesOn(loaded: map<Issue, int>, log: seq<Entry>, more: seq<Entry>, n: Issue)
    ensures ChargesSinceClear(loaded, log + more, n)
            == CountOn(ChargesSinceClear(loaded, log, n), EntriesOf(more, n))
    decreases |more|
  {
    if more == [] {
      assert log + more == log;
    } else {
      var front, last := more[..|more| - 1], more[|more| - 1];
      assert (log + more)[..|log + more| - 1] == log + front;
      CountMovesOn(loaded, log, front, n);
      if last.issue == n {
        var es := EntriesOf(more, n);
        assert es == EntriesOf(front, n) + [last] && es[..|es| - 1] == EntriesOf(front, n);
      } else {
        assert EntriesOf(more, n) == EntriesOf(front, n);
      }
    }
  }

  /** The counts in memory are those of a history. */
  ghost predicate Matches(counts: map<Issue, int>, loaded: map<Issue, int>, log: seq<Entry>) {
    forall n {:trigger CountOf(counts, n)} :: CountOf(counts, n) == ChargesSinceClear(loaded, log, n)
  }

  /** The entry a charge to `n` leaves. */
  ghost function NextCharge(loaded: map<Issue, int>, maxCount: int, log: seq<Entry>, n: Issue): Entry {
    var count := ChargesSinceClear(loaded, log, n) + 1;
    Charged(n, count, count >= maxCount)
  }

  lemma ChargeOne(counts: map<Issue, int>, loaded: map<Issue, int>, maxCount: int, log: seq<Entry>, n: Issue)
    requires WellKept(loaded, maxCount, log) && Matches(counts, loaded, log)
    ensures var longer := log + [NextCharge(loaded, maxCount, log, n)];
            WellKept(loaded, maxCount, longer) && Matches(counts[n := CountOf(counts, n) + 1], loaded, longer)
  {
    var e := NextCharge(loaded, maxCount, log, n);
    LogGrows(loaded, maxCount, log, e);
    forall m ensures CountOf(counts[n := CountOf(counts, n) + 1], m) == ChargesSinceClear(loaded, log + [e], m) {
      assert CountOf(counts, m) == ChargesSinceClear(loaded, log, m);
    }
  }

  lemma ClearOne(counts: map<Issue, int>, loaded: map<Issue, int>, maxCount: int, log: seq<Entry>, n: Issue)
    requires WellKept(loaded, maxCount, log) && Matches(counts, loaded, log)
    ensures WellKept(loaded, maxCount, log + [Cleared(n)])
    ensures Matches(counts - {n}, loaded, log + [Cleared(n)])
  {
    LogGrows(loaded, maxCount, log, Cleared(n));
    forall m ensures CountOf(counts - {n}, m) == ChargesSinceClear(loaded, log + [Cleared(n)], m) {
      assert CountOf(counts, m) == ChargesSinceClear(loaded, log, m);
    }
  }

  /** What a tally knows and what its file holds: the history behind each, and the issues flagged as alerted. */
  datatype Life = Life(log: seq<Entry>, alerted: set<Issue>, kept: seq<Entry>, keptAlerted: set<Issue>) {
    /** After a write: a failed one leaves the file as it was. */
    function Persisted(saved: bool): Life {
      if saved then Life(log, alerted, log, alerted) else this
    }
  }

  class FailureTally {
    const maxCount: int
    var counts: map<Issue, int>
    var alerted: set<Issue>
    var disk: Option<Document>
    ghost const loaded: map<Issue, int>
    ghost var log: seq<Entry>
    /** The part of the history that the file has seen. */
    ghost var kept: seq<Entry>

    ghost predicate Valid()
      reads this
    {
      && WellKept(loaded, maxCount, log) && Matches(counts, loaded, log)
      && WellKept(loaded, maxCount, kept) && Matches(Loaded(disk).0, loaded, kept)
    }

    ghost function Lived(): Life
      reads this
    {
      Life(log, alerted, kept, Loaded(disk).1)
    }

    /** `_load` */
    constructor (stored: Option<Document>, maxCount0: int)
      ensures Valid() && maxCount == maxCount0 && disk == stored && loaded == counts
      ensures (counts, alerted) == Loaded(stored) && log == [] && kept == []
    {
      var counts0, alerted0 := Load(stored);
      maxCount, counts, alerted, disk := maxCount0, counts0, alerted0, stored;
      loaded, log, kept := counts0, [], [];
    }

    /** `_load` of a file that an earlier tally left, whose history goes on from there. */
    constructor Resume(stored: Option<Document>, maxCount0: int, ghost loaded0: map<Issue, int>,
                       ghost kept0: seq<Entry>)
      requires WellKept(loaded0, maxCount0, kept0) && Matches(Loaded(stored).0, loaded0, kept0)
      ensures Valid() && maxCount == maxCount0 && disk == stored && loaded == loaded0
      ensures (counts, alerted) == Loaded(stored) && log == kept == kept0
    {
      var counts0, alerted0 := Load(stored);
      maxCount, counts, alerted, disk := maxCount0, counts0, alerted0, stored;
      loaded, log, kept := loaded0, kept0, kept0;
    }

    function Peek(issue: Issue): int
      reads this
    {
      CountOf(counts, issue)
    }

    method RecordAndCheck(issue: Issue, saved: bool) returns (count: int, exhausted: bool)
      requires Valid()
      modifies this
      ensures Valid() && log == old(log) + [Charged(issue, count, exhausted)]
      ensures count == old(Peek(issue)) + 1 == Peek(issue) && (exhausted <==> count >= maxCount)
      ensures Lived() == old(Lived()).(log := log).Persisted(saved)
    {
      ChargeOne(counts, loaded, maxCount, log, issue);
      count := Peek(issue) + 1;
      counts := counts[issue := count];
      exhausted := count >= maxCount;
      log := log + [NextCharge(loaded, maxCount, log, issue)];
      Persist(saved);
    }

    /** Forgets the count and lets a later streak alert again. */
    method Reset(issue: Issue, saved: bool)
      requires Valid()
      modifies this
      ensures Valid() && log == old(log) + [Cleared(issue)] && Peek(issue) == 0
      ensures Lived() == old(Lived()).(log := log, alerted := old(alerted) - {issue}).Persisted(saved)
    {
      ClearOne(counts, loaded, maxCount, log, issue);
      counts := counts - {issue};
      alerted := alerted - {issue};
      log := log + [Cleared(issue)];
      Persist(saved);
    }

    method SetAlerted(issue: Issue, saved: bool)
      requires Valid()
      modifies this
      ensures Valid() && counts == old(counts)
      ensures Lived() == old(Lived()).(alerted := old(alerted) + {issue}).Persisted(saved)
    {
      alerted := alerted + {issue};
      Persist(saved);
    }

    /** `_persist` */
    method Persist(saved: bool)
      requires WellKept(loaded, maxCount, log) && Matches(counts, loaded, log)
      requires WellKept(loaded, maxCount, kept) && Matches(Loaded(disk).0, loaded, kept)
      modifies this`disk, this`kept
      ensures Valid() && Lived() == old(Lived()).Persisted(saved)
      ensures saved ==> disk.Some? && Written(disk.value, counts, alerted)
    {
      if !saved { return; }
      var doc := Encode(counts, alerted);
      LoadUndoesWrite(doc, counts, alerted);
      disk := Some(doc);
      kept := log;
    }
  }

  // ----- Over the life of the daemon -----

  datatype Op =
    | Charge(issue: Issue, saved: bool)
    | Clear(issue: Issue, saved: bool)
    | Flag(issue: Issue, saved: bool)
    | Reload

  /** One operation, on what is known and what is kept. */
  ghost function Step(loaded: map<Issue, int>, maxCount: int, life: Life, op: Op): Life {
    match op
    case Charge(n, saved) => life.(log := life.log + [NextCharge(loaded, maxCount, life.log, n)]).Persisted(saved)
    case Clear(n, saved) =>
      life.(log := life.log + [Cleared(n)], alerted := life.alerted - {n}).Persisted(saved)
    case Flag(n, saved) => life.(alerted := life.alerted + {n}).Persisted(saved)
    case Reload => Life(life.kept, life.keptAlerted, life.kept, life.keptAlerted)
  }

  ghost function Steps(loaded: map<Issue, int>, maxCount: int, life: Life, ops: seq<Op>): Life {
    if ops == [] then life
    else Step(loaded, maxCount, Steps(loaded, maxCount, life, ops[..|ops| - 1]), ops[|ops| - 1])
  }

  method Restart(tally: FailureTally) returns (reloaded: FailureTally)
    requires tally.Valid()
    ensures fresh(reloaded) && reloaded.Valid() && reloaded.disk == tally.disk
    ensures reloaded.loaded == tally.loaded && reloaded.maxCount == tally.maxCount
    ensures reloaded.Lived() == Step(tally.loaded, tally.maxCount, tally.Lived(), Reload)
  {
    reloaded := new FailureTally.Resume(tally.disk, tally.maxCount, tally.loaded, tally.kept);
  }

  method Perform(tally: FailureTally, op: Op) returns (next: FailureTally)
    requires tally.Valid()
    modifies tally
    ensures next.Valid() && (next == tally || fresh(next))
    ensures next.loaded == tally.loaded && next.maxCount == tally.maxCount
    ensures next.Lived() == Step(tally.loaded, tally.maxCount, old(tally.Lived()), op)
  {
    next := tally;
    match op {
      case Charge(n, saved) => var _, _ := tally.RecordAndCheck(n, saved);
      case Clear(n, saved) => tally.Reset(n, saved);
      case Flag(n, saved) => tally.SetAlerted(n, saved);
      case Reload => next := Restart(tally);
    }
  }

  /** Charges, clears, flags and restarts in any order, any of the writes failing: the tally is where its history puts
      it, and every charge of that history reports the budget truly. */
  method Live(tally: FailureTally, ops: seq<Op>) returns (last: FailureTally)
    requires tally.Valid()
    modifies tally
    ensures last.Valid() && (last == tally || fresh(last))
    ensures last.loaded == tally.loaded && last.maxCount == tally.maxCount
    ensures last.Lived() == Steps(tally.loaded, tally.maxCount, old(tally.Lived()), ops)
    ensures WellKept(tally.loaded, tally.maxCount, last.log)
  {
    last := tally;
    for i := 0 to |ops|
      invariant last.Valid() && (last == tally || fresh(last))
      invariant last.loaded == tally.loaded && last.maxCount == tally.maxCount
      invariant last.Lived() == Steps(tally.loaded, tally.maxCount, old(tally.Lived()), ops[..i])
    {
      assert ops[..i + 1][..i] == ops[..i];
      last := Perform(last, ops[i]);
    }
    assert ops[..|ops|] == ops;
  }

  function WithoutReloads(ops: seq<Op>): seq<Op> {
    if ops == [] then []
    else WithoutReloads(ops[..|ops| - 1]) + if ops[|ops| - 1].Reload? then [] else [ops[|ops| - 1]]
  }

  ghost predicate AllSaved(ops: seq<Op>) {
    forall i :: 0 <= i < |ops| ==> ops[i].Reload? || ops[i].saved
  }

  /** When every write succeeds restarts leave no trace: counts, budget verdicts and alert flags are those of one
      uninterrupted tally. */
  lemma {:induction false} RestartsAreInvisible(loaded: map<Issue, int>, maxCount: int, life: Life, ops: seq<Op>)
    requires AllSaved(ops) && life.kept == life.log && life.keptAlerted == life.alerted
    ensures var end := Steps(loaded, maxCount, life, ops);
            end == Steps(loaded, maxCount, life, WithoutReloads(ops))
            && end.kept == end.log && end.keptAlerted == end.alerted
  {
    if ops != [] {
      var front, last := ops[..|ops| - 1], ops[|ops| - 1];
      RestartsAreInvisible(loaded, maxCount, life, front);
      if last.Reload? {
        assert WithoutReloads(ops) == WithoutReloads(front);
      } else {
        assert (WithoutReloads(front) + [last])[..|WithoutReloads(front)|] == WithoutReloads(front);
      }
    }
  }

  /** A restart forgets exactly what came after the latest write that succeeded. */
  lemma {:induction false} RestartForgets(loaded: map<Issue, int>, maxCount: int, life: Life, ops: seq<Op>, at: nat)
    requires at < |ops| && !ops[at].Reload? && ops[at].saved
    requires forall i :: at < i < |ops| ==> !ops[i].Reload? && !ops[i].saved
    ensures var saved := Steps(loaded, maxCount, life, ops[..at + 1]);
            var end := Steps(loaded, maxCount, life, ops + [Reload]);
            end.log == saved.log && end.alerted == saved.alerted
  {
    assert (ops + [Reload])[..|ops|] == ops;
    KeptStays(loaded, maxCount, life, ops, at);
    assert ops[..at + 1][..at] == ops[..at];
  }

  lemma {:induction false} KeptStays(loaded: map<Issue, int>, maxCount: int, life: Life, ops: seq<Op>, at: nat)
    requires at < |ops| && forall i :: at < i < |ops| ==> !ops[i].Reload? && !ops[i].saved
    ensures var saved := Steps(loaded, maxCount, life, ops[..at + 1]);
            var end := Steps(loaded, maxCount, life, ops);
            end.kept == saved.kept && end.keptAlerted == saved.keptAlerted
    decreases |ops|
  {
    if at + 1 < |ops| {
      assert ops[..|ops| - 1][..at + 1] == ops[..at + 1];
      KeptStays(loaded, maxCount, life, ops[..|ops| - 1], at);
    } else {
      assert ops[..at + 1] == ops;
    }
  }

  /** An issue once flagged in a file stays flagged until it is cleared, whatever restarts and failed writes follow: its
      alert is not repeated. */
  lemma {:induction false} FlagOutlivesRestarts(loaded: map<Issue, int>, maxCount: int, life: Life, ops: seq<Op>,
                                                at: nat, n: Issue)
    requires at < |ops| && ops[at] == Flag(n, true)
    requires forall i :: at < i < |ops| ==> !(ops[i].Clear? && ops[i].issue == n)
    ensures var end := Steps(loaded, maxCount, life, ops); n in end.alerted && n in end.keptAlerted
    decreases |ops|
  {
    if at + 1 < |ops| {
      var front := ops[..|ops| - 1];
      assert forall i :: at < i < |front| ==> front[i] == ops[i];
      FlagOutlivesRestarts(loaded, maxCount, life, front, at, n);
    }
  }
}
