/** Re-dispatch loop detection: a sliding window over ticks, kept as a pruned mark list.
    Models src/baton_harness/chain/redispatch.py. */
module Redispatch {
  import opened Prelude
  import opened Decimal

  /** Marks in the half-open window `(lower, upper]`. */
  ghost function CountIn(marks: seq<int>, lower: int, upper: int): nat {
    if marks == [] then 0
    else CountIn(marks[..|marks| - 1], lower, upper) + if lower < marks[|marks| - 1] <= upper then 1 else 0
  }

  /** CountIn counts positions. */
  lemma {:induction false} CountInCounts(marks: seq<int>, lower: int, upper: int)
    ensures CountIn(marks, lower, upper) == |set i | 0 <= i < |marks| && lower < marks[i] <= upper|
  {
    if marks != [] {
      var front, end := marks[..|marks| - 1], |marks| - 1;
      CountInCounts(front, lower, upper);
      var inside := set i | 0 <= i < |marks| && lower < marks[i] <= upper;
      var earlier := set i | 0 <= i < |front| && lower < front[i] <= upper;
      if lower < marks[end] <= upper {
        assert inside == earlier + {end};
      } else {
        assert inside == earlier;
      }
    }
  }

  /** exceeds_threshold: more than `maxCount` of the marks lie in the half-open window. */
  method ExceedsThreshold(tickMarks: seq<int>, currentTick: int, windowTicks: int, maxCount: int)
      returns (exceeded: bool)
    ensures exceeded <==> CountIn(tickMarks, currentTick - windowTicks, currentTick) > maxCount
    ensures exceeded <==>
            |set i | 0 <= i < |tickMarks| && currentTick - windowTicks < tickMarks[i] <= currentTick| > maxCount
  {
    CountInCounts(tickMarks, currentTick - windowTicks, currentTick);
    var lower := currentTick - windowTicks;
    var count := 0;
    for i := 0 to |tickMarks|
      invariant count == CountIn(tickMarks[..i], lower, currentTick)
    {
      assert tickMarks[..i + 1][..i] == tickMarks[..i];
      if lower < tickMarks[i] <= currentTick { count := count + 1; }
    }
    assert tickMarks[..|tickMarks|] == tickMarks;
    exceeded := count > maxCount;
  }

  /** `[m for m in marks if m > lower]` */
  function Prune(marks: seq<int>, lower: int): (r: seq<int>) {
    if marks == [] then []
    else
      var kept := Prune(marks[..|marks| - 1], lower);
      if marks[|marks| - 1] > lower then kept + [marks[|marks| - 1]] else kept
  }

  lemma {:induction false} PruneAppend(marks: seq<int>, m: int, lower: int)
    ensures Prune(marks + [m], lower) == if m > lower then Prune(marks, lower) + [m] else Prune(marks, lower)
  {
    assert (marks + [m])[..|marks|] == marks;
  }

  /** Pruning drops exactly what is not after the bound. */
  lemma {:induction false} PruneDropsOnly(marks: seq<int>, lower: int, m: int)
    ensures multiset(Prune(marks, lower))[m] == if m > lower then multiset(marks)[m] else 0
  {
    if marks != [] {
      PruneDropsOnly(marks[..|marks| - 1], lower, m);
      assert marks == marks[..|marks| - 1] + [marks[|marks| - 1]];
    }
  }

  /** Pruning twice is pruning once with the later bound. */
  lemma {:induction false} PruneTwice(marks: seq<int>, lower: int, later: int)
    requires lower <= later
    ensures Prune(Prune(marks, lower), later) == Prune(marks, later)
  {
    if marks != [] {
      var front, m := marks[..|marks| - 1], marks[|marks| - 1];
      PruneTwice(front, lower, later);
      if m > lower { PruneAppend(Prune(front, lower), m, later); }
    }
  }

  /** What pruning drops lies outside the window, so the count does not change. */
  lemma {:induction false} PruneKeepsCount(marks: seq<int>, lower: int, upper: int)
    ensures CountIn(Prune(marks, lower), lower, upper) == CountIn(marks, lower, upper)
  {
    if marks != [] {
      var front, m := marks[..|marks| - 1], marks[|marks| - 1];
      PruneKeepsCount(front, lower, upper);
      if m > lower {
        assert Prune(marks, lower) == Prune(front, lower) + [m];
        assert (Prune(front, lower) + [m])[..|Prune(front, lower)|] == Prune(front, lower);
      }
    }
  }

  /** One call of record_and_check: the issue, the tick it happened in and the verdict. */
  datatype Attempt = Attempt(issue: int, tick: int, breached: bool)

  /** Every mark ever made for `n`: the loaded ones, then one per attempt, never pruned. */
  ghost function AllMarks(loaded: map<int, seq<int>>, log: seq<Attempt>, n: int): seq<int> {
    if log == [] then (if n in loaded then loaded[n] else [])
    else
      var last := log[|log| - 1];
      var earlier := AllMarks(loaded, log[..|log| - 1], n);
      if last.issue == n then earlier + [last.tick] else earlier
  }

  /** One more attempt for `n` in this tick would breach the window. */
  ghost predicate WouldBreach(loaded: map<int, seq<int>>, log: seq<Attempt>, tick: int, window: int, maxCount: int,
                              n: int)
  {
    CountIn(AllMarks(loaded, log, n) + [tick], tick - window, tick) > maxCount
  }

  /** Ticks never run backwards and each verdict is the one the complete history gives. */
  ghost predicate Faithful(loaded: map<int, seq<int>>, window: int, maxCount: int, log: seq<Attempt>) {
    forall i {:trigger FaithfulAt(loaded, window, maxCount, log, i)} :: 0 <= i < |log| ==>
      FaithfulAt(loaded, window, maxCount, log, i)
  }

  ghost predicate FaithfulAt(loaded: map<int, seq<int>>, window: int, maxCount: int, log: seq<Attempt>, i: nat)
    requires i < |log|
  {
    var a := log[i];
    && NotBeyond(log[..i], a.tick)
    && a.breached == WouldBreach(loaded, log[..i], a.tick, window, maxCount, a.issue)
  }

  ghost predicate NotBeyond(log: seq<Attempt>, tick: int) {
    forall i :: 0 <= i < |log| ==> log[i].tick <= tick
  }

  /** Allowed attempts for `n` in the ticks `(lower, upper]`. */
  ghost function AllowedIn(log: seq<Attempt>, n: int, lower: int, upper: int): nat {
    if log == [] then 0
    else
      var last := log[|log| - 1];
      AllowedIn(log[..|log| - 1], n, lower, upper)
      + if last.issue == n && !last.breached && lower < last.tick <= upper then 1 else 0
  }

  /** The budget over a whole run: no window of `window` ticks, wherever it lies, ever holds more
      than `maxCount` allowed re-dispatches of one issue. */
  lemma {:induction false} WindowBudget(loaded: map<int, seq<int>>, window: int, maxCount: nat,
                                       log: seq<Attempt>, n: int, upper: int)
    requires Faithful(loaded, window, maxCount, log)
    ensures AllowedIn(log, n, upper - window, upper) <= maxCount
    decreases |log|
  {
    if log != [] {
      var front, last := log[..|log| - 1], log[|log| - 1];
      if last.issue == n && !last.breached && upper - window < last.tick <= upper {
        assert FaithfulAt(loaded, window, maxCount, log, |front|);
        assert AllMarks(loaded, log, n) == AllMarks(loaded, front, n) + [last.tick];
        forall i | 0 <= i < |log| ensures log[i].tick <= last.tick {
          if i < |front| { assert log[i] == front[i]; }
        }
        AllowedAreMarked(loaded, log, n, upper - window, upper, last.tick - window, last.tick);
      } else {
        forall i | 0 <= i < |front| ensures FaithfulAt(loaded, window, maxCount, front, i) {
          assert FaithfulAt(loaded, window, maxCount, log, i);
          assert front[..i] == log[..i];
        }
        WindowBudget(loaded, window, maxCount, front, n, upper);
      }
    }
  }

  /** Positions of the earlier attempts for `n` after `lower`. */
  ghost function TriedSince(log: seq<Attempt>, i: nat, n: int, lower: int): set<int>
    requires i <= |log|
  {
    set j | 0 <= j < i && log[j].issue == n && lower < log[j].tick
  }

  /** Positions of the marks after `lower` and up to `upper`. */
  ghost function MarkedIn(marks: seq<int>, lower: int, upper: int): set<int> {
    set k | 0 <= k < |marks| && lower < marks[k] <= upper
  }

  lemma CountInAppend(marks: seq<int>, m: int, lower: int, upper: int)
    ensures CountIn(marks + [m], lower, upper) == CountIn(marks, lower, upper) + if lower < m <= upper then 1 else 0
  {
    assert (marks + [m])[..|marks|] == marks;
  }

  lemma TriedMore(log: seq<Attempt>, n: int, lower: int)
    requires log != []
    ensures var front, last := log[..|log| - 1], log[|log| - 1];
            |TriedSince(log, |log|, n, lower)|
            == |TriedSince(front, |front|, n, lower)| + if last.issue == n && lower < last.tick then 1 else 0
  {
    var front, last := log[..|log| - 1], log[|log| - 1];
    if last.issue == n && lower < last.tick {
      assert TriedSince(log, |log|, n, lower) == TriedSince(front, |front|, n, lower) + {|front|};
    } else {
      assert TriedSince(log, |log|, n, lower) == TriedSince(front, |front|, n, lower);
    }
  }

  lemma NothingTried(n: int, lower: int)
    ensures TriedSince([], 0, n, lower) == {}
  {
  }

  lemma {:induction false} AllMarksCount(loaded: map<int, seq<int>>, log: seq<Attempt>, n: int, lower: int, upper: int)
    requires NotBeyond(log, upper)
    ensures CountIn(AllMarks(loaded, log, n), lower, upper)
            == |MarkedIn(MarksIn(loaded, n), lower, upper)| + |TriedSince(log, |log|, n, lower)|
    decreases |log|
  {
    hide CountIn, TriedSince, MarkedIn;
    if log == [] {
      MarkedCounts(MarksIn(loaded, n), lower, upper);
      NothingTried(n, lower);
    } else {
      var front, last := log[..|log| - 1], log[|log| - 1];
      AllMarksCount(loaded, front, n, lower, upper);
      TriedMore(log, n, lower);
      CountInAppend(AllMarks(loaded, front, n), last.tick, lower, upper);
    }
  }

  lemma MarkedCounts(marks: seq<int>, lower: int, upper: int)
    ensures CountIn(marks, lower, upper) == |MarkedIn(marks, lower, upper)|
  {
    CountInCounts(marks, lower, upper);
  }

  /** The window is exact: an attempt is refused exactly when it, the earlier attempts for the issue in its window and
      the marks loaded for that window together exceed `maxCount`. */
  lemma RefusedExactly(loaded: map<int, seq<int>>, window: int, maxCount: int, log: seq<Attempt>, i: nat)
    requires Faithful(loaded, window, maxCount, log) && i < |log|
    ensures var a := log[i];
            var marks := MarksIn(loaded, a.issue);
            var earlier := |set j | 0 <= j < i && log[j].issue == a.issue && a.tick - window < log[j].tick|
                           + |set k | 0 <= k < |marks| && a.tick - window < marks[k] <= a.tick|;
            && (a.breached <==> earlier + (if window > 0 then 1 else 0) > maxCount)
            && (a.breached ==> earlier >= maxCount)
  {
    assert FaithfulAt(loaded, window, maxCount, log, i);
    var a := log[i];
    var lower, all := a.tick - window, AllMarks(loaded, log[..i], a.issue);
    AllMarksCount(loaded, log[..i], a.issue, lower, a.tick);
    assert (all + [a.tick])[..|all|] == all;
    assert TriedSince(log[..i], i, a.issue, lower)
        == set j | 0 <= j < i && log[j].issue == a.issue && lower < log[j].tick;
  }

  /** Allowed attempts of a window are among the marks of the window that ends with the last attempt. */
  lemma {:induction false} AllowedAreMarked(loaded: map<int, seq<int>>, log: seq<Attempt>, n: int,
                                           lower: int, upper: int, low: int, high: int)
    requires low <= lower
    requires forall i :: 0 <= i < |log| ==> log[i].tick <= high
    ensures AllowedIn(log, n, lower, upper) <= CountIn(AllMarks(loaded, log, n), low, high)
    decreases |log|
  {
    if log != [] {
      var front, last := log[..|log| - 1], log[|log| - 1];
      AllowedAreMarked(loaded, front, n, lower, upper, low, high);
      if last.issue == n {
        var marks := AllMarks(loaded, front, n);
        assert (marks + [last.tick])[..|marks|] == marks;
      }
    }
  }

  /** The attempts about one issue. */
  ghost function AttemptsOf(log: seq<Attempt>, n: int): seq<Attempt> {
    if log == [] then []
    else
      var last := log[|log| - 1];
      AttemptsOf(log[..|log| - 1], n) + if last.issue == n then [last] else []
  }

  lemma AttemptsAppend(loaded: map<int, seq<int>>, log: seq<Attempt>, a: Attempt, n: int)
    ensures AttemptsOf(log + [a], n) == AttemptsOf(log, n) + if a.issue == n then [a] else []
    ensures n != a.issue ==> AllMarks(loaded, log + [a], n) == AllMarks(loaded, log, n)
  {
    assert (log + [a])[..|log|] == log;
  }

  /** The JSON document: issue numbers become string keys. */
  datatype Document = Document(tick: int, issues: map<string, seq<int>>)

  /** `doc` holds exactly the entries of `issues` under the keys `key` gives them. */
  ghost predicate KeyedBy(doc: map<string, seq<int>>, issues: map<int, seq<int>>, key: int -> string) {
    && (forall n {:trigger key(n)} :: n in issues ==> key(n) in doc && doc[key(n)] == issues[n])
    && (forall k {:trigger k in doc} :: k in doc ==> exists n {:trigger key(n)} :: n in issues && k == key(n))
  }

  ghost predicate Encodes(doc: map<string, seq<int>>, issues: map<int, seq<int>>) {
    KeyedBy(doc, issues, IntText)
  }

  /** `issues` holds exactly the entries of `doc` outside `rest` whose key names an issue. */
  ghost predicate ReadBy(doc: map<string, seq<int>>, rest: set<string>, issues: map<int, seq<int>>,
                         name: string -> Option<int>) {
    && (forall n {:trigger n in issues} :: n in issues ==>
          exists k {:trigger name(k)} :: k in doc && name(k) == Some(n) && issues[n] == doc[k])
    && (forall k {:trigger name(k)} :: k in doc && k !in rest && name(k).Some? ==> name(k).value in issues)
  }

  /** Reading undoes writing whenever naming undoes keying. */
  lemma ReadUndoesWrite(doc: map<string, seq<int>>, issues: map<int, seq<int>>, saved: map<int, seq<int>>,
                        key: int -> string, name: string -> Option<int>)
    requires forall n: int {:trigger key(n)} :: name(key(n)) == Some(n)
    requires KeyedBy(doc, saved, key) && ReadBy(doc, {}, issues, name)
    ensures issues == saved
  {
    forall n | n in saved ensures n in issues {
      assert key(n) in doc && name(key(n)) == Some(n);
    }
    forall n | n in issues ensures n in saved && issues[n] == saved[n] {
      var k :| k in doc && name(k) == Some(n) && issues[n] == doc[k];
      var m :| m in saved && k == key(m);
      assert name(key(m)) == Some(m);
    }
  }

  lemma DecodeUndoesEncode(doc: map<string, seq<int>>, issues: map<int, seq<int>>, saved: map<int, seq<int>>)
    requires Encodes(doc, saved) && ReadBy(doc, {}, issues, ParseInt)
    ensures issues == saved
  {
    forall n: int ensures ParseInt(IntText(n)) == Some(n) { RoundTrip(n); }
    ReadUndoesWrite(doc, issues, saved, IntText, ParseInt);
  }

  /** The window bound that was in force when `n` was last recorded; loaded lists are unpruned. */
  ghost function LastBound(log: seq<Attempt>, window: int, n: int): Option<int> {
    if log == [] then None
    else if log[|log| - 1].issue == n then Some(log[|log| - 1].tick - window)
    else LastBound(log[..|log| - 1], window, n)
  }

  /** The full history of `n`, pruned at its last recording. */
  ghost function PrunedHistory(loaded: map<int, seq<int>>, log: seq<Attempt>, window: int, n: int): seq<int> {
    var all := AllMarks(loaded, log, n);
    match LastBound(log, window, n)
    case None => all
    case Some(lower) => Prune(all, lower)
  }

  lemma HistoryGrows(loaded: map<int, seq<int>>, log: seq<Attempt>, window: int, a: Attempt, n: int)
    ensures AllMarks(loaded, log + [a], n) ==
              if n == a.issue then AllMarks(loaded, log, n) + [a.tick] else AllMarks(loaded, log, n)
    ensures PrunedHistory(loaded, log + [a], window, n) ==
              if n == a.issue then Prune(AllMarks(loaded, log, n) + [a.tick], a.tick - window)
              else PrunedHistory(loaded, log, window, n)
  {
    assert (log + [a])[..|log|] == log;
  }

  lemma FaithfulGrows(loaded: map<int, seq<int>>, window: int, maxCount: int, log: seq<Attempt>, a: Attempt)
    requires Faithful(loaded, window, maxCount, log) && NotBeyond(log, a.tick)
    requires a.breached == WouldBreach(loaded, log, a.tick, window, maxCount, a.issue)
    ensures Faithful(loaded, window, maxCount, log + [a])
  {
    var longer := log + [a];
    forall i | 0 <= i < |longer| ensures FaithfulAt(loaded, window, maxCount, longer, i) {
      if i < |log| {
        assert FaithfulAt(loaded, window, maxCount, log, i);
        assert longer[..i] == log[..i];
      } else {
        assert longer[..i] == log;
      }
    }
  }

  lemma {:induction false} BoundIsOld(log: seq<Attempt>, window: int, n: int, tick: int)
    requires forall i :: 0 <= i < |log| ==> log[i].tick <= tick
    ensures LastBound(log, window, n).Some? ==> LastBound(log, window, n).value <= tick - window
  {
    if log != [] { BoundIsOld(log[..|log| - 1], window, n, tick); }
  }

  /** Appending to the pruned list and pruning again is pruning the full history. */
  lemma PruneAgain(loaded: map<int, seq<int>>, log: seq<Attempt>, window: int, n: int, tick: int)
    requires forall i :: 0 <= i < |log| ==> log[i].tick <= tick
    ensures Prune(PrunedHistory(loaded, log, window, n) + [tick], tick - window)
            == Prune(AllMarks(loaded, log, n) + [tick], tick - window)
  {
    var all, lower := AllMarks(loaded, log, n), tick - window;
    PruneAppend(PrunedHistory(loaded, log, window, n), tick, lower);
    PruneAppend(all, tick, lower);
    BoundIsOld(log, window, n, tick);
    if LastBound(log, window, n).Some? { PruneTwice(all, LastBound(log, window, n).value, lower); }
  }

  function MarksIn(issues: map<int, seq<int>>, n: int): seq<int> {
    if n in issues then issues[n] else []
  }

  /** Every stored list is the full history pruned at its last recording. */
  ghost predicate Stores(loaded: map<int, seq<int>>, log: seq<Attempt>, window: int, issues: map<int, seq<int>>) {
    forall n: int {:trigger MarksIn(issues, n)} :: MarksIn(issues, n) == PrunedHistory(loaded, log, window, n)
  }

  lemma StoreGrows(loaded: map<int, seq<int>>, log: seq<Attempt>, window: int, issues: map<int, seq<int>>,
                   a: Attempt, marks: seq<int>)
    requires Stores(loaded, log, window, issues) && NotBeyond(log, a.tick)
    requires marks == Prune(AllMarks(loaded, log, a.issue) + [a.tick], a.tick - window)
    ensures Stores(loaded, log + [a], window, issues[a.issue := marks])
  {
    var grown := issues[a.issue := marks];
    forall n: int ensures MarksIn(grown, n) == PrunedHistory(loaded, log + [a], window, n) {
      HistoryGrows(loaded, log, window, a, n);
      assert MarksIn(issues, n) == PrunedHistory(loaded, log, window, n);
    }
  }

  /** One recording, on values: the stored lists stay pruned histories and the verdict is faithful. */
  lemma OneRecording(loaded: map<int, seq<int>>, log: seq<Attempt>, window: int, maxCount: int,
                 issues: map<int, seq<int>>, a: Attempt, marks: seq<int>)
    requires Stores(loaded, log, window, issues) && NotBeyond(log, a.tick)
    requires Faithful(loaded, window, maxCount, log)
    requires marks == Prune(MarksIn(issues, a.issue) + [a.tick], a.tick - window)
    requires a.breached <==> CountIn(marks, a.tick - window, a.tick) > maxCount
    ensures Stores(loaded, log + [a], window, issues[a.issue := marks])
    ensures Faithful(loaded, window, maxCount, log + [a])
    ensures a.breached == WouldBreach(loaded, log, a.tick, window, maxCount, a.issue)
  {
    assert MarksIn(issues, a.issue) == PrunedHistory(loaded, log, window, a.issue);
    PruneAgain(loaded, log, window, a.issue, a.tick);
    PruneKeepsCount(AllMarks(loaded, log, a.issue) + [a.tick], a.tick - window, a.tick);
    StoreGrows(loaded, log, window, issues, a, marks);
    FaithfulGrows(loaded, window, maxCount, log, a);
  }

  class RedispatchTally {
    const windowTicks: int
    const maxCount: int
    var tick: int
    var issues: map<int, seq<int>>
    var disk: Option<Document>

    ghost const loaded: map<int, seq<int>>
    ghost var log: seq<Attempt>

    ghost predicate Breaches(n: int)
      reads this
    {
      WouldBreach(loaded, log, tick, windowTicks, maxCount, n)
    }

    ghost predicate Valid()
      reads this
    {
      && Faithful(loaded, windowTicks, maxCount, log)
      && NotBeyond(log, tick)
      && Stores(loaded, log, windowTicks, issues)
    }

    /** `_load`: unreadable state counts as empty, unparsable keys are skipped. */
    constructor (stored: Option<Document>, windowTicks0: int, maxCount0: int)
      ensures Valid() && windowTicks == windowTicks0 && maxCount == maxCount0 && log == [] && disk == stored
      ensures stored.None? ==> tick == 0 && issues == map[]
      ensures stored.Some? ==> tick == stored.value.tick && ReadBy(stored.value.issues, {}, issues, ParseInt)
    {
      windowTicks, maxCount, disk := windowTicks0, maxCount0, stored;
      var issues0 := map[];
      if stored.Some? { issues0 := DecodeIssues(stored.value.issues); }
      tick := if stored.Some? then stored.value.tick else 0;
      issues := issues0;
      loaded, log := issues0, [];
    }

    /** `_load` of a document that an earlier tally saved, whose history goes on. */
    constructor Resume(stored: Document, windowTicks0: int, maxCount0: int, ghost loaded0: map<int, seq<int>>,
                       ghost log0: seq<Attempt>)
      requires Faithful(loaded0, windowTicks0, maxCount0, log0) && NotBeyond(log0, stored.tick)
      requires exists saved :: Encodes(stored.issues, saved) && Stores(loaded0, log0, windowTicks0, saved)
      ensures Valid() && windowTicks == windowTicks0 && maxCount == maxCount0 && disk == Some(stored)
      ensures tick == stored.tick && Encodes(stored.issues, issues) && loaded == loaded0 && log == log0
    {
      windowTicks, maxCount, disk := windowTicks0, maxCount0, Some(stored);
      var issues0 := DecodeIssues(stored.issues);
      tick, issues := stored.tick, issues0;
      loaded, log := loaded0, log0;
      ghost var saved :| Encodes(stored.issues, saved) && Stores(loaded0, log0, windowTicks0, saved);
      DecodeUndoesEncode(stored.issues, issues0, saved);
    }

    static method DecodeIssues(doc: map<string, seq<int>>) returns (issues: map<int, seq<int>>)
      ensures ReadBy(doc, {}, issues, ParseInt)
    {
      issues := map[];
      var rest := doc.Keys;
      while rest != {}
        invariant rest <= doc.Keys && ReadBy(doc, rest, issues, ParseInt)
      {
        var key := AnyOf(rest);
        match ParseInt(key) {
          case Some(n) => issues := issues[n := doc[key]];
          case None =>
        }
        rest := rest - {key};
      }
    }

    /** `_persist`: a failed write leaves the previous document in place. */
    method Persist(writeSucceeds: bool)
      modifies this`disk
      ensures if writeSucceeds
              then disk.Some? && disk.value.tick == tick && Encodes(disk.value.issues, issues)
              else disk == old(disk)
    {
      if !writeSucceeds { return; }
      var doc: map<string, seq<int>> := map[];
      var rest := issues.Keys;
      while rest != {}
        invariant rest <= issues.Keys
        invariant forall n :: n in issues && n !in rest ==> IntText(n) in doc && doc[IntText(n)] == issues[n]
        invariant forall key :: key in doc ==> exists n :: n in issues && n !in rest && key == IntText(n)
      {
        var n := AnyOf(rest);
        forall m | m in issues && IntText(m) == IntText(n) ensures m == n { IntTextInjective(m, n); }
        doc := doc[IntText(n) := issues[n]];
        rest := rest - {n};
      }
      disk := Some(Document(tick, doc));
    }

    method AdvanceTick(writeSucceeds: bool) returns (now: int)
      requires Valid()
      modifies this
      ensures Valid() && now == tick == old(tick) + 1 && issues == old(issues) && log == old(log)
      ensures writeSucceeds ==> Saved()
    {
      tick := tick + 1;
      Persist(writeSucceeds);
      now := tick;
    }

    /** The pruned list gives the verdict the complete history gives. What happens depends on the tick and the
        stored marks alone, so a reloaded tally goes on as the saved one would have. Persisting cannot change the
        verdict, so it is done after the threshold check here. */
    method RecordAndCheck(issue: int, writeSucceeds: bool) returns (breached: bool)
      requires Valid()
      modifies this
      ensures Valid() && tick == old(tick)
      ensures log == old(log) + [Attempt(issue, tick, breached)]
      ensures breached == old(Breaches(issue))
      ensures issues == old(issues)[issue := Prune(MarksIn(old(issues), issue) + [tick], tick - windowTicks)]
      ensures breached <==>
              |set k | 0 <= k < |issues[issue]| && tick - windowTicks < issues[issue][k] <= tick| > maxCount
      ensures writeSucceeds ==> Saved()
    {
      hide Prune;
      breached := Record(issue);
      CountInCounts(issues[issue], tick - windowTicks, tick);
      Persist(writeSucceeds);
    }

    method Record(issue: int) returns (breached: bool)
      requires Valid()
      modifies this`issues, this`log
      ensures Valid()
      ensures log == old(log) + [Attempt(issue, tick, breached)]
      ensures breached == old(Breaches(issue))
      ensures issues == old(issues)[issue := Prune(MarksIn(old(issues), issue) + [tick], tick - windowTicks)]
      ensures breached <==> CountIn(issues[issue], tick - windowTicks, tick) > maxCount
    {
      hide Prune;
      ghost var issues0 := issues;
      var marks := Prune(MarksIn(issues, issue) + [tick], tick - windowTicks);
      issues := issues[issue := marks];
      breached := ExceedsThreshold(marks, tick, windowTicks, maxCount);
      ghost var attempt := Attempt(issue, tick, breached);
      OneRecording(loaded, log, windowTicks, maxCount, issues0, attempt, marks);
      log := log + [attempt];
    }

    /** The document on disk is the state in memory, so a restart here changes nothing. */
    ghost predicate Saved()
      reads this
    {
      disk.Some? && disk.value.tick == tick && Encodes(disk.value.issues, issues)
    }
  }

  /** A restart after a successful persist: the reloaded tally has the saved state and the saved history. */
  method Restart(tally: RedispatchTally) returns (reloaded: RedispatchTally)
    requires tally.Valid() && tally.Saved()
    ensures fresh(reloaded) && reloaded.Valid() && reloaded.Saved()
    ensures reloaded.tick == tally.tick && reloaded.issues == tally.issues && reloaded.disk == tally.disk
    ensures reloaded.windowTicks == tally.windowTicks && reloaded.maxCount == tally.maxCount
    ensures reloaded.loaded == tally.loaded && reloaded.log == tally.log
  {
    var stored := tally.disk.value;
    reloaded := new RedispatchTally.Resume(stored, tally.windowTicks, tally.maxCount, tally.loaded, tally.log);
    EncodesOne(stored.issues, tally.issues, reloaded.issues);
  }

  lemma EncodesOne(doc: map<string, seq<int>>, a: map<int, seq<int>>, b: map<int, seq<int>>)
    requires Encodes(doc, a) && Encodes(doc, b)
    ensures a == b
  {
    forall n | n in a ensures n in b && a[n] == b[n] {
      assert IntText(n) in doc;
      var m :| m in b && IntText(n) == IntText(m);
      IntTextInjective(m, n);
    }
    forall n | n in b ensures n in a {
      assert IntText(n) in doc;
      var m :| m in a && IntText(n) == IntText(m);
      IntTextInjective(m, n);
    }
  }

  /** What happens to a tally over the life of the daemon. */
  datatype Op = Advance | Record(issue: int) | Reload

  function Recorded(ops: seq<Op>): seq<int> {
    if ops == [] then []
    else
      var last := ops[|ops| - 1];
      Recorded(ops[..|ops| - 1]) + if last.Record? then [last.issue] else []
  }

  /** `log` is `log0` and then one attempt for each of `issues`. */
  ghost predicate Grew(log0: seq<Attempt>, log: seq<Attempt>, issues: seq<int>) {
    |log| == |log0| + |issues| && log0 <= log
    && forall i :: 0 <= i < |issues| ==> log[|log0| + i].issue == issues[i]
  }

  /** No window, wherever it lies, holds more than `maxCount` allowed re-dispatches of an issue. */
  ghost predicate WithinBudget(log: seq<Attempt>, window: int, maxCount: int) {
    forall n, lower, upper {:trigger AllowedIn(log, n, lower, upper)} ::
      upper - lower <= window ==> AllowedIn(log, n, lower, upper) <= maxCount
  }

  lemma {:induction false} NarrowerHoldsFewer(log: seq<Attempt>, n: int, lower: int, lower1: int, upper: int)
    requires lower1 <= lower
    ensures AllowedIn(log, n, lower, upper) <= AllowedIn(log, n, lower1, upper)
  {
    if log != [] { NarrowerHoldsFewer(log[..|log| - 1], n, lower, lower1, upper); }
  }

  lemma FaithfulIsWithinBudget(loaded: map<int, seq<int>>, window: int, maxCount: nat, log: seq<Attempt>)
    requires Faithful(loaded, window, maxCount, log)
    ensures WithinBudget(log, window, maxCount)
  {
    forall n, lower, upper | upper - lower <= window ensures AllowedIn(log, n, lower, upper) <= maxCount {
      WindowBudget(loaded, window, maxCount, log, n, upper);
      NarrowerHoldsFewer(log, n, lower, upper - window, upper);
    }
  }

  method Perform(tally: RedispatchTally, op: Op) returns (next: RedispatchTally)
    requires tally.Valid() && tally.Saved()
    modifies tally
    ensures next.Valid() && next.Saved() && (next == tally || fresh(next))
    ensures next.loaded == tally.loaded && next.windowTicks == tally.windowTicks && next.maxCount == tally.maxCount
    ensures Grew(old(tally.log), next.log, if op.Record? then [op.issue] else [])
  {
    next := tally;
    match op {
      case Advance => var _ := tally.AdvanceTick(true);
      case Record(n) => var _ := tally.RecordAndCheck(n, true);
      case Reload => next := Restart(tally);
    }
  }

  /** Any number of ticks, attempts and restarts in any order, with every persist succeeding: each attempt is in the
      history, restarts or not, and the history as a whole keeps the budget. */
  method Live(tally: RedispatchTally, ops: seq<Op>) returns (last: RedispatchTally)
    requires tally.Valid() && tally.Saved() && tally.maxCount >= 0
    modifies tally
    ensures last.Valid() && (last == tally || fresh(last))
    ensures Grew(old(tally.log), last.log, Recorded(ops))
    ensures WithinBudget(last.log, tally.windowTicks, tally.maxCount)
  {
    last := tally;
    ghost var log0 := tally.log;
    for i := 0 to |ops|
      invariant last.Valid() && last.Saved() && (last == tally || fresh(last))
      invariant last.windowTicks == tally.windowTicks && last.maxCount == tally.maxCount
      invariant Grew(log0, last.log, Recorded(ops[..i]))
    {
      assert ops[..i + 1][..i] == ops[..i];
      last := Perform(last, ops[i]);
    }
    assert ops[..|ops|] == ops;
    FaithfulIsWithinBudget(last.loaded, last.windowTicks, last.maxCount, last.log);
  }
}
