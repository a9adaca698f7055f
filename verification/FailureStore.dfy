/** The JSON document behind the failure tally.
    Models _load and _persist in src/baton_harness/chain/failure_tally.py. */
module FailureStore {
  import opened Prelude
  import opened Dag
  import opened JsonValues
  import opened Decimal

  /** `issues` in file order under distinct keys, and `alerted`; a part that is missing or of another type reads like an
      empty one. */
  datatype Document = Document(issues: seq<(string, Json)>, alerted: seq<Json>)

  /** isinstance(count, int), which a boolean passes. */
  function AsCount(j: Json): Option<int> {
    match j
    case Num(n) => Some(n)
    case Bool(b) => Some(if b then 1 else 0)
    case _ => None
  }

  /** int(key) of an alerted entry; None where it raises. */
  function AsIssue(j: Json): Option<Issue> {
    match j
    case Str(s) => ParseInt(s)
    case _ => AsCount(j)
  }

  /** None when a key of an integer count is no number: the exception leaves the whole tally empty. */
  function ReadCounts(issues: seq<(string, Json)>): Option<map<Issue, int>> {
    if issues == [] then Some(map[])
    else
      var front, (key, count) := issues[..|issues| - 1], issues[|issues| - 1];
      match ReadCounts(front)
      case None => None
      case Some(counts) =>
        if AsCount(count).None? then Some(counts)
        else if ParseInt(key).None? then None
        else Some(counts[ParseInt(key).value := AsCount(count).value])
  }

  function ReadAlerted(alerted: seq<Json>): set<Issue> {
    set j | j in alerted && AsIssue(j).Some? :: AsIssue(j).value
  }

  /** What a tally starts from; None is a file that is missing, unreadable or no JSON object. */
  function Loaded(disk: Option<Document>): (map<Issue, int>, set<Issue>) {
    if disk.None? || ReadCounts(disk.value.issues).None? then (map[], {})
    else (ReadCounts(disk.value.issues).value, ReadAlerted(disk.value.alerted))
  }

  function CountOf(counts: map<Issue, int>, n: Issue): int {
    if n in counts then counts[n] else 0
  }

  /** The entry is an integer count, so its key is read. */
  ghost predicate Counting(entry: (string, Json)) {
    entry.1.Num? || entry.1.Bool?
  }

  /** One integer count under a key that is no number. */
  ghost predicate Spoiled(issues: seq<(string, Json)>) {
    exists i :: 0 <= i < |issues| && Counting(issues[i]) && ParseInt(issues[i].0).None?
  }

  /** Entry `i` is the last integer count for issue `n`. */
  ghost predicate LastFor(issues: seq<(string, Json)>, n: Issue, i: int) {
    0 <= i < |issues| && Counting(issues[i]) && ParseInt(issues[i].0) == Some(n)
    && forall j :: i < j < |issues| && Counting(issues[j]) ==> ParseInt(issues[j].0) != Some(n)
  }

  /** The count of an issue is that of its last entry. */
  ghost predicate CountsAre(issues: seq<(string, Json)>, counts: map<Issue, int>) {
    && (forall n :: n in counts ==> exists i :: LastFor(issues, n, i) && AsCount(issues[i].1) == Some(counts[n]))
    && (forall n, i {:trigger LastFor(issues, n, i)} :: LastFor(issues, n, i) ==> n in counts)
  }

  lemma LastForStep(front: seq<(string, Json)>, entry: (string, Json), n: Issue, i: int)
    ensures LastFor(front + [entry], n, i) <==>
            if Counting(entry) && ParseInt(entry.0) == Some(n) then i == |front| else LastFor(front, n, i)
  {
    hide ParseInt;
    var longer := front + [entry];
    assert longer[|front|] == entry;
    forall j | 0 <= j < |front| ensures longer[j] == front[j] {}
    if LastFor(longer, n, i) && i < |front| {
      forall j | i < j < |front| && Counting(front[j]) ensures ParseInt(front[j].0) != Some(n) {
        assert longer[j] == front[j];
      }
    }
  }

  lemma CountsStep(front: seq<(string, Json)>, entry: (string, Json), counts: map<Issue, int>)
    requires CountsAre(front, counts)
    ensures !Counting(entry) ==> CountsAre(front + [entry], counts)
    ensures Counting(entry) && ParseInt(entry.0).Some? ==>
              CountsAre(front + [entry], counts[ParseInt(entry.0).value := AsCount(entry.1).value])
  {
    hide ParseInt, LastFor;
    var longer := front + [entry];
    forall n, i ensures LastFor(longer, n, i) <==>
                        if Counting(entry) && ParseInt(entry.0) == Some(n) then i == |front| else LastFor(front, n, i) {
      LastForStep(front, entry, n, i);
    }
    assert longer[|front|] == entry;
    forall n, i | LastFor(front, n, i) ensures 0 <= i < |front| && longer[i] == front[i] {
      LastForIsThere(front, n, i);
    }
  }

  lemma LastForIsThere(issues: seq<(string, Json)>, n: Issue, i: int)
    requires LastFor(issues, n, i)
    ensures 0 <= i < |issues|
  {
  }

  lemma {:induction false} ReadCountsIs(issues: seq<(string, Json)>)
    ensures ReadCounts(issues).None? <==> Spoiled(issues)
    ensures ReadCounts(issues).Some? ==> CountsAre(issues, ReadCounts(issues).value)
  {
    hide ParseInt, LastFor;
    if issues == [] {
      forall n, i ensures !LastFor(issues, n, i) { NothingIsLast(n, i); }
    } else {
      var front, entry := issues[..|issues| - 1], issues[|issues| - 1];
      ReadCountsIs(front);
      assert issues == front + [entry];
      SpoiledStep(front, entry);
      if ReadCounts(front).Some? { CountsStep(front, entry, ReadCounts(front).value); }
    }
  }

  lemma NothingIsLast(n: Issue, i: int)
    ensures !LastFor([], n, i)
  {
  }

  lemma SpoiledStep(front: seq<(string, Json)>, entry: (string, Json))
    ensures Spoiled(front + [entry]) <==> Spoiled(front) || (Counting(entry) && ParseInt(entry.0).None?)
  {
    hide ParseInt;
    var longer := front + [entry];
    assert longer[|front|] == entry;
    if i :| 0 <= i < |front| && Counting(front[i]) && ParseInt(front[i].0).None? { assert longer[i] == front[i]; }
  }

  /** An unreadable file, or one key of an integer count that is no number, leaves the tally empty; otherwise each issue
      has the last integer count under its number, and every alerted entry that is a number counts. */
  method Load(disk: Option<Document>) returns (counts: map<Issue, int>, alerted: set<Issue>)
    ensures (counts, alerted) == Loaded(disk)
    ensures disk.None? || Spoiled(disk.value.issues) ==> counts == map[] && alerted == {}
    ensures disk.Some? && !Spoiled(disk.value.issues) ==>
              && (forall n :: n in counts ==>
                    exists i :: LastFor(disk.value.issues, n, i)
                                && disk.value.issues[i].1 in {Num(counts[n]), Bool(counts[n] == 1)})
              && (forall entry :: entry in disk.value.issues && Counting(entry) ==> ParseInt(entry.0).value in counts)
              && (forall n :: n in alerted <==>
                    exists j :: j in disk.value.alerted
                                && (j == Num(n) || (j.Str? && ParseInt(j.s) == Some(n))
                                    || (j.Bool? && n == if j.b then 1 else 0)))
  {
    hide Spoiled, LastFor, ParseInt, ReadAlerted, ReadCounts;
    if disk.None? { return map[], {}; }
    LoadedIs(disk.value);
    var read := LoadCounts(disk.value.issues);
    if read.None? { return map[], {}; }
    counts := read.value;
    alerted := LoadAlerted(disk.value.alerted);
  }

  method LoadCounts(issues: seq<(string, Json)>) returns (read: Option<map<Issue, int>>)
    ensures read == ReadCounts(issues)
  {
    var counts: map<Issue, int> := map[];
    for i := 0 to |issues|
      invariant ReadCounts(issues[..i]) == Some(counts)
    {
      assert issues[..i + 1][..i] == issues[..i];
      var (key, count) := issues[i];
      if AsCount(count).Some? {
        if ParseInt(key).None? {
          NoneStays(issues, i + 1);
          return None;
        }
        counts := counts[ParseInt(key).value := AsCount(count).value];
      }
    }
    assert issues[..|issues|] == issues;
    return Some(counts);
  }

  method LoadAlerted(entries: seq<Json>) returns (alerted: set<Issue>)
    ensures alerted == ReadAlerted(entries)
  {
    alerted := {};
    for i := 0 to |entries|
      invariant alerted == ReadAlerted(entries[..i])
    {
      AlertedOne(entries, i);
      if AsIssue(entries[i]).Some? { alerted := alerted + {AsIssue(entries[i]).value}; }
    }
    assert entries[..|entries|] == entries;
  }

  lemma LoadedIs(doc: Document)
    ensures var (counts, alerted) := Loaded(Some(doc));
            if Spoiled(doc.issues) then counts == map[] && alerted == {}
            else
              && (forall n :: n in counts ==>
                    exists i :: LastFor(doc.issues, n, i)
                                && doc.issues[i].1 in {Num(counts[n]), Bool(counts[n] == 1)})
              && (forall entry :: entry in doc.issues && Counting(entry) ==> ParseInt(entry.0).value in counts)
              && (forall n :: n in alerted <==>
                    exists j :: j in doc.alerted
                                && (j == Num(n) || (j.Str? && ParseInt(j.s) == Some(n))
                                    || (j.Bool? && n == if j.b then 1 else 0)))
  {
    hide ParseInt;
    ReadCountsIs(doc.issues);
    if !Spoiled(doc.issues) {
      var counts := ReadCounts(doc.issues).value;
      forall n | n in counts
        ensures exists i :: LastFor(doc.issues, n, i) && doc.issues[i].1 in {Num(counts[n]), Bool(counts[n] == 1)}
      {
        var i :| LastFor(doc.issues, n, i) && AsCount(doc.issues[i].1) == Some(counts[n]);
        assert doc.issues[i].1 in {Num(counts[n]), Bool(counts[n] == 1)};
      }
      forall entry | entry in doc.issues && Counting(entry) ensures ParseInt(entry.0).value in counts {
        var i :| 0 <= i < |doc.issues| && doc.issues[i] == entry;
        LastOfIt(doc.issues, ParseInt(doc.issues[i].0).value, i);
      }
    }
  }

  /** A number that has an entry has a last one. */
  lemma LastOfIt(issues: seq<(string, Json)>, n: Issue, i: int)
    requires 0 <= i < |issues| && Counting(issues[i]) && ParseInt(issues[i].0) == Some(n)
    ensures exists k :: LastFor(issues, n, k)
    decreases |issues| - i
  {
    hide ParseInt;
    if j :| i < j < |issues| && Counting(issues[j]) && ParseInt(issues[j].0) == Some(n) {
      LastOfIt(issues, n, j);
    } else {
      assert LastFor(issues, n, i);
    }
  }

  lemma AlertedOne(alerted: seq<Json>, i: nat)
    requires i < |alerted|
    ensures ReadAlerted(alerted[..i + 1]) == ReadAlerted(alerted[..i])
              + if AsIssue(alerted[i]).Some? then {AsIssue(alerted[i]).value} else {}
  {
    assert alerted[..i + 1] == alerted[..i] + [alerted[i]];
  }

  lemma {:induction false} NoneStays(issues: seq<(string, Json)>, i: nat)
    requires i <= |issues| && ReadCounts(issues[..i]).None?
    ensures ReadCounts(issues).None?
    decreases |issues|
  {
    if i == |issues| {
      assert issues[..i] == issues;
    } else {
      assert issues[..|issues| - 1][..i] == issues[..i];
      NoneStays(issues[..|issues| - 1], i);
    }
  }

  // ----- Writing -----

  /** One entry per count, under `str(n)`, and one string per alerted issue. */
  ghost predicate Written(doc: Document, counts: map<Issue, int>, alerted: set<Issue>) {
    && (exists order :: NoDup(order) && Elems(order) == counts.Keys && Entries(doc.issues, order, counts))
    && (exists flagged :: NoDup(flagged) && Elems(flagged) == alerted && Names(doc.alerted, flagged))
  }

  ghost predicate Entries(issues: seq<(string, Json)>, order: seq<Issue>, counts: map<Issue, int>) {
    |issues| == |order| && forall i :: 0 <= i < |order| ==>
      order[i] in counts && issues[i] == (IntText(order[i]), Num(counts[order[i]]))
  }

  ghost predicate Names(names: seq<Json>, flagged: seq<Issue>) {
    |names| == |flagged| && forall i :: 0 <= i < |flagged| ==> names[i] == Str(IntText(flagged[i]))
  }

  lemma OneMoreElem(order: seq<Issue>, n: Issue)
    ensures Elems(order + [n]) == Elems(order) + {n}
    ensures NoDup(order) && n !in Elems(order) ==> NoDup(order + [n])
  {
    forall x ensures x in Elems(order + [n]) <==> x in Elems(order) + {n} {}
  }

  /** The order in which the entries are written does not show when they are read. */
  method Encode(counts: map<Issue, int>, alerted: set<Issue>) returns (doc: Document)
    ensures Written(doc, counts, alerted)
  {
    var issues: seq<(string, Json)>, names: seq<Json> := [], [];
    ghost var order, flagged: seq<Issue> := [], [];
    var rest := counts.Keys;
    while rest != {}
      invariant rest <= counts.Keys
      invariant NoDup(order) && Elems(order) == counts.Keys - rest && Entries(issues, order, counts)
    {
      var n := AnyOf(rest);
      OneMoreElem(order, n);
      issues, order, rest := issues + [(IntText(n), Num(counts[n]))], order + [n], rest - {n};
    }
    rest := alerted;
    while rest != {}
      invariant rest <= alerted && NoDup(flagged) && Elems(flagged) == alerted - rest && Names(names, flagged)
    {
      var n := AnyOf(rest);
      OneMoreElem(flagged, n);
      names, flagged, rest := names + [Str(IntText(n))], flagged + [n], rest - {n};
    }
    doc := Document(issues, names);
  }

  /** The counts of the issues in `order`. */
  ghost predicate Restricts(m: map<Issue, int>, order: seq<Issue>, counts: map<Issue, int>) {
    m.Keys == Elems(order) && forall n :: n in m ==> n in counts && m[n] == counts[n]
  }

  lemma {:induction false} ReadsEntries(issues: seq<(string, Json)>, order: seq<Issue>, counts: map<Issue, int>)
    requires Entries(issues, order, counts)
    ensures ReadCounts(issues).Some? && Restricts(ReadCounts(issues).value, order, counts)
  {
    hide IntText, Elems, Restricts;
    if issues == [] {
      RestrictsNothing(counts);
    } else {
      var tail, front, n := issues[..|issues| - 1], order[..|order| - 1], order[|order| - 1];
      ReadsEntries(tail, front, counts);
      assert order == front + [n];
      RestrictsMore(ReadCounts(tail).value, front, counts, n);
      ReadsOne(tail, n, counts[n]);
      assert issues == tail + [(IntText(n), Num(counts[n]))];
    }
  }

  lemma RestrictsNothing(counts: map<Issue, int>)
    ensures Restricts(map[], [], counts)
  {
  }

  lemma RestrictsMore(m: map<Issue, int>, front: seq<Issue>, counts: map<Issue, int>, n: Issue)
    requires Restricts(m, front, counts) && n in counts
    ensures Restricts(m[n := counts[n]], front + [n], counts)
  {
    OneMoreElem(front, n);
  }

  lemma ReadsOne(front: seq<(string, Json)>, n: Issue, count: int)
    requires ReadCounts(front).Some?
    ensures ReadCounts(front + [(IntText(n), Num(count))]) == Some(ReadCounts(front).value[n := count])
  {
    RoundTrip(n);
    assert (front + [(IntText(n), Num(count))])[..|front|] == front;
  }

  lemma ReadsNames(names: seq<Json>, flagged: seq<Issue>)
    requires Names(names, flagged)
    ensures ReadAlerted(names) == Elems(flagged)
  {
    forall n | n in Elems(flagged) ensures n in ReadAlerted(names) {
      var i :| 0 <= i < |flagged| && flagged[i] == n;
      RoundTrip(n);
      assert names[i] in names && AsIssue(names[i]) == Some(n);
    }
    forall n | n in ReadAlerted(names) ensures n in Elems(flagged) {
      var j :| j in names && AsIssue(j) == Some(n);
      var i :| 0 <= i < |names| && names[i] == j;
      RoundTrip(flagged[i]);
    }
  }

  /** A tally that was written down is read back as it was. */
  lemma LoadUndoesWrite(doc: Document, counts: map<Issue, int>, alerted: set<Issue>)
    requires Written(doc, counts, alerted)
    ensures Loaded(Some(doc)) == (counts, alerted)
  {
    hide ReadCounts, ReadAlerted, NoDup;
    var order :| Elems(order) == counts.Keys && Entries(doc.issues, order, counts);
    var flagged :| Elems(flagged) == alerted && Names(doc.alerted, flagged);
    ReadsEntries(doc.issues, order, counts);
    ReadsNames(doc.alerted, flagged);
    WholeIsRestricted(ReadCounts(doc.issues).value, order, counts);
  }

  lemma WholeIsRestricted(m: map<Issue, int>, order: seq<Issue>, counts: map<Issue, int>)
    requires Restricts(m, order, counts) && Elems(order) == counts.Keys
    ensures m == counts
  {
    assert m.Keys == counts.Keys;
    forall n | n in counts ensures n in m && m[n] == counts[n] {
      assert n in m.Keys;
    }
  }
}
