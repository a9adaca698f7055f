/** The provenance trailer: what a merge writes and what recovery reads back from the log.
    Models the merge message of merge_issue_branch in src/baton_harness/chain/merge.py and
    _fetch_provenance_merges in src/baton_harness/chain/recovery.py. */
module Provenance {
  import opened Prelude
  import opened Text
  import Decimal

  const PREFIX := "Baton-Harness-Merge: issue-"
  const UNIT_SEPARATOR := '\U{1f}'
  const RECORD_SEPARATOR := '\U{1e}'

  // ----- Reading -----

  /** What a line of a commit message is read as. */
  type Reader = string -> Option<int>

  /** The issue a trailer line names; whatever follows the number is not looked at. */
  function TrailerIssue(prefix: string, line: string): Option<int> {
    var l := Strip(line);
    if prefix <= l then Decimal.ParseInt(FirstToken(l[|prefix|..])) else None
  }

  /** The reader recovery uses. */
  function Trailers(line: string): Option<int> {
    TrailerIssue(PREFIX, line)
  }

  function IssuesOf(read: Reader, lines: seq<string>): set<int> {
    set line | line in lines && read(line).Some? :: read(line).value
  }

  /** The issues named by the trailer lines of a commit message. */
  function BodyIssues(read: Reader, body: string): set<int> {
    IssuesOf(read, Lines(body))
  }

  /** One record of the log: a hash, a unit separator and the message. */
  function RecordBody(record: string): Option<string> {
    var r := Strip(record);
    var k := IndexOf(r, UNIT_SEPARATOR);
    if r == "" || k == |r| then None else Some(r[k + 1..])
  }

  function RecordIssues(read: Reader, record: string): set<int> {
    if RecordBody(record).Some? then BodyIssues(read, RecordBody(record).value) else {}
  }

  function RecordsIssues(read: Reader, records: seq<string>): set<int> {
    set r, n | r in records && n in RecordIssues(read, r) :: n
  }

  function LogIssues(read: Reader, log: string): set<int> {
    RecordsIssues(read, Split(log, RECORD_SEPARATOR))
  }

  /** The nested record and line loops. */
  method FetchProvenanceMerges(log: string) returns (found: set<int>)
    ensures found == LogIssues(Trailers, log)
  {
    found := {};
    var records := Split(log, RECORD_SEPARATOR);
    for i := 0 to |records|
      invariant found == RecordsIssues(Trailers, records[..i])
    {
      RecordsAppend(Trailers, records, i);
      var body := RecordBody(records[i]);
      if body.None? { continue; }
      var lines := Lines(body.value);
      for k := 0 to |lines|
        invariant found == RecordsIssues(Trailers, records[..i]) + IssuesOf(Trailers, lines[..k])
      {
        LinesAppend(Trailers, lines, k);
        var issue := Trailers(lines[k]);
        if issue.Some? { found := found + {issue.value}; }
      }
      assert lines[..|lines|] == lines;
    }
    assert records[..|records|] == records;
  }

  lemma LinesAppend(read: Reader, lines: seq<string>, k: nat)
    requires k < |lines|
    ensures IssuesOf(read, lines[..k + 1]) == IssuesOf(read, lines[..k])
              + if read(lines[k]).Some? then {read(lines[k]).value} else {}
  {
    IssuesOfConcat(read, lines[..k], [lines[k]]);
    assert lines[..k + 1] == lines[..k] + [lines[k]];
  }

  lemma IssuesOfConcat(read: Reader, a: seq<string>, b: seq<string>)
    ensures IssuesOf(read, a + b) == IssuesOf(read, a) + IssuesOf(read, b)
  {
  }

  lemma RecordsAppend(read: Reader, records: seq<string>, i: nat)
    requires i < |records|
    ensures RecordsIssues(read, records[..i + 1])
            == RecordsIssues(read, records[..i]) + RecordIssues(read, records[i])
  {
    RecordsConcat(read, records[..i], [records[i]]);
    OneRecord(read, records[i]);
    assert records[..i + 1] == records[..i] + [records[i]];
  }

  lemma RecordsConcat(read: Reader, a: seq<string>, b: seq<string>)
    ensures RecordsIssues(read, a + b) == RecordsIssues(read, a) + RecordsIssues(read, b)
  {
    assert forall r :: r in a + b <==> r in a || r in b;
  }

  lemma OneRecord(read: Reader, record: string)
    ensures RecordsIssues(read, [record]) == RecordIssues(read, record)
  {
    forall n ensures n in RecordsIssues(read, [record]) <==> n in RecordIssues(read, record) {
      assert record in [record];
    }
  }

  // ----- White space around a message does not matter -----

  /** A reader that does not see spaces at the end of a line, and nothing in a blank line. */
  ghost predicate Tolerant(read: Reader) {
    (forall s, w :: AllSpace(w) ==> read(s + w) == read(s)) && (forall w :: AllSpace(w) ==> read(w) == None)
  }

  lemma TrailersAreTolerant()
    ensures Tolerant(Trailers)
  {
    forall s, w | AllSpace(w) ensures Trailers(s + w) == Trailers(s) {
      StripIgnoresTail(s, w);
    }
    forall w | AllSpace(w) ensures Trailers(w) == None {
      StripOfSpace(w);
    }
  }

  lemma {:induction false} BlankNamesNothing(read: Reader, w: string)
    requires Tolerant(read) && AllSpace(w)
    ensures BodyIssues(read, w) == {}
    decreases |w|
  {
    hide Tolerant;
    if w != "" {
      var k := LineLength(w);
      BlankLineNamesNothing(read, w[..k]);
      if k < |w| {
        var rest := w[k + BreakLength(w, k)..];
        BlankNamesNothing(read, rest);
        IssuesOfConcat(read, [w[..k]], Lines(rest));
      } else {
        assert w[..k] == w;
      }
    }
  }

  lemma BlankLineNamesNothing(read: Reader, w: string)
    requires Tolerant(read) && AllSpace(w)
    ensures read(w) == None
  {
  }

  /** A message is its first line and the rest. */
  lemma FirstLineSplits(read: Reader, s: string, k: nat)
    requires k == LineLength(s) < |s|
    ensures BodyIssues(read, s) == IssuesOf(read, [s[..k]]) + BodyIssues(read, s[k + BreakLength(s, k)..])
  {
    IssuesOfConcat(read, [s[..k]], Lines(s[k + BreakLength(s, k)..]));
  }

  lemma FirstLineStays(s: string, w: string, k: nat)
    requires k == LineLength(s) < |s|
    ensures LineLength(s + w) == k && (s + w)[..k] == s[..k]
    ensures BreakLength(s + w, k) == BreakLength(s, k) ||
            (k + BreakLength(s, k) == |s| && k + BreakLength(s + w, k) == |s| + 1 && w != "")
  {
    LineLengthIs(s[..k], s[k..] + w);
    assert s + w == s[..k] + (s[k..] + w);
  }

  lemma DropWithin<T>(s: seq<T>, w: seq<T>, m: nat)
    requires m <= |s|
    ensures (s + w)[m..] == s[m..] + w
  {
  }

  lemma DropBeyond<T>(s: seq<T>, w: seq<T>, m: nat)
    requires m <= |w|
    ensures (s + w)[|s| + m..] == w[m..]
  {
  }

  lemma BlankSuffix(read: Reader, w: string, m: nat)
    requires Tolerant(read) && AllSpace(w) && m <= |w|
    ensures BodyIssues(read, w[m..]) == {}
  {
    BlankNamesNothing(read, w[m..]);
  }

  /** Texts with one first line and rests that name the same issues name the same issues. */
  lemma SameFirstLine(read: Reader, a: string, b: string, k: nat)
    requires k == LineLength(a) < |a| && k == LineLength(b) < |b| && a[..k] == b[..k]
    requires BodyIssues(read, a[k + BreakLength(a, k)..]) == BodyIssues(read, b[k + BreakLength(b, k)..])
    ensures BodyIssues(read, a) == BodyIssues(read, b)
  {
    FirstLineSplits(read, a, k);
    FirstLineSplits(read, b, k);
  }

  /** The rest after the first line: `w` follows it, or its line feed completed the break. */
  lemma RestStays(s: string, w: string, k: nat)
    requires k == LineLength(s) < |s|
    ensures LineLength(s + w) == k && (s + w)[..k] == s[..k]
    ensures var rest, restW := s[k + BreakLength(s, k)..], (s + w)[k + BreakLength(s + w, k)..];
            restW == rest + w || (rest == "" && w != "" && restW == w[1..])
  {
    FirstLineStays(s, w, k);
    if BreakLength(s + w, k) == BreakLength(s, k) {
      DropWithin(s, w, k + BreakLength(s, k));
    } else {
      DropBeyond(s, w, 1);
    }
  }

  lemma {:induction false} TrailingSpaceIgnored(read: Reader, s: string, w: string)
    requires Tolerant(read) && AllSpace(w)
    ensures BodyIssues(read, s + w) == BodyIssues(read, s)
    decreases |s|
  {
    var k := LineLength(s);
    if k == |s| {
      TailAfterLastLine(read, s, w);
    } else {
      RestStays(s, w, k);
      var rest, restW := s[k + BreakLength(s, k)..], (s + w)[k + BreakLength(s + w, k)..];
      if restW == rest + w {
        TrailingSpaceIgnored(read, rest, w);
      } else {
        BlankSuffix(read, w, 1);
        BlankSuffix(read, w, |w|);
        assert rest == w[|w|..];
      }
      SameFirstLine(read, s + w, s, k);
    }
  }

  lemma OneLine(read: Reader, s: string)
    requires NoBreak(s) && s != ""
    ensures BodyIssues(read, s) == IssuesOf(read, [s])
  {
    LineLengthIs(s, "");
    assert s + "" == s;
  }

  lemma TailAfterLastLine(read: Reader, s: string, w: string)
    requires Tolerant(read) && AllSpace(w) && NoBreak(s)
    ensures BodyIssues(read, s + w) == BodyIssues(read, s)
  {
    hide Tolerant;
    if s == "" {
      BlankNamesNothing(read, w);
      BlankNamesNothing(read, s);
      assert s + w == w;
    } else {
      var j := LineLength(w);
      OneLine(read, s);
      SpacesAfterLine(read, s, w[..j]);
      StretchedLine(s, w, j);
      FirstLineOnly(read, s, w, j);
    }
  }

  /** Only the first line of a text that ends in spaces can name anything. */
  lemma FirstLineOnly(read: Reader, s: string, w: string, j: nat)
    requires Tolerant(read) && AllSpace(w) && s != "" && j <= |w|
    requires LineLength(s + w) == |s| + j && (s + w)[..|s| + j] == s + w[..j]
    ensures BodyIssues(read, s + w) == IssuesOf(read, [s + w[..j]])
  {
    hide Tolerant;
    if j < |w| {
      var m := j + BreakLength(s + w, |s| + j);
      DropBeyond(s, w, m);
      BlankTail(read, s + w, |s| + j, w, m);
    } else {
      assert (s + w)[..|s| + j] == s + w;
      OneLine(read, s + w);
    }
  }

  lemma BlankTail(read: Reader, text: string, k: nat, w: string, m: nat)
    requires Tolerant(read) && AllSpace(w) && m <= |w|
    requires k == LineLength(text) < |text| && text[k + BreakLength(text, k)..] == w[m..]
    ensures BodyIssues(read, text) == IssuesOf(read, [text[..k]])
  {
    FirstLineSplits(read, text, k);
    BlankSuffix(read, w, m);
  }

  lemma SpacesAfterLine(read: Reader, s: string, w: string)
    requires Tolerant(read) && AllSpace(w)
    ensures IssuesOf(read, [s + w]) == IssuesOf(read, [s])
  {
    assert read(s + w) == read(s);
  }

  lemma StretchedLine(s: string, w: string, j: nat)
    requires NoBreak(s) && j == LineLength(w)
    ensures LineLength(s + w) == |s| + j && (s + w)[..|s| + j] == s + w[..j]
  {
    assert s + w == (s + w[..j]) + w[j..];
    LineLengthIs(s + w[..j], w[j..]);
  }

  // ----- Round trip -----

  /** A merge commit as `git log --format=%H%x1f%B%x1e` shows it. */
  datatype Commit = Commit(sha: string, body: string) {
    ghost predicate Printable() {
      sha != "" && NoSpace(sha) && RECORD_SEPARATOR !in body
    }
  }

  function Render(log: seq<Commit>): string {
    if log == [] then ""
    else log[0].sha + [UNIT_SEPARATOR] + log[0].body + [RECORD_SEPARATOR] + "\n" + Render(log[1..])
  }

  ghost function CommitIssues(read: Reader, log: seq<Commit>): set<int> {
    set c, n | c in log && n in BodyIssues(read, c.body) :: n
  }

  lemma RecordOfCommit(read: Reader, lead: string, c: Commit)
    requires Tolerant(read) && AllSpace(lead) && c.Printable()
    ensures RecordIssues(read, lead + c.sha + [UNIT_SEPARATOR] + c.body) == BodyIssues(read, c.body)
  {
    var tail := [UNIT_SEPARATOR] + c.body;
    var record := lead + (c.sha + tail);
    assert record == lead + c.sha + [UNIT_SEPARATOR] + c.body;
    StripLeftSpaces(lead, c.sha + tail);
    assert !IsSpace((c.sha + tail)[0]);
    assert StripLeft(record) == c.sha + tail;
    NoSeparatorInSha(c);
    if AllSpace(c.body) {
      assert AllSpace(tail);
      StripRightOfSpace(c.sha, tail);
      BlankNamesNothing(read, c.body);
      OnlyIndex(c.sha, UNIT_SEPARATOR);
    } else {
      var head := c.sha + [UNIT_SEPARATOR];
      assert c.sha + tail == head + c.body;
      StripRightKeepsHead(head, c.body);
      IndexAfter(c.sha, UNIT_SEPARATOR, StripRight(c.body));
      var w := StripRightSplits(c.body);
      TrailingSpaceIgnored(read, StripRight(c.body), w);
    }
  }

  lemma NoSeparatorInSha(c: Commit)
    requires c.Printable()
    ensures UNIT_SEPARATOR !in c.sha && RECORD_SEPARATOR !in c.sha
  {
    assert IsSpace(UNIT_SEPARATOR) && IsSpace(RECORD_SEPARATOR);
  }

  lemma OnlyIndex(s: string, c: char)
    requires c !in s
    ensures IndexOf(s, c) == |s|
  {
    assert forall i :: 0 <= i < |s| ==> s[i] in s;
  }

  lemma IndexAfter(head: string, c: char, rest: string)
    requires c !in head
    ensures IndexOf(head + [c] + rest, c) == |head| && (head + [c] + rest)[|head| + 1..] == rest
  {
    var s := head + [c] + rest;
    assert s[|head|] == c;
    assert forall i :: 0 <= i < |head| ==> s[i] == head[i] && head[i] in head;
  }

  /** A record that ends at its separator is read on its own. */
  lemma FirstRecord(read: Reader, record: string, rest: string)
    requires RECORD_SEPARATOR !in record
    ensures LogIssues(read, record + [RECORD_SEPARATOR] + rest) == RecordIssues(read, record) + LogIssues(read, rest)
  {
    FirstPiece(record, RECORD_SEPARATOR, rest);
    RecordsConcat(read, [record], Split(rest, RECORD_SEPARATOR));
    OneRecord(read, record);
  }

  lemma NoRecord(read: Reader, lead: string)
    requires AllSpace(lead) && RECORD_SEPARATOR !in lead
    ensures LogIssues(read, lead) == {}
  {
    OnlyPiece(lead, RECORD_SEPARATOR);
    StripOfSpace(lead);
  }

  lemma CommitIssuesStep(read: Reader, log: seq<Commit>)
    requires log != []
    ensures CommitIssues(read, log) == BodyIssues(read, log[0].body) + CommitIssues(read, log[1..])
  {
    assert forall c :: c in log <==> c == log[0] || c in log[1..];
    forall n ensures n in CommitIssues(read, log) <==>
                     n in BodyIssues(read, log[0].body) || n in CommitIssues(read, log[1..]) {
      if n in BodyIssues(read, log[0].body) { assert log[0] in log; }
    }
  }

  lemma RecordIsPlain(lead: string, c: Commit)
    requires RECORD_SEPARATOR !in lead && c.Printable()
    ensures RECORD_SEPARATOR !in lead + c.sha + [UNIT_SEPARATOR] + c.body
  {
    NoSeparatorInSha(c);
  }

  lemma RenderStep(lead: string, log: seq<Commit>)
    requires log != []
    ensures lead + Render(log)
            == (lead + log[0].sha + [UNIT_SEPARATOR] + log[0].body) + [RECORD_SEPARATOR] + ("\n" + Render(log[1..]))
  {
  }

  /** Reading back a rendered log finds exactly the trailers of its messages. */
  lemma {:induction false} LogRoundTrip(read: Reader, lead: string, log: seq<Commit>)
    requires Tolerant(read) && lead in ["", "\n"] && forall c :: c in log ==> c.Printable()
    ensures LogIssues(read, lead + Render(log)) == CommitIssues(read, log)
    decreases |log|
  {
    assert AllSpace(lead) && RECORD_SEPARATOR !in lead;
    if log == [] {
      assert lead + Render(log) == lead;
      NoRecord(read, lead);
    } else {
      RenderStep(lead, log);
      RecordIsPlain(lead, log[0]);
      FirstRecord(read, lead + log[0].sha + [UNIT_SEPARATOR] + log[0].body, "\n" + Render(log[1..]));
      RecordOfCommit(read, lead, log[0]);
      LogRoundTrip(read, "\n", log[1..]);
      CommitIssuesStep(read, log);
    }
  }

  // ----- What a merge writes -----

  function Trailer(prefix: string, issue: nat): string {
    prefix + Decimal.ToDecimal(issue) + " ci=green"
  }

  function Subject(issueBranch: string, featureBranch: string): (s: string)
    ensures s != ""
  {
    "Merge branch '" + issueBranch + "' into " + featureBranch
  }

  /** The message of merge_issue_branch, ended by git with a line feed. */
  function MergeBody(prefix: string, issueBranch: string, featureBranch: string, issue: nat): string {
    Subject(issueBranch, featureBranch) + "\n" + ("" + "\n" + (Trailer(prefix, issue) + "\n" + ""))
  }

  /** A trailer line names its issue, whatever stands after the number. */
  lemma TrailerRoundTrip(prefix: string, issue: nat, rest: string)
    requires prefix != "" && !IsSpace(prefix[0])
    requires rest != "" && IsSpace(rest[0]) && !AllSpace(rest)
    ensures TrailerIssue(prefix, prefix + Decimal.ToDecimal(issue) + rest) == Some(issue)
  {
    var digits := Decimal.ToDecimal(issue);
    DigitsAreVisible(digits);
    var head := prefix + digits;
    var line := head + rest;
    assert line[0] == prefix[0];
    StripRightKeepsHead(head, rest);
    assert Strip(line) == head + StripRight(rest);
    assert (head + StripRight(rest))[|prefix|..] == digits + StripRight(rest);
    assert StripLeft(digits + StripRight(rest)) == digits + StripRight(rest);
    StripRightKeepsFirst(rest);
    TokenBeforeSpace(digits, StripRight(rest));
    Decimal.RoundTrip(issue);
    assert Decimal.IntText(issue) == digits;
  }

  lemma DigitsAreVisible(digits: string)
    requires forall i :: 0 <= i < |digits| ==> Decimal.IsDigit(digits[i])
    ensures NoSpace(digits) && NoBreak(digits)
  {
  }

  lemma StripRightKeepsFirst(s: string)
    requires s != "" && !AllSpace(s)
    ensures StripRight(s) != "" && StripRight(s)[0] == s[0]
  {
    var w := StripRightSplits(s);
    assert StripRight(s) == "" ==> s == w;
  }

  /** The first line of a merge message is not a trailer. */
  lemma SubjectIsNoTrailer(prefix: string, line: string)
    requires prefix != "" && line != "" && !IsSpace(line[0]) && prefix[0] != line[0]
    ensures TrailerIssue(prefix, line) == None
  {
    assert StripLeft(line) == line;
    StripRightKeepsFirst(line);
  }

  lemma ThreeLines(a: string, b: string, c: string)
    requires NoBreak(a) && NoBreak(b) && NoBreak(c)
    ensures Lines(a + "\n" + (b + "\n" + (c + "\n" + ""))) == [a, b, c]
  {
    FirstLine(a, b + "\n" + (c + "\n" + ""));
    FirstLine(b, c + "\n" + "");
    FirstLine(c, "");
  }

  lemma ThreeLinesArePlain(a: string, b: string, c: string)
    requires NoBreak(a) && NoBreak(b) && NoBreak(c)
    ensures RECORD_SEPARATOR !in a + "\n" + (b + "\n" + (c + "\n" + ""))
  {
    NoBreakNoSeparator(a);
    NoBreakNoSeparator(b);
    NoBreakNoSeparator(c);
  }

  lemma BodyNames(read: Reader, subject: string, trailer: string, issue: nat)
    requires NoBreak(subject) && NoBreak(trailer)
    requires read(subject) == None && read("") == None && read(trailer) == Some(issue)
    ensures BodyIssues(read, subject + "\n" + ("" + "\n" + (trailer + "\n" + ""))) == {issue}
  {
    ThreeLines(subject, "", trailer);
  }

  /** The message of a merge names the merged issue and no other. */
  lemma MergeBodyRoundTrip(prefix: string, issueBranch: string, featureBranch: string, issue: nat, read: Reader)
    requires prefix != "" && !IsSpace(prefix[0]) && prefix[0] != 'M' && NoBreak(prefix)
    requires NoBreak(issueBranch) && NoBreak(featureBranch)
    requires read("") == None && forall line :: read(line) == TrailerIssue(prefix, line)
    ensures BodyIssues(read, MergeBody(prefix, issueBranch, featureBranch, issue)) == {issue}
    ensures RECORD_SEPARATOR !in MergeBody(prefix, issueBranch, featureBranch, issue)
  {
    var subject := Subject(issueBranch, featureBranch);
    var trailer := Trailer(prefix, issue);
    SubjectHasNoBreak(issueBranch, featureBranch);
    SubjectIsNoTrailer(prefix, subject);
    TrailerHasNoBreak(prefix, issue);
    TrailerIsRead(prefix, issue);
    BodyNames(read, subject, trailer, issue);
    ThreeLinesArePlain(subject, "", trailer);
  }

  lemma SubjectHasNoBreak(issueBranch: string, featureBranch: string)
    requires NoBreak(issueBranch) && NoBreak(featureBranch)
    ensures NoBreak(Subject(issueBranch, featureBranch)) && Subject(issueBranch, featureBranch)[0] == 'M'
  {
  }

  lemma TrailerHasNoBreak(prefix: string, issue: nat)
    requires NoBreak(prefix)
    ensures NoBreak(Trailer(prefix, issue))
  {
    DigitsAreVisible(Decimal.ToDecimal(issue));
  }

  lemma TrailerIsRead(prefix: string, issue: nat)
    requires prefix != "" && !IsSpace(prefix[0])
    ensures TrailerIssue(prefix, Trailer(prefix, issue)) == Some(issue)
  {
    assert !IsSpace(" ci=green"[1]);
    TrailerRoundTrip(prefix, issue, " ci=green");
  }

  datatype Merge = Merge(sha: string, issueBranch: string, featureBranch: string, issue: nat) {
    ghost predicate Printable() {
      sha != "" && NoSpace(sha) && NoBreak(issueBranch) && NoBreak(featureBranch)
    }

    function ToCommit(): Commit {
      Commit(sha, MergeBody(PREFIX, issueBranch, featureBranch, issue))
    }
  }

  function Commits(merges: seq<Merge>): seq<Commit> {
    seq(|merges|, i requires 0 <= i < |merges| => merges[i].ToCommit())
  }

  lemma MergeIsPrintable(m: Merge)
    requires m.Printable()
    ensures m.ToCommit().Printable()
    ensures BodyIssues(Trailers, m.ToCommit().body) == {m.issue}
  {
    TrailersAreTolerant();
    BlankLineNamesNothing(Trailers, "");
    MergeBodyRoundTrip(PREFIX, m.issueBranch, m.featureBranch, m.issue, Trailers);
  }

  lemma NoBreakNoSeparator(s: string)
    requires NoBreak(s)
    ensures RECORD_SEPARATOR !in s
  {
    assert IsBreak(RECORD_SEPARATOR);
  }

  /** Each rendered commit stands for one merge. */
  lemma CommitOfMerge(merges: seq<Merge>, c: Commit) returns (m: Merge)
    requires c in Commits(merges) && forall m :: m in merges ==> m.Printable()
    ensures m in merges && c == m.ToCommit() && c.Printable() && BodyIssues(Trailers, c.body) == {m.issue}
  {
    var i :| 0 <= i < |merges| && Commits(merges)[i] == c;
    m := merges[i];
    MergeIsPrintable(m);
  }

  /** Parsing the log of any list of merges gives back exactly the merged issues. */
  lemma MergesRoundTrip(merges: seq<Merge>)
    requires forall m :: m in merges ==> m.Printable()
    ensures forall n: int ::
              n in LogIssues(Trailers, Render(Commits(merges))) <==> exists m :: m in merges && m.issue == n
  {
    var log := Commits(merges);
    forall c | c in log ensures c.Printable() {
      var _ := CommitOfMerge(merges, c);
    }
    TrailersAreTolerant();
    LogRoundTrip(Trailers, "", log);
    assert "" + Render(log) == Render(log);
    forall n: int ensures n in CommitIssues(Trailers, log) <==> exists m :: m in merges && m.issue == n {
      if c :| c in log && n in BodyIssues(Trailers, c.body) {
        var m := CommitOfMerge(merges, c);
        assert m.issue == n;
      }
      if m :| m in merges && m.issue == n {
        var i :| 0 <= i < |merges| && merges[i] == m;
        MergeIsPrintable(m);
        assert log[i] in log;
      }
    }
  }

  lemma SameStripSameIssue(a: string, b: string)
    requires Strip(a) == Strip(b)
    ensures Trailers(a) == Trailers(b)
  {
  }

  /** The trailer in full, whatever spaces stand around it. */
  lemma TrailerLineIsRead(before: string, issue: nat, after: string)
    requires AllSpace(before) && AllSpace(after)
    ensures Trailers(before + "Baton-Harness-Merge: issue-" + Decimal.ToDecimal(issue) + " ci=green" + after)
            == Some(issue)
  {
    hide Strip, AllSpace, Decimal.ToDecimal, TrailerIssue;
    var line := Trailer(PREFIX, issue);
    assert !IsSpace(PREFIX[0]);
    TrailerIsRead(PREFIX, issue);
    StripIgnoresHead(before, line + after);
    StripIgnoresTail(line, after);
    SameStripSameIssue(before + (line + after), line);
    assert before + "Baton-Harness-Merge: issue-" + Decimal.ToDecimal(issue) + " ci=green" + after
        == before + (line + after);
  }
}
