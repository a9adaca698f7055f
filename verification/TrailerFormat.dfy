/** The trailer as it is documented, against the trailer as it is read.
    Compares _fetch_provenance_merges of src/baton_harness/chain/recovery.py with the exact line that its documentation
    and merge_issue_branch give. */
module TrailerFormat {
  import opened Prelude
  import opened Text
  import opened Provenance
  import Decimal

  const GREEN := " ci=green"

  /** The exact line documented for issue `n`, spaces around it aside. */
  ghost predicate Documented(prefix: string, line: string, n: nat) {
    Strip(line) == Trailer(prefix, n)
  }

  /** The reader the documentation describes. */
  ghost function Exact(prefix: string, line: string): Option<int> {
    if n: nat :| Documented(prefix, line, n) then Some(n) else None
  }

  /** What follows the prefix is a plain numeral and ` ci=green`. */
  ghost predicate Plain(prefix: string, line: string) {
    |prefix| <= |Strip(line)| && exists n: nat :: Strip(line)[|prefix|..] == Decimal.ToDecimal(n) + GREEN
  }

  /** The line starts with the prefix and int() reads the first token of what follows, yet that is not a plain numeral
      and ` ci=green`: something else, or nothing, follows the number, or the number has a sign, leading zeros,
      underscores or spaces before it. */
  ghost predicate Lax(prefix: string, line: string) {
    && prefix <= Strip(line)
    && Decimal.ParseInt(FirstToken(Strip(line)[|prefix|..])).Some?
    && !Plain(prefix, line)
  }

  lemma TrailerSplits(prefix: string, n: nat)
    ensures Trailer(prefix, n) == prefix + (Decimal.ToDecimal(n) + GREEN)
    ensures Trailer(prefix, n)[|prefix|..] == Decimal.ToDecimal(n) + GREEN
  {
  }

  lemma TrailerIsStripped(prefix: string, n: nat)
    requires prefix != "" && !IsSpace(prefix[0])
    ensures Strip(Trailer(prefix, n)) == Trailer(prefix, n)
  {
    var head := prefix + Decimal.ToDecimal(n);
    assert Trailer(prefix, n)[0] == prefix[0];
    assert !IsSpace(GREEN[1]) && !IsSpace(GREEN[8]);
    StripRightKeepsHead(head, GREEN);
  }

  lemma DocumentedIsRead(prefix: string, line: string, n: nat)
    requires prefix != "" && !IsSpace(prefix[0]) && Documented(prefix, line, n)
    ensures TrailerIssue(prefix, line) == Some(n)
  {
    TrailerIsStripped(prefix, n);
    TrailerIsRead(prefix, n);
  }

  lemma PlainIsDocumented(prefix: string, line: string)
    requires prefix <= Strip(line) && Plain(prefix, line)
    ensures exists n: nat :: Documented(prefix, line, n)
  {
    var n: nat :| Strip(line)[|prefix|..] == Decimal.ToDecimal(n) + GREEN;
    assert Strip(line) == prefix + Strip(line)[|prefix|..];
    TrailerSplits(prefix, n);
    assert Documented(prefix, line, n);
  }

  lemma DocumentedIsPlain(prefix: string, line: string, n: nat)
    requires Documented(prefix, line, n)
    ensures Plain(prefix, line)
  {
    TrailerSplits(prefix, n);
  }

  /** The code's reader and the documented one agree on a line exactly when the line is not lax. */
  lemma ReadersAgreeExactly(prefix: string, line: string)
    requires prefix != "" && !IsSpace(prefix[0])
    ensures TrailerIssue(prefix, line) == Exact(prefix, line) <==> !Lax(prefix, line)
    ensures Exact(prefix, line).Some? ==> TrailerIssue(prefix, line) == Exact(prefix, line)
  {
    if n: nat :| Documented(prefix, line, n) {
      var m: nat :| Documented(prefix, line, m) && Exact(prefix, line) == Some(m);
      DocumentedIsRead(prefix, line, m);
      DocumentedIsPlain(prefix, line, m);
    } else if TrailerIssue(prefix, line).Some? && Plain(prefix, line) {
      PlainIsDocumented(prefix, line);
    }
  }

  // ----- Whole logs -----

  ghost predicate InLog(log: string, line: string) {
    exists r :: r in Split(log, RECORD_SEPARATOR) && RecordBody(r).Some? && line in Lines(RecordBody(r).value)
  }

  lemma LogIssuesAreOfLines(read: Reader, log: string, n: int)
    ensures n in LogIssues(read, log) <==> exists line :: InLog(log, line) && read(line) == Some(n)
  {
    if n in LogIssues(read, log) {
      var r :| r in Split(log, RECORD_SEPARATOR) && n in RecordIssues(read, r);
      var line :| line in Lines(RecordBody(r).value) && read(line) == Some(n);
      assert InLog(log, line);
    }
    if line :| InLog(log, line) && read(line) == Some(n) {
      var r :| r in Split(log, RECORD_SEPARATOR) && RecordBody(r).Some? && line in Lines(RecordBody(r).value);
      assert n in RecordIssues(read, r);
    }
  }

  ghost function ExactTrailers(line: string): Option<int> {
    Exact(PREFIX, line)
  }

  /** On a whole log the code finds all that is documented, and nothing else exactly when every lax line only repeats
      an issue that a documented line names too. */
  lemma LogsAgreeExactly(log: string)
    ensures LogIssues(ExactTrailers, log) <= LogIssues(Trailers, log)
    ensures LogIssues(ExactTrailers, log) == LogIssues(Trailers, log) <==>
            forall line :: InLog(log, line) && Lax(PREFIX, line) ==>
              Trailers(line).value in LogIssues(ExactTrailers, log)
  {
    assert !IsSpace(PREFIX[0]);
    forall line ensures Trailers(line) == ExactTrailers(line) <==> !Lax(PREFIX, line)
      ensures ExactTrailers(line).Some? ==> Trailers(line) == ExactTrailers(line) {
      ReadersAgreeExactly(PREFIX, line);
    }
    forall n ensures n in LogIssues(ExactTrailers, log) ==> n in LogIssues(Trailers, log) {
      LogIssuesAreOfLines(ExactTrailers, log, n);
      LogIssuesAreOfLines(Trailers, log, n);
    }
    forall line | InLog(log, line) && Lax(PREFIX, line) ensures Trailers(line).value in LogIssues(Trailers, log) {
      LogIssuesAreOfLines(Trailers, log, Trailers(line).value);
    }
    forall n | n in LogIssues(Trailers, log) && n !in LogIssues(ExactTrailers, log)
      ensures exists line :: InLog(log, line) && Lax(PREFIX, line) && Trailers(line) == Some(n)
    {
      LogIssuesAreOfLines(Trailers, log, n);
      LogIssuesAreOfLines(ExactTrailers, log, n);
    }
  }

  /** A lax line: the trailer of a red merge is read like that of a green one. */
  lemma GreenIsNotChecked(issue: nat)
    ensures Lax(PREFIX, PREFIX + Decimal.ToDecimal(issue) + " ci=red")
    ensures TrailerIssue(PREFIX, PREFIX + Decimal.ToDecimal(issue) + " ci=red") == Some(issue)
  {
    assert !IsSpace(" ci=red"[1]);
    TrailerRoundTrip(PREFIX, issue, " ci=red");
    RedIsNotPlain(PREFIX, issue);
  }

  lemma RedIsNotPlain(prefix: string, issue: nat)
    requires prefix != "" && !IsSpace(prefix[0])
    ensures !Plain(prefix, prefix + Decimal.ToDecimal(issue) + " ci=red")
  {
    var head := prefix + Decimal.ToDecimal(issue);
    var line := head + " ci=red";
    assert line[0] == prefix[0];
    assert !IsSpace(" ci=red"[1]);
    StripRightKeepsHead(head, " ci=red");
    assert Strip(line) == line;
    forall n: nat ensures line[|prefix|..] != Decimal.ToDecimal(n) + GREEN {
      var want := Decimal.ToDecimal(n) + GREEN;
      assert want[|want| - 1] == 'n';
      assert line[|prefix|..][|line| - |prefix| - 1] == 'd';
    }
  }
}
