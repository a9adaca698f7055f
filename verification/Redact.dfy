/** Secret redaction by the union of spans.
    Models redact_secrets of src/baton_harness/redact.py. What the credential patterns match is a parameter: any list
    of non-empty spans inside the text. */
module Redaction {
  import opened Prelude

  const MARKER := "«redacted»"

  /** Positions `start` up to but not including `end`. */
  datatype Span = Span(start: nat, end: nat)

  ghost predicate InText(spans: seq<Span>, length: nat) {
    forall k :: 0 <= k < |spans| ==> spans[k].start < spans[k].end <= length
  }

  ghost predicate Covered(spans: seq<Span>, p: int) {
    exists k :: 0 <= k < |spans| && spans[k].start <= p < spans[k].end
  }

  /** `value` stands at position `i`. */
  predicate OccursAt(text: string, value: string, i: nat) {
    i + |value| <= |text| && text[i..i + |value|] == value
  }

  // ----- Recording the exact secrets -----

  /** str.find: the first occurrence at or after `begin`. */
  method Find(text: string, value: string, begin: nat) returns (at: Option<nat>)
    ensures at.Some? ==> begin <= at.value && OccursAt(text, value, at.value)
    ensures forall i :: begin <= i < (if at.Some? then at.value else |text| + 1) ==> !OccursAt(text, value, i)
  {
    var i := begin;
    while i + |value| <= |text|
      invariant begin <= i
      invariant forall j :: begin <= j < i ==> !OccursAt(text, value, j)
    {
      if OccursAt(text, value, i) { return Some(i); }
      i := i + 1;
    }
    return None;
  }

  /** The find loop: one span for every occurrence, self-overlapping ones included, and for nothing else. */
  method RecordOccurrences(text: string, value: string) returns (spans: seq<Span>)
    requires value != ""
    ensures InText(spans, |text|)
    ensures forall i: nat :: OccursAt(text, value, i) <==> Span(i, i + |value|) in spans
    ensures forall k :: 0 <= k < |spans| ==> spans[k].end == spans[k].start + |value|
  {
    spans := [];
    var start := Find(text, value, 0);
    while start.Some?
      invariant InText(spans, |text|)
      invariant start.Some? ==> OccursAt(text, value, start.value)
      invariant forall i: nat :: i < (if start.Some? then start.value else |text| + 1) ==>
                  (OccursAt(text, value, i) <==> Span(i, i + |value|) in spans)
      invariant forall k :: 0 <= k < |spans| ==>
                  spans[k].end == spans[k].start + |value| && (start.Some? ==> spans[k].start < start.value)
      decreases if start.Some? then |text| + 1 - start.value else 0
    {
      spans := spans + [Span(start.value, start.value + |value|)];
      start := Find(text, value, start.value + 1);
    }
  }

  /** All secrets: empty ones are skipped. */
  method RecordSecrets(text: string, secrets: seq<string>) returns (spans: seq<Span>)
    ensures InText(spans, |text|)
    ensures forall i: nat, value :: value in secrets && value != "" && OccursAt(text, value, i) ==>
              Span(i, i + |value|) in spans
    ensures forall s :: s in spans ==> text[s.start..s.end] in secrets
  {
    spans := [];
    for n := 0 to |secrets|
      invariant InText(spans, |text|)
      invariant forall i: nat, value :: value in secrets[..n] && value != "" && OccursAt(text, value, i) ==>
                  Span(i, i + |value|) in spans
      invariant forall s :: s in spans ==> s.start < s.end <= |text| && text[s.start..s.end] in secrets
    {
      if secrets[n] != "" {
        var found := RecordOccurrences(text, secrets[n]);
        forall s | s in found ensures s.start < s.end <= |text| && text[s.start..s.end] in secrets {
          assert s == Span(s.start, s.start + |secrets[n]|);
          assert OccursAt(text, secrets[n], s.start);
        }
        spans := spans + found;
      }
    }
  }

  // ----- Sorting and merging -----

  predicate Before(a: Span, b: Span) {
    a.start < b.start || (a.start == b.start && a.end <= b.end)
  }

  function Insert(s: Span, spans: seq<Span>): seq<Span> {
    if spans == [] || Before(s, spans[0]) then [s] + spans else [spans[0]] + Insert(s, spans[1..])
  }

  /** sorted(spans). */
  function Sorted(spans: seq<Span>): seq<Span> {
    if spans == [] then [] else Insert(spans[0], Sorted(spans[1..]))
  }

  ghost predicate Ordered(spans: seq<Span>) {
    forall i, j :: 0 <= i < j < |spans| ==> Before(spans[i], spans[j])
  }

  lemma {:induction false} InsertKeeps(s: Span, spans: seq<Span>)
    ensures multiset(Insert(s, spans)) == multiset{s} + multiset(spans)
  {
    if !(spans == [] || Before(s, spans[0])) {
      InsertKeeps(s, spans[1..]);
      assert spans == [spans[0]] + spans[1..];
    }
  }

  lemma {:induction false} InsertOrders(s: Span, spans: seq<Span>)
    requires Ordered(spans)
    ensures Ordered(Insert(s, spans))
  {
    if !(spans == [] || Before(s, spans[0])) {
      var rest := Insert(s, spans[1..]);
      InsertOrders(s, spans[1..]);
      InsertKeeps(s, spans[1..]);
      forall k | 0 <= k < |rest| ensures Before(spans[0], rest[k]) {
        assert rest[k] in multiset(rest);
        assert rest[k] == s || rest[k] in spans[1..];
      }
    }
  }

  lemma {:induction false} SortedOrders(spans: seq<Span>)
    ensures Ordered(Sorted(spans)) && multiset(Sorted(spans)) == multiset(spans)
  {
    if spans != [] {
      SortedOrders(spans[1..]);
      InsertOrders(spans[0], Sorted(spans[1..]));
      InsertKeeps(spans[0], Sorted(spans[1..]));
      assert spans == [spans[0]] + spans[1..];
    }
  }

  /** Strictly separated: at least one position lies between two neighbours. */
  ghost predicate Separated(spans: seq<Span>) {
    forall i, j :: 0 <= i < j < |spans| ==> spans[i].end < spans[j].start
  }

  /** The merge loop. */
  method Merge(spans: seq<Span>, ghost length: nat) returns (merged: seq<Span>)
    requires Ordered(spans) && InText(spans, length)
    ensures Separated(merged) && InText(merged, length)
    ensures forall p :: Covered(merged, p) <==> Covered(spans, p)
  {
    hide Covered;
    merged := [];
    for n := 0 to |spans|
      invariant Separated(merged) && InText(merged, length)
      invariant merged != [] ==> exists k :: 0 <= k < n && merged[|merged| - 1].start <= spans[k].start
      invariant merged == [] ==> n == 0
      invariant forall p :: Covered(merged, p) <==> Covered(spans[..n], p)
    {
      ghost var before := merged;
      var s := spans[n];
      if merged != [] && s.start <= merged[|merged| - 1].end {
        var last := merged[|merged| - 1];
        merged := merged[|merged| - 1 := Span(last.start, if s.end > last.end then s.end else last.end)];
        ExtendLast(before, s);
      } else {
        merged := merged + [s];
        AppendOne(before, s);
      }
      AppendOne(spans[..n], s);
      assert spans[..n + 1] == spans[..n] + [s];
    }
    assert spans[..|spans|] == spans;
  }

  lemma AppendOne(spans: seq<Span>, s: Span)
    ensures forall p :: Covered(spans + [s], p) <==> Covered(spans, p) || s.start <= p < s.end
  {
    forall p ensures Covered(spans + [s], p) <==> Covered(spans, p) || s.start <= p < s.end {
      if s.start <= p < s.end { assert (spans + [s])[|spans|] == s; }
      if k :| 0 <= k < |spans| && spans[k].start <= p < spans[k].end { assert (spans + [s])[k] == spans[k]; }
    }
  }

  /** Stretching the last span over one that touches it covers both. */
  lemma ExtendLast(spans: seq<Span>, s: Span)
    requires spans != []
    requires spans[|spans| - 1].start <= s.start <= spans[|spans| - 1].end
    ensures var last := spans[|spans| - 1];
            var longer := spans[|spans| - 1 := Span(last.start, if s.end > last.end then s.end else last.end)];
            forall p :: Covered(longer, p) <==> Covered(spans, p) || s.start <= p < s.end
  {
    var n := |spans| - 1;
    var last := spans[n];
    var longer := spans[n := Span(last.start, if s.end > last.end then s.end else last.end)];
    AppendOne(spans[..n], last);
    AppendOne(spans[..n], longer[n]);
    assert spans == spans[..n] + [last] && longer == spans[..n] + [longer[n]];
  }

  // ----- Rewriting the text -----

  /** The text from `i` on with one marker for every maximal covered run. */
  ghost function Mask(marker: string, text: string, spans: seq<Span>, i: nat): string
    requires i <= |text|
    decreases |text| - i
  {
    if i == |text| then ""
    else if !Covered(spans, i) then [text[i]] + Mask(marker, text, spans, i + 1)
    else (if i > 0 && Covered(spans, i - 1) then "" else marker) + Mask(marker, text, spans, i + 1)
  }

  /** Past the last span nothing is covered. */
  lemma MaskTail(marker: string, text: string, merged: seq<Span>, i: nat)
    requires i <= |text| && forall p :: i <= p < |text| ==> !Covered(merged, p)
    ensures Mask(marker, text, merged, i) == text[i..]
  {
    MaskUncovered(marker, text, merged, i, |text|);
  }

  lemma EmptySlice<T>(s: seq<T>, i: nat, rest: seq<T>)
    requires i <= |s|
    ensures s[i..i] + rest == rest
  {
  }

  lemma SliceCons<T>(s: seq<T>, i: nat, j: nat, rest: seq<T>)
    requires i < j <= |s|
    ensures s[i..j] + rest == [s[i]] + (s[i + 1..j] + rest)
  {
    assert s[i..j] == [s[i]] + s[i + 1..j];
  }

  lemma SliceOfSlice<T>(s: seq<T>, a: nat, b: nat, i: nat, j: nat)
    requires a <= b <= |s| && i <= j <= b - a
    ensures s[a..b][i..j] == s[a + i..a + j]
  {
    forall k | 0 <= k < j - i ensures s[a..b][i..j][k] == s[a + i..a + j][k] {
      assert s[a..b][i + k] == s[a + i + k];
    }
  }

  lemma Regroup<T>(a: seq<T>, b: seq<T>, c: seq<T>, d: seq<T>)
    ensures a + (b + c + d) == (a + b + c) + d
  {
  }

  lemma {:induction false} MaskUncovered(marker: string, text: string, spans: seq<Span>, i: nat, j: nat)
    requires i <= j <= |text| && forall p :: i <= p < j ==> !Covered(spans, p)
    ensures Mask(marker, text, spans, i) == text[i..j] + Mask(marker, text, spans, j)
    decreases j - i
  {
    if i == j {
      EmptySlice(text, i, Mask(marker, text, spans, j));
    } else {
      MaskUncovered(marker, text, spans, i + 1, j);
      SliceCons(text, i, j, Mask(marker, text, spans, j));
    }
  }

  lemma {:induction false} MaskCovered(marker: string, text: string, spans: seq<Span>, i: nat, j: nat)
    requires 0 < i <= j <= |text| && forall p :: i - 1 <= p < j ==> Covered(spans, p)
    ensures Mask(marker, text, spans, i) == Mask(marker, text, spans, j)
    decreases j - i
  {
    if i < j {
      MaskCovered(marker, text, spans, i + 1, j);
      assert Covered(spans, i) && Covered(spans, i - 1);
    }
  }

  /** One merged span becomes one marker. */
  lemma MaskSpan(marker: string, text: string, merged: seq<Span>, k: nat)
    requires Separated(merged) && InText(merged, |text|) && k < |merged|
    ensures var previousEnd := if k == 0 then 0 else merged[k - 1].end;
            previousEnd <= merged[k].start
            && Mask(marker, text, merged, previousEnd)
               == text[previousEnd..merged[k].start] + marker + Mask(marker, text, merged, merged[k].end)
  {
    var previousEnd := if k == 0 then 0 else merged[k - 1].end;
    var s := merged[k];
    forall p | previousEnd <= p < s.start ensures !Covered(merged, p) { GapUncovered(merged, |text|, k, p); }
    if s.start > 0 { GapUncovered(merged, |text|, k, s.start - 1); }
    MaskUncovered(marker, text, merged, previousEnd, s.start);
    MaskCovered(marker, text, merged, s.start + 1, s.end);
    assert Covered(merged, s.start);
    assert text[previousEnd..s.start] + (marker + Mask(marker, text, merged, s.end))
        == text[previousEnd..s.start] + marker + Mask(marker, text, merged, s.end);
  }

  lemma GapUncovered(merged: seq<Span>, length: nat, k: nat, p: int)
    requires Separated(merged) && InText(merged, length) && k <= |merged|
    requires (if k == 0 then 0 else merged[k - 1].end) <= p
    requires k < |merged| ==> p < merged[k].start
    ensures !Covered(merged, p)
  {
    forall i | 0 <= i < |merged| ensures !(merged[i].start <= p < merged[i].end) {
      if i < k {
        assert merged[i].end <= merged[k - 1].end;
      } else {
        assert merged[k].start <= merged[i].start;
      }
    }
  }

  /** The end of the `k`-th span, or the beginning of the text. */
  function EndOf(merged: seq<Span>, k: nat): nat
    requires k <= |merged|
  {
    if k == 0 then 0 else merged[k - 1].end
  }

  /** The text up to the end of the `k`-th span, each span replaced by one marker. */
  ghost function Pieces(marker: string, text: string, merged: seq<Span>, k: nat): string
    requires Separated(merged) && InText(merged, |text|) && k <= |merged|
  {
    if k == 0 then ""
    else Pieces(marker, text, merged, k - 1) + text[EndOf(merged, k - 1)..merged[k - 1].start] + marker
  }

  /** The parts loop: text between merged spans, one marker per span, the rest of the text. */
  method Rebuild(marker: string, text: string, merged: seq<Span>) returns (result: string)
    requires Separated(merged) && InText(merged, |text|)
    ensures result == Mask(marker, text, merged, 0)
    ensures result == Pieces(marker, text, merged, |merged|) + text[EndOf(merged, |merged|)..]
  {
    var parts := "";
    var previousEnd := 0;
    for k := 0 to |merged|
      invariant previousEnd == EndOf(merged, k) <= |text| && parts == Pieces(marker, text, merged, k)
      invariant parts + Mask(marker, text, merged, previousEnd) == Mask(marker, text, merged, 0)
    {
      MaskSpan(marker, text, merged, k);
      var s := merged[k];
      Regroup(parts, text[previousEnd..s.start], marker, Mask(marker, text, merged, s.end));
      parts := parts + text[previousEnd..s.start] + marker;
      previousEnd := s.end;
    }
    forall p | previousEnd <= p < |text| ensures !Covered(merged, p) { GapUncovered(merged, |text|, |merged|, p); }
    MaskTail(marker, text, merged, previousEnd);
    result := parts + text[previousEnd..];
  }

  lemma {:induction false} MaskDependsOnCover(marker: string, text: string, a: seq<Span>, b: seq<Span>, i: nat)
    requires i <= |text| && forall p :: Covered(a, p) <==> Covered(b, p)
    ensures Mask(marker, text, a, i) == Mask(marker, text, b, i)
    decreases |text| - i
  {
    if i < |text| { MaskDependsOnCover(marker, text, a, b, i + 1); }
  }

  datatype Redacted = Text(text: string) | RedactionError

  /** redact_secrets; `structural` is None when the pattern scan raised. */
  method RedactSecrets(text: string, structural: Option<seq<Span>>, secrets: seq<string>, strict: bool)
      returns (result: Redacted, ghost spans: seq<Span>, ghost merged: seq<Span>)
    requires structural.Some? ==> InText(structural.value, |text|)
    ensures structural.None? ==> result == if strict then RedactionError else Text(MARKER)
    ensures structural.Some? ==>
              result == Text(Mask(MARKER, text, spans, 0)) && structural.value <= spans
              && Hides(text, spans, secrets) && HidesOnly(text, spans[|structural.value|..], secrets)
    ensures structural.Some? ==>
              && Separated(merged) && InText(merged, |text|) && (forall p :: Covered(merged, p) <==> Covered(spans, p))
              && result == Text(Pieces("«redacted»", text, merged, |merged|) + text[EndOf(merged, |merged|)..])
  {
    spans, merged := [], [];
    if structural.None? {
      return if strict then RedactionError else Text(MARKER), [], [];
    }
    var exact := RecordSecrets(text, secrets);
    var all := structural.value + exact;
    spans := all;
    assert spans[|structural.value|..] == exact;
    SortedOrders(all);
    SameCover(all, Sorted(all));
    SortKeepsInText(all, |text|);
    var distinct := Merge(Sorted(all), |text|);
    merged := distinct;
    var rebuilt := Rebuild(MARKER, text, distinct);
    MaskDependsOnCover(MARKER, text, all, distinct, 0);
    SecretsAreHidden(text, structural.value, exact, secrets);
    result := Text(rebuilt);
  }

  /** Every position of every occurrence of every non-empty secret is covered. */
  ghost predicate Hides(text: string, spans: seq<Span>, secrets: seq<string>) {
    forall value, i: nat, p ::
      value in secrets && OccursAt(text, value, i) && i <= p < i + |value| ==> Covered(spans, p)
  }

  ghost predicate HidesOnly(text: string, spans: seq<Span>, secrets: seq<string>) {
    forall s :: s in spans ==> s.start <= s.end <= |text| && text[s.start..s.end] in secrets
  }

  lemma SecretsAreHidden(text: string, structural: seq<Span>, exact: seq<Span>, secrets: seq<string>)
    requires forall i: nat, value :: value in secrets && value != "" && OccursAt(text, value, i) ==>
               Span(i, i + |value|) in exact
    ensures Hides(text, structural + exact, secrets)
  {
    forall value, i: nat, p | value in secrets && OccursAt(text, value, i) && i <= p < i + |value|
      ensures Covered(structural + exact, p)
    {
      assert Span(i, i + |value|) in exact;
      var k :| 0 <= k < |exact| && exact[k] == Span(i, i + |value|);
      assert (structural + exact)[|structural| + k] == exact[k];
    }
  }

  lemma SameCover(a: seq<Span>, b: seq<Span>)
    requires multiset(a) == multiset(b)
    ensures forall p :: Covered(a, p) <==> Covered(b, p)
  {
    forall p ensures Covered(a, p) <==> Covered(b, p) {
      if k :| 0 <= k < |a| && a[k].start <= p < a[k].end {
        assert a[k] in multiset(b);
        var m :| 0 <= m < |b| && b[m] == a[k];
      }
      if k :| 0 <= k < |b| && b[k].start <= p < b[k].end {
        assert b[k] in multiset(a);
        var m :| 0 <= m < |a| && a[m] == b[k];
      }
    }
  }

  lemma SortKeepsInText(spans: seq<Span>, length: nat)
    requires InText(spans, length)
    ensures InText(Sorted(spans), length)
  {
    SortedOrders(spans);
    forall k | 0 <= k < |Sorted(spans)| ensures Sorted(spans)[k].start < Sorted(spans)[k].end <= length {
      assert Sorted(spans)[k] in multiset(spans);
      var m :| 0 <= m < |spans| && spans[m] == Sorted(spans)[k];
    }
  }

  /** No stretch of original text that survives contains a non-empty secret. */
  lemma NoSurvivingSecret(text: string, spans: seq<Span>, secrets: seq<string>, a: nat, b: nat, value: string, i: nat)
    requires Hides(text, spans, secrets)
    requires a <= b <= |text| && forall p :: a <= p < b ==> !Covered(spans, p)
    requires value in secrets && value != "" && i + |value| <= b - a
    ensures text[a..b][i..i + |value|] != value
  {
    SliceOfSlice(text, a, b, i, i + |value|);
    assert !Covered(spans, a + i);
    assert !OccursAt(text, value, a + i);
  }
}
