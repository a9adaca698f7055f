/** Matching expected partial entries against an ordered log.
    Models _partial_matches and _is_ordered_subsequence of src/baton_harness/scenario/verify.py. */
module ScenarioVerification {
  import opened JsonValues

  type Partial = map<string, Json>

  /** `actual` is an object with every expected key and value. */
  predicate PartialMatches(expected: Partial, actual: Json) {
    actual.Obj? && forall key :: key in expected ==> key in actual.fields && actual.fields[key] == expected[key]
  }

  /** `at` places every expected entry on an actual entry it matches, in strictly increasing order. */
  ghost predicate Placement(expected: seq<Partial>, actual: seq<Json>, at: seq<nat>) {
    |at| == |expected|
    && (forall k :: 0 <= k < |at| ==> at[k] < |actual| && PartialMatches(expected[k], actual[at[k]]))
    && (forall j, k :: 0 <= j < k < |at| ==> at[j] < at[k])
  }

  ghost predicate Embeds(expected: seq<Partial>, actual: seq<Json>) {
    exists at :: Placement(expected, actual, at)
  }

  lemma EmptyEmbeds(actual: seq<Json>)
    ensures Embeds([], actual)
  {
    assert Placement([], actual, []);
  }

  lemma NothingLeft(expected: seq<Partial>)
    requires expected != []
    ensures !Embeds(expected, [])
  {
    forall at ensures !Placement(expected, [], at) {
      if |at| == |expected| { assert !(at[0] < 0); }
    }
  }

  /** Positions seen from one entry further on. */
  function Back(at: seq<nat>): seq<nat>
    requires forall k :: 0 <= k < |at| ==> 0 < at[k]
  {
    seq(|at|, k requires 0 <= k < |at| => at[k] - 1)
  }

  function Forth(at: seq<nat>): seq<nat> {
    seq(|at|, k requires 0 <= k < |at| => at[k] + 1)
  }

  /** A match may always be taken at once: whatever else the entry could be used for, a later one does too. */
  lemma TakeMatch(expected: seq<Partial>, actual: seq<Json>)
    requires expected != [] && actual != [] && PartialMatches(expected[0], actual[0])
    ensures Embeds(expected, actual) <==> Embeds(expected[1..], actual[1..])
  {
    if Embeds(expected, actual) {
      var at :| Placement(expected, actual, at);
      assert forall k :: 0 < k < |at| ==> at[0] < at[k];
      assert Placement(expected[1..], actual[1..], Back(at[1..]));
    }
    if Embeds(expected[1..], actual[1..]) {
      var at :| Placement(expected[1..], actual[1..], at);
      assert Placement(expected, actual, [0] + Forth(at));
    }
  }

  lemma SkipMismatch(expected: seq<Partial>, actual: seq<Json>)
    requires expected != [] && actual != [] && !PartialMatches(expected[0], actual[0])
    ensures Embeds(expected, actual) <==> Embeds(expected, actual[1..])
  {
    if Embeds(expected, actual) {
      var at :| Placement(expected, actual, at);
      assert at[0] != 0;
      assert forall k :: 0 < k < |at| ==> at[0] < at[k];
      assert Placement(expected, actual[1..], Back(at));
    }
    if Embeds(expected, actual[1..]) {
      var at :| Placement(expected, actual[1..], at);
      assert Placement(expected, actual, Forth(at));
    }
  }

  lemma MatchesByItems(expected: Partial, actual: Json)
    ensures PartialMatches(expected, actual) <==> actual.Obj? && expected.Items <= actual.fields.Items
  {
    if actual.Obj? && expected.Items <= actual.fields.Items {
      forall key | key in expected ensures key in actual.fields && actual.fields[key] == expected[key] {
        assert (key, expected[key]) in expected.Items;
      }
    }
  }

  /** The same by key-value pairs: every expected pair is among those of the object it is placed on. */
  ghost predicate ByItems(expected: seq<Partial>, actual: seq<Json>, at: seq<nat>) {
    && |at| == |expected|
    && (forall k :: 0 <= k < |at| ==>
          at[k] < |actual| && actual[at[k]].Obj? && expected[k].Items <= actual[at[k]].fields.Items)
    && (forall j, k :: 0 <= j < k < |at| ==> at[j] < at[k])
  }

  lemma EmbedsByItems(expected: seq<Partial>, actual: seq<Json>)
    ensures Embeds(expected, actual) <==> exists at :: ByItems(expected, actual, at)
  {
    hide PartialMatches;
    forall e, a ensures PartialMatches(e, a) <==> a.Obj? && e.Items <= a.fields.Items { MatchesByItems(e, a); }
    forall at: seq<nat> ensures Placement(expected, actual, at) <==> ByItems(expected, actual, at) {}
  }

  /** The greedy scan finds a placement whenever there is one: every expected entry on an object that has all its keys
      with the same values. */
  method IsOrderedSubsequence(expected: seq<Partial>, actual: seq<Json>) returns (found: bool)
    ensures found <==> Embeds(expected, actual)
    ensures found <==> exists at :: ByItems(expected, actual, at)
  {
    EmbedsByItems(expected, actual);
    var next := 0;
    for k := 0 to |expected|
      invariant next <= |actual|
      invariant Embeds(expected, actual) <==> Embeds(expected[k..], actual[next..])
    {
      var matched := false;
      while next < |actual| && !matched
        invariant next <= |actual|
        invariant !matched ==> (Embeds(expected, actual) <==> Embeds(expected[k..], actual[next..]))
        invariant matched ==> (Embeds(expected, actual) <==> Embeds(expected[k + 1..], actual[next..]))
      {
        assert actual[next..][1..] == actual[next + 1..] && expected[k..][1..] == expected[k + 1..];
        if PartialMatches(expected[k], actual[next]) {
          TakeMatch(expected[k..], actual[next..]);
          matched := true;
        } else {
          SkipMismatch(expected[k..], actual[next..]);
        }
        next := next + 1;
      }
      if !matched {
        NothingLeft(expected[k..]);
        assert actual[next..] == [];
        return false;
      }
    }
    EmptyEmbeds(actual[next..]);
    assert expected[|expected|..] == [];
    return true;
  }

  /** Further entries in the log never turn a match into a mismatch. */
  lemma InsertionKeepsMatch(expected: seq<Partial>, actual: seq<Json>, i: nat, extra: seq<Json>)
    requires i <= |actual| && Embeds(expected, actual)
    ensures Embeds(expected, actual[..i] + extra + actual[i..])
  {
    var at :| Placement(expected, actual, at);
    var moved := seq(|at|, k requires 0 <= k < |at| => if at[k] < i then at[k] else at[k] + |extra|);
    var longer := actual[..i] + extra + actual[i..];
    forall k | 0 <= k < |at| ensures moved[k] < |longer| && longer[moved[k]] == actual[at[k]] {
    }
    assert Placement(expected, longer, moved);
  }

  /** Nor does expecting less: dropping an expected entry, or keys of one. */
  lemma ExpectingLess(expected: seq<Partial>, actual: seq<Json>, k: nat, keys: set<string>)
    requires k < |expected| && Embeds(expected, actual)
    ensures Embeds(expected[..k] + expected[k + 1..], actual)
    ensures Embeds(expected[k := expected[k] - keys], actual)
  {
    var at :| Placement(expected, actual, at);
    assert Placement(expected[..k] + expected[k + 1..], actual, at[..k] + at[k + 1..]);
    assert Placement(expected[k := expected[k] - keys], actual, at);
  }
}
