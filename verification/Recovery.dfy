/** Crash recovery: which issue is done, blocked, back in the CI gate or to be dispatched again.
    Models _has_open_pr and reconstruct of src/baton_harness/chain/recovery.py, and the matching rule of
    _find_issue_pr in src/baton_harness/chain/daemon/gh_api_helpers.py. */
module Reconstruction {
  import opened Prelude
  import opened Labels
  import Decimal

  // ----- Which issue a branch belongs to -----

  function EndsWith(s: string, suffix: string): bool {
    |suffix| <= |s| && s[|s| - |suffix|..] == suffix
  }

  /** A head branch that starts with `baton/` and ends with `-<n>`. */
  predicate HeadOf(head: string, n: int) {
    "baton/" <= head && EndsWith(head, "-" + Decimal.IntText(n))
  }

  lemma SuffixIndex(s: string, t: string, i: nat)
    requires EndsWith(s, t) && i < |t|
    ensures s[|s| - |t| + i] == t[i]
  {
    assert s[|s| - |t|..][i] == t[i];
  }

  /** The number that ends a string after its last dash is the longest run of digits there. */
  lemma LongerNumberDiffers(head: string, a: string, b: string)
    requires EndsWith(head, "-" + a) && EndsWith(head, "-" + b) && |a| < |b|
    ensures exists i :: 0 <= i < |b| && b[i] == '-'
  {
    SuffixIndex(head, "-" + a, 0);
    SuffixIndex(head, "-" + b, |b| - |a|);
    assert ("-" + b)[|b| - |a|] == b[|b| - |a| - 1];
  }

  lemma SameLengthSuffix(head: string, a: string, b: string)
    requires EndsWith(head, "-" + a) && EndsWith(head, "-" + b) && |a| == |b|
    ensures a == b
  {
    assert "-" + a == "-" + b;
    assert ("-" + a)[1..] == a && ("-" + b)[1..] == b;
  }

  /** A head branch belongs to at most one issue. */
  lemma HeadOfOneIssue(head: string, a: nat, b: nat)
    requires HeadOf(head, a) && HeadOf(head, b)
    ensures a == b
  {
    var da, db := Decimal.ToDecimal(a), Decimal.ToDecimal(b);
    assert forall i :: 0 <= i < |da| ==> da[i] != '-';
    assert forall i :: 0 <= i < |db| ==> db[i] != '-';
    if |da| < |db| {
      LongerNumberDiffers(head, da, db);
    } else if |db| < |da| {
      LongerNumberDiffers(head, db, da);
    } else {
      SameLengthSuffix(head, da, db);
      Decimal.IntTextInjective(a, b);
    }
  }

  /** The head is `baton/`, anything, a dash and the number. */
  ghost predicate Names(head: string, n: int) {
    exists middle: string :: head == "baton/" + middle + "-" + Decimal.IntText(n)
  }

  /** Prefix and suffix cannot overlap: the prefix holds no dash. */
  lemma HeadOfNames(head: string, n: int)
    ensures HeadOf(head, n) <==> Names(head, n)
  {
    hide EndsWith;
    var number := Decimal.IntText(n);
    if HeadOf(head, n) {
      SplitHead(head, "-" + number);
      var middle := head[6..|head| - |"-" + number|];
      Regroup("baton/" + middle, number);
      assert head == "baton/" + middle + "-" + number;
    }
    if middle: string :| head == "baton/" + middle + "-" + number {
      Regroup("baton/" + middle, number);
      JoinHead(middle, "-" + number);
    }
  }

  lemma Regroup(front: string, number: string)
    ensures front + "-" + number == front + ("-" + number)
  {
  }

  lemma JoinHead(middle: string, suffix: string)
    ensures "baton/" <= "baton/" + middle + suffix && EndsWith("baton/" + middle + suffix, suffix)
  {
    var head := "baton/" + middle + suffix;
    assert head[|head| - |suffix|..] == suffix;
  }

  lemma SplitHead(head: string, suffix: string)
    requires "baton/" <= head && EndsWith(head, suffix) && suffix != "" && suffix[0] == '-'
    ensures 6 + |suffix| <= |head| && head == "baton/" + head[6..|head| - |suffix|] + suffix
  {
    var p := |head| - |suffix|;
    SuffixIndex(head, suffix, 0);
    forall i | 0 <= i < 6 ensures head[i] != '-' { assert head[i] == "baton/"[i]; }
    assert head[..6] == "baton/" && head == head[..6] + head[6..p] + head[p..];
  }

  predicate HasOpenPr(n: int, heads: seq<string>) {
    exists i :: 0 <= i < |heads| && HeadOf(heads[i], n)
  }

  datatype PullRequest = PullRequest(head: string, sha: string)

  function Heads(prs: seq<PullRequest>): seq<string> {
    seq(|prs|, i requires 0 <= i < |prs| => prs[i].head)
  }

  predicate FirstMatch(prs: seq<PullRequest>, n: int, i: int)
    requires 0 <= i < |prs|
  {
    HeadOf(prs[i].head, n) && forall j :: 0 <= j < i ==> !HeadOf(prs[j].head, n)
  }

  /** Finds the first matching pull request, and finds one exactly when recovery's rule sees one. */
  method FindIssuePr(n: int, prs: seq<PullRequest>) returns (found: Option<PullRequest>)
    ensures found.Some? <==> HasOpenPr(n, Heads(prs))
    ensures found.Some? ==> exists i :: 0 <= i < |prs| && prs[i] == found.value && FirstMatch(prs, n, i)
    ensures if found.None? then forall i :: 0 <= i < |prs| ==> !Names(prs[i].head, n)
            else Names(found.value.head, n)
                 && exists i :: 0 <= i < |prs| && prs[i] == found.value
                      && forall j :: 0 <= j < i ==> !Names(prs[j].head, n)
  {
    forall head ensures HeadOf(head, n) <==> Names(head, n) { HeadOfNames(head, n); }
    for i := 0 to |prs|
      invariant forall j :: 0 <= j < i ==> !HeadOf(prs[j].head, n)
    {
      if HeadOf(prs[i].head, n) {
        assert HeadOf(Heads(prs)[i], n) && FirstMatch(prs, n, i);
        return Some(prs[i]);
      }
    }
    return None;
  }

  // ----- reconstruct -----

  datatype Recovery = Recovery(
    done: set<int>, parkedSeed: set<int>, ciGateReentry: set<int>, redispatch: set<int>)

  /** What is gathered before classifying; a failed label fetch reads as no labels. */
  datatype Signals = Signals(merges: set<int>, heads: seq<string>, labels: int -> set<Label>)

  ghost predicate IsDone(s: Signals, n: int) {
    n in s.merges && AgentMerged in s.labels(n)
  }

  /** A merge without its label, or a finished worker with an open pull request on an issue nobody blocked. */
  ghost predicate NeedsGate(s: Signals, n: int) {
    (n in s.merges && AgentMerged !in s.labels(n))
    || (n !in s.merges && Blocked !in s.labels(n) && AgentDone in s.labels(n) && HasOpenPr(n, s.heads))
  }

  ghost predicate IsHeld(s: Signals, n: int) {
    n !in s.merges && Blocked in s.labels(n)
  }

  /** Left in progress, with no later stage to its name. */
  ghost predicate IsOrphan(s: Signals, n: int) {
    AgentInProgress in s.labels(n) && n !in s.merges && Blocked !in s.labels(n)
    && !(AgentDone in s.labels(n) && HasOpenPr(n, s.heads))
  }

  /** No issue is in two of the sets. */
  ghost predicate Exclusive(r: Recovery) {
    forall n ::
      (n in r.done ==> n !in r.parkedSeed && n !in r.ciGateReentry && n !in r.redispatch)
      && (n in r.parkedSeed ==> n !in r.ciGateReentry && n !in r.redispatch)
      && (n in r.ciGateReentry ==> n !in r.redispatch)
  }

  /** The four sets sort the issues of `seen`. */
  ghost predicate Sorts(s: Signals, seen: set<int>, r: Recovery) {
    (forall n :: n in r.done <==> n in seen && IsDone(s, n))
    && (forall n :: n in r.ciGateReentry <==> n in seen && NeedsGate(s, n))
    && (forall n :: n in r.parkedSeed <==> n in seen && IsHeld(s, n))
    && (forall n :: n in r.redispatch <==> n in seen && IsOrphan(s, n))
  }

  datatype Class = Done | Gate | Held | Orphan | Frontier

  lemma SortMore(s: Signals, seen: set<int>, r: Recovery, n: int, c: Class)
    requires Sorts(s, seen, r)
    requires (c == Done <==> IsDone(s, n)) && (c == Gate <==> NeedsGate(s, n))
    requires (c == Held <==> IsHeld(s, n)) && (c == Orphan <==> IsOrphan(s, n))
    ensures Sorts(s, seen + {n}, Put(r, n, c))
  {
  }

  /** The issue added to the set of its class. */
  function Put(r: Recovery, n: int, c: Class): Recovery {
    match c
    case Done => r.(done := r.done + {n})
    case Gate => r.(ciGateReentry := r.ciGateReentry + {n})
    case Held => r.(parkedSeed := r.parkedSeed + {n})
    case Orphan => r.(redispatch := r.redispatch + {n})
    case Frontier => r
  }

  /** The rules in order of precedence: each class is one condition on the signals. */
  function Classify(s: Signals, n: int): (c: Class)
    ensures (c == Done <==> IsDone(s, n)) && (c == Gate <==> NeedsGate(s, n))
    ensures (c == Held <==> IsHeld(s, n)) && (c == Orphan <==> IsOrphan(s, n))
  {
    var labels := s.labels(n);
    if n in s.merges && AgentMerged in labels then Done
    else if n in s.merges && AgentMerged !in labels then Gate
    else if Blocked in labels then Held
    else if AgentDone in labels && HasOpenPr(n, s.heads) then Gate
    else if AgentInProgress in labels then Orphan
    else Frontier
  }

  /** The classification loop. */
  method Reconstruct(membership: set<int>, s: Signals) returns (r: Recovery)
    ensures Sorts(s, membership, r) && Exclusive(r)
    ensures forall n :: n in r.done <==> n in membership && n in s.merges && AgentMerged in s.labels(n)
    ensures forall n :: n in r.parkedSeed <==> n in membership && n !in s.merges && Blocked in s.labels(n)
    ensures forall n :: n in r.ciGateReentry <==>
              n in membership
              && if n in s.merges then AgentMerged !in s.labels(n)
                 else Blocked !in s.labels(n) && AgentDone in s.labels(n) && HasOpenPr(n, s.heads)
    ensures forall n :: n in r.redispatch <==>
              n in membership && n !in s.merges && Blocked !in s.labels(n) && AgentInProgress in s.labels(n)
              && !(AgentDone in s.labels(n) && HasOpenPr(n, s.heads))
  {
    r := Recovery({}, {}, {}, {});
    var rest := membership;
    ghost var seen := {};
    while rest != {}
      invariant seen + rest == membership && Sorts(s, seen, r)
      decreases |rest|
    {
      var n := AnyOf(rest);
      var c := Classify(s, n);
      SortMore(s, seen, r, n, c);
      r := Put(r, n, c);
      rest := rest - {n};
      seen := seen + {n};
    }
    assert seen == membership;
  }
}
