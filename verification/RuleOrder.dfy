/** When the verdict of _rules_equal depends on the order of the two lists.
    Models the promise made of _rules_equal in src/baton_harness/chain/ruleset_status.py. */
module RuleOrder {
  import opened Prelude
  import opened RuleMatching
  import opened RuleComparison

  // ----- The order of the live rules -----

  ghost predicate SameVerdict(defaults: Defaults, desired: seq<Rule>, desired2: seq<Rule>, live: seq<Rule>,
                              live2: seq<Rule>) {
    RulesAgree(defaults, desired, live) <==> RulesAgree(defaults, desired2, live2)
  }

  /** The order of the live rules never matters exactly when the desired list is order-safe. */
  lemma LiveOrderIsIrrelevantExactly(defaults: Defaults, desired: seq<Rule>)
    ensures OrderSafe(desired) <==>
            forall live, live2 :: multiset(live) == multiset(live2) ==>
              SameVerdict(defaults, desired, desired, live, live2)
  {
    AgreementIsExact(defaults, desired);
    if OrderSafe(desired) {
      forall live, live2 | multiset(live) == multiset(live2)
        ensures SameVerdict(defaults, desired, desired, live, live2)
      {
        assert Matched(defaults, desired, live) <==> Matched(defaults, desired, live2);
      }
    } else {
      var i, j, key := OrderUnsafe(desired);
      var trap := Trap(desired, i, j, key);
      TrapDefeatsGreedy(defaults, desired, i, j, key);
      var p := MatchOf(defaults, desired, trap, i, j, key);
      PairedAgree(defaults, desired, p);
      assert !SameVerdict(defaults, desired, desired, p, trap);
    }
  }

  lemma MatchOf(defaults: Defaults, desired: seq<Rule>, trap: seq<Rule>, i: nat, j: nat, key: string)
      returns (p: seq<Rule>)
    requires Trapped(desired, i, j, key) && trap == Trap(desired, i, j, key)
    ensures multiset(p) == multiset(trap) && Pairs(defaults, desired, p)
  {
    TrapIsMatched(defaults, desired, i, j, key);
    p :| multiset(p) == multiset(trap) && Pairs(defaults, desired, p);
  }

  /** Live rules in the order of the desired rules they fit are accepted. */
  lemma PairedAgree(defaults: Defaults, desired: seq<Rule>, p: seq<Rule>)
    requires Pairs(defaults, desired, p)
    ensures RulesAgree(defaults, desired, p)
  {
    GreedyTakesHeads(defaults, desired, p, |p|);
  }

  // ----- The order of the desired rules -----

  /** Any two desired rules of one type conflict on a key or have the same parameters. */
  ghost predicate Rigid(desired: seq<Rule>) {
    forall a, b :: a in desired && b in desired && a.kind == b.kind ==>
      Conflict(a.Params(), b.Params()) || a.Params() == b.Params()
  }

  lemma RigidInAnyOrder(desired: seq<Rule>, desired2: seq<Rule>)
    requires Rigid(desired) && multiset(desired) == multiset(desired2)
    ensures OrderSafe(desired2)
  {
    forall r | r in desired2 ensures r in desired {
      assert r in multiset(desired2);
      assert r in multiset(desired);
    }
  }

  /** A rule put in where its partner was taken out. */
  lemma PairsInsert(defaults: Defaults, b: seq<Rule>, k: nat, r: Rule, rest: seq<Rule>)
    requires k < |b| && Fits(defaults, b[k], r) && Pairs(defaults, Without(b, k), rest)
    ensures k <= |rest| && Pairs(defaults, b, rest[..k] + [r] + rest[k..])
    ensures multiset(rest[..k] + [r] + rest[k..]) == multiset{r} + multiset(rest)
  {
    hide Fits;
    var q := rest[..k] + [r] + rest[k..];
    forall m | 0 <= m < |q| ensures Fits(defaults, b[m], q[m]) {
      if m != k {
        var at := if m < k then m else m - 1;
        assert Fits(defaults, Without(b, k)[at], rest[at]);
      }
    }
    assert rest == rest[..k] + rest[k..];
  }

  /** A one-to-one assignment follows the desired rules when they are reordered. */
  lemma {:induction false} Realign(defaults: Defaults, a: seq<Rule>, b: seq<Rule>, p: seq<Rule>) returns (q: seq<Rule>)
    requires multiset(a) == multiset(b) && Pairs(defaults, a, p)
    ensures multiset(q) == multiset(p) && Pairs(defaults, b, q)
    decreases |a|
  {
    hide Without;
    if a == [] {
      assert |multiset(b)| == 0;
      q := [];
    } else {
      var k := HeadElsewhere(a, b);
      PairsTail(defaults, a, p);
      var rest := Realign(defaults, a[1..], Without(b, k), p[1..]);
      PairsInsert(defaults, b, k, p[0], rest);
      q := rest[..k] + [p[0]] + rest[k..];
    }
  }

  lemma PairsTail(defaults: Defaults, a: seq<Rule>, p: seq<Rule>)
    requires a != [] && Pairs(defaults, a, p)
    ensures Pairs(defaults, a[1..], p[1..]) && Fits(defaults, a[0], p[0])
    ensures multiset(p) == multiset{p[0]} + multiset(p[1..])
  {
    hide Fits;
    assert p == [p[0]] + p[1..];
  }

  lemma MatchedInAnyOrder(defaults: Defaults, desired: seq<Rule>, desired2: seq<Rule>, live: seq<Rule>)
    requires multiset(desired) == multiset(desired2) && Matched(defaults, desired, live)
    ensures Matched(defaults, desired2, live)
  {
    var p :| multiset(p) == multiset(live) && Pairs(defaults, desired, p);
    var q := Realign(defaults, desired, desired2, p);
  }

  function Swapped<T>(s: seq<T>, i: nat, j: nat): (t: seq<T>)
    requires i < j < |s|
  {
    s[i := s[j]][j := s[i]]
  }

  /** A trap for one order is accepted once the two trapped rules change places. */
  lemma SwapEscapes(defaults: Defaults, desired: seq<Rule>, i: nat, j: nat, key: string)
    requires Trapped(desired, i, j, key)
    ensures !SameVerdict(defaults, desired, Swapped(desired, i, j), Trap(desired, i, j, key), Trap(desired, i, j, key))
  {
    var trap, swapped := Trap(desired, i, j, key), Swapped(desired, i, j);
    TrapDefeatsGreedy(defaults, desired, i, j, key);
    TrapFits(defaults, desired, i, j, key);
    forall k | 0 <= k < |trap| ensures Fits(defaults, swapped[k], trap[k]) {
      if k != i && k != j { CopyFits(defaults, desired, k, k); }
    }
    PairedAgree(defaults, swapped, trap);
  }

  lemma WithinBothWays(a: Params, b: Params)
    requires Within(a, b) && Within(b, a)
    ensures a == b
  {
    assert a.Keys == b.Keys;
  }

  /** Two orders of a list that is not rigid, and a live list on which they differ. */
  lemma OrdersDiffer(defaults: Defaults, desired: seq<Rule>) returns (desired2: seq<Rule>, live: seq<Rule>)
    requires !Rigid(desired)
    ensures multiset(desired2) == multiset(desired) && !SameVerdict(defaults, desired, desired2, live, live)
  {
    var i, j := LoosePair(desired);
    desired2 := Swapped(desired, i, j);
    SwapMultiset(desired, i, j);
    if Within(desired[j].Params(), desired[i].Params()) {
      WithinOneWay(desired, i, j);
      var key := UnsafePair(desired2[i].Params(), desired2[j].Params());
      SwapEscapes(defaults, desired2, i, j, key);
      assert Swapped(desired2, i, j) == desired;
      live := Trap(desired2, i, j, key);
    } else {
      var key := UnsafePair(desired[i].Params(), desired[j].Params());
      SwapEscapes(defaults, desired, i, j, key);
      live := Trap(desired, i, j, key);
    }
  }

  lemma LoosePair(desired: seq<Rule>) returns (i: nat, j: nat)
    requires !Rigid(desired)
    ensures i < j < |desired| && desired[i].kind == desired[j].kind
    ensures desired[i].Params() != desired[j].Params()
    ensures !Conflict(desired[i].Params(), desired[j].Params())
  {
    var a, b :| a in desired && b in desired && a.kind == b.kind
      && !Conflict(a.Params(), b.Params()) && a.Params() != b.Params();
    var k :| 0 <= k < |desired| && desired[k] == a;
    var m :| 0 <= m < |desired| && desired[m] == b;
    i, j := if k < m then k else m, if k < m then m else k;
    if k > m { ConflictIsMutual(a.Params(), b.Params()); }
  }

  lemma ConflictIsMutual(a: Params, b: Params)
    ensures Conflict(a, b) <==> Conflict(b, a)
  {
  }

  lemma WithinOneWay(desired: seq<Rule>, i: nat, j: nat)
    requires i < j < |desired| && desired[i].Params() != desired[j].Params()
    requires Within(desired[j].Params(), desired[i].Params())
    ensures !Within(desired[i].Params(), desired[j].Params())
  {
    if Within(desired[i].Params(), desired[j].Params()) {
      WithinBothWays(desired[i].Params(), desired[j].Params());
    }
  }

  /** The order of the desired rules never matters exactly when the list is rigid, and then the order of the live rules
      does not matter either. */
  lemma DesiredOrderIsIrrelevantExactly(defaults: Defaults, desired: seq<Rule>)
    ensures Rigid(desired) <==>
            forall desired2, live :: multiset(desired) == multiset(desired2) ==>
              SameVerdict(defaults, desired, desired2, live, live)
    ensures Rigid(desired) ==>
            forall desired2, live, live2 :: multiset(desired) == multiset(desired2) && multiset(live) == multiset(live2)
              ==> SameVerdict(defaults, desired, desired2, live, live2)
  {
    if Rigid(desired) {
      forall desired2, live, live2 | multiset(desired) == multiset(desired2) && multiset(live) == multiset(live2)
        ensures SameVerdict(defaults, desired, desired2, live, live2)
      {
        RigidInAnyOrder(desired, desired);
        RigidInAnyOrder(desired, desired2);
        AgreementIsExact(defaults, desired);
        AgreementIsExact(defaults, desired2);
        if Matched(defaults, desired, live) { MatchedInAnyOrder(defaults, desired, desired2, live); }
        if Matched(defaults, desired2, live2) { MatchedInAnyOrder(defaults, desired2, desired, live2); }
      }
    } else {
      var desired2, live := OrdersDiffer(defaults, desired);
    }
  }
}
