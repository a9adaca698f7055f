/** Comparing two `rules` arrays.
    Models _RULE_PARAM_DEFAULTS, _rule_params_equal and _rules_equal of
    src/baton_harness/chain/ruleset_status.py: the default table, grouping by type and the nested matching loops. */
module RuleComparison {
  import opened Prelude
  import opened JsonValues
  import opened RuleMatching

  // ----- _rule_params_equal -----

  method RuleParamsEqual(defaults: Defaults, kind: string, desired: Params, live: Params) returns (equal: bool)
    ensures equal <==> Satisfies(defaults, kind, desired, live)
    ensures equal <==>
            forall key :: key in desired ==>
              || (key in live && live[key] == desired[key])
              || (key !in live && defaults(kind, key) == Some(desired[key]))
  {
    var rest := desired.Keys;
    while rest != {}
      invariant rest <= desired.Keys
      invariant forall key :: key in desired && key !in rest ==>
        if key in live then live[key] == desired[key] else defaults(kind, key) == Some(desired[key])
      decreases |rest|
    {
      var key := AnyOf(rest);
      if key in live {
        if live[key] != desired[key] { return false; }
      } else if defaults(kind, key) != Some(desired[key]) {
        return false;
      }
      rest := rest - {key};
    }
    return true;
  }

  // ----- Grouping by type -----

  /** The rules of one type, in order. */
  function OfKind(rules: seq<Rule>, kind: string): seq<Rule> {
    if rules == [] then []
    else if rules[0].kind == kind then [rules[0]] + OfKind(rules[1..], kind)
    else OfKind(rules[1..], kind)
  }

  lemma {:induction false} OfKindAppend(rules: seq<Rule>, r: Rule, kind: string)
    ensures OfKind(rules + [r], kind) == OfKind(rules, kind) + if r.kind == kind then [r] else []
  {
    if rules == [] {
      assert rules + [r] == [r];
    } else {
      OfKindAppend(rules[1..], r, kind);
      assert (rules + [r])[1..] == rules[1..] + [r];
    }
  }

  /** The `setdefault(rule["type"], []).append(rule)` loop. */
  method GroupByType(rules: seq<Rule>) returns (groups: map<string, seq<Rule>>)
    ensures forall kind :: kind in groups <==> OfKind(rules, kind) != []
    ensures forall kind :: kind in groups ==> groups[kind] == OfKind(rules, kind)
  {
    groups := map[];
    for i := 0 to |rules|
      invariant forall kind :: kind in groups <==> OfKind(rules[..i], kind) != []
      invariant forall kind :: kind in groups ==> groups[kind] == OfKind(rules[..i], kind)
    {
      var r := rules[i];
      forall kind
        ensures OfKind(rules[..i + 1], kind) == OfKind(rules[..i], kind) + if r.kind == kind then [r] else []
      {
        assert rules[..i + 1] == rules[..i] + [r];
        OfKindAppend(rules[..i], r, kind);
      }
      groups := groups[r.kind := (if r.kind in groups then groups[r.kind] else []) + [r]];
    }
    assert rules[..|rules|] == rules;
  }

  /** What the loop body checks for one type. */
  ghost predicate GroupAgrees(defaults: Defaults, desired: seq<Rule>, live: seq<Rule>, kind: string) {
    |OfKind(desired, kind)| == |OfKind(live, kind)| && Greedy(defaults, OfKind(desired, kind), OfKind(live, kind))
  }

  /** What _rules_equal decides. */
  ghost predicate RulesAgree(defaults: Defaults, desired: seq<Rule>, live: seq<Rule>) {
    |desired| == |live| && Greedy(defaults, desired, live)
  }

  // ----- Grouping does not change the verdict -----

  lemma OfKindWithoutTail(rules: seq<Rule>, k: nat, kind: string)
    requires k + 1 < |rules|
    ensures OfKind(Without(rules, k + 1), kind)
            == (if rules[0].kind == kind then [rules[0]] else []) + OfKind(Without(rules[1..], k), kind)
  {
    assert Without(rules, k + 1)[1..] == Without(rules[1..], k);
  }

  lemma FirstFitCons(defaults: Defaults, d: Rule, r: Rule, rest: seq<Rule>)
    requires !Fits(defaults, d, r)
    ensures FirstFit(defaults, d, [r] + rest) == 1 + FirstFit(defaults, d, rest)
  {
    assert ([r] + rest)[1..] == rest;
  }

  lemma FirstFitHead(defaults: Defaults, d: Rule, r: Rule, rest: seq<Rule>)
    requires Fits(defaults, d, r)
    ensures FirstFit(defaults, d, [r] + rest) == 0
    ensures Without([r] + rest, 0) == rest
  {
    assert ([r] + rest)[0] == r;
  }

  /** Position `k` among all live rules and position `g` among those of `d`'s type both are the first fit. */
  ghost predicate SameFit(defaults: Defaults, d: Rule, live: seq<Rule>, k: nat, g: nat) {
    k == FirstFit(defaults, d, live) && g == FirstFit(defaults, d, OfKind(live, d.kind))
    && (k == |live| <==> g == |OfKind(live, d.kind)|)
    && (k < |live| ==> OfKind(Without(live, k), d.kind) == Without(OfKind(live, d.kind), g))
  }

  lemma SameFitHere(defaults: Defaults, d: Rule, r: Rule, rest: seq<Rule>)
    requires Fits(defaults, d, r)
    ensures SameFit(defaults, d, [r] + rest, 0, 0)
  {
    assert ([r] + rest)[1..] == rest;
    FirstFitHead(defaults, d, r, rest);
    FirstFitHead(defaults, d, r, OfKind(rest, d.kind));
  }

  lemma SameFitLater(defaults: Defaults, d: Rule, r: Rule, rest: seq<Rule>, k: nat, g: nat)
    requires !Fits(defaults, d, r) && SameFit(defaults, d, rest, k, g)
    ensures SameFit(defaults, d, [r] + rest, k + 1, if r.kind == d.kind then g + 1 else g)
  {
    var live := [r] + rest;
    assert live[1..] == rest;
    FirstFitCons(defaults, d, r, rest);
    if k < |rest| { OfKindWithoutTail(live, k, d.kind); }
    if r.kind == d.kind {
      FirstFitCons(defaults, d, r, OfKind(rest, d.kind));
      WithoutCons(r, OfKind(rest, d.kind), g);
    }
  }

  /** The first fit among all live rules is the first fit among those of its type. */
  lemma {:induction false} FirstFitInGroup(defaults: Defaults, d: Rule, live: seq<Rule>) returns (g: nat)
    ensures SameFit(defaults, d, live, FirstFit(defaults, d, live), g)
  {
    if live == [] {
      g := 0;
    } else {
      assert live == [live[0]] + live[1..];
      if Fits(defaults, d, live[0]) {
        g := 0;
        SameFitHere(defaults, d, live[0], live[1..]);
      } else {
        g := FirstFitInGroup(defaults, d, live[1..]);
        SameFitLater(defaults, d, live[0], live[1..], FirstFit(defaults, d, live[1..]), g);
        g := if live[0].kind == d.kind then g + 1 else g;
      }
    }
  }

  lemma WithoutCons<T>(x: T, rest: seq<T>, g: nat)
    ensures g < |rest| ==> Without([x] + rest, g + 1) == [x] + Without(rest, g)
  {
  }

  lemma {:induction false} OfKindWithoutOther(rules: seq<Rule>, k: nat, kind: string)
    requires k < |rules| && rules[k].kind != kind
    ensures OfKind(Without(rules, k), kind) == OfKind(rules, kind)
    decreases k
  {
    if k == 0 {
      assert Without(rules, 0) == rules[1..];
    } else {
      OfKindWithoutOther(rules[1..], k - 1, kind);
      assert Without(rules, k)[1..] == Without(rules[1..], k - 1);
    }
  }

  lemma GreedyStep(defaults: Defaults, d: Rule, rest: seq<Rule>, live: seq<Rule>, g: nat)
    requires g == FirstFit(defaults, d, live) && g < |live|
    ensures Greedy(defaults, [d] + rest, live) <==> Greedy(defaults, rest, Without(live, g))
  {
    assert ([d] + rest)[1..] == rest;
  }

  lemma GroupStepSame(defaults: Defaults, d: Rule, rest: seq<Rule>, live: seq<Rule>)
    requires FirstFit(defaults, d, live) < |live|
    ensures GroupAgrees(defaults, [d] + rest, live, d.kind) <==>
            GroupAgrees(defaults, rest, Without(live, FirstFit(defaults, d, live)), d.kind)
  {
    var g := FirstFitInGroup(defaults, d, live);
    assert ([d] + rest)[1..] == rest;
    assert OfKind([d] + rest, d.kind) == [d] + OfKind(rest, d.kind);
    GreedyStep(defaults, d, OfKind(rest, d.kind), OfKind(live, d.kind), g);
  }

  lemma GroupStepOther(defaults: Defaults, d: Rule, rest: seq<Rule>, live: seq<Rule>, kind: string)
    requires FirstFit(defaults, d, live) < |live| && kind != d.kind
    ensures GroupAgrees(defaults, [d] + rest, live, kind) <==>
            GroupAgrees(defaults, rest, Without(live, FirstFit(defaults, d, live)), kind)
  {
    assert ([d] + rest)[1..] == rest;
    assert OfKind([d] + rest, kind) == OfKind(rest, kind);
    OfKindWithoutOther(live, FirstFit(defaults, d, live), kind);
  }

  /** Comparing type by type is one greedy pass over the two lists as they stand. */
  lemma {:induction false} GroupsDecide(defaults: Defaults, desired: seq<Rule>, live: seq<Rule>)
    ensures RulesAgree(defaults, desired, live) <==> forall kind :: GroupAgrees(defaults, desired, live, kind)
    decreases |desired|
  {
    if desired == [] {
      if live != [] { assert !GroupAgrees(defaults, desired, live, live[0].kind); }
    } else {
      var d := desired[0];
      var k := FirstFit(defaults, d, live);
      if k < |live| {
        GroupsDecide(defaults, desired[1..], Without(live, k));
        forall kind ensures GroupAgrees(defaults, desired, live, kind) <==>
                            GroupAgrees(defaults, desired[1..], Without(live, k), kind) {
          assert desired == [d] + desired[1..];
          if kind == d.kind {
            GroupStepSame(defaults, d, desired[1..], live);
          } else {
            GroupStepOther(defaults, d, desired[1..], live, kind);
          }
        }
      } else {
        var g := FirstFitInGroup(defaults, d, live);
        assert !GroupAgrees(defaults, desired, live, d.kind);
      }
    }
  }

  // ----- _rules_equal -----

  /** The innermost loop: the first unmatched live rule that satisfies the desired one. */
  method FindMatch(defaults: Defaults, d: Rule, live: seq<Rule>) returns (k: nat)
    requires forall i :: 0 <= i < |live| ==> live[i].kind == d.kind
    ensures k == FirstFit(defaults, d, live)
  {
    k := 0;
    while k < |live|
      invariant k <= |live|
      invariant k + FirstFit(defaults, d, live[k..]) == FirstFit(defaults, d, live)
    {
      var fits := RuleParamsEqual(defaults, d.kind, d.Params(), live[k].Params());
      if fits { return; }
      assert live[k..][1..] == live[k + 1..];
      k := k + 1;
    }
  }

  /** The loop over one type: each desired occurrence pops the live occurrence it matches. */
  method MatchOccurrences(defaults: Defaults, desired: seq<Rule>, live: seq<Rule>, kind: string) returns (ok: bool)
    requires forall r :: r in desired || r in live ==> r.kind == kind
    ensures ok <==> Greedy(defaults, desired, live)
  {
    var left := live;
    for i := 0 to |desired|
      invariant forall r :: r in left ==> r.kind == kind
      invariant Greedy(defaults, desired, live) <==> Greedy(defaults, desired[i..], left)
    {
      assert desired[i..][0] == desired[i] && desired[i..][1..] == desired[i + 1..];
      var k := FindMatch(defaults, desired[i], left);
      if k == |left| { return false; }
      left := left[..k] + left[k + 1..];
    }
    return true;
  }

  lemma {:induction false} OfKindHasKind(rules: seq<Rule>, kind: string)
    ensures forall r :: r in OfKind(rules, kind) ==> r.kind == kind
  {
    if rules != [] { OfKindHasKind(rules[1..], kind); }
  }

  method RulesEqual(defaults: Defaults, desired: seq<Rule>, live: seq<Rule>) returns (equal: bool)
    ensures equal <==> RulesAgree(defaults, desired, live)
  {
    GroupsDecide(defaults, desired, live);
    var desiredByType := GroupByType(desired);
    var liveByType := GroupByType(live);
    if desiredByType.Keys != liveByType.Keys {
      if kind :| kind in desiredByType.Keys && kind !in liveByType.Keys {
        assert !GroupAgrees(defaults, desired, live, kind);
      } else if kind :| kind in liveByType.Keys && kind !in desiredByType.Keys {
        assert !GroupAgrees(defaults, desired, live, kind);
      }
      return false;
    }
    var rest := desiredByType.Keys;
    while rest != {}
      invariant rest <= desiredByType.Keys
      invariant forall kind :: kind in desiredByType && kind !in rest ==> GroupAgrees(defaults, desired, live, kind)
      decreases |rest|
    {
      var kind := AnyOf(rest);
      if |desiredByType[kind]| != |liveByType[kind]| {
        assert !GroupAgrees(defaults, desired, live, kind);
        return false;
      }
      OfKindHasKind(desired, kind);
      OfKindHasKind(live, kind);
      var ok := MatchOccurrences(defaults, desiredByType[kind], liveByType[kind], kind);
      if !ok {
        assert !GroupAgrees(defaults, desired, live, kind);
        return false;
      }
      rest := rest - {kind};
    }
    forall kind ensures GroupAgrees(defaults, desired, live, kind) {
      if kind !in desiredByType {
        assert OfKind(desired, kind) == [] && OfKind(live, kind) == [];
      }
    }
    return true;
  }

  /** A true verdict comes with a one-to-one assignment of live to desired rules, type by type. */
  lemma AgreementIsAMatching(defaults: Defaults, desired: seq<Rule>, live: seq<Rule>)
    requires RulesAgree(defaults, desired, live)
    ensures Matched(defaults, desired, live)
  {
    var p := GreedyIsSound(defaults, desired, live);
  }

  /** The verdict finds every such assignment, whatever is live, exactly when no later desired rule adds parameters
      to an earlier rule of its type it does not conflict with. */
  lemma AgreementIsExact(defaults: Defaults, desired: seq<Rule>)
    ensures OrderSafe(desired) <==>
            forall live :: RulesAgree(defaults, desired, live) <==> Matched(defaults, desired, live)
  {
    GreedyExactlyWhenOrderSafe(defaults, desired);
    forall live ensures RulesAgree(defaults, desired, live) ==> Matched(defaults, desired, live) {
      if RulesAgree(defaults, desired, live) { AgreementIsAMatching(defaults, desired, live); }
    }
    forall live | Matched(defaults, desired, live) ensures |desired| == |live| {
      var p :| multiset(p) == multiset(live) && Pairs(defaults, desired, p);
      assert |multiset(p)| == |p| && |multiset(live)| == |live|;
    }
  }

  /** A list agrees with itself, order-safe or not. */
  lemma AgreementIsReflexive(defaults: Defaults, rules: seq<Rule>)
    ensures RulesAgree(defaults, rules, rules)
  {
    GreedyIsReflexive(defaults, rules);
  }

  /** Greedy stops at a first rule that fits nothing. */
  lemma NothingFits(defaults: Defaults, d: Rule, live: Rule)
    requires !Fits(defaults, d, live)
    ensures !Greedy(defaults, [d], [live])
  {
    FirstFitCons(defaults, d, live, []);
    assert [live] + [] == [live];
  }

  /** And goes on past a first rule that fits the first live one. */
  lemma TakesFirst(defaults: Defaults, d: Rule, rest: seq<Rule>, r: Rule, live: seq<Rule>)
    requires Fits(defaults, d, r)
    ensures Greedy(defaults, [d] + rest, [r] + live) <==> Greedy(defaults, rest, live)
  {
    FirstFitHead(defaults, d, r, live);
    GreedyStep(defaults, d, rest, [r] + live, 0);
  }

  const LOOSE := Rule("p", Some(map["a" := Num(1)]))
  const TIGHT := Rule("p", Some(map["a" := Num(1), "b" := Num(2)]))
  const OTHER := Rule("p", Some(map["a" := Num(1), "b" := Num(3)]))

  lemma WhatFits(defaults: Defaults)
    ensures Fits(defaults, LOOSE, TIGHT) && Fits(defaults, LOOSE, OTHER) && Fits(defaults, TIGHT, TIGHT)
    ensures !Fits(defaults, TIGHT, OTHER)
  {
    assert TIGHT.Params()["b"] != OTHER.Params()["b"];
  }

  /** The same desired rules in two orders against the same live rules: only one order is accepted. */
  lemma OrderMatters(defaults: Defaults)
    ensures !RulesAgree(defaults, [LOOSE, TIGHT], [TIGHT, OTHER])
    ensures RulesAgree(defaults, [TIGHT, LOOSE], [TIGHT, OTHER])
  {
    hide Fits;
    WhatFits(defaults);
    TakesFirst(defaults, LOOSE, [TIGHT], TIGHT, [OTHER]);
    NothingFits(defaults, TIGHT, OTHER);
    TakesFirst(defaults, TIGHT, [LOOSE], TIGHT, [OTHER]);
    TakesFirst(defaults, LOOSE, [], OTHER, []);
    assert [LOOSE] + [] == [LOOSE] && [OTHER] + [] == [OTHER];
    assert [LOOSE] + [TIGHT] == [LOOSE, TIGHT] && [TIGHT] + [LOOSE] == [TIGHT, LOOSE];
    assert [TIGHT] + [OTHER] == [TIGHT, OTHER];
  }

  // ----- The table of documented defaults -----

  function GitHubDefaults(kind: string, parameter: string): Option<Json> {
    match kind
    case "update" =>
      if parameter == "update_allows_fetch_and_merge" then Some(Bool(false)) else None
    case "pull_request" =>
      (match parameter
       case "required_approving_review_count" => Some(Num(0))
       case "dismiss_stale_reviews_on_push" => Some(Bool(false))
       case "require_code_owner_review" => Some(Bool(false))
       case "require_last_push_approval" => Some(Bool(false))
       case "required_review_thread_resolution" => Some(Bool(false))
       case "required_reviewers" => Some(Arr([]))
       case "allowed_merge_methods" => Some(Arr([Str("merge"), Str("squash"), Str("rebase")]))
       case _ => None)
    case "required_status_checks" =>
      if parameter == "strict_required_status_checks_policy" || parameter == "do_not_enforce_on_create"
      then Some(Bool(false)) else None
    case _ => None
  }
}
