/** GitHub leaves out parameters at their documented default and echoes parameters nobody asked for; neither shows in
    the verdict.
    Models the promises made of _RULE_PARAM_DEFAULTS and _rule_params_equal in
    src/baton_harness/chain/ruleset_status.py. */
module RuleDefaults {
  import opened Prelude
  import opened JsonValues
  import opened RuleMatching
  import opened RuleComparison

  // ----- Live rules that fit the same desired rules -----

  /** Position by position, the same of the desired rules fit. */
  ghost predicate FitAlike(defaults: Defaults, desired: seq<Rule>, live: seq<Rule>, live2: seq<Rule>) {
    |live| == |live2|
    && forall i, d :: 0 <= i < |live| && d in desired ==> (Fits(defaults, d, live[i]) <==> Fits(defaults, d, live2[i]))
  }

  lemma SameFirstFit(defaults: Defaults, desired: seq<Rule>, d: Rule, live: seq<Rule>, live2: seq<Rule>)
    requires FitAlike(defaults, desired, live, live2) && d in desired
    ensures FirstFit(defaults, d, live) == FirstFit(defaults, d, live2)
  {
    hide Fits;
  }

  lemma {:induction false} SameGreedy(defaults: Defaults, desired: seq<Rule>, live: seq<Rule>, live2: seq<Rule>)
    requires FitAlike(defaults, desired, live, live2)
    ensures Greedy(defaults, desired, live) <==> Greedy(defaults, desired, live2)
    decreases |desired|
  {
    hide Fits;
    if desired != [] {
      SameFirstFit(defaults, desired, desired[0], live, live2);
      var k := FirstFit(defaults, desired[0], live);
      if k < |live| {
        forall i, d | 0 <= i < |Without(live, k)| && d in desired[1..]
          ensures Fits(defaults, d, Without(live, k)[i]) <==> Fits(defaults, d, Without(live2, k)[i])
        {
          assert d in desired;
          var at := if i < k then i else i + 1;
          assert Without(live, k)[i] == live[at] && Without(live2, k)[i] == live2[at];
        }
        SameGreedy(defaults, desired[1..], Without(live, k), Without(live2, k));
      }
    }
  }

  // ----- What GitHub leaves out -----

  /** `brief` is `full` without some parameters that are at their documented default. */
  ghost predicate OmitsDefaults(defaults: Defaults, full: Rule, brief: Rule) {
    && brief.kind == full.kind
    && (forall key :: key in brief.Params() ==> key in full.Params() && brief.Params()[key] == full.Params()[key])
    && (forall key :: key in full.Params() && key !in brief.Params() ==>
          defaults(full.kind, key) == Some(full.Params()[key]))
  }

  lemma BriefFitsAlike(defaults: Defaults, d: Rule, full: Rule, brief: Rule)
    requires OmitsDefaults(defaults, full, brief)
    ensures Fits(defaults, d, full) <==> Fits(defaults, d, brief)
  {
    forall key | key in d.Params()
      ensures (if key in full.Params() then full.Params()[key] == d.Params()[key]
               else defaults(full.kind, key) == Some(d.Params()[key]))
              <==> (if key in brief.Params() then brief.Params()[key] == d.Params()[key]
                    else defaults(full.kind, key) == Some(d.Params()[key]))
    {
    }
  }

  /** Leaving out any parameters that are at their documented default changes no verdict. */
  lemma OmittedDefaultsDoNotMatter(defaults: Defaults, desired: seq<Rule>, full: seq<Rule>, brief: seq<Rule>)
    requires |full| == |brief| && forall i :: 0 <= i < |full| ==> OmitsDefaults(defaults, full[i], brief[i])
    ensures RulesAgree(defaults, desired, full) <==> RulesAgree(defaults, desired, brief)
  {
    hide Fits;
    forall i, d | 0 <= i < |full| && d in desired
      ensures Fits(defaults, d, full[i]) <==> Fits(defaults, d, brief[i])
    {
      BriefFitsAlike(defaults, d, full[i], brief[i]);
    }
    SameGreedy(defaults, desired, full, brief);
  }

  // ----- What GitHub echoes -----

  /** The two live rules differ at most in parameters that no desired rule of their type mentions. */
  ghost predicate DifferUnmentioned(desired: seq<Rule>, a: Rule, b: Rule) {
    && a.kind == b.kind
    && forall d, key :: d in desired && d.kind == a.kind && key in d.Params() ==>
         && (key in a.Params() <==> key in b.Params())
         && (key in a.Params() && key in b.Params() ==> a.Params()[key] == b.Params()[key])
  }

  /** Whatever else is echoed changes no verdict. */
  lemma UnmentionedDoNotMatter(defaults: Defaults, desired: seq<Rule>, a: seq<Rule>, b: seq<Rule>)
    requires |a| == |b| && forall i :: 0 <= i < |a| ==> DifferUnmentioned(desired, a[i], b[i])
    ensures RulesAgree(defaults, desired, a) <==> RulesAgree(defaults, desired, b)
  {
    forall i, d | 0 <= i < |a| && d in desired ensures Fits(defaults, d, a[i]) <==> Fits(defaults, d, b[i]) {
      assert DifferUnmentioned(desired, a[i], b[i]);
    }
    SameGreedy(defaults, desired, a, b);
  }

  // ----- The documented defaults -----

  /** One desired rule against one live rule. */
  lemma OneAgainstOne(defaults: Defaults, d: Rule, r: Rule)
    ensures RulesAgree(defaults, [d], [r]) <==> Fits(defaults, d, r)
  {
    assert Greedy(defaults, [], Without([r], 0));
    assert [d][1..] == [];
  }

  /** The fetch-and-merge flag off, no reviews asked for, all three merge methods, checks not strict. */
  ghost predicate AtDocumentedDefault(kind: string, key: string, value: Json) {
    || (kind == "update" && key == "update_allows_fetch_and_merge" && value == Bool(false))
    || (kind == "pull_request" && key == "required_approving_review_count" && value == Num(0))
    || (kind == "pull_request" && key in {"dismiss_stale_reviews_on_push", "require_code_owner_review",
                                          "require_last_push_approval", "required_review_thread_resolution"}
        && value == Bool(false))
    || (kind == "pull_request" && key == "required_reviewers" && value == Arr([]))
    || (kind == "pull_request" && key == "allowed_merge_methods"
        && value == Arr([Str("merge"), Str("squash"), Str("rebase")]))
    || (kind == "required_status_checks"
        && key in {"strict_required_status_checks_policy", "do_not_enforce_on_create"} && value == Bool(false))
  }

  lemma TableIs(kind: string, key: string, value: Json)
    ensures GitHubDefaults(kind, key) == Some(value) <==> AtDocumentedDefault(kind, key, value)
  {
  }

  /** A rule whose parameter block GitHub leaves out satisfies any desired parameters at their documented defaults, and
      no others. */
  lemma OmittedBlockAgrees(kind: string, desired: Params)
    ensures RulesAgree(GitHubDefaults, [Rule(kind, Some(desired))], [Rule(kind, None)]) <==>
            forall key :: key in desired ==> AtDocumentedDefault(kind, key, desired[key])
  {
    hide GitHubDefaults, AtDocumentedDefault;
    var d, r := Rule(kind, Some(desired)), Rule(kind, None);
    OneAgainstOne(GitHubDefaults, d, r);
    forall key | key in desired
      ensures GitHubDefaults(kind, key) == Some(desired[key]) <==> AtDocumentedDefault(kind, key, desired[key])
    {
      TableIs(kind, key, desired[key]);
    }
  }
}
