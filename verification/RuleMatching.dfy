/** Greedy matching of desired against live ruleset rules.
    Models _param_matches_default, _rule_params_equal and _rules_equal of
    src/baton_harness/chain/ruleset_status.py, for any table of parameter defaults. */
module RuleMatching {
  import opened Prelude
  import opened JsonValues

  type Params = map<string, Json>

  /** `type` and `parameters`; a missing (or, on the live side, null) parameter block is None. */
  datatype Rule = Rule(kind: string, parameters: Option<Params>) {
    function Params(): Params {
      if parameters.Some? then parameters.value else map[]
    }
  }

  /** Documented server defaults by rule type and parameter name. */
  type Defaults = (string, string) -> Option<Json>

  /** Every desired key has the live value, or is absent live and desired at its known default. */
  ghost predicate Satisfies(defaults: Defaults, kind: string, desired: Params, live: Params) {
    forall key :: key in desired ==>
      if key in live then live[key] == desired[key] else defaults(kind, key) == Some(desired[key])
  }

  ghost predicate Fits(defaults: Defaults, desired: Rule, live: Rule) {
    desired.kind == live.kind && Satisfies(defaults, desired.kind, desired.Params(), live.Params())
  }

  /** A one-to-one assignment: `p` is the live rules reordered so that each fits the desired rule beside it. */
  ghost predicate Pairs(defaults: Defaults, desired: seq<Rule>, p: seq<Rule>) {
    |p| == |desired| && forall i :: 0 <= i < |p| ==> Fits(defaults, desired[i], p[i])
  }

  ghost predicate Matched(defaults: Defaults, desired: seq<Rule>, live: seq<Rule>) {
    exists p :: multiset(p) == multiset(live) && Pairs(defaults, desired, p)
  }

  /** Index of the first live rule that fits, or the length. */
  ghost function FirstFit(defaults: Defaults, d: Rule, live: seq<Rule>): (k: nat)
    ensures k <= |live|
    ensures k < |live| ==> Fits(defaults, d, live[k])
    ensures forall i :: 0 <= i < k ==> !Fits(defaults, d, live[i])
  {
    if live == [] || Fits(defaults, d, live[0]) then 0 else 1 + FirstFit(defaults, d, live[1..])
  }

  function Without<T>(s: seq<T>, k: nat): seq<T>
    requires k < |s|
  {
    s[..k] + s[k + 1..]
  }

  /** Each desired rule in turn consumes the first live rule that fits it. */
  ghost predicate Greedy(defaults: Defaults, desired: seq<Rule>, live: seq<Rule>) {
    desired == [] ||
    var k := FirstFit(defaults, desired[0], live);
    k < |live| && Greedy(defaults, desired[1..], Without(live, k))
  }

  lemma WithoutMultiset<T>(s: seq<T>, k: nat)
    requires k < |s|
    ensures multiset(s) == multiset(Without(s, k)) + multiset{s[k]}
    ensures multiset(Without(s, k)) == multiset(s) - multiset{s[k]}
  {
    assert s == s[..k] + [s[k]] + s[k + 1..];
  }

  /** In a reordered list the head of the first is somewhere, and without it the rest is reordered. */
  lemma HeadElsewhere<T>(a: seq<T>, b: seq<T>) returns (k: nat)
    requires multiset(a) == multiset(b) && a != []
    ensures k < |b| && b[k] == a[0] && multiset(a[1..]) == multiset(Without(b, k))
  {
    assert a[0] in multiset(b);
    k :| 0 <= k < |b| && b[k] == a[0];
    WithoutMultiset(b, k);
    WithoutMultiset(a, 0);
    assert Without(a, 0) == a[1..];
  }

  lemma PairsCons(defaults: Defaults, d: Rule, r: Rule, desired: seq<Rule>, p: seq<Rule>)
    requires Fits(defaults, d, r) && Pairs(defaults, desired, p)
    ensures Pairs(defaults, [d] + desired, [r] + p)
  {
  }

  /** Greedy success gives a matching. */
  lemma {:induction false} GreedyIsSound(defaults: Defaults, desired: seq<Rule>, live: seq<Rule>) returns (p: seq<Rule>)
    requires Greedy(defaults, desired, live) && |desired| == |live|
    ensures multiset(p) == multiset(live) && Pairs(defaults, desired, p)
    decreases |desired|
  {
    if desired == [] {
      p := [];
    } else {
      var k := FirstFit(defaults, desired[0], live);
      p := GreedyIsSound(defaults, desired[1..], Without(live, k));
      PairsCons(defaults, desired[0], live[k], desired[1..], p);
      assert [desired[0]] + desired[1..] == desired;
      WithoutMultiset(live, k);
      p := [live[k]] + p;
    }
  }

  // ----- When greedy finds every matching -----

  ghost predicate Conflict(a: Params, b: Params) {
    exists key :: key in a && key in b && a[key] != b[key]
  }

  ghost predicate Within(a: Params, b: Params) {
    forall key :: key in a ==> key in b && b[key] == a[key]
  }

  /** Of two desired rules of one type that do not conflict on a key, the later repeats only parameters of the
      earlier. */
  ghost predicate OrderSafe(desired: seq<Rule>) {
    forall i, j :: 0 <= i < j < |desired| && desired[i].kind == desired[j].kind ==>
      Conflict(desired[i].Params(), desired[j].Params()) || Within(desired[j].Params(), desired[i].Params())
  }

  lemma NoSharedFitOnConflict(defaults: Defaults, a: Rule, b: Rule, live: Rule)
    requires Fits(defaults, a, live) && Fits(defaults, b, live)
    ensures !Conflict(a.Params(), b.Params())
  {
  }

  /** Greedy may always take its first fit: an order-safe list lets the displaced partner swap. */
  lemma {:induction false} GreedyIsComplete(defaults: Defaults, desired: seq<Rule>, live: seq<Rule>, p: seq<Rule>)
    requires OrderSafe(desired)
    requires multiset(p) == multiset(live) && Pairs(defaults, desired, p)
    ensures Greedy(defaults, desired, live)
    decreases |desired|
  {
    if desired != [] {
      var d := desired[0];
      assert p[0] in multiset(p);
      assert p[0] in live;
      var at :| 0 <= at < |live| && live[at] == p[0];
      var k := FirstFit(defaults, d, live);
      assert k <= at;
      var q := SwapPartner(defaults, desired, live, p, k);
      OrderSafeTail(desired);
      GreedyIsComplete(defaults, desired[1..], Without(live, k), q);
    }
  }

  lemma OrderSafeTail(desired: seq<Rule>)
    requires desired != [] && OrderSafe(desired)
    ensures OrderSafe(desired[1..])
  {
    forall i, j | 0 <= i < j < |desired[1..]| && desired[1..][i].kind == desired[1..][j].kind
      ensures Conflict(desired[1..][i].Params(), desired[1..][j].Params())
              || Within(desired[1..][j].Params(), desired[1..][i].Params())
    {
      assert desired[1..][i] == desired[i + 1] && desired[1..][j] == desired[j + 1];
    }
  }

  /** Dropping the head, or dropping element `m` and putting the head in its place. */
  function DropOrSwap<T>(p: seq<T>, m: nat): seq<T>
    requires m < |p|
  {
    if m == 0 then p[1..] else p[1..][m - 1 := p[0]]
  }

  lemma DropOrSwapMultiset<T>(p: seq<T>, m: nat)
    requires m < |p|
    ensures multiset(DropOrSwap(p, m)) == multiset(p) - multiset{p[m]}
  {
    assert p == [p[0]] + p[1..];
    if m > 0 {
      assert p[1..][m - 1] == p[m];
      assert multiset(DropOrSwap(p, m)) == multiset(p[1..]) - multiset{p[m]} + multiset{p[0]};
    }
  }

  lemma SwapPartner(defaults: Defaults, desired: seq<Rule>, live: seq<Rule>, p: seq<Rule>, k: nat)
      returns (q: seq<Rule>)
    requires OrderSafe(desired) && desired != [] && k < |live| && Fits(defaults, desired[0], live[k])
    requires multiset(p) == multiset(live) && Pairs(defaults, desired, p)
    ensures multiset(q) == multiset(Without(live, k)) && Pairs(defaults, desired[1..], q)
  {
    WithoutMultiset(live, k);
    assert live[k] in multiset(live);
    assert live[k] in p;
    var m :| 0 <= m < |p| && p[m] == live[k];
    DropOrSwapMultiset(p, m);
    q := DropOrSwap(p, m);
    SwapStillPairs(defaults, desired, p, m);
  }

  lemma SwapStillPairs(defaults: Defaults, desired: seq<Rule>, p: seq<Rule>, m: nat)
    requires OrderSafe(desired) && Pairs(defaults, desired, p) && m < |p| && Fits(defaults, desired[0], p[m])
    ensures Pairs(defaults, desired[1..], DropOrSwap(p, m))
  {
    if m > 0 {
      NoSharedFitOnConflict(defaults, desired[0], desired[m], p[m]);
      assert Within(desired[m].Params(), desired[0].Params());
      assert Fits(defaults, desired[m], p[0]);
    }
    forall i | 0 <= i < |p| - 1 ensures Fits(defaults, desired[1..][i], DropOrSwap(p, m)[i]) {
      assert desired[1..][i] == desired[i + 1] && p[1..][i] == p[i + 1];
    }
  }

  // ----- When it does not -----

  /** The parameters an order-unsafe pair trips over: the later rule asks for `key`, the earlier does not. */
  lemma UnsafePair(a: Params, b: Params) returns (key: string)
    requires !Conflict(a, b) && !Within(b, a)
    ensures key in b && key !in a
  {
    assert forall k :: k in a && k in b ==> a[k] == b[k];
    if forall k :: k in b ==> k in a { assert false; }
    key :| key in b && key !in a;
  }

  /** A value that differs from what any of the rules asks for under `key`. */
  ghost function Foreign(desired: seq<Rule>, key: string): Json {
    Arr(seq(|desired|, m requires 0 <= m < |desired| => Get(desired[m].Params(), key)))
  }

  lemma ForeignIsForeign(desired: seq<Rule>, key: string, m: nat)
    requires m < |desired| && key in desired[m].Params()
    ensures Foreign(desired, key) != desired[m].Params()[key]
  {
    assert Foreign(desired, key).items[m] == desired[m].Params()[key];
    assert Foreign(desired, key).items[m] < Foreign(desired, key);
  }

  ghost function Keys(desired: seq<Rule>): set<string> {
    set m, key | 0 <= m < |desired| && key in desired[m].Params() :: key
  }

  /** A live copy of rule `k` that has a foreign value wherever rule `k` has no opinion. */
  ghost function Copy(desired: seq<Rule>, k: nat): Rule
    requires k < |desired|
  {
    Rule(desired[k].kind, Some(map key | key in Keys(desired) ::
      if key in desired[k].Params() then desired[k].Params()[key] else Foreign(desired, key)))
  }

  /** Such a copy only fits the rules whose parameters rule `k` repeats. */
  lemma CopyFits(defaults: Defaults, desired: seq<Rule>, m: nat, k: nat)
    requires m < |desired| && k < |desired| && desired[m].kind == desired[k].kind
    ensures Fits(defaults, desired[m], Copy(desired, k)) <==> Within(desired[m].Params(), desired[k].Params())
  {
    forall key | key in desired[m].Params()
      ensures Copy(desired, k).Params()[key] == desired[m].Params()[key] <==>
              key in desired[k].Params() && desired[k].Params()[key] == desired[m].Params()[key]
    {
      assert key in Keys(desired);
      ForeignIsForeign(desired, key, m);
    }
  }

  ghost function CountIf(s: seq<Rule>, q: Rule -> bool): nat {
    if s == [] then 0 else CountIf(s[1..], q) + if q(s[0]) then 1 else 0
  }

  lemma {:induction false} CountIfWithout(s: seq<Rule>, k: nat, q: Rule -> bool)
    requires k < |s|
    ensures CountIf(s, q) == CountIf(Without(s, k), q) + if q(s[k]) then 1 else 0
    decreases k
  {
    if k == 0 {
      assert Without(s, 0) == s[1..];
    } else {
      CountIfWithout(s[1..], k - 1, q);
      assert Without(s, k)[1..] == Without(s[1..], k - 1);
    }
  }

  lemma {:induction false} CountIfPermuted(a: seq<Rule>, b: seq<Rule>, q: Rule -> bool)
    requires multiset(a) == multiset(b)
    ensures CountIf(a, q) == CountIf(b, q)
    decreases |a|
  {
    if a == [] {
      assert |multiset(b)| == 0;
    } else {
      var k := HeadElsewhere(a, b);
      CountIfPermuted(a[1..], Without(b, k), q);
      CountIfWithout(b, k, q);
    }
  }

  lemma {:induction false} CountIfBeside(a: seq<Rule>, b: seq<Rule>, qa: Rule -> bool, qb: Rule -> bool)
    requires |a| == |b| && forall k :: 0 <= k < |a| && qa(a[k]) ==> qb(b[k])
    ensures CountIf(a, qa) <= CountIf(b, qb)
    ensures (exists k :: 0 <= k < |a| && !qa(a[k]) && qb(b[k])) ==> CountIf(a, qa) < CountIf(b, qb)
    decreases |a|
  {
    if a != [] {
      forall k | 0 <= k < |a[1..]| && qa(a[1..][k]) ensures qb(b[1..][k]) {
        assert a[1..][k] == a[k + 1] && b[1..][k] == b[k + 1];
      }
      CountIfBeside(a[1..], b[1..], qa, qb);
      if k :| 0 <= k < |a| && !qa(a[k]) && qb(b[k]) {
        if k > 0 { assert a[1..][k - 1] == a[k] && b[1..][k - 1] == b[k]; }
      }
    }
  }

  /** Except at `j`, a live rule only fits the rules that ask for no more than the desired rule beside it. */
  ghost predicate Tight(defaults: Defaults, desired: seq<Rule>, live: seq<Rule>, j: nat)
    requires |desired| == |live|
  {
    forall m, k, x ::
      (0 <= m < |desired| && 0 <= k < |live| && k != j && Fits(defaults, desired[m], live[k])
       && Fits(defaults, desired[k], x)) ==> Fits(defaults, desired[m], x)
  }

  /** When live rule `j` does not even fit the rule beside it nobody can be paired: the rules it does not fit would
      have to share fewer live rules than they are. */
  lemma NoPairingLeft(defaults: Defaults, desired: seq<Rule>, live: seq<Rule>, j: nat, p: seq<Rule>)
    requires j < |desired| == |live| && !Fits(defaults, desired[j], live[j]) && Tight(defaults, desired, live, j)
    requires multiset(p) == multiset(live)
    ensures !Pairs(defaults, desired, p)
  {
    var odd := live[j];
    var picky := (d: Rule) => !Fits(defaults, d, odd);
    var wanted := (x: Rule) => exists m :: 0 <= m < |desired| && picky(desired[m]) && Fits(defaults, desired[m], x);
    CountIfPermuted(p, live, wanted);
    forall k | 0 <= k < |live| && wanted(live[k]) ensures picky(desired[k]) {
      var m :| 0 <= m < |desired| && picky(desired[m]) && Fits(defaults, desired[m], live[k]);
      assert k != j;
    }
    assert !wanted(live[j]) && picky(desired[j]);
    CountIfBeside(live, desired, wanted, picky);
    if Pairs(defaults, desired, p) {
      forall k | 0 <= k < |desired| && picky(desired[k]) ensures wanted(p[k]) {
        assert Fits(defaults, desired[k], p[k]);
      }
      CountIfBeside(desired, p, picky, wanted);
    }
  }

  lemma GreedyHead(defaults: Defaults, desired: seq<Rule>, live: seq<Rule>)
    requires desired != [] && live != [] && Fits(defaults, desired[0], live[0])
    ensures Greedy(defaults, desired, live) <==> Greedy(defaults, desired[1..], live[1..])
  {
    assert Without(live, 0) == live[1..];
  }

  /** While each desired rule fits the first live rule left, greedy takes heads only. */
  lemma {:induction false} GreedyTakesHeads(defaults: Defaults, desired: seq<Rule>, live: seq<Rule>, n: nat)
    requires n <= |desired| == |live| && forall m :: 0 <= m < n ==> Fits(defaults, desired[m], live[m])
    ensures Greedy(defaults, desired, live) <==> Greedy(defaults, desired[n..], live[n..])
    decreases n
  {
    if n == 0 {
      assert desired[0..] == desired && live[0..] == live;
    } else {
      GreedyTakesHeads(defaults, desired, live, n - 1);
      assert Fits(defaults, desired[n - 1], live[n - 1]);
      GreedyHead(defaults, desired[n - 1..], live[n - 1..]);
      assert desired[n - 1..][1..] == desired[n..] && live[n - 1..][1..] == live[n..];
    }
  }

  /** Comparing a list with itself always succeeds, order-safe or not. */
  lemma GreedyIsReflexive(defaults: Defaults, rules: seq<Rule>)
    ensures Greedy(defaults, rules, rules)
  {
    GreedyTakesHeads(defaults, rules, rules, |rules|);
  }

  /** The live rules that defeat an order-unsafe pair: one fits both rules, one fits only the earlier. */
  ghost function Both(desired: seq<Rule>, i: nat, j: nat): Rule
    requires i < j < |desired|
  {
    Rule(desired[i].kind, Some(desired[i].Params() + desired[j].Params()))
  }

  ghost function Odd(desired: seq<Rule>, i: nat, j: nat, key: string): Rule
    requires i < j < |desired| && key in desired[j].Params()
  {
    Rule(desired[i].kind, Some(desired[i].Params()[key := Arr([desired[j].Params()[key]])]))
  }

  ghost function Trap(desired: seq<Rule>, i: nat, j: nat, key: string): seq<Rule>
    requires i < j < |desired| && key in desired[j].Params()
  {
    seq(|desired|, k requires 0 <= k < |desired| =>
      if k == i then Both(desired, i, j) else if k == j then Odd(desired, i, j, key) else Copy(desired, k))
  }

  /** The two rules share no key with different values, and the later one asks for `key`, which the earlier does
      not mention. */
  ghost predicate Trapped(desired: seq<Rule>, i: nat, j: nat, key: string) {
    i < j < |desired| && desired[i].kind == desired[j].kind && !Conflict(desired[i].Params(), desired[j].Params())
    && key in desired[j].Params() && key !in desired[i].Params()
  }

  lemma TrapFits(defaults: Defaults, desired: seq<Rule>, i: nat, j: nat, key: string)
    requires Trapped(desired, i, j, key)
    ensures Fits(defaults, desired[i], Both(desired, i, j)) && Fits(defaults, desired[j], Both(desired, i, j))
    ensures Fits(defaults, desired[i], Odd(desired, i, j, key))
    ensures !Fits(defaults, desired[j], Odd(desired, i, j, key))
  {
    var value := desired[j].Params()[key];
    assert Arr([value]).items[0] < Arr([value]);
    assert Odd(desired, i, j, key).Params()[key] != value;
  }

  lemma SwapMultiset<T>(s: seq<T>, i: nat, j: nat)
    requires i < j < |s|
    ensures multiset(s[i := s[j]][j := s[i]]) == multiset(s)
  {
    assert s == s[..i] + [s[i]] + s[i + 1..j] + [s[j]] + s[j + 1..];
    assert s[i := s[j]][j := s[i]] == s[..i] + [s[j]] + s[i + 1..j] + [s[i]] + s[j + 1..];
  }

  lemma TrapIsMatched(defaults: Defaults, desired: seq<Rule>, i: nat, j: nat, key: string)
    requires Trapped(desired, i, j, key)
    ensures Matched(defaults, desired, Trap(desired, i, j, key))
  {
    var trap := Trap(desired, i, j, key);
    var p := trap[i := trap[j]][j := trap[i]];
    SwapMultiset(trap, i, j);
    forall k | 0 <= k < |p| ensures Fits(defaults, desired[k], p[k]) {
      TrapSwapFits(defaults, desired, i, j, key, k);
    }
    assert Pairs(defaults, desired, p);
  }

  lemma TrapSwapFits(defaults: Defaults, desired: seq<Rule>, i: nat, j: nat, key: string, k: nat)
    requires Trapped(desired, i, j, key) && k < |desired|
    ensures Fits(defaults, desired[k],
                 if k == i then Odd(desired, i, j, key) else if k == j then Both(desired, i, j) else Copy(desired, k))
  {
    if k == i || k == j {
      TrapFits(defaults, desired, i, j, key);
    } else {
      CopyFits(defaults, desired, k, k);
    }
  }

  lemma TrapHeadFits(defaults: Defaults, desired: seq<Rule>, i: nat, j: nat, key: string, m: nat)
    requires Trapped(desired, i, j, key) && m <= i
    ensures Fits(defaults, desired[m], Trap(desired, i, j, key)[m])
  {
    if m == i {
      TrapFits(defaults, desired, i, j, key);
    } else {
      CopyFits(defaults, desired, m, m);
    }
  }

  /** What fits rule `k` fits every rule that fits the copy of rule `k`. */
  lemma CopyPassesOn(defaults: Defaults, desired: seq<Rule>, m: nat, k: nat, x: Rule)
    requires m < |desired| && k < |desired|
    requires Fits(defaults, desired[m], Copy(desired, k)) && Fits(defaults, desired[k], x)
    ensures Fits(defaults, desired[m], x)
  {
    CopyFits(defaults, desired, m, k);
  }

  lemma TrapTailIsTight(defaults: Defaults, desired: seq<Rule>, i: nat, j: nat, key: string, m: nat, k: nat, x: Rule)
    requires Trapped(desired, i, j, key) && i < m < |desired| && i < k < |desired| && k != j
    requires Fits(defaults, desired[m], Trap(desired, i, j, key)[k]) && Fits(defaults, desired[k], x)
    ensures Fits(defaults, desired[m], x)
  {
    CopyPassesOn(defaults, desired, m, k, x);
  }

  lemma TrapTailFails(defaults: Defaults, desired: seq<Rule>, i: nat, j: nat, key: string)
    requires Trapped(desired, i, j, key)
    ensures !Greedy(defaults, desired[i + 1..], Trap(desired, i, j, key)[i + 1..])
  {
    hide Fits, Copy, Both, Odd;
    var ds, cs := desired[i + 1..], Trap(desired, i, j, key)[i + 1..];
    var at := j - i - 1;
    TrapFits(defaults, desired, i, j, key);
    forall m, k, x | 0 <= m < |ds| && 0 <= k < |cs| && k != at && Fits(defaults, ds[m], cs[k])
                     && Fits(defaults, ds[k], x)
      ensures Fits(defaults, ds[m], x)
    {
      TrapTailIsTight(defaults, desired, i, j, key, m + i + 1, k + i + 1, x);
    }
    assert Tight(defaults, ds, cs, at);
    TightListFails(defaults, ds, cs, at);
  }

  lemma TightListFails(defaults: Defaults, desired: seq<Rule>, live: seq<Rule>, j: nat)
    requires j < |desired| == |live| && !Fits(defaults, desired[j], live[j]) && Tight(defaults, desired, live, j)
    ensures !Greedy(defaults, desired, live)
  {
    if Greedy(defaults, desired, live) {
      var p := GreedyIsSound(defaults, desired, live);
      NoPairingLeft(defaults, desired, live, j, p);
    }
  }

  lemma TrapDefeatsGreedy(defaults: Defaults, desired: seq<Rule>, i: nat, j: nat, key: string)
    requires Trapped(desired, i, j, key)
    ensures !Greedy(defaults, desired, Trap(desired, i, j, key))
  {
    forall m | 0 <= m < i + 1 ensures Fits(defaults, desired[m], Trap(desired, i, j, key)[m]) {
      TrapHeadFits(defaults, desired, i, j, key, m);
    }
    GreedyTakesHeads(defaults, desired, Trap(desired, i, j, key), i + 1);
    TrapTailFails(defaults, desired, i, j, key);
  }

  lemma OrderUnsafe(desired: seq<Rule>) returns (i: nat, j: nat, key: string)
    requires !OrderSafe(desired)
    ensures Trapped(desired, i, j, key)
  {
    var i0, j0 :| 0 <= i0 < j0 < |desired| && desired[i0].kind == desired[j0].kind
      && !Conflict(desired[i0].Params(), desired[j0].Params())
      && !Within(desired[j0].Params(), desired[i0].Params());
    i, j := i0, j0;
    key := UnsafePair(desired[i].Params(), desired[j].Params());
  }

  /** Whatever is live, greedy finds a matching whenever there is one. */
  ghost predicate AlwaysComplete(defaults: Defaults, desired: seq<Rule>) {
    forall live :: Matched(defaults, desired, live) ==> Greedy(defaults, desired, live)
  }

  /** Greedy is complete exactly when the desired list is order-safe. */
  lemma GreedyExactlyWhenOrderSafe(defaults: Defaults, desired: seq<Rule>)
    ensures OrderSafe(desired) <==> AlwaysComplete(defaults, desired)
  {
    if OrderSafe(desired) {
      forall live | Matched(defaults, desired, live) ensures Greedy(defaults, desired, live) {
        var p :| multiset(p) == multiset(live) && Pairs(defaults, desired, p);
        GreedyIsComplete(defaults, desired, live, p);
      }
    } else {
      var i, j, key := OrderUnsafe(desired);
      TrapIsMatched(defaults, desired, i, j, key);
      TrapDefeatsGreedy(defaults, desired, i, j, key);
    }
  }

  /** The simple sufficient case: desired rules of one type that all name the same parameters. */
  lemma SameKeysAreOrderSafe(desired: seq<Rule>)
    requires forall i, j :: 0 <= i < |desired| && 0 <= j < |desired| && desired[i].kind == desired[j].kind ==>
               desired[i].Params().Keys == desired[j].Params().Keys
    ensures OrderSafe(desired)
  {
    forall i, j | 0 <= i < j < |desired| && desired[i].kind == desired[j].kind
      ensures Conflict(desired[i].Params(), desired[j].Params()) || Within(desired[j].Params(), desired[i].Params())
    {
      assert desired[i].Params().Keys == desired[j].Params().Keys;
      if !Conflict(desired[i].Params(), desired[j].Params()) {
        forall key | key in desired[j].Params()
          ensures key in desired[i].Params() && desired[i].Params()[key] == desired[j].Params()[key] {
          assert key in desired[i].Params().Keys;
        }
      }
    }
  }
}
