/** Dependency graph of one work unit, scoped to its membership.
    Models src/baton_harness/chain/dag.py and the vocabulary the scheduler needs:
    blocker chains, cycles and topological orders. */
module Dag {
  import opened Prelude

  type Issue = int

  /** `g[n]` lists the blockers of `n`; the list may repeat a blocker. */
  type Graph = map<Issue, seq<Issue>>

  function Blockers(g: Graph, n: Issue): seq<Issue> {
    if n in g then g[n] else []
  }

  /** Every blocker is itself an issue of the graph, as build_dag guarantees. */
  ghost predicate Scoped(g: Graph) {
    forall n, b :: n in g && b in g[n] ==> b in g
  }

  /** A walk from an issue down its blockers. */
  ghost predicate Chain(g: Graph, p: seq<Issue>) {
    |p| > 0 && forall i :: 0 <= i < |p| - 1 ==> p[i + 1] in Blockers(g, p[i])
  }

  /** `m` is `k` or transitively blocked by `k`. */
  ghost predicate DependsOn(g: Graph, m: Issue, k: Issue) {
    exists p :: Chain(g, p) && p[0] == m && p[|p| - 1] == k
  }

  ghost predicate Cycle(g: Graph, p: seq<Issue>) {
    Chain(g, p) && |p| >= 2 && p[0] == p[|p| - 1]
  }

  ghost predicate Acyclic(g: Graph) {
    forall p :: !Cycle(g, p)
  }

  predicate NoDup<T(==)>(s: seq<T>) {
    forall i, j :: 0 <= i < j < |s| ==> s[i] != s[j]
  }

  function Elems<T>(s: seq<T>): set<T> {
    set x | x in s
  }

  /** Every blocker of an element of `order` stands before it. */
  ghost predicate BlockersFirst(g: Graph, order: seq<Issue>) {
    forall i, b :: 0 <= i < |order| && b in Blockers(g, order[i]) ==> b in order[..i]
  }

  lemma DependsOnSelf(g: Graph, m: Issue)
    ensures DependsOn(g, m, m)
  {
    assert Chain(g, [m]);
  }

  lemma DependsOnStep(g: Graph, m: Issue, b: Issue, k: Issue)
    requires b in Blockers(g, m) && DependsOn(g, b, k)
    ensures DependsOn(g, m, k)
  {
    var p :| Chain(g, p) && p[0] == b && p[|p| - 1] == k;
    var q := [m] + p;
    forall i | 0 <= i < |q| - 1 ensures q[i + 1] in Blockers(g, q[i]) {
      if i > 0 { assert p[i - 1 + 1] in Blockers(g, p[i - 1]); }
    }
    assert Chain(g, q);
  }

  /** A set closed under "has a blocker in the set" contains whatever depends on a member. */
  lemma {:induction false} ClosedUnderDependents(g: Graph, s: set<Issue>, p: seq<Issue>)
    requires forall m, b :: b in s && b in Blockers(g, m) ==> m in s
    requires Chain(g, p) && p[|p| - 1] in s
    ensures p[0] in s
    decreases |p|
  {
    if |p| > 1 {
      forall i | 0 <= i < |p[1..]| - 1 ensures p[1..][i + 1] in Blockers(g, p[1..][i]) {
        assert p[i + 1 + 1] in Blockers(g, p[i + 1]);
      }
      ClosedUnderDependents(g, s, p[1..]);
      assert p[0 + 1] in Blockers(g, p[0]);
    }
  }

  /** A topological order of all issues leaves no room for a cycle. */
  lemma OrderIsAcyclic(g: Graph, order: seq<Issue>)
    requires BlockersFirst(g, order) && Elems(order) == g.Keys
    ensures Acyclic(g)
  {
    forall p ensures !Cycle(g, p) {
      if Cycle(g, p) {
        assert p[0 + 1] in Blockers(g, p[0]);
        assert p[0] in Elems(order);
        var at :| 0 <= at < |order| && order[at] == p[0];
        ChainDescends(g, order, p, at);
        var low :| 0 <= low < at && order[low] == p[|p| - 1];
        // p[0] also occurs before `at`, so start the argument from its first position.
        CycleHasNoFirst(g, order, p, at);
      }
    }
  }

  lemma {:induction false} ChainDescends(g: Graph, order: seq<Issue>, p: seq<Issue>, at: nat)
    requires BlockersFirst(g, order) && Chain(g, p) && |p| >= 2
    requires at < |order| && order[at] == p[0]
    ensures exists low :: 0 <= low < at && order[low] == p[|p| - 1]
    decreases |p|
  {
    assert p[0 + 1] in Blockers(g, p[0]);
    assert p[1] in Blockers(g, order[at]);
    var next :| 0 <= next < at && order[next] == p[1];
    if |p| > 2 {
      forall i | 0 <= i < |p[1..]| - 1 ensures p[1..][i + 1] in Blockers(g, p[1..][i]) {
        assert p[i + 1 + 1] in Blockers(g, p[i + 1]);
      }
      ChainDescends(g, order, p[1..], next);
    }
  }

  lemma {:induction false} CycleHasNoFirst(g: Graph, order: seq<Issue>, p: seq<Issue>, at: nat)
    requires BlockersFirst(g, order) && Cycle(g, p)
    requires at < |order| && order[at] == p[0]
    ensures false
    decreases at
  {
    ChainDescends(g, order, p, at);
    var low :| 0 <= low < at && order[low] == p[|p| - 1];
    CycleHasNoFirst(g, order, p, low);
  }

  /** Along an order that puts blockers first, an issue with an unmet blocker leads down to an
      unmet issue whose own blockers are all met. */
  lemma {:induction false} LowestUnmet(g: Graph, order: seq<Issue>, met: set<Issue>, n: Issue, at: nat)
      returns (low: Issue)
    requires BlockersFirst(g, order)
    requires at < |order| && order[at] == n && n !in met
    ensures low !in met && DependsOn(g, n, low) && low in order
    ensures forall b :: b in Blockers(g, low) ==> b in met
    decreases at
  {
    if b :| b in Blockers(g, n) && b !in met {
      assert b in order[..at];
      var next :| 0 <= next < at && order[next] == b;
      low := LowestUnmet(g, order, met, b, next);
      DependsOnStep(g, n, b, low);
    } else {
      low := n;
      DependsOnSelf(g, n);
    }
  }

  /** `[b for b in raw if b in membership]`: order and repetitions are kept. */
  function InScope(raw: seq<Issue>, membership: set<Issue>): (r: seq<Issue>)
    ensures forall b :: multiset(r)[b] == if b in membership then multiset(raw)[b] else 0
  {
    if raw == [] then []
    else
      assert raw == [raw[0]] + raw[1..];
      if raw[0] in membership then [raw[0]] + InScope(raw[1..], membership)
      else InScope(raw[1..], membership)
  }

  /** dag.build_dag: every member is a key and only members block. */
  method BuildDag(membership: set<Issue>, blockedBy: map<Issue, seq<Issue>>) returns (graph: Graph)
    ensures graph.Keys == membership && Scoped(graph)
    ensures forall n, b :: n in membership ==>
              multiset(graph[n])[b] == if b in membership then multiset(Blockers(blockedBy, n))[b] else 0
    ensures forall n :: n in membership ==> graph[n] == InScope(Blockers(blockedBy, n), membership)
  {
    graph := map[];
    var rest := membership;
    while rest != {}
      invariant rest <= membership
      invariant graph.Keys == membership - rest
      invariant forall n :: n in graph ==> graph[n] == InScope(Blockers(blockedBy, n), membership)
    {
      var issue := AnyOf(rest);
      var inScope := InScope(Blockers(blockedBy, issue), membership);
      graph := graph[issue := inScope];
      rest := rest - {issue};
    }
    forall n, b | n in graph && b in graph[n] ensures b in membership {
      assert multiset(graph[n])[b] > 0;
    }
  }
}
