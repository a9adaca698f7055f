/** Work-unit scheduler: a topological sorter plus parking of an issue with all its dependents.
    Models src/baton_harness/chain/scheduler.py. */
module Scheduling {
  import opened Prelude
  import opened Dag
  import opened TopologicalSorting

  /** `m` is blocked, through issues outside `stop` only, by `issue`. */
  ghost predicate ReachedBy(g: Graph, stop: set<Issue>, m: Issue, issue: Issue) {
    exists p :: Chain(g, p) && p[0] == m && p[|p| - 1] == issue && Elems(p) !! stop
  }

  ghost predicate ClosedUpwards(g: Graph, parked: set<Issue>) {
    forall m, b :: b in parked && b in Blockers(g, m) ==> m in parked
  }

  /** Skipping what is done or parked already never cuts the closure short: as long as blockers of
      done issues are done and dependents of parked issues are parked, parking reaches exactly the
      issues that depend on the parked one. */
  lemma ParkingIsExact(g: Graph, done: set<Issue>, parked: set<Issue>, issue: Issue)
    requires BlockersFinished(g, done, done) && ClosedUpwards(g, parked) && issue !in done
    ensures forall m :: m in parked || ReachedBy(g, done + parked, m, issue)
                        <==> m in parked || DependsOn(g, m, issue)
    ensures forall m :: DependsOn(g, m, issue) ==> m !in done
  {
    forall m | DependsOn(g, m, issue)
      ensures m !in done && (m in parked || ReachedBy(g, done + parked, m, issue))
    {
      var p :| Chain(g, p) && p[0] == m && p[|p| - 1] == issue;
      NoDoneOnTheWay(g, done, p, 0);
      if m !in parked {
        forall i | 0 <= i < |p| ensures p[i] !in done + parked {
          NoDoneOnTheWay(g, done, p, i);
          if p[i] in parked { ParkedOnTheWay(g, parked, p, i); }
        }
      }
    }
  }

  lemma {:induction false} NoDoneOnTheWay(g: Graph, done: set<Issue>, p: seq<Issue>, i: nat)
    requires BlockersFinished(g, done, done) && Chain(g, p) && i < |p| && p[|p| - 1] !in done
    ensures p[i] !in done
    decreases |p| - i
  {
    if i < |p| - 1 {
      var m, b := p[i], p[i + 1];
      assert b in Blockers(g, m);
      if m in done { assert b in done; }
      NoDoneOnTheWay(g, done, p, i + 1);
    }
  }

  lemma {:induction false} ParkedOnTheWay(g: Graph, parked: set<Issue>, p: seq<Issue>, i: nat)
    requires ClosedUpwards(g, parked) && Chain(g, p) && i < |p| && p[i] in parked
    ensures p[0] in parked
    decreases i
  {
    if i > 0 {
      var m, b := p[i - 1], p[i];
      assert p[i - 1 + 1] in Blockers(g, p[i - 1]);
      assert b in parked && b in Blockers(g, m);
      ParkedOnTheWay(g, parked, p, i - 1);
    }
  }

  /** A set that holds `issue` and every dependent of a member outside `stop` holds all it reaches. */
  lemma {:induction false} ReachIsCovered(g: Graph, stop: set<Issue>, covered: set<Issue>, p: seq<Issue>)
    requires Chain(g, p) && Elems(p) !! stop && p[|p| - 1] in covered
    requires forall m, b :: b in covered && b !in stop && b in Blockers(g, m) ==> m in covered + stop
    ensures p[0] in covered
    decreases |p|
  {
    if |p| > 1 {
      ChainSuffix(g, p, 1);
      assert p[1] in p && p[0] in p;
      assert p[0 + 1] in Blockers(g, p[0]);
      ReachIsCovered(g, stop, covered, p[1..]);
    }
  }

  lemma ReachedByDependent(g: Graph, stop: set<Issue>, m: Issue, b: Issue, issue: Issue)
    requires ReachedBy(g, stop, b, issue) && b in Blockers(g, m) && m !in stop
    ensures ReachedBy(g, stop, m, issue)
  {
    var p :| Chain(g, p) && p[0] == b && p[|p| - 1] == issue && Elems(p) !! stop;
    var q := [m] + p;
    forall i | 0 <= i < |q| - 1 ensures q[i + 1] in Blockers(g, q[i]) {
      if i > 0 { assert p[i - 1 + 1] in Blockers(g, p[i - 1]); }
    }
    assert Elems(q) == {m} + Elems(p);
  }

  /** `dependents[n]` names exactly the issues that list `n` as a blocker. */
  ghost predicate Reverses(g: Graph, dependents: map<Issue, seq<Issue>>) {
    forall n, m {:trigger m in Blockers(dependents, n)} ::
      m in Blockers(dependents, n) <==> n in Blockers(g, m)
  }

  /** Every issue is done or parked. */
  ghost predicate AllTerminal(g: Graph, done: set<Issue>, parked: set<Issue>) {
    forall m :: m in g ==> m in done || m in parked
  }

  /** How far parking has spread from `issue`: the newly parked and the listed reach it outside `stop`, and what
      depends on a newly parked issue is parked, stopped or listed. */
  ghost predicate Spread(g: Graph, stop: set<Issue>, before: set<Issue>, parked: set<Issue>, toPark: seq<Issue>,
                         issue: Issue) {
    && before <= parked
    && (forall m :: m in parked ==> m in before || ReachedBy(g, stop, m, issue))
    && (forall n :: n in toPark && n !in stop ==> ReachedBy(g, stop, n, issue))
    && (issue in parked + stop || issue in toPark)
    && forall m, b {:trigger b in Blockers(g, m)} ::
         b in parked && b !in stop && b in Blockers(g, m) ==> m in parked + stop || m in toPark
  }

  lemma SpreadStarts(g: Graph, stop: set<Issue>, parked: set<Issue>, issue: Issue)
    requires parked <= stop
    ensures Spread(g, stop, parked, parked, [issue], issue)
  {
    assert Chain(g, [issue]);
  }

  lemma SpreadStep(g: Graph, dependents: map<Issue, seq<Issue>>, stop: set<Issue>, before: set<Issue>,
                   parked: set<Issue>, toPark: seq<Issue>, issue: Issue)
    requires Reverses(g, dependents) && toPark != [] && Spread(g, stop, before, parked, toPark, issue)
    ensures var node, rest := toPark[|toPark| - 1], toPark[..|toPark| - 1];
            if node in parked + stop then Spread(g, stop, before, parked, rest, issue)
            else Spread(g, stop, before, parked + {node}, rest + Blockers(dependents, node), issue)
  {
    var node, rest := toPark[|toPark| - 1], toPark[..|toPark| - 1];
    assert node in toPark && forall n :: n in toPark <==> n == node || n in rest;
    if node !in parked + stop {
      forall m | m in Blockers(dependents, node) && m !in stop ensures ReachedBy(g, stop, m, issue) {
        ReachedByDependent(g, stop, m, node, issue);
      }
    }
  }

  lemma SpreadEnds(g: Graph, stop: set<Issue>, before: set<Issue>, parked: set<Issue>, issue: Issue)
    requires Spread(g, stop, before, parked, [], issue)
    ensures forall m :: m in parked <==> m in before || ReachedBy(g, stop, m, issue)
  {
    forall m | ReachedBy(g, stop, m, issue) ensures m in parked {
      var p :| Chain(g, p) && p[0] == m && p[|p| - 1] == issue && Elems(p) !! stop;
      assert issue in p;
      ReachIsCovered(g, stop, parked, p);
    }
  }

  class IssueScheduler {
    const sorter: TopologicalSorter
    const dependents: map<Issue, seq<Issue>>
    const allNodes: set<Issue>

    var parked: set<Issue>
    var done: set<Issue>
    var consumed: set<Issue>

    ghost predicate Valid()
      reads this, sorter
    {
      && sorter.Valid()
      && allNodes == sorter.graph.Keys
      && Reverses(sorter.graph, dependents)
      && done == sorter.finished
      && consumed == sorter.out + sorter.finished
    }

    constructor (graph: Graph)
      requires Scoped(graph)
      ensures Valid() && fresh(sorter) && sorter.graph == graph && !sorter.prepared
      ensures parked == {} && done == {} && consumed == {}
    {
      sorter := new TopologicalSorter(graph);
      var reversed := ReverseEdges(graph);
      dependents := reversed;
      allNodes := graph.Keys;
      parked, done, consumed := {}, {}, {};
    }

    static method ReverseEdges(graph: Graph) returns (dependents: map<Issue, seq<Issue>>)
      ensures Reverses(graph, dependents)
    {
      dependents := map[];
      var rest := graph.Keys;
      while rest != {}
        invariant rest <= graph.Keys
        invariant forall n, m {:trigger m in Blockers(dependents, n)} ::
                    m in Blockers(dependents, n) <==> m in graph && m !in rest && n in graph[m]
      {
        var issue := AnyOf(rest);
        ghost var before := dependents;
        for i := 0 to |graph[issue]|
          invariant forall n, m {:trigger m in Blockers(dependents, n)} ::
                      m in Blockers(dependents, n) <==>
                      m in Blockers(before, n) || (m == issue && n in graph[issue][..i])
        {
          var blocker := graph[issue][i];
          assert graph[issue][..i + 1] == graph[issue][..i] + [blocker];
          ghost var shorter := dependents;
          dependents := dependents[blocker := Blockers(dependents, blocker) + [issue]];
          assert forall n :: n != blocker ==> Blockers(dependents, n) == Blockers(shorter, n);
        }
        assert graph[issue][..|graph[issue]|] == graph[issue];
        rest := rest - {issue};
      }
    }

    method Prepare() returns (cycle: seq<Issue>, ghost order: seq<Issue>)
      requires Valid() && !sorter.prepared && consumed == {}
      modifies sorter
      ensures Valid() && sorter.prepared && consumed == sorter.out + sorter.finished
      ensures cycle == [] <==> Acyclic(sorter.graph)
      ensures cycle != [] ==> Cycle(sorter.graph, cycle)
      ensures cycle == [] ==> BlockersFirst(sorter.graph, order) && Elems(order) == sorter.graph.Keys
    {
      cycle, order := sorter.Prepare();
    }

    /** Everything newly unblocked is consumed; what is parked is held back. */
    method GetReady() returns (ready: set<Issue>)
      requires Valid() && sorter.prepared
      modifies this`consumed, sorter
      ensures Valid() && sorter.prepared
      ensures done == old(done)
      ensures consumed == old(consumed) + Unblocked(sorter.graph, old(consumed), done)
      ensures ready == Unblocked(sorter.graph, old(consumed), done) - parked
      ensures forall m :: m in ready <==>
                m in sorter.graph && m !in old(consumed) && m !in parked
                && forall b :: b in sorter.graph[m] ==> b in done
    {
      var nodes := sorter.GetReady();
      var readyRaw := set m | m in nodes;
      forall m ensures m in readyRaw <==> m in Unblocked(sorter.graph, consumed, done) {
        assert m in readyRaw <==> m in nodes;
      }
      assert readyRaw == Elems(nodes);
      consumed := consumed + readyRaw;
      ready := readyRaw - parked;
    }

    method MarkDone(issue: Issue)
      requires Valid() && sorter.prepared && issue in consumed && issue !in done
      modifies this`done, sorter
      ensures Valid() && sorter.prepared
      ensures done == old(done) + {issue}
    {
      var ok := sorter.Done(issue);
      done := done + {issue};
    }

    method MarkParked(issue: Issue)
      requires Valid()
      modifies this`parked
      ensures Valid()
      ensures forall m :: m in parked <==>
                m in old(parked) || ReachedBy(sorter.graph, done + old(parked), m, issue)
    {
      hide Spread;
      ghost var stop := done + parked;
      var toPark := [issue];
      SpreadStarts(sorter.graph, stop, parked, issue);
      while toPark != []
        invariant Valid() && Spread(sorter.graph, stop, old(parked), parked, toPark, issue)
        invariant parked <= old(parked) + allNodes + {issue}
        invariant old(parked) <= parked && forall n :: n in toPark ==> n in allNodes + {issue}
        decreases old(parked) + allNodes + {issue} - parked, |toPark|
      {
        SpreadStep(sorter.graph, dependents, stop, old(parked), parked, toPark, issue);
        var node := toPark[|toPark| - 1];
        assert node in toPark;
        toPark := toPark[..|toPark| - 1];
        if node in parked || node in done { continue; }
        parked := parked + {node};
        toPark := toPark + Blockers(dependents, node);
      }
      SpreadEnds(sorter.graph, stop, old(parked), parked, issue);
    }

    predicate IsActive()
      requires Valid()
      reads this, sorter
      ensures IsActive() <==> !AllTerminal(sorter.graph, done, parked)
    {
      exists m :: m in allNodes && m !in done + parked
    }
  }

  /** Issues never handed out whose blockers are all done. */
  ghost function Unblocked(g: Graph, consumed: set<Issue>, done: set<Issue>): set<Issue> {
    set m | m in g && m !in consumed && BlockersFinished(g, {m}, done)
  }
}
