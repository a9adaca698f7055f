/** `graphlib.TopologicalSorter` as the Python standard library documents it: predecessor counters,
    a ready list that hands every node out once, and a cycle check in `prepare`. */
module TopologicalSorting {
  import opened Prelude
  import opened Dag

  const NODE_OUT := -1
  const NODE_DONE := -2

  /** Entries of `blockers` that are not in `done`, repetitions counted. */
  ghost function CountOpen(blockers: seq<Issue>, done: set<Issue>): nat {
    if blockers == [] then 0
    else (if blockers[0] in done then 0 else 1) + CountOpen(blockers[1..], done)
  }

  /** Finishing `n` takes away exactly as many open entries as `n` has repetitions. */
  lemma {:induction false} CountOpenDrops(blockers: seq<Issue>, done: set<Issue>, n: Issue)
    requires n !in done
    ensures CountOpen(blockers, done + {n}) + multiset(blockers)[n] == CountOpen(blockers, done)
  {
    if blockers != [] {
      CountOpenDrops(blockers[1..], done, n);
      assert blockers == [blockers[0]] + blockers[1..];
    }
  }

  lemma {:induction false} CountOpenIsZero(blockers: seq<Issue>, done: set<Issue>)
    ensures CountOpen(blockers, done) == 0 <==> forall b :: b in blockers ==> b in done
  {
    if blockers != [] {
      CountOpenIsZero(blockers[1..], done);
      assert forall b :: b in blockers <==> b == blockers[0] || b in blockers[1..];
    }
  }

  lemma {:induction false} CountOpenNothingDone(blockers: seq<Issue>)
    ensures CountOpen(blockers, {}) == |blockers|
  {
    if blockers != [] { CountOpenNothingDone(blockers[1..]); }
  }

  /** How often `n` is listed as a blocker of `m`. */
  ghost function Edges(g: Graph, n: Issue, m: Issue): nat {
    multiset(Blockers(g, m))[n]
  }

  /** The successor lists are the blocker lists turned round, repetitions included. */
  ghost predicate Mirrors(g: Graph, succ: map<Issue, seq<Issue>>) {
    && succ.Keys == g.Keys
    && forall n, m {:trigger multiset(succ[n])[m]} :: n in succ ==> multiset(succ[n])[m] == Edges(g, n, m)
  }

  ghost predicate LinkedExcept(g: Graph, succ: map<Issue, seq<Issue>>, rest: set<Issue>) {
    && succ.Keys == g.Keys
    && forall n, m {:trigger multiset(succ[n])[m]} :: n in succ ==>
         multiset(succ[n])[m] == if m in rest then 0 else Edges(g, n, m)
  }

  /** What the counter of `m` must hold while `out` is handed out and `finished` is done. */
  ghost function CounterOf(g: Graph, out: set<Issue>, finished: set<Issue>, m: Issue): int {
    if m in out then NODE_OUT
    else if m in finished then NODE_DONE
    else CountOpen(Blockers(g, m), finished)
  }

  ghost predicate Counts(g: Graph, npred: map<Issue, int>, out: set<Issue>, finished: set<Issue>) {
    && npred.Keys == g.Keys
    && forall m {:trigger npred[m]} :: m in npred ==> npred[m] == CounterOf(g, out, finished, m)
  }

  ghost predicate ListsZeros(npred: map<Issue, int>, ready: seq<Issue>) {
    NoDup(ready) && forall m :: m in ready <==> m in npred && npred[m] == 0
  }

  /** Nobody is handed out or finished before all of its blockers are finished. */
  ghost predicate BlockersFinished(g: Graph, started: set<Issue>, finished: set<Issue>) {
    forall m, b :: m in started && b in Blockers(g, m) ==> b in finished
  }

  lemma SuccessorIsUntouched(g: Graph, succ: map<Issue, seq<Issue>>, out: set<Issue>, finished: set<Issue>,
                             node: Issue, m: Issue)
    requires Mirrors(g, succ) && node in succ && m in succ[node]
    requires BlockersFinished(g, out + finished, finished) && node !in finished
    ensures m in g && node in Blockers(g, m) && m !in out && m !in finished
  {
    assert multiset(succ[node])[m] > 0;
  }

  /** Every counter is high enough to lose the edges that leave a handed-out node. */
  lemma MayTakeOff(g: Graph, succ: map<Issue, seq<Issue>>, npred: map<Issue, int>, ready: seq<Issue>,
                   out: set<Issue>, finished: set<Issue>, node: Issue)
    requires Mirrors(g, succ) && Counts(g, npred, out, finished) && node in g && node in out && node !in finished
    requires BlockersFinished(g, out + finished, finished) && ListsZeros(npred, ready)
    ensures ListsZeros(npred[node := NODE_DONE], ready)
    ensures forall m :: m in succ[node] ==>
              m in npred && npred[node := NODE_DONE][m] >= multiset(succ[node])[m]
  {
    assert npred[node] == NODE_OUT;
    forall m | m in succ[node] ensures m in npred && m != node && npred[m] >= multiset(succ[node])[m] {
      SuccessorIsUntouched(g, succ, out, finished, node, m);
      CountOpenDrops(Blockers(g, m), finished, node);
      assert multiset(succ[node])[m] == Edges(g, node, m);
    }
  }

  /** Once every edge leaving `node` has been taken off, the counters are right for `node` done. */
  lemma DoneCounts(g: Graph, succ: map<Issue, seq<Issue>>, before: map<Issue, int>, after: map<Issue, int>,
                   out: set<Issue>, finished: set<Issue>, node: Issue)
    requires Mirrors(g, succ) && Counts(g, before, out, finished) && node in g && node in out && node !in finished
    requires BlockersFinished(g, out + finished, finished)
    requires after.Keys == before.Keys && after[node] == NODE_DONE
    requires forall m :: m in before && m != node ==> after[m] == before[m] - multiset(succ[node])[m]
    ensures Counts(g, after, out - {node}, finished + {node})
    ensures BlockersFinished(g, (out - {node}) + (finished + {node}), finished + {node})
  {
    forall m | m in after ensures after[m] == CounterOf(g, out - {node}, finished + {node}, m) {
      if m != node {
        assert multiset(succ[node])[m] == Edges(g, node, m);
        if m in out + finished {
          if m in succ[node] { SuccessorIsUntouched(g, succ, out, finished, node, m); }
        } else {
          CountOpenDrops(Blockers(g, m), finished, node);
        }
      }
    }
  }

  lemma PrefixCount<T>(s: seq<T>, i: nat)
    requires i < |s|
    ensures multiset(s[..i + 1]) == multiset(s[..i]) + multiset{s[i]}
    ensures multiset(s[..i])[s[i]] < multiset(s)[s[i]]
  {
    assert s[..i + 1] == s[..i] + [s[i]];
    assert s == s[..i + 1] + s[i + 1..];
  }

  class TopologicalSorter {
    ghost const graph: Graph
    ghost var out: set<Issue>
    ghost var finished: set<Issue>

    var npred: map<Issue, int>
    var succ: map<Issue, seq<Issue>>
    var ready: seq<Issue>
    var prepared: bool

    ghost predicate Valid()
      reads this
    {
      && Scoped(graph)
      && Mirrors(graph, succ)
      && Counts(graph, npred, out, finished)
      && out <= graph.Keys && finished <= graph.Keys && out !! finished
      && BlockersFinished(graph, out + finished, finished)
      && (if prepared then ListsZeros(npred, ready) else ready == [] && out == {} && finished == {})
    }

    constructor (g: Graph)
      requires Scoped(g)
      ensures Valid() && graph == g && !prepared && out == {} && finished == {}
    {
      var npred0, succ0 := AddAll(g);
      graph, npred, succ, ready, prepared := g, npred0, succ0, [], false;
      out, finished := {}, {};
    }

    /** `add(node, *blockers)` for every entry of the graph. */
    static method AddAll(g: Graph) returns (npred: map<Issue, int>, succ: map<Issue, seq<Issue>>)
      requires Scoped(g)
      ensures Mirrors(g, succ) && Counts(g, npred, {}, {})
    {
      npred, succ := map[], map n | n in g :: [];
      var rest := g.Keys;
      while rest != {}
        invariant rest <= g.Keys && npred.Keys == g.Keys - rest && succ.Keys == g.Keys
        invariant forall m :: m in npred ==> npred[m] == |g[m]|
        invariant LinkedExcept(g, succ, rest)
      {
        var node := AnyOf(rest);
        npred := npred[node := |g[node]|];
        succ := LinkBlockers(g, succ, rest, node);
        rest := rest - {node};
      }
      forall m | m in npred ensures npred[m] == CounterOf(g, {}, {}, m) {
        CountOpenNothingDone(Blockers(g, m));
      }
    }

    /** The inner loop of `add(node, *blockers)`. */
    static method LinkBlockers(g: Graph, succ0: map<Issue, seq<Issue>>, ghost rest: set<Issue>, node: Issue)
        returns (succ: map<Issue, seq<Issue>>)
      requires Scoped(g) && node in g && node in rest && LinkedExcept(g, succ0, rest)
      ensures LinkedExcept(g, succ, rest - {node})
    {
      succ := succ0;
      var i := 0;
      while i < |g[node]|
        invariant 0 <= i <= |g[node]| && succ.Keys == g.Keys
        invariant forall n, m {:trigger multiset(succ[n])[m]} :: n in succ ==>
                    multiset(succ[n])[m] == if m == node then multiset(g[node][..i])[n] else multiset(succ0[n])[m]
      {
        PrefixCount(g[node], i);
        var p := g[node][i];
        succ := succ[p := succ[p] + [node]];
        i := i + 1;
      }
      assert g[node][..|g[node]|] == g[node];
    }

    /** `prepare()`: fills the ready list, then raises CycleError when the graph is cyclic.
        `order` is a topological order when it is not. */
    method Prepare() returns (cycle: seq<Issue>, ghost order: seq<Issue>)
      requires Valid() && !prepared
      modifies this
      ensures Valid() && prepared && out == {} && finished == {}
      ensures cycle == [] <==> Acyclic(graph)
      ensures cycle != [] ==> Cycle(graph, cycle)
      ensures cycle == [] ==> BlockersFirst(graph, order) && Elems(order) == graph.Keys
    {
      ready := Zeros(npred);
      prepared := true;
      cycle, order := FindCycle(graph, succ);
    }

    static method Zeros(npred: map<Issue, int>) returns (ready: seq<Issue>)
      ensures ListsZeros(npred, ready)
    {
      ready := [];
      var rest := npred.Keys;
      while rest != {}
        invariant rest <= npred.Keys && NoDup(ready)
        invariant forall m :: m in ready <==> m in npred && m !in rest && npred[m] == 0
      {
        var m := AnyOf(rest);
        if npred[m] == 0 { ready := ready + [m]; }
        rest := rest - {m};
      }
    }

    /** Peels off issues without unpeeled blockers; what cannot be peeled holds a cycle. */
    static method FindCycle(ghost g: Graph, succ: map<Issue, seq<Issue>>)
        returns (cycle: seq<Issue>, ghost order: seq<Issue>)
      requires Scoped(g) && Mirrors(g, succ)
      ensures cycle == [] <==> Acyclic(g)
      ensures cycle != [] ==> Cycle(g, cycle)
      ensures cycle == [] ==> BlockersFirst(g, order) && Elems(order) == g.Keys
    {
      var rest := succ.Keys;
      order := [];
      var stuck := false;
      while !stuck && rest != {}
        invariant rest <= succ.Keys && Elems(order) == g.Keys - rest && BlockersFirst(g, order)
        invariant stuck ==> rest != {} && forall m :: m in rest ==> BlockedWithin(succ, rest, m)
        decreases rest, !stuck
      {
        var free := set m | m in rest && !BlockedWithin(succ, rest, m);
        if free == {} {
          stuck := true;
          forall m | m in rest ensures BlockedWithin(succ, rest, m) {
            assert m !in free;
          }
        } else {
          var m := AnyOf(free);
          PeelKeepsOrder(g, succ, rest, order, m);
          rest, order := rest - {m}, order + [m];
        }
      }
      if !stuck {
        OrderIsAcyclic(g, order);
        return [], order;
      }
      cycle := WalkCycle(g, succ, rest);
    }

    /** Inside a set where everyone is blocked by a member, walking down the blockers must repeat. */
    static method WalkCycle(ghost g: Graph, succ: map<Issue, seq<Issue>>, stuck: set<Issue>)
        returns (cycle: seq<Issue>)
      requires Mirrors(g, succ) && stuck != {} && stuck <= succ.Keys
      requires forall m :: m in stuck ==> BlockedWithin(succ, stuck, m)
      ensures Cycle(g, cycle)
    {
      var start := AnyOf(stuck);
      var path := [start];
      while true
        invariant |path| > 0 && Elems(path) <= stuck && Chain(g, path)
        decreases stuck - Elems(path)
      {
        var last := path[|path| - 1];
        assert last in Elems(path);
        var next :| next in stuck && last in succ[next];
        assert multiset(succ[next])[last] > 0;
        LongerChain(g, path, next);
        if next in path {
          var at :| 0 <= at < |path| && path[at] == next;
          cycle := (path + [next])[at..];
          ChainSuffix(g, path + [next], at);
          return;
        }
        assert Elems(path + [next]) == Elems(path) + {next};
        path := path + [next];
      }
    }

    /** `get_ready()`: exactly the nodes never handed out whose blockers are all finished. */
    method GetReady() returns (nodes: seq<Issue>)
      requires Valid() && prepared
      modifies this
      ensures Valid() && prepared && finished == old(finished)
      ensures NoDup(nodes)
      ensures forall m :: m in nodes <==>
                m in graph && m !in old(out) && m !in finished && BlockersFinished(graph, {m}, finished)
      ensures out == old(out) + Elems(nodes)
    {
      nodes := ready;
      forall m ensures m in nodes <==>
                m in graph && m !in out && m !in finished && BlockersFinished(graph, {m}, finished) {
        CountOpenIsZero(Blockers(graph, m), finished);
      }
      npred := HandOut(npred, nodes);
      ready := [];
      out := out + Elems(nodes);
    }

    static method HandOut(npred0: map<Issue, int>, nodes: seq<Issue>) returns (npred: map<Issue, int>)
      requires Elems(nodes) <= npred0.Keys
      ensures npred.Keys == npred0.Keys
      ensures forall m :: m in npred ==> npred[m] == if m in nodes then NODE_OUT else npred0[m]
    {
      npred := npred0;
      for i := 0 to |nodes|
        invariant npred.Keys == npred0.Keys
        invariant forall m :: m in npred ==> npred[m] == if m in nodes[..i] then NODE_OUT else npred0[m]
      {
        assert nodes[i] in Elems(nodes);
        npred := npred[nodes[i] := NODE_OUT];
      }
      assert nodes[..|nodes|] == nodes;
    }

    /** `done(node)`: refused unless the node is handed out and unfinished. */
    method Done(node: Issue) returns (ok: bool)
      requires Valid() && prepared
      modifies this
      ensures Valid() && prepared
      ensures ok == (node in old(out))
      ensures if ok then finished == old(finished) + {node} && out == old(out) - {node}
              else finished == old(finished) && out == old(out)
    {
      if node !in npred || npred[node] != NODE_OUT { return false; }
      MayTakeOff(graph, succ, npred, ready, out, finished, node);
      ghost var before := npred;
      npred, ready := TakeOff(npred[node := NODE_DONE], succ[node], ready);
      DoneCounts(graph, succ, before, npred, out, finished, node);
      finished, out := finished + {node}, out - {node};
      ok := true;
    }

    /** Decrement one counter per successor entry; a counter reaching zero makes its node ready. */
    static method TakeOff(npred0: map<Issue, int>, successors: seq<Issue>, ready0: seq<Issue>)
        returns (npred: map<Issue, int>, ready: seq<Issue>)
      requires ListsZeros(npred0, ready0)
      requires forall m :: m in successors ==> m in npred0 && npred0[m] >= multiset(successors)[m]
      ensures npred.Keys == npred0.Keys
      ensures forall m :: m in npred ==> npred[m] == npred0[m] - multiset(successors)[m]
      ensures ListsZeros(npred, ready)
    {
      npred, ready := npred0, ready0;
      for i := 0 to |successors|
        invariant npred.Keys == npred0.Keys
        invariant forall m :: m in npred ==> npred[m] == npred0[m] - multiset(successors[..i])[m]
        invariant ListsZeros(npred, ready)
      {
        var m := successors[i];
        PrefixCount(successors, i);
        npred := npred[m := npred[m] - 1];
        if npred[m] == 0 { ready := ready + [m]; }
      }
      assert successors[..|successors|] == successors;
    }
  }

  predicate BlockedWithin(succ: map<Issue, seq<Issue>>, rest: set<Issue>, m: Issue)
    requires rest <= succ.Keys
  {
    exists b :: b in rest && m in succ[b]
  }

  lemma PeelKeepsOrder(g: Graph, succ: map<Issue, seq<Issue>>, rest: set<Issue>, order: seq<Issue>, m: Issue)
    requires Scoped(g) && Mirrors(g, succ) && rest <= succ.Keys && m in rest
    requires Elems(order) == g.Keys - rest && BlockersFirst(g, order)
    requires !BlockedWithin(succ, rest, m)
    ensures BlockersFirst(g, order + [m]) && Elems(order + [m]) == g.Keys - (rest - {m})
  {
    var longer := order + [m];
    forall i, b | 0 <= i < |longer| && b in Blockers(g, longer[i]) ensures b in longer[..i] {
      if i < |order| {
        assert b in order[..i];
        assert longer[..i] == order[..i];
      } else {
        assert multiset(succ[b])[m] == Edges(g, b, m) > 0;
        assert b !in rest;
        assert b in Elems(order);
        assert longer[..i] == order;
      }
    }
    assert Elems(longer) == Elems(order) + {m};
  }

  lemma LongerChain(g: Graph, path: seq<Issue>, next: Issue)
    requires Chain(g, path) && next in Blockers(g, path[|path| - 1])
    ensures Chain(g, path + [next])
  {
    var longer := path + [next];
    forall i | 0 <= i < |longer| - 1 ensures longer[i + 1] in Blockers(g, longer[i]) {
      if i < |path| - 1 { assert path[i + 1] in Blockers(g, path[i]); }
    }
  }

  lemma ChainSuffix(g: Graph, path: seq<Issue>, at: nat)
    requires Chain(g, path) && at < |path|
    ensures Chain(g, path[at..])
  {
    forall i | 0 <= i < |path[at..]| - 1 ensures path[at..][i + 1] in Blockers(g, path[at..][i]) {
      assert path[at + i + 1] in Blockers(g, path[at + i]);
    }
  }
}
