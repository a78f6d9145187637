/**
 Depth-first search for circular foreign keys (`_find_cycles`, `_dfs_cycle`).
 */
module CycleSearch {
  import opened Names
  import opened FkGraph

  type Chain = seq<string>

  /** Some chain was closed by following the reference from `u` to `x`. */
  ghost predicate ClosesChain(chains: seq<Chain>, u: string, x: string)
  {
    exists c :: c in chains && |c| >= 2 && c[|c| - 2] == u && c[|c| - 1] == x
  }

  /** Every reference of `finished[i]` within `scope` was finished before it or
      closed a chain. */
  ghost predicate Explored(g: Graph, scope: set<string>, chains: seq<Chain>, finished: seq<string>)
  {
    forall i, x :: 0 <= i < |finished| && finished[i] in g && x in g[finished[i]] && x in scope ==>
      x in finished[..i] || ClosesChain(chains, finished[i], x)
  }

  /** References of `u` already dealt with, in the same sense. */
  ghost predicate Handled(chains: seq<Chain>, finished: seq<string>, u: string, x: string)
  {
    x in finished || ClosesChain(chains, u, x)
  }

  /** The search's fields agree with each other: `path` is the walk being
      followed, `finished` the tables done with in the order they were left. */
  ghost predicate Consistent(g: Graph, scope: set<string>, path: seq<string>, pathSet: set<string>,
                             visited: set<string>, cycles: seq<Chain>, finished: seq<string>)
  {
    && IsFkGraph(g) && scope <= g.Keys
    && NoDuplicates(path) && pathSet == Elements(path) && pathSet <= scope
    && (path != [] ==> IsWalk(g, path))
    && NoDuplicates(finished) && visited == Elements(finished) && visited <= scope
    && visited !! pathSet
    && ReportsCycles(g, scope, cycles)
    && Explored(g, scope, cycles, finished)
  }

  ghost predicate ReportsCycles(g: Graph, scope: set<string>, cycles: seq<Chain>)
  {
    forall c :: c in cycles ==> IsSimpleCycle(g, c) && Elements(c) <= scope
  }

  // ----- the search as a function

  /** The tables done with, in the order they were left, and the chains closed so far. */
  datatype Trace = Trace(finished: seq<string>, cycles: seq<Chain>)

  /** The chain a reference back to `node` closes: the path from its first place on. */
  ghost function Closing(path: seq<string>, node: string): Chain
  {
    if path == [] || path[0] == node then path + [node] else Closing(path[1..], node)
  }

  /** A search from `node`, with `path` the tables it was reached through. */
  ghost function Explore(g: Graph, scope: set<string>, path: seq<string>, t: Trace, node: string): Trace
    requires scope <= g.Keys
    decreases scope - Elements(path), 0, 0
  {
    if node in path then t.(cycles := t.cycles + [Closing(path, node)])
    else if node in t.finished || node !in scope then t
    else
      ElementsConcat(path, [node]);
      assert node in scope - Elements(path) && node !in scope - Elements(path + [node]);
      var u := ExploreAll(g, scope, path + [node], t, Listing(g[node]));
      u.(finished := u.finished + [node])
  }

  ghost function ExploreAll(g: Graph, scope: set<string>, path: seq<string>, t: Trace, nodes: seq<string>): Trace
    requires scope <= g.Keys
    decreases scope - Elements(path), 1, |nodes|
  {
    if nodes == [] then t
    else
      var n := |nodes| - 1;
      var u := ExploreAll(g, scope, path, t, nodes[..n]);
      if nodes[n] in scope then Explore(g, scope, path, u, nodes[n]) else u
  }

  /** The first `i` of the tables have been searched from. */
  ghost predicate ExploredTo(g: Graph, scope: set<string>, path: seq<string>, first: Trace, nodes: seq<string>, i: nat,
                             t: Trace)
  {
    scope <= g.Keys && i <= |nodes| && t == ExploreAll(g, scope, path, first, nodes[..i])
  }

  lemma ExploreStart(g: Graph, scope: set<string>, path: seq<string>, first: Trace, nodes: seq<string>)
    requires scope <= g.Keys
    ensures ExploredTo(g, scope, path, first, nodes, 0, first)
  {
  }

  lemma ExploreNext(g: Graph, scope: set<string>, path: seq<string>, first: Trace, nodes: seq<string>, i: nat, t: Trace)
    requires ExploredTo(g, scope, path, first, nodes, i, t) && i < |nodes|
    ensures ExploredTo(g, scope, path, first, nodes, i + 1,
                       if nodes[i] in scope then Explore(g, scope, path, t, nodes[i]) else t)
    ensures path == [] && nodes[i] in t.finished ==> Explore(g, scope, path, t, nodes[i]) == t
  {
    assert nodes[..i + 1][..i] == nodes[..i];
  }

  lemma ExploreEnd(g: Graph, scope: set<string>, path: seq<string>, first: Trace, node: string, t: Trace)
    requires node in scope && node in g && node !in path && node !in first.finished
    requires ExploredTo(g, scope, path + [node], first, Listing(g[node]), |Listing(g[node])|, t)
    ensures Explore(g, scope, path, first, node) == t.(finished := t.finished + [node])
  {
    var nodes := Listing(g[node]);
    assert nodes[..|nodes|] == nodes;
  }

  /** One chain for each set of tables, the first that was closed. */
  ghost function OnePerSet(chains: seq<Chain>): seq<Chain>
  {
    if chains == [] then []
    else
      var before, last := OnePerSet(chains[..|chains| - 1]), chains[|chains| - 1];
      if exists u :: u in before && Elements(u) == Elements(last) then before else before + [last]
  }

  lemma {:induction false} ClosingAt(path: seq<string>, node: string, idx: nat)
    requires idx < |path| && path[idx] == node && node !in path[..idx]
    ensures Closing(path, node) == path[idx..] + [node]
  {
    if idx > 0 {
      assert path[..idx][0] == path[0];
      assert path[1..][..idx - 1] == path[..idx][1..];
      ClosingAt(path[1..], node, idx - 1);
      assert path[1..][idx - 1..] == path[idx..];
    }
  }

  class Search {
    const g: Graph
    const scope: set<string>
    var path: seq<string>
    var pathSet: set<string>
    var visited: set<string>
    var cycles: seq<Chain>
    ghost var finished: seq<string>

    ghost function Traced(): Trace
      reads this
    {
      Trace(finished, cycles)
    }

    ghost predicate Valid()
      reads this
    {
      Consistent(g, scope, path, pathSet, visited, cycles, finished)
    }

    constructor (g: Graph, scope: set<string>)
      requires IsFkGraph(g) && scope <= g.Keys
      ensures Valid() && this.g == g && this.scope == scope
      ensures path == [] && cycles == [] && finished == []
    {
      this.g, this.scope := g, scope;
      path, pathSet, visited, cycles, finished := [], {}, {}, [], [];
    }

    /** Searches from `node`, whose caller is the last table of `path`. */
    method Dfs(node: string)
      requires Valid()
      requires node in g && (path != [] ==> node in g[path[|path| - 1]])
      modifies this
      ensures Valid() && path == old(path) && pathSet == old(pathSet)
      ensures old(cycles) <= cycles && old(finished) <= finished
      ensures node in scope && path == [] ==> node in finished
      ensures node in scope && path != [] ==> Handled(cycles, finished, path[|path| - 1], node)
      ensures Traced() == Explore(g, scope, path, old(Traced()), node)
      decreases scope - pathSet, 1
    {
      if node in pathSet {
        Report(node);
      } else if node in visited || node !in scope {
        return;
      } else {
        Visit(node);
      }
    }

    method Report(node: string)
      requires Valid() && node in pathSet && node in g[path[|path| - 1]]
      modifies this`cycles
      ensures Valid() && old(cycles) <= cycles
      ensures ClosesChain(cycles, path[|path| - 1], node)
      ensures cycles == old(cycles) + [Closing(path, node)]
    {
      var idx := IndexOf(path, node);
      var chain := path[idx..] + [node];
      ClosingAt(path, node, idx);
      ClosingChain(g, path, idx, node);
      ExploredGrows(g, scope, cycles, [chain], finished);
      cycles := cycles + [chain];
      assert chain in cycles;
    }

    method Visit(node: string)
      requires Valid()
      requires node in scope && node !in pathSet && node !in visited
      requires path != [] ==> node in g[path[|path| - 1]]
      modifies this
      ensures Valid() && path == old(path) && pathSet == old(pathSet)
      ensures old(cycles) <= cycles && old(finished) <= finished && node in finished
      ensures Traced() == Explore(g, scope, path, old(Traced()), node)
      decreases scope - pathSet, 0
    {
      Entering(g, scope, path, pathSet, visited, cycles, finished, node);
      path := path + [node];
      pathSet := pathSet + {node};

      var neighbors := Sorted(g[node]);
      ExploreStart(g, scope, path, old(Traced()), neighbors);
      for i := 0 to |neighbors|
        invariant Valid() && path == old(path) + [node] && pathSet == old(pathSet) + {node}
        invariant old(cycles) <= cycles && old(finished) <= finished
        invariant forall k :: 0 <= k < i && neighbors[k] in scope ==> Handled(cycles, finished, node, neighbors[k])
        invariant ExploredTo(g, scope, path, old(Traced()), neighbors, i, Traced())
      {
        var neighbor := neighbors[i];
        ExploreNext(g, scope, path, old(Traced()), neighbors, i, Traced());
        assert neighbor in Elements(neighbors);
        if neighbor in scope {
          ghost var c0, f0 := cycles, finished;
          Dfs(neighbor);
          HandledGrows(c0, f0, cycles, finished, node, neighbors, i);
        }
      }

      ExploreEnd(g, scope, old(path), old(Traced()), node, Traced());
      AllHandled(cycles, finished, node, neighbors, scope);
      Leave(node, old(path));
    }

    /** The end of a visit: `node`, its references all handled, is finished. */
    method Leave(node: string, ghost before: seq<string>)
      requires Valid() && path == before + [node] && node !in before && node in scope
      requires forall x :: x in g[node] && x in scope ==> Handled(cycles, finished, node, x)
      modifies this`path, this`pathSet, this`visited, this`finished
      ensures Valid() && path == before && pathSet == old(pathSet) - {node}
      ensures finished == old(finished) + [node]
    {
      hide IsWalk, NoDuplicates, ReportsCycles, Explored;
      ElementsConcat(before, [node]);
      assert pathSet == Elements(before) + {node};
      hide Consistent;
      assert pathSet - {node} + {node} == pathSet;
      Leaving(g, scope, before, pathSet - {node}, visited, cycles, finished, node);
      path := path[..|path| - 1];
      pathSet := pathSet - {node};
      visited := visited + {node};
      finished := finished + [node];
    }
  }

  lemma Entering(g: Graph, scope: set<string>, path: seq<string>, pathSet: set<string>,
                 visited: set<string>, cycles: seq<Chain>, finished: seq<string>, node: string)
    requires Consistent(g, scope, path, pathSet, visited, cycles, finished)
    requires node in scope && node !in pathSet && node !in visited
    requires path != [] ==> node in g[path[|path| - 1]]
    ensures Consistent(g, scope, path + [node], pathSet + {node}, visited, cycles, finished)
  {
    ElementsConcat(path, [node]);
    PathExtends(g, path, node);
  }

  lemma Leaving(g: Graph, scope: set<string>, path: seq<string>, pathSet: set<string>,
                visited: set<string>, cycles: seq<Chain>, finished: seq<string>, node: string)
    requires Consistent(g, scope, path + [node], pathSet + {node}, visited, cycles, finished)
    requires pathSet == Elements(path) && node !in pathSet && node in scope
    requires forall x :: x in g[node] && x in scope ==> Handled(cycles, finished, node, x)
    ensures Consistent(g, scope, path, pathSet, visited + {node}, cycles, finished + [node])
  {
    if path != [] {
      WalkSlice(g, path + [node], 0, |path|);
      assert (path + [node])[..|path|] == path;
    }
    forall i, j | 0 <= i < j < |path| ensures path[i] != path[j] {
      assert (path + [node])[i] != (path + [node])[j];
    }
    ElementsConcat(finished, [node]);
    ExploredFinish(g, scope, cycles, finished, node);
  }

  lemma AllHandled(cycles: seq<Chain>, finished: seq<string>, node: string, neighbors: seq<string>, scope: set<string>)
    requires forall k :: 0 <= k < |neighbors| && neighbors[k] in scope ==> Handled(cycles, finished, node, neighbors[k])
    ensures forall x :: x in Elements(neighbors) && x in scope ==> Handled(cycles, finished, node, x)
  {
  }

  // ----- all chains of a scope

  /** The chains closed by searching the tables in name order, one for each set of tables. */
  ghost function ChainsOf(g: Graph, nodes: set<string>): seq<Chain>
    requires nodes <= g.Keys
  {
    OnePerSet(ExploreAll(g, nodes, [], Trace([], []), Listing(nodes)).cycles)
  }

  /** Searches every table of `nodes` from a fresh path, then drops chains over
      an already reported set of tables. */
  method FindCycles(g: Graph, nodes: set<string>) returns (unique: seq<Chain>)
    requires IsFkGraph(g) && nodes <= g.Keys
    ensures ReportsCycles(g, nodes, unique) && DistinctSets(unique)
    ensures forall w :: IsClosedWalk(g, w) && Elements(w) <= nodes ==> Intercepted(unique, w)
    ensures unique == ChainsOf(g, nodes)
  {
    var search := new Search(g, nodes);
    var starts := Sorted(nodes);
    ExploreStart(g, nodes, [], Trace([], []), starts);
    for i := 0 to |starts|
      invariant fresh(search) && search.Valid() && search.g == g && search.scope == nodes
      invariant search.path == []
      invariant forall k :: 0 <= k < i ==> starts[k] in search.finished
      invariant ExploredTo(g, nodes, [], Trace([], []), starts, i, search.Traced())
    {
      assert starts[i] in Elements(starts);
      ExploreNext(g, nodes, [], Trace([], []), starts, i, search.Traced());
      if starts[i] !in search.visited {
        search.Dfs(starts[i]);
      } else {
        assert starts[i] in Elements(search.finished);
      }
    }
    assert starts[..|starts|] == starts;
    forall t | t in nodes ensures t in search.finished {
      assert t in Elements(starts);
      var k :| 0 <= k < |starts| && starts[k] == t;
    }
    unique := DistinctBySet(search.cycles);
    forall w | IsClosedWalk(g, w) && Elements(w) <= nodes ensures Intercepted(unique, w) {
      ClosedWalkIntercepted(g, nodes, search.cycles, search.finished, w);
      InterceptedByRepresentative(search.cycles, unique, w);
    }
  }

  /** Two consecutive tables of the walk lie on a reported chain. */
  ghost predicate Intercepted(chains: seq<Chain>, w: seq<string>)
  {
    exists c, i :: c in chains && 0 <= i < |w| - 1 && w[i] in c && w[i + 1] in c
  }

  /** The table of a closed walk that was finished first was left by a reference
      to a table finished later, so that reference closed a chain. */
  lemma ClosedWalkIntercepted(g: Graph, scope: set<string>, chains: seq<Chain>, finished: seq<string>, w: seq<string>)
    requires IsFkGraph(g) && Explored(g, scope, chains, finished)
    requires IsClosedWalk(g, w) && Elements(w) <= scope && scope <= Elements(finished)
    ensures Intercepted(chains, w)
  {
    forall i | 0 <= i < |w| ensures w[i] in finished {
      assert w[i] in Elements(w);
    }
    var i, f := FirstFinished(finished, w);
    if i == |w| - 1 { i := 0; }
    var x := w[i + 1];
    assert x in g[w[i]] && x in Elements(w);
    assert x !in finished[..f] by {
      forall k | 0 <= k < f ensures finished[k] != x {
        assert finished[k] !in w;
      }
    }
    assert ClosesChain(chains, finished[f], x);
    var c :| c in chains && |c| >= 2 && c[|c| - 2] == w[i] && c[|c| - 1] == x;
    assert w[i] in c && w[i + 1] in c;
  }

  lemma {:induction false} FirstFinished(finished: seq<string>, w: seq<string>) returns (i: nat, f: nat)
    requires w != [] && forall k :: 0 <= k < |w| ==> w[k] in finished
    ensures i < |w| && f < |finished| && finished[f] == w[i]
    ensures forall k :: 0 <= k < f ==> finished[k] !in w
  {
    assert w[0] in finished;
    if finished[0] in w {
      i :| 0 <= i < |w| && w[i] == finished[0];
      f := 0;
    } else {
      forall k | 0 <= k < |w| ensures w[k] in finished[1..] {
        var m :| 0 <= m < |finished| && finished[m] == w[k];
        assert m > 0 && finished[1..][m - 1] == w[k];
      }
      var f1;
      i, f1 := FirstFinished(finished[1..], w);
      f := f1 + 1;
      forall k | 0 <= k < f ensures finished[k] !in w {
        assert k > 0 ==> finished[k] == finished[1..][k - 1];
      }
    }
  }

  // ----- one chain per set of tables

  ghost predicate DistinctSets(chains: seq<Chain>)
  {
    forall i, j :: 0 <= i < j < |chains| ==> Elements(chains[i]) != Elements(chains[j])
  }

  ghost predicate Represented(chains: seq<Chain>, c: Chain)
  {
    exists u :: u in chains && Elements(u) == Elements(c)
  }

  lemma {:induction false} OnePerSetFacts(chains: seq<Chain>)
    ensures DistinctSets(OnePerSet(chains))
    ensures forall u :: u in OnePerSet(chains) ==> u in chains
    ensures forall c :: c in chains ==> Represented(OnePerSet(chains), c)
  {
    if chains != [] {
      var n := |chains| - 1;
      OnePerSetFacts(chains[..n]);
      assert chains == chains[..n] + [chains[n]];
      RepresentedMore(chains, OnePerSet(chains[..n]), n);
    }
  }

  lemma RepresentedMore(chains: seq<Chain>, before: seq<Chain>, n: nat)
    requires n < |chains| && forall c :: c in chains[..n] ==> Represented(before, c)
    ensures forall k :: 0 <= k < n ==> Represented(before, chains[k]) && Represented(before + [chains[n]], chains[k])
    ensures Represented(before + [chains[n]], chains[n])
  {
    forall k | 0 <= k < n
      ensures Represented(before, chains[k]) && Represented(before + [chains[n]], chains[k])
    {
      assert chains[..n][k] == chains[k] && chains[k] in chains[..n];
      var u :| u in before && Elements(u) == Elements(chains[k]);
      assert u in before + [chains[n]];
    }
    assert chains[n] in before + [chains[n]];
  }

  /** The first `i` chains are reduced to `unique`, over these sets of tables. */
  ghost predicate Reduced(chains: seq<Chain>, i: nat, seen: seq<set<string>>, unique: seq<Chain>)
  {
    && i <= |chains| && unique == OnePerSet(chains[..i])
    && |seen| == |unique| && forall k :: 0 <= k < |seen| ==> seen[k] == Elements(unique[k])
  }

  lemma ReducedNext(chains: seq<Chain>, i: nat, seen: seq<set<string>>, unique: seq<Chain>)
    requires Reduced(chains, i, seen, unique) && i < |chains|
    ensures var cs := Elements(chains[i]);
      if cs in seen then Reduced(chains, i + 1, seen, unique)
      else Reduced(chains, i + 1, seen + [cs], unique + [chains[i]])
  {
    assert chains[..i + 1][..i] == chains[..i];
    forall cs ensures cs in seen <==> exists u :: u in unique && Elements(u) == cs {
      if cs in seen {
        var k :| 0 <= k < |seen| && seen[k] == cs;
        assert unique[k] in unique;
      }
      if u :| u in unique && Elements(u) == cs {
        var k :| 0 <= k < |unique| && unique[k] == u;
        assert seen[k] == cs;
      }
    }
  }

  method DistinctBySet(cycles: seq<Chain>) returns (unique: seq<Chain>)
    ensures DistinctSets(unique)
    ensures forall u :: u in unique ==> u in cycles
    ensures forall c :: c in cycles ==> Represented(unique, c)
    ensures unique == OnePerSet(cycles)
  {
    var seen: seq<set<string>> := [];
    unique := [];
    for i := 0 to |cycles|
      invariant Reduced(cycles, i, seen, unique)
    {
      ReducedNext(cycles, i, seen, unique);
      var cs := Elements(cycles[i]);
      if cs !in seen {
        seen, unique := seen + [cs], unique + [cycles[i]];
      }
    }
    assert cycles[..|cycles|] == cycles;
    OnePerSetFacts(cycles);
  }

  lemma InterceptedByRepresentative(cycles: seq<Chain>, unique: seq<Chain>, w: seq<string>)
    requires forall c :: c in cycles ==> Represented(unique, c)
    requires Intercepted(cycles, w)
    ensures Intercepted(unique, w)
  {
    var c, i :| c in cycles && 0 <= i < |w| - 1 && w[i] in c && w[i + 1] in c;
    assert w[i] in Elements(c) && w[i + 1] in Elements(c);
    var u :| u in unique && Elements(u) == Elements(c);
    assert w[i] in u && w[i + 1] in u;
  }

  method IndexOf(path: seq<string>, node: string) returns (idx: nat)
    requires node in path
    ensures idx < |path| && path[idx] == node && node !in path[..idx]
  {
    idx := 0;
    while path[idx] != node
      invariant idx < |path| && node !in path[..idx]
      decreases |path| - idx
    {
      assert path[..idx + 1] == path[..idx] + [path[idx]];
      idx := idx + 1;
    }
  }

  /** The part of the path from the repeated table on, closed by the last
      reference, is a simple cycle. */
  lemma ClosingChain(g: Graph, path: seq<string>, idx: nat, node: string)
    requires IsFkGraph(g) && IsWalk(g, path) && NoDuplicates(path)
    requires idx < |path| && path[idx] == node && node in g[path[|path| - 1]]
    ensures IsSimpleCycle(g, path[idx..] + [node])
    ensures Elements(path[idx..] + [node]) <= Elements(path)
  {
    var chain := path[idx..] + [node];
    WalkSlice(g, path, idx, |path|);
    assert IsWalk(g, [node]);
    WalkJoin(g, path[idx..], [node]);
    assert chain[..|chain| - 1] == path[idx..];
  }

  lemma PathExtends(g: Graph, path: seq<string>, node: string)
    requires node in g && NoDuplicates(path) && node !in path
    requires path != [] ==> IsWalk(g, path) && node in g[path[|path| - 1]]
    ensures IsWalk(g, path + [node]) && NoDuplicates(path + [node])
  {
    assert IsWalk(g, [node]);
    if path != [] {
      WalkJoin(g, path, [node]);
    } else {
      assert path + [node] == [node];
    }
  }

  lemma ExploredGrows(g: Graph, scope: set<string>, chains: seq<Chain>, more: seq<Chain>, finished: seq<string>)
    requires Explored(g, scope, chains, finished)
    ensures Explored(g, scope, chains + more, finished)
  {
    forall u, x | ClosesChain(chains, u, x) ensures ClosesChain(chains + more, u, x) {
      var c :| c in chains && |c| >= 2 && c[|c| - 2] == u && c[|c| - 1] == x;
      assert c in chains + more;
    }
  }

  lemma HandledGrows(c0: seq<Chain>, f0: seq<string>, c1: seq<Chain>, f1: seq<string>, u: string,
                     neighbors: seq<string>, n: nat)
    requires c0 <= c1 && f0 <= f1 && n <= |neighbors|
    ensures forall k :: 0 <= k < n && Handled(c0, f0, u, neighbors[k]) ==> Handled(c1, f1, u, neighbors[k])
  {
    forall k | 0 <= k < n && Handled(c0, f0, u, neighbors[k]) ensures Handled(c1, f1, u, neighbors[k]) {
      var x := neighbors[k];
      if ClosesChain(c0, u, x) {
        var c :| c in c0 && |c| >= 2 && c[|c| - 2] == u && c[|c| - 1] == x;
        assert c in c1;
      }
    }
  }

  lemma ExploredFinish(g: Graph, scope: set<string>, chains: seq<Chain>, finished: seq<string>, node: string)
    requires Explored(g, scope, chains, finished) && node in g
    requires forall x :: x in g[node] && x in scope ==> Handled(chains, finished, node, x)
    ensures Explored(g, scope, chains, finished + [node])
  {
    var more := finished + [node];
    forall i, x | 0 <= i < |more| && more[i] in g && x in g[more[i]] && x in scope
      ensures x in more[..i] || ClosesChain(chains, more[i], x)
    {
      if i < |finished| {
        assert more[..i] == finished[..i];
      } else {
        assert more[..i] == finished;
        assert Handled(chains, finished, node, x);
      }
    }
  }
}
