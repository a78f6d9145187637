/**
 Import ordering for tables and detection of circular foreign keys
 (src/r2g/topo_sort.py).
 */
module TopoSort {
  import opened Names
  import opened FkGraph
  import opened CycleSearch

  datatype ForeignKey = ForeignKey(foreignTable: string)
  datatype Table = Table(foreignKeys: seq<ForeignKey>)
  type Schema = map<string, Table>

  /** The tables other than itself that `t` references and the schema holds. */
  ghost function References(schema: Schema, t: string): set<string>
    requires t in schema
  {
    set fk | fk in schema[t].foreignKeys && fk.foreignTable in schema && fk.foreignTable != t
      :: fk.foreignTable
  }

  ghost function DependencyGraph(schema: Schema): (g: Graph)
    ensures IsFkGraph(g)
  {
    map t | t in schema :: References(schema, t)
  }

  /** The importable tables, references first, then the others by name. */
  ghost function ImportSequence(g: Graph): seq<string>
  {
    Kahn(g) + Listing(g.Keys - Elements(Kahn(g)))
  }

  /** The reported chains are simple cycles over different sets of tables, and
      every circular walk meets one in two consecutive tables. */
  ghost predicate ReportsEveryCycle(g: Graph, chains: seq<Chain>)
  {
    && (forall c :: c in chains ==> IsSimpleCycle(g, c))
    && DistinctSets(chains)
    && (forall w :: IsClosedWalk(g, w) ==> Intercepted(chains, w))
  }

  /** The chains that searching the tables left over closes. */
  ghost function ReportedChains(g: Graph): seq<Chain>
    requires IsFkGraph(g)
  {
    ChainsOf(g, g.Keys - Elements(Kahn(g)))
  }

  lemma NothingToReport(g: Graph)
    requires IsFkGraph(g) && g.Keys - Elements(Kahn(g)) == {}
    ensures ReportedChains(g) == []
  {
    NothingListed();
    assert ExploreAll(g, {}, [], Trace([], []), []) == Trace([], []);
  }

  /** Orders the tables of a schema for import and reports circular references. */
  method TopologicalSortTables(schema: Schema) returns (ordered: seq<string>, cycles: seq<Chain>)
    ensures ordered == ImportSequence(DependencyGraph(schema))
    ensures ReportsEveryCycle(DependencyGraph(schema), cycles)
    ensures cycles == ReportedChains(DependencyGraph(schema))
  {
    var deps := BuildDeps(schema);
    ordered := ImportOrder(deps);
    cycles := [];
    var remaining := deps.Keys - Elements(ordered);
    KahnProperties(deps);
    if remaining != {} {
      cycles := FindCycles(deps, remaining);
      var rest := Sorted(remaining);
      ordered := ordered + rest;
    } else {
      NothingListed();
      assert ordered == ordered + [];
      NothingToReport(deps);
    }
    forall w | IsClosedWalk(deps, w) ensures Intercepted(cycles, w) {
      ClosedWalksAreLeftOver(deps, w);
      NoElements(w);
    }
  }

  lemma ClosedWalksAreLeftOver(g: Graph, w: seq<string>)
    requires IsFkGraph(g) && IsClosedWalk(g, w)
    ensures Elements(w) <= g.Keys - Elements(Kahn(g))
  {
    forall x | x in Elements(w) ensures x in g.Keys - Elements(Kahn(g)) {
      var i :| 0 <= i < |w| && w[i] == x;
      CyclesAreLeftOver(g, w, i);
    }
  }

  /** The sequence is a permutation of the tables: a prefix of exactly the
      tables that reach no cycle, each after all it references, then the rest
      in name order. */
  lemma ImportSequenceExact(g: Graph)
    requires IsFkGraph(g)
    ensures NoDuplicates(ImportSequence(g)) && Elements(ImportSequence(g)) == g.Keys
    ensures DependenciesFirst(g, ImportSequence(g)[..|Kahn(g)|])
    ensures forall t :: t in g ==> (t in ImportSequence(g)[..|Kahn(g)|] <==> !ReachesCycle(g, t))
    ensures Ascending(ImportSequence(g)[|Kahn(g)|..])
  {
    KahnProperties(g);
    var prefix, rest := Kahn(g), Listing(g.Keys - Elements(Kahn(g)));
    AscendingNoDuplicates(rest);
    NoDuplicatesConcat(prefix, rest);
    ElementsConcat(prefix, rest);
    assert (prefix + rest)[..|prefix|] == prefix && (prefix + rest)[|prefix|..] == rest;
    forall t | t in g ensures t in prefix <==> !ReachesCycle(g, t) {
      KahnExact(g, t);
    }
  }

  /** All of `c` lies in the strongly connected group of `t`. */
  ghost predicate InGroupOf(g: Graph, c: seq<string>, t: string)
  {
    forall x :: x in c ==> Reaches(g, t, x) && Reaches(g, x, t)
  }

  /** Every table on a circular reference shares a strongly connected group with
      a whole reported chain. */
  lemma EveryGroupReported(g: Graph, chains: seq<Chain>, t: string)
    requires ReportsEveryCycle(g, chains) && OnCycle(g, t)
    ensures exists c :: c in chains && InGroupOf(g, c, t)
  {
    var w :| IsClosedWalk(g, w) && w[0] == t;
    assert Intercepted(chains, w);
    var c, i :| c in chains && 0 <= i < |w| - 1 && w[i] in c && w[i + 1] in c;
    MeetingWalks(g, w, i, c);
  }

  lemma MeetingWalks(g: Graph, w: seq<string>, i: nat, c: seq<string>)
    requires IsClosedWalk(g, w) && IsClosedWalk(g, c) && i < |w| && w[i] in c
    ensures InGroupOf(g, c, w[0])
  {
    var k :| 0 <= k < |c| && c[k] == w[i];
    forall x | x in c ensures Reaches(g, w[0], x) && Reaches(g, x, w[0]) {
      var m :| 0 <= m < |c| && c[m] == x;
      ConnectedThrough(g, w, 0, i, c, k, m);
    }
  }

  /** Closed walks that meet connect all their tables both ways. */
  lemma ConnectedThrough(g: Graph, w: seq<string>, h: nat, i: nat, c: seq<string>, k: nat, m: nat)
    requires IsClosedWalk(g, w) && IsClosedWalk(g, c)
    requires h < |w| && i < |w| && k < |c| && m < |c| && c[k] == w[i]
    ensures Reaches(g, w[h], c[m]) && Reaches(g, c[m], w[h])
  {
    ClosedWalkConnects(g, w, h, i);
    ClosedWalkConnects(g, w, i, h);
    ClosedWalkConnects(g, c, k, m);
    ClosedWalkConnects(g, c, m, k);
    ReachesTransitive(g, w[h], w[i], c[m]);
    ReachesTransitive(g, c[m], w[i], w[h]);
  }

  /** No chain is reported exactly when the references are acyclic, and then
      every table follows all it references. */
  lemma AcyclicExactly(g: Graph, chains: seq<Chain>)
    requires IsFkGraph(g) && ReportsEveryCycle(g, chains)
    ensures chains == [] <==> forall t :: t in g ==> !OnCycle(g, t)
    ensures chains == [] ==> DependenciesFirst(g, ImportSequence(g))
  {
    if chains != [] {
      assert chains[0] in chains;
      assert OnCycle(g, chains[0][0]) && chains[0][0] in g;
    } else {
      assert forall w :: !Intercepted(chains, w);
      assert forall t :: !OnCycle(g, t);
      ImportSequenceExact(g);
      forall t | t in g.Keys ensures t in Kahn(g) {
        KahnExact(g, t);
      }
      assert g.Keys - Elements(Kahn(g)) == {};
      NothingListed();
      assert ImportSequence(g) == ImportSequence(g)[..|Kahn(g)|];
    }
  }

  method BuildDeps(schema: Schema) returns (deps: Graph)
    ensures deps == DependencyGraph(schema)
  {
    deps := map t | t in schema :: {};
    var todo := schema.Keys;
    while todo != {}
      invariant todo <= schema.Keys && deps.Keys == schema.Keys
      invariant forall t :: t in schema ==> deps[t] == if t in todo then {} else References(schema, t)
      decreases todo
    {
      var t :| t in todo;
      var fks := schema[t].foreignKeys;
      var refs := {};
      for i := 0 to |fks|
        invariant refs == set fk | fk in fks[..i] && fk.foreignTable in schema && fk.foreignTable != t
          :: fk.foreignTable
      {
        assert fks[..i + 1] == fks[..i] + [fks[i]];
        var target := fks[i].foreignTable;
        if target in schema && target != t {
          refs := refs + {target};
        }
      }
      assert fks[..|fks|] == fks;
      deps := deps[t := refs];
      todo := todo - {t};
    }
  }

  ghost function Dependents(deps: Graph, t: string): set<string>
  {
    set s | s in deps && t in deps[s]
  }

  /** The dependents recorded once every table outside `todo` is reversed. */
  ghost function ReversedBut(deps: Graph, todo: set<string>): Graph
  {
    map d | d in deps :: Dependents(deps, d) - todo
  }

  ghost function DegreesBut(deps: Graph, todo: set<string>): map<string, int>
  {
    map t | t in deps :: if t in todo then 0 else |deps[t]|
  }

  /** `graph` with `t` recorded as a dependent of each table in `refs`. */
  ghost function WithDependent(graph: Graph, refs: set<string>, t: string): Graph
  {
    map d | d in graph :: if d in refs then graph[d] + {t} else graph[d]
  }

  lemma ReverseStep(deps: Graph, todo: set<string>, t: string)
    requires IsFkGraph(deps) && t in deps && t in todo
    ensures WithDependent(ReversedBut(deps, todo), deps[t], t) == ReversedBut(deps, todo - {t})
  {
    forall d | d in deps
      ensures WithDependent(ReversedBut(deps, todo), deps[t], t)[d] == ReversedBut(deps, todo - {t})[d]
    {
    }
  }

  lemma WithDependentStep(graph: Graph, refs: set<string>, t: string, d: string)
    requires d in graph && d !in refs
    ensures WithDependent(graph, refs + {d}, t)
         == WithDependent(graph, refs, t)[d := WithDependent(graph, refs, t)[d] + {t}]
  {
  }

  lemma DegreesStep(deps: Graph, todo: set<string>, t: string)
    requires t in deps && t in todo
    ensures Raised(DegreesBut(deps, todo), t, |deps[t]|) == DegreesBut(deps, todo - {t})
  {
  }

  ghost function Raised(m: map<string, int>, t: string, n: int): map<string, int>
    requires t in m
  {
    m[t := m[t] + n]
  }

  lemma RaisedStep(m: map<string, int>, t: string, n: int)
    requires t in m
    ensures t in Raised(m, t, n)
    ensures Raised(m, t, n)[t := Raised(m, t, n)[t] + 1] == Raised(m, t, n + 1)
  {
  }

  lemma RaisedZero(m: map<string, int>, t: string)
    requires t in m
    ensures Raised(m, t, 0) == m
  {
  }

  lemma ReverseStart(deps: Graph)
    requires IsFkGraph(deps)
    ensures ReversedBut(deps, deps.Keys) == map t | t in deps :: {}
    ensures DegreesBut(deps, deps.Keys) == map t | t in deps :: 0
  {
    forall t | t in deps ensures ReversedBut(deps, deps.Keys)[t] == {} {
    }
  }

  /** Reverses the dependency edges and counts them per table. */
  method Reverse(deps: Graph) returns (graph: Graph, inDegree: map<string, int>)
    requires IsFkGraph(deps)
    ensures graph == ReversedBut(deps, {}) && inDegree == DegreesBut(deps, {})
  {
    graph := map t | t in deps :: {};
    inDegree := map t | t in deps :: 0;
    ReverseStart(deps);
    var tables := deps.Keys;
    while tables != {}
      invariant tables <= deps.Keys
      invariant graph == ReversedBut(deps, tables)
      invariant inDegree == DegreesBut(deps, tables)
      decreases tables
    {
      var t :| t in tables;
      DegreesStep(deps, tables, t);
      ReverseStep(deps, tables, t);
      graph, inDegree := ReverseTable(deps[t], t, graph, inDegree);
      tables := tables - {t};
    }
  }

  /** Part of a table's references, `counted`, has been reversed. */
  ghost predicate Reversing(graph0: Graph, inDegree0: map<string, int>, t: string, counted: set<string>,
                            graph: Graph, inDegree: map<string, int>)
  {
    t in inDegree0 && graph == WithDependent(graph0, counted, t) && inDegree == Raised(inDegree0, t, |counted|)
  }

  lemma ReversingStep(graph0: Graph, inDegree0: map<string, int>, t: string, counted: set<string>,
                      graph: Graph, inDegree: map<string, int>, d: string)
    requires Reversing(graph0, inDegree0, t, counted, graph, inDegree)
    requires d in graph0 && d !in counted
    ensures d in graph && t in inDegree
    ensures Reversing(graph0, inDegree0, t, counted + {d},
                      graph[d := graph[d] + {t}], inDegree[t := inDegree[t] + 1])
  {
    WithDependentStep(graph0, counted, t, d);
    RaisedStep(inDegree0, t, |counted|);
  }

  method ReverseTable(refs: set<string>, t: string, graph0: Graph, inDegree0: map<string, int>)
    returns (graph: Graph, inDegree: map<string, int>)
    requires refs <= graph0.Keys && t in inDegree0
    ensures graph == WithDependent(graph0, refs, t)
    ensures inDegree == Raised(inDegree0, t, |refs|)
  {
    graph, inDegree := graph0, inDegree0;
    var todo := refs;
    ghost var counted: set<string> := {};
    RaisedZero(inDegree0, t);
    while todo != {}
      invariant todo <= refs && counted == refs - todo
      invariant Reversing(graph0, inDegree0, t, counted, graph, inDegree)
      decreases todo
    {
      var d :| d in todo;
      ReversingStep(graph0, inDegree0, t, counted, graph, inDegree, d);
      graph := graph[d := graph[d] + {t}];
      inDegree := inDegree[t := inDegree[t] + 1];
      todo, counted := todo - {d}, counted + {d};
    }
    assert counted == refs;
  }

  /** How many references of each table are still outside `done`. */
  ghost function Remaining(deps: Graph, done: set<string>): map<string, int>
  {
    map t | t in deps :: |deps[t] - done|
  }

  lemma MinusNone(s: set<string>)
    ensures s - {} == s && (|s| == 0 <==> s == {})
  {
  }

  lemma DegreeAt(deps: Graph, t: string)
    requires t in deps
    ensures t in DegreesBut(deps, {}) && t in Remaining(deps, {})
    ensures DegreesBut(deps, {})[t] == |deps[t]| == Remaining(deps, {})[t]
  {
    MinusNone(deps[t]);
  }

  lemma DegreeTables(deps: Graph)
    ensures DegreesBut(deps, {}).Keys == deps.Keys == Remaining(deps, {}).Keys
  {
  }

  lemma DegreesAreRemaining(deps: Graph)
    ensures DegreesBut(deps, {}) == Remaining(deps, {})
  {
    var degrees, remaining := DegreesBut(deps, {}), Remaining(deps, {});
    DegreeTables(deps);
    hide DegreesBut, Remaining;
    forall t | t in deps ensures degrees[t] == remaining[t] {
      DegreeAt(deps, t);
    }
  }

  lemma RootsAreReady(deps: Graph)
    ensures (set t | t in deps && DegreesBut(deps, {})[t] == 0) == Ready(deps, {})
  {
    forall t | t in deps ensures DegreesBut(deps, {})[t] == 0 <==> deps[t] <= {} {
      MinusNone(deps[t]);
    }
  }

  /** Every count in `released` one lower. */
  ghost function Lowered(counts: map<string, int>, released: set<string>): map<string, int>
  {
    map t | t in counts :: if t in released then counts[t] - 1 else counts[t]
  }

  ghost function Freed(counts: map<string, int>, released: set<string>): set<string>
  {
    set t | t in counts && t in released && counts[t] == 1
  }

  /** Counting a newly imported table off its dependents keeps the counts right
      and frees exactly the tables it was the last to block. */
  lemma ReleaseExact(deps: Graph, done: set<string>, t: string)
    requires t !in done
    ensures Lowered(Remaining(deps, done), Dependents(deps, t)) == Remaining(deps, done + {t})
    ensures Freed(Remaining(deps, done), Dependents(deps, t)) == Unblocked(deps, done, t)
  {
    forall s | s in deps
      ensures Lowered(Remaining(deps, done), Dependents(deps, t))[s] == Remaining(deps, done + {t})[s]
    {
      CountOff(deps[s], done, t);
    }
    ReleaseFrees(deps, done, t);
  }

  lemma ReleaseFrees(deps: Graph, done: set<string>, t: string)
    requires t !in done
    ensures Freed(Remaining(deps, done), Dependents(deps, t)) == Unblocked(deps, done, t)
  {
    forall s | s in Dependents(deps, t)
      ensures s in Freed(Remaining(deps, done), Dependents(deps, t)) <==> s in Unblocked(deps, done, t)
    {
      CountOff(deps[s], done, t);
    }
  }

  lemma CountOff(refs: set<string>, done: set<string>, t: string)
    requires t !in done
    ensures |refs - (done + {t})| == |refs - done| - (if t in refs then 1 else 0)
    ensures |refs - (done + {t})| == 0 <==> refs <= done + {t}
  {
    if t in refs {
      assert refs - done == (refs - (done + {t})) + {t};
    } else {
      assert refs - done == refs - (done + {t});
    }
    assert refs - (done + {t}) == {} <==> refs <= done + {t};
  }

  /** The in-degree loop computes the breadth-first importing order. */
  method ImportOrder(deps: Graph) returns (ordered: seq<string>)
    requires IsFkGraph(deps)
    ensures ordered == Kahn(deps)
  {
    var graph, inDegree := Reverse(deps);
    DegreesAreRemaining(deps);
    RootsAreReady(deps);
    var queue := Sorted(set t | t in deps && inDegree[t] == 0);
    ordered := [];
    ghost var n := 0;
    StepStart(deps);
    assert Elements(ordered) == {};
    while queue != []
      invariant AtStep(deps, n, ordered, queue)
      invariant inDegree == Remaining(deps, Elements(ordered))
      invariant n <= |deps|
      decreases |deps| - n
    {
      var node := queue[0];
      StepNext(deps, n, ordered, queue);
      ReleaseExact(deps, Elements(ordered), node);
      MinusNone(Dependents(deps, node));
      inDegree, queue := ReleaseDependents(graph[node], inDegree, queue[1..]);
      ordered, n := ordered + [node], n + 1;
    }
    StepLast(deps, n, ordered);
  }

  /** Counts a table off its dependents, queueing those it was the last to block. */
  method ReleaseDependents(dependents: set<string>, inDegree0: map<string, int>, queue0: seq<string>)
    returns (inDegree: map<string, int>, queue: seq<string>)
    requires dependents <= inDegree0.Keys
    ensures inDegree == Lowered(inDegree0, dependents)
    ensures queue == queue0 + Listing(Freed(inDegree0, dependents))
  {
    inDegree, queue := inDegree0, queue0;
    var successors := Sorted(dependents);
    ghost var seen: set<string> := {};
    AscendingNoDuplicates(successors);
    NothingListed();
    assert Freed(inDegree0, {}) == {};
    for i := 0 to |successors|
      invariant seen == Elements(successors[..i])
      invariant inDegree == Lowered(inDegree0, seen)
      invariant queue == queue0 + Listing(Freed(inDegree0, seen))
    {
      var s := successors[i];
      assert s in Elements(successors);
      TakeNext(successors, i);
      AscendingTake(successors, i);
      LoweredStep(inDegree0, seen, s);
      inDegree := inDegree[s := inDegree[s] - 1];
      if inDegree[s] == 0 {
        queue := queue + [s];
      }
      seen := seen + {s};
    }
    assert successors[..|successors|] == successors;
  }

  lemma LoweredStep(counts: map<string, int>, seen: set<string>, s: string)
    requires s in counts && s !in seen
    requires forall x :: x in seen ==> Before(x, s)
    ensures Lowered(counts, seen)[s] == counts[s]
    ensures Lowered(counts, seen)[s := counts[s] - 1] == Lowered(counts, seen + {s})
    ensures Listing(Freed(counts, seen + {s}))
         == Listing(Freed(counts, seen)) + (if counts[s] == 1 then [s] else [])
  {
    if counts[s] == 1 {
      assert Freed(counts, seen + {s}) == Freed(counts, seen) + {s};
      ListingAppend(Freed(counts, seen), s);
    } else {
      assert Freed(counts, seen + {s}) == Freed(counts, seen);
    }
  }
}
