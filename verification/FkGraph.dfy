/**
 The foreign-key dependency graph of a schema: walks, cycles, and the order in
 which tables become importable.
 */
module FkGraph {
  import opened Names

  /** Table name -> the other tables its foreign keys reference. */
  type Graph = map<string, set<string>>

  ghost predicate IsFkGraph(g: Graph)
  {
    forall t :: t in g ==> g[t] <= g.Keys && t !in g[t]
  }

  /** `w` follows foreign keys from table to table. */
  ghost predicate IsWalk(g: Graph, w: seq<string>)
  {
    && w != []
    && (forall i :: 0 <= i < |w| ==> w[i] in g)
    && (forall i :: 0 <= i < |w| - 1 ==> w[i + 1] in g[w[i]])
  }

  ghost predicate IsClosedWalk(g: Graph, w: seq<string>)
  {
    IsWalk(g, w) && |w| >= 2 && w[0] == w[|w| - 1]
  }

  /** What a reported dependency chain must be: a simple cycle of at least two
      tables, with its first table repeated at the end. */
  ghost predicate IsSimpleCycle(g: Graph, c: seq<string>)
  {
    IsClosedWalk(g, c) && |c| >= 3 && NoDuplicates(c[..|c| - 1])
  }

  ghost predicate Reaches(g: Graph, a: string, b: string)
  {
    exists w :: IsWalk(g, w) && w[0] == a && w[|w| - 1] == b
  }

  ghost predicate OnCycle(g: Graph, t: string)
  {
    exists w :: IsClosedWalk(g, w) && w[0] == t
  }

  ghost predicate ReachesCycle(g: Graph, t: string)
  {
    exists c :: Reaches(g, t, c) && OnCycle(g, c)
  }

  lemma WalkSlice(g: Graph, w: seq<string>, i: nat, j: nat)
    requires IsWalk(g, w) && i < j <= |w|
    ensures IsWalk(g, w[i..j])
  {
  }

  lemma WalkJoin(g: Graph, v: seq<string>, w: seq<string>)
    requires IsWalk(g, v) && IsWalk(g, w) && w[0] in g[v[|v| - 1]]
    ensures IsWalk(g, v + w)
  {
  }

  /** From a table on a closed walk to its end, and from its start to another. */
  lemma GoesAround(g: Graph, w: seq<string>, i: nat, j: nat)
    requires IsClosedWalk(g, w) && i < |w| - 1 && j < |w|
    ensures Reaches(g, w[i], w[j])
  {
    var first, second := w[i..|w| - 1], w[0..j + 1];
    WalkSlice(g, w, i, |w| - 1);
    WalkSlice(g, w, 0, j + 1);
    assert w[|w| - 1] in g[w[|w| - 2]];
    assert first[|first| - 1] == w[|w| - 2] && second[0] == w[0] && first[0] == w[i] && second[|second| - 1] == w[j];
    hide IsWalk;
    WalkJoin(g, first, second);
    var around := first + second;
    assert around[0] == w[i] && around[|around| - 1] == w[j];
  }

  /** Every table on a closed walk reaches, and is reached by, every other. */
  lemma ClosedWalkConnects(g: Graph, w: seq<string>, i: nat, j: nat)
    requires IsClosedWalk(g, w) && i < |w| && j < |w|
    ensures Reaches(g, w[i], w[j])
  {
    if i <= j {
      WalkSlice(g, w, i, j + 1);
      assert w[i..j + 1][0] == w[i] && w[i..j + 1][j - i] == w[j];
    } else if i == |w| - 1 {
      WalkSlice(g, w, 0, j + 1);
      assert w[..j + 1][0] == w[i] && w[..j + 1][j] == w[j];
    } else {
      GoesAround(g, w, i, j);
    }
  }

  lemma ReachesTransitive(g: Graph, a: string, b: string, c: string)
    requires Reaches(g, a, b) && Reaches(g, b, c)
    ensures Reaches(g, a, c)
  {
    var v :| IsWalk(g, v) && v[0] == a && v[|v| - 1] == b;
    var w :| IsWalk(g, w) && w[0] == b && w[|w| - 1] == c;
    if |w| > 1 {
      WalkSlice(g, w, 1, |w|);
      WalkJoin(g, v, w[1..]);
      var vw := v + w[1..];
      assert vw[0] == a && vw[|vw| - 1] == c;
    }
  }

  // ----- the importable prefix

  /** Tables whose references are all in `done`. */
  ghost function Ready(g: Graph, done: set<string>): set<string>
  {
    set t | t in g && g[t] <= done
  }

  /** `done` lists importable tables, each after all it references; `queue`
      holds exactly the others that are importable next. */
  ghost predicate KahnState(g: Graph, done: seq<string>, queue: seq<string>)
  {
    && IsFkGraph(g)
    && NoDuplicates(done + queue)
    && Elements(done + queue) == Ready(g, Elements(done))
    && DependenciesFirst(g, done)
  }

  ghost predicate DependenciesFirst(g: Graph, done: seq<string>)
  {
    forall i :: 0 <= i < |done| ==> done[i] in g && g[done[i]] <= Elements(done[..i])
  }

  /** The tables that become importable once `t` joins the set `done`. */
  ghost function Unblocked(g: Graph, done: set<string>, t: string): set<string>
  {
    set s | s in g && t in g[s] && g[s] <= done + {t}
  }

  lemma ReadyGrows(g: Graph, done: set<string>, t: string)
    requires t !in done
    ensures Ready(g, done + {t}) == Ready(g, done) + Unblocked(g, done, t)
    ensures Ready(g, done) !! Unblocked(g, done, t)
  {
    forall s | s in Ready(g, done + {t}) ensures s in Ready(g, done) + Unblocked(g, done, t) {
      if t !in g[s] {
        assert g[s] <= done;
      }
    }
  }

  lemma KahnHead(g: Graph, done: seq<string>, queue: seq<string>)
    requires KahnState(g, done, queue) && queue != []
    ensures queue[0] in g && queue[0] !in Elements(done) && g[queue[0]] <= Elements(done)
    ensures Elements(done + [queue[0]]) == Elements(done) + {queue[0]}
    ensures g.Keys - Elements(done + [queue[0]]) < g.Keys - Elements(done)
  {
    var t := queue[0];
    assert (done + queue)[|done|] == t;
    assert t in Elements(done + queue);
    forall i | 0 <= i < |done| ensures done[i] != t {
      assert (done + queue)[i] == done[i];
    }
    ElementsConcat(done, [t]);
    assert t in g.Keys - Elements(done);
  }

  lemma KahnStep(g: Graph, done: seq<string>, queue: seq<string>)
    requires KahnState(g, done, queue) && queue != []
    ensures KahnState(g, done + [queue[0]], queue[1..] + Listing(Unblocked(g, Elements(done), queue[0])))
  {
    var t := queue[0];
    var unblocked := Listing(Unblocked(g, Elements(done), t));
    var done', queue' := done + [t], queue[1..] + unblocked;
    KahnHead(g, done, queue);
    assert done' + queue' == (done + queue) + unblocked;
    ReadyGrows(g, Elements(done), t);
    ElementsConcat(done + queue, unblocked);
    AscendingNoDuplicates(unblocked);
    NoDuplicatesConcat(done + queue, unblocked);
    DependenciesFirstAppend(g, done, t);
  }

  lemma DependenciesFirstAppend(g: Graph, done: seq<string>, t: string)
    requires DependenciesFirst(g, done) && t in g && g[t] <= Elements(done)
    ensures DependenciesFirst(g, done + [t])
  {
    var done' := done + [t];
    forall i | 0 <= i < |done'| ensures done'[i] in g && g[done'[i]] <= Elements(done'[..i]) {
      if i < |done| {
        assert done'[..i] == done[..i];
      } else {
        assert done'[..i] == done;
      }
    }
  }

  lemma NoDuplicatesConcat<T>(a: seq<T>, b: seq<T>)
    requires NoDuplicates(a) && NoDuplicates(b) && Elements(a) !! Elements(b)
    ensures NoDuplicates(a + b)
  {
    forall i, j | 0 <= i < j < |a + b| ensures (a + b)[i] != (a + b)[j] {
      if i < |a| && j >= |a| {
        assert a[i] in Elements(a) && b[j - |a|] in Elements(b);
      }
    }
  }

  datatype Progress = Progress(done: seq<string>, queue: seq<string>)

  /** Breadth-first importing after `n` steps: each takes the oldest importable
      table, then queues the tables it unblocks in name order. */
  ghost function KahnAt(g: Graph, n: nat): Progress
  {
    if n == 0 then Progress([], Listing(Ready(g, {})))
    else
      var p := KahnAt(g, n - 1);
      if p.queue == [] then p
      else Progress(p.done + [p.queue[0]],
                    p.queue[1..] + Listing(Unblocked(g, Elements(p.done), p.queue[0])))
  }

  /** The importable tables in the order the steps take them. */
  ghost function Kahn(g: Graph): seq<string>
  {
    KahnAt(g, |g|).done
  }

  lemma {:induction false} KahnAtState(g: Graph, n: nat)
    requires IsFkGraph(g)
    ensures KahnState(g, KahnAt(g, n).done, KahnAt(g, n).queue)
  {
    if n == 0 {
      AscendingNoDuplicates(Listing(Ready(g, {})));
      assert [] + Listing(Ready(g, {})) == Listing(Ready(g, {}));
      var none: seq<string> := [];
      assert Elements(none) == {};
    } else {
      KahnAtState(g, n - 1);
      var p := KahnAt(g, n - 1);
      if p.queue != [] {
        KahnStep(g, p.done, p.queue);
      }
    }
  }

  lemma KahnStateBound(g: Graph, done: seq<string>, queue: seq<string>)
    requires KahnState(g, done, queue)
    ensures |done| + |queue| <= |g|
  {
    NoDuplicatesBound(done + queue, g.Keys);
  }

  lemma {:induction false} KahnAtLength(g: Graph, n: nat)
    requires IsFkGraph(g)
    ensures KahnAt(g, n).queue != [] ==> |KahnAt(g, n).done| == n < |g|
  {
    if n > 0 {
      KahnAtLength(g, n - 1);
    }
    KahnAtState(g, n);
    KahnStateBound(g, KahnAt(g, n).done, KahnAt(g, n).queue);
  }

  lemma {:induction false} NoDuplicatesBound<T>(q: seq<T>, s: set<T>)
    requires NoDuplicates(q) && Elements(q) <= s
    ensures |q| <= |s|
  {
    if q != [] {
      assert q[0] in Elements(q);
      forall x | x in q[1..] ensures x in s - {q[0]} {
        assert x in Elements(q);
      }
      NoDuplicatesBound(q[1..], s - {q[0]});
    }
  }

  /** Once the queue is empty, further steps change nothing. */
  lemma {:induction false} KahnAtStable(g: Graph, m: nat, n: nat)
    requires KahnAt(g, m).queue == [] && m <= n
    ensures KahnAt(g, n) == KahnAt(g, m)
  {
    if m < n {
      KahnAtStable(g, m, n - 1);
    }
  }

  /** The importing loop is after `n` steps. */
  ghost predicate AtStep(g: Graph, n: nat, done: seq<string>, queue: seq<string>)
  {
    KahnAt(g, n) == Progress(done, queue)
  }

  lemma StepStart(g: Graph)
    requires IsFkGraph(g)
    ensures AtStep(g, 0, [], Listing(Ready(g, {})))
  {
  }

  lemma StepNext(g: Graph, n: nat, done: seq<string>, queue: seq<string>)
    requires IsFkGraph(g) && AtStep(g, n, done, queue) && queue != []
    ensures n < |g| && queue[0] in g && queue[0] !in Elements(done)
    ensures AtStep(g, n + 1, done + [queue[0]], queue[1..] + Listing(Unblocked(g, Elements(done), queue[0])))
    ensures Elements(done + [queue[0]]) == Elements(done) + {queue[0]}
  {
    KahnAtLength(g, n);
    KahnAtState(g, n);
    KahnHead(g, done, queue);
  }

  lemma StepLast(g: Graph, n: nat, done: seq<string>)
    requires IsFkGraph(g) && AtStep(g, n, done, [])
    ensures done == Kahn(g)
  {
    if n <= |g| {
      KahnAtStable(g, n, |g|);
    } else {
      KahnAtLength(g, |g|);
      KahnAtStable(g, |g|, n);
    }
  }

  /** The importing order has no duplicates, puts references first, and stops
      only when every table left references another table left. */
  lemma KahnProperties(g: Graph)
    requires IsFkGraph(g)
    ensures NoDuplicates(Kahn(g)) && DependenciesFirst(g, Kahn(g))
    ensures Ready(g, Elements(Kahn(g))) == Elements(Kahn(g))
    ensures Elements(Kahn(g)) <= g.Keys
  {
    KahnAtState(g, |g|);
    KahnAtLength(g, |g|);
    assert KahnAt(g, |g|).queue == [];
    assert Kahn(g) + [] == Kahn(g);
  }

  /** A walk that starts at position `k` of a references-first order stays before it. */
  lemma {:induction false} WalkGoesBack(g: Graph, order: seq<string>, w: seq<string>, k: nat)
    requires DependenciesFirst(g, order) && NoDuplicates(order)
    requires IsWalk(g, w) && k < |order| && w[0] == order[k]
    ensures forall i :: 0 < i < |w| ==> w[i] in order[..k]
    decreases |w|
  {
    if |w| > 1 {
      assert w[1] in g[w[0]];
      assert w[1] in Elements(order[..k]);
      var m :| 0 <= m < k && order[m] == w[1];
      WalkSlice(g, w, 1, |w|);
      WalkGoesBack(g, order, w[1..], m);
      forall i | 0 < i < |w| ensures w[i] in order[..k] {
        if i == 1 {
          assert order[..k][m] == w[1];
        } else {
          assert w[1..][i - 1] == w[i] && w[i] in order[..m];
          var x :| 0 <= x < m && order[..m][x] == w[i];
          assert order[..k][x] == w[i];
        }
      }
    }
  }

  /** A walk whose last table refers back to one on it leads into a cycle. */
  lemma ClosesCycle(g: Graph, p: seq<string>, d: string)
    requires IsWalk(g, p) && IsWalk(g, p + [d]) && d in p
    ensures ReachesCycle(g, p[0])
  {
    var k :| 0 <= k < |p| && p[k] == d;
    var loop, lead := (p + [d])[k..|p| + 1], p[..k + 1];
    WalkSlice(g, p + [d], k, |p| + 1);
    WalkSlice(g, p, 0, k + 1);
    assert loop[0] == d && loop[|loop| - 1] == d && lead[0] == p[0] && lead[k] == d;
    assert p[0..k + 1] == lead;
    hide IsWalk;
    assert IsClosedWalk(g, loop);
    assert Reaches(g, p[0], d) && OnCycle(g, d);
  }

  /** A table left over starts a walk, among the tables left over, into a cycle. */
  lemma {:induction false} LeftoverReachesCycle(g: Graph, left: set<string>, p: seq<string>)
    requires IsFkGraph(g) && left <= g.Keys
    requires forall t :: t in left ==> g[t] * left != {}
    requires IsWalk(g, p) && Elements(p) <= left && NoDuplicates(p)
    ensures ReachesCycle(g, p[0])
    decreases left - Elements(p)
  {
    var last := p[|p| - 1];
    assert last in Elements(p);
    var d :| d in g[last] * left;
    assert IsWalk(g, [d]);
    WalkJoin(g, p, [d]);
    if d in p {
      ClosesCycle(g, p, d);
    } else {
      ElementsConcat(p, [d]);
      assert d in left - Elements(p);
      LeftoverReachesCycle(g, left, p + [d]);
      assert (p + [d])[0] == p[0];
    }
  }

  lemma PrefixIsCycleFree(g: Graph, order: seq<string>, t: string)
    requires DependenciesFirst(g, order) && NoDuplicates(order) && t in order
    ensures !ReachesCycle(g, t)
  {
    if ReachesCycle(g, t) {
      var c :| Reaches(g, t, c) && OnCycle(g, c);
      var v :| IsWalk(g, v) && v[0] == t && v[|v| - 1] == c;
      var w :| IsClosedWalk(g, w) && w[0] == c;
      var k :| 0 <= k < |order| && order[k] == t;
      WalkGoesBack(g, order, v, k);
      assert c == t || c in order[..k];
      var m :| 0 <= m < |order| && order[m] == c;
      WalkGoesBack(g, order, w, m);
      assert false;
    }
  }

  lemma LeftoverIsCyclic(g: Graph, order: seq<string>, t: string)
    requires IsFkGraph(g) && Ready(g, Elements(order)) == Elements(order) && Elements(order) <= g.Keys
    requires t in g && t !in order
    ensures ReachesCycle(g, t)
  {
    var left := g.Keys - Elements(order);
    forall x | x in left ensures g[x] * left != {} {
      assert x !in Ready(g, Elements(order));
      var d :| d in g[x] && d !in Elements(order);
      assert d in g[x] * left;
    }
    assert IsWalk(g, [t]);
    LeftoverReachesCycle(g, left, [t]);
    assert [t][0] == t;
  }

  /** A table is importable in order exactly when no foreign-key path from it
      reaches a cycle. */
  lemma KahnExact(g: Graph, t: string)
    requires IsFkGraph(g) && t in g
    ensures t in Kahn(g) <==> !ReachesCycle(g, t)
  {
    KahnProperties(g);
    if t in Kahn(g) {
      PrefixIsCycleFree(g, Kahn(g), t);
    } else {
      LeftoverIsCyclic(g, Kahn(g), t);
    }
  }

  /** A closed walk never touches the importable tables. */
  lemma CyclesAreLeftOver(g: Graph, w: seq<string>, i: nat)
    requires IsFkGraph(g) && IsClosedWalk(g, w) && i < |w|
    ensures w[i] !in Kahn(g)
  {
    ClosedWalkConnects(g, w, i, 0);
    assert OnCycle(g, w[0]);
    KahnExact(g, w[i]);
  }
}
