/**
 The import order, table by table: which of two importable tables comes first
 (src/r2g/topo_sort.py:36-44), and that this leaves one order only.
 */
module FreedOrder {
  import opened Names
  import opened FkGraph

  /** The first `n` tables of the order are what `t` waits for: all it references and no fewer will do. */
  ghost predicate FreedAt(g: Graph, order: seq<string>, t: string, n: nat)
  {
    && t in g && n <= |order| && g[t] <= Elements(order[..n])
    && forall m :: 0 <= m < n ==> !(g[t] <= Elements(order[..m]))
  }

  /** Of two tables of `all` the one freed earlier comes first, and of those freed together the
      one whose name sorts first. */
  ghost predicate InFreedOrder(g: Graph, done: seq<string>, all: seq<string>)
  {
    forall i, j, m, n :: 0 <= i < j < |all| && FreedAt(g, done, all[i], m) && FreedAt(g, done, all[j], n) ==>
      m < n || (m == n && Before(all[i], all[j]))
  }

  lemma FreedByNow(g: Graph, done: seq<string>, t: string, x: string, n: nat)
    requires x in g && g[x] <= Elements(done)
    ensures FreedAt(g, done + [t], x, n) <==> FreedAt(g, done, x, n)
    ensures FreedAt(g, done, x, n) ==> n <= |done|
  {
    var more := done + [t];
    assert more[..|done|] == done && done[..|done|] == done;
    forall m | 0 <= m <= |done| ensures more[..m] == done[..m] {
    }
  }

  lemma FreedNow(g: Graph, done: seq<string>, t: string, x: string, n: nat)
    requires t !in Elements(done) && x in Unblocked(g, Elements(done), t) && FreedAt(g, done + [t], x, n)
    ensures n == |done| + 1
  {
    var more := done + [t];
    forall m | 0 <= m <= |done| ensures !(g[x] <= Elements(more[..m])) {
      assert more[..m] == done[..m];
      forall k | 0 <= k < m ensures done[..m][k] != t {
        assert done[k] in Elements(done);
      }
    }
    assert more[..|more|] == more;
  }

  lemma FreedStep(g: Graph, done: seq<string>, queue: seq<string>)
    requires KahnState(g, done, queue) && queue != [] && InFreedOrder(g, done, done + queue)
    ensures var unblocked := Listing(Unblocked(g, Elements(done), queue[0]));
      InFreedOrder(g, done + [queue[0]], done + queue + unblocked)
  {
    var t, all := queue[0], done + queue;
    var unblocked := Listing(Unblocked(g, Elements(done), t));
    KahnHead(g, done, queue);
    var next, more := done + [t], all + unblocked;
    forall k: nat, m: nat | k < |more| && FreedAt(g, next, more[k], m)
      ensures if k < |all| then m <= |done| && FreedAt(g, done, all[k], m) else m == |done| + 1
    {
      FreedWhere(g, done, t, all, unblocked, k, m);
    }
    hide FreedAt, KahnState, Unblocked;
    forall i: nat, j: nat, m: nat, n: nat
      | i < j < |more| && FreedAt(g, next, more[i], m) && FreedAt(g, next, more[j], n)
      ensures m < n || (m == n && Before(more[i], more[j]))
    {
      if i >= |all| {
        assert Before(unblocked[i - |all|], unblocked[j - |all|]);
      }
    }
  }

  /** What was ready is freed when it was, and what joins is freed now. */
  lemma FreedWhere(g: Graph, done: seq<string>, t: string, all: seq<string>, unblocked: seq<string>, k: nat, m: nat)
    requires t !in Elements(done) && Elements(all) == Ready(g, Elements(done))
    requires Elements(unblocked) == Unblocked(g, Elements(done), t)
    requires k < |all + unblocked| && FreedAt(g, done + [t], (all + unblocked)[k], m)
    ensures if k < |all| then m <= |done| && FreedAt(g, done, all[k], m) else m == |done| + 1
  {
    hide FreedAt;
    if k < |all| {
      assert all[k] in Elements(all);
      FreedByNow(g, done, t, all[k], m);
    } else {
      assert unblocked[k - |all|] in Elements(unblocked);
      FreedNow(g, done, t, unblocked[k - |all|], m);
    }
  }

  lemma {:induction false} FreedAtStep(g: Graph, n: nat)
    requires IsFkGraph(g)
    ensures var p := KahnAt(g, n); InFreedOrder(g, p.done, p.done + p.queue)
  {
    hide InFreedOrder, KahnState, Unblocked;
    if n == 0 {
      FreedAtFirst(g, Listing(Ready(g, {})));
    } else {
      FreedAtStep(g, n - 1);
      var p := KahnAt(g, n - 1);
      if p.queue != [] {
        KahnAtState(g, n - 1);
        FreedStep(g, p.done, p.queue);
        Requeued(p.done, p.queue, Listing(Unblocked(g, Elements(p.done), p.queue[0])));
      }
    }
  }

  lemma FreedAtFirst(g: Graph, first: seq<string>)
    requires Ascending(first)
    ensures InFreedOrder(g, [], [] + first)
  {
    assert [] + first == first;
    forall x: string, n: nat ensures FreedAt(g, [], x, n) ==> n == 0 {
      FreedAtOnce(g, x, n);
    }
    hide FreedAt;
  }

  lemma FreedAtOnce(g: Graph, x: string, n: nat)
    ensures FreedAt(g, [], x, n) ==> n == 0
  {
  }

  lemma Requeued(done: seq<string>, queue: seq<string>, more: seq<string>)
    requires queue != []
    ensures done + [queue[0]] + (queue[1..] + more) == done + queue + more
  {
  }

  /** An order of these tables, each after all it references, by the time they are freed. */
  ghost predicate IsFreedOrder(g: Graph, order: seq<string>, tables: set<string>)
  {
    && Elements(order) == tables && NoDuplicates(order)
    && DependenciesFirst(g, order) && InFreedOrder(g, order, order)
  }

  /** The import order of the importable tables is the only one of that kind. */
  lemma KahnIsFreedOrder(g: Graph, order: seq<string>)
    requires IsFkGraph(g)
    ensures IsFreedOrder(g, order, set t | t in g && !ReachesCycle(g, t)) <==> order == Kahn(g)
  {
    var tables := set t | t in g && !ReachesCycle(g, t);
    KahnProperties(g);
    KahnAtLength(g, |g|);
    FreedAtStep(g, |g|);
    assert Kahn(g) + [] == Kahn(g);
    forall t ensures t in Elements(Kahn(g)) <==> t in tables {
      if t in g { KahnExact(g, t); }
    }
    assert IsFreedOrder(g, Kahn(g), tables);
    if IsFreedOrder(g, order, tables) {
      FreedOrderUnique(g, order, Kahn(g), tables);
    }
  }

  lemma FreedOrderUnique(g: Graph, p: seq<string>, q: seq<string>, tables: set<string>)
    requires IsFreedOrder(g, p, tables) && IsFreedOrder(g, q, tables)
    ensures p == q
  {
    SameLength(p, q);
    SamePrefix(g, p, q, tables, |p|);
    assert p[..|p|] == p && q[..|p|] == q;
  }

  lemma SameLength(p: seq<string>, q: seq<string>)
    requires NoDuplicates(p) && NoDuplicates(q) && Elements(p) == Elements(q)
    ensures |p| == |q|
  {
    NoDuplicatesCount(p);
    NoDuplicatesCount(q);
  }

  lemma {:induction false} NoDuplicatesCount(p: seq<string>)
    requires NoDuplicates(p)
    ensures |Elements(p)| == |p|
  {
    if p != [] {
      var n := |p| - 1;
      NoDuplicatesCount(p[..n]);
      TakeNext(p, n);
      assert p[..n + 1] == p;
      assert p[n] !in Elements(p[..n]);
    }
  }

  lemma {:induction false} SamePrefix(g: Graph, p: seq<string>, q: seq<string>, tables: set<string>, k: nat)
    requires IsFreedOrder(g, p, tables) && IsFreedOrder(g, q, tables) && |p| == |q| && k <= |p|
    ensures p[..k] == q[..k]
  {
    if k > 0 {
      var n := k - 1;
      SamePrefix(g, p, q, tables, n);
      NextSame(g, p, q, tables, n);
      assert p[..k] == p[..n] + [p[n]] && q[..k] == q[..n] + [q[n]];
    }
  }

  /** Up to a common prefix the next table is the same. */
  lemma NextSame(g: Graph, p: seq<string>, q: seq<string>, tables: set<string>, n: nat)
    requires IsFreedOrder(g, p, tables) && IsFreedOrder(g, q, tables) && |p| == |q| && n < |p| && p[..n] == q[..n]
    ensures p[n] == q[n]
  {
    if p[n] != q[n] {
      var i := StandsLater(p, q, n, tables);
      var j := StandsLater(q, p, n, tables);
      var a := Freed(g, p, p[n], n);
      var b := Freed(g, q, q[n], n);
      FreedAlike(g, p, q, p[n], n, a);
      FreedAlike(g, q, p, q[n], n, b);
      BeforeTransitive(p[n], q[n], p[n]);
      BeforeIrreflexive(p[n]);
    }
  }

  /** A table that differs from the next of the other order stands later there. */
  lemma StandsLater(p: seq<string>, q: seq<string>, n: nat, tables: set<string>) returns (i: nat)
    requires Elements(p) == tables == Elements(q) && NoDuplicates(p) && NoDuplicates(q)
    requires n < |p| == |q| && p[..n] == q[..n] && p[n] != q[n]
    ensures n < i < |q| && q[i] == p[n]
  {
    assert p[n] in Elements(q);
    forall k | 0 <= k < n ensures q[k] != p[n] {
      assert q[k] == q[..n][k] == p[..n][k] == p[k];
    }
    i :| 0 <= i < |q| && q[i] == p[n];
  }

  /** What is read next of an order was freed by the tables before. */
  lemma Freed(g: Graph, p: seq<string>, t: string, n: nat) returns (m: nat)
    requires n < |p| && p[n] == t && DependenciesFirst(g, p)
    ensures m <= n && FreedAt(g, p, t, m)
  {
    m := n;
    while exists k :: 0 <= k < m && g[t] <= Elements(p[..k])
      invariant m <= n && g[t] <= Elements(p[..m])
      decreases m
    {
      var k :| 0 <= k < m && g[t] <= Elements(p[..k]);
      m := k;
    }
  }

  lemma FreedAlike(g: Graph, p: seq<string>, q: seq<string>, t: string, n: nat, m: nat)
    requires n < |p| == |q| && p[..n] == q[..n] && m <= n && FreedAt(g, p, t, m)
    ensures FreedAt(g, q, t, m)
  {
    forall k | 0 <= k <= m ensures p[..k] == q[..k] {
      assert p[..k] == p[..n][..k] && q[..k] == q[..n][..k];
    }
  }
}
