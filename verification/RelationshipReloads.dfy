/**
 What a changed mapping's plan holds and in which order, told from the two
 mappings alone (src/r2g/mapping_diff.py), and what executing it with a source
 connected does to the ends of the relationships (src/r2g/selective_reload.py).
 */
module RelationshipReloads {
  import opened MappingReload

  /** The table has a collection in both mappings, under different names. */
  predicate Retargeted(before: Mapping, after: Mapping, table: string)
  {
    && table in before.keys && table in before.tables && table in after.tables
    && before.tables[table].target != after.tables[table].target
  }

  /** A relationship of this name, in either mapping, has the table at one of its ends. */
  ghost predicate Joins(before: Mapping, after: Mapping, name: string, table: string)
  {
    exists e :: (e in before.edges || e in after.edges) && e.name == name && (e.from == table || e.to == table)
  }

  // ----- what is planned

  lemma {:induction false} AffectedExactly(edges: seq<Edge>, table: string, x: Action)
    ensures x in Affected(edges, table) <==>
      exists e :: e in edges && (e.from == table || e.to == table) && x == ReloadEdge(e.name)
  {
    if edges != [] {
      var n := |edges| - 1;
      AffectedExactly(edges[..n], table, x);
      assert edges == edges[..n] + [edges[n]];
    }
  }

  lemma CollectionActionsExactly(before: Mapping, after: Mapping, table: string, x: Action)
    requires table in before.keys
    ensures x in CollectionActions(before, after, table) <==>
      && Retargeted(before, after, table)
      && (|| x == RenameCollection(before.tables[table].target, after.tables[table].target)
          || (x.ReloadEdge? && Joins(before, after, x.name, table)))
  {
    AffectedExactly(before.edges, table, x);
    AffectedExactly(after.edges, table, x);
    hide Affected;
    if x.ReloadEdge? && Joins(before, after, x.name, table) {
      var e :| (e in before.edges || e in after.edges) && e.name == x.name && (e.from == table || e.to == table);
      assert x == ReloadEdge(e.name);
    }
  }

  lemma {:induction false} SomeTablesAction(before: Mapping, after: Mapping, keys: seq<string>, x: Action)
    ensures x in AllCollectionActions(before, after, keys) <==>
      exists t :: t in keys && x in CollectionActions(before, after, t)
  {
    hide CollectionActions;
    if keys != [] {
      var n := |keys| - 1;
      SomeTablesAction(before, after, keys[..n], x);
      assert keys == keys[..n] + [keys[n]];
    }
  }

  /** Attribute updates are all the second part of a plan holds. */
  lemma FieldActionsExactly(before: Mapping, after: Mapping, x: Action)
    ensures x in AllFieldActions(before, after, before.keys) <==>
      exists t, c :: t in before.keys && UpdatesColumn(before, after, t, c, x)
  {
    AllFieldActionsExact(before, after, before.keys, x);
    hide AllFieldActions, FieldActions;
    if x in AllFieldActions(before, after, before.keys) {
      var t :| t in before.keys && x in TableFieldActions(before, after, t);
      var a, b := before.tables[t], after.tables[t];
      FieldActionsExact(a, b, a.fields.columns + b.fields.columns, x);
      var c :| c in a.fields.columns + b.fields.columns && x in FieldAction(a, b, c);
      assert UpdatesColumn(before, after, t, c, x);
    }
    if t, c :| t in before.keys && UpdatesColumn(before, after, t, c, x) {
      var a, b := before.tables[t], after.tables[t];
      assert c in a.fields.columns + b.fields.columns && x in FieldAction(a, b, c);
      FieldActionsExact(a, b, a.fields.columns + b.fields.columns, x);
      assert x in TableFieldActions(before, after, t);
    }
  }

  /** The update that moves one column's values to its new attribute, in the new collection. */
  ghost predicate UpdatesColumn(before: Mapping, after: Mapping, table: string, column: string, x: Action)
  {
    && table in before.tables && table in after.tables
    && (column in before.tables[table].fields.columns || column in after.tables[table].fields.columns)
    && var from, to := NameOf(before, table, column), NameOf(after, table, column);
      && from != to && from !in RESERVED && to !in RESERVED
      && x == UpdateDocuments(after.tables[table].target, from, to)
  }

  /** A column is loaded under the name it is mapped to, or its own. */
  function NameOf(m: Mapping, table: string, column: string): string
    requires table in m.tables
  {
    var names := m.tables[table].fields.names;
    if column in names then names[column] else column
  }

  // ----- the plan in three parts

  ghost predicate Distinct(plan: seq<Action>)
  {
    forall i, j :: 0 <= i < j < |plan| ==> plan[i] != plan[j]
  }

  lemma {:induction false} AddAllDistinct(plan: seq<Action>, actions: seq<Action>)
    requires Distinct(plan)
    ensures Distinct(AddAll(plan, actions))
  {
    if actions != [] {
      AddAllDistinct(plan, actions[..|actions| - 1]);
    }
  }

  lemma {:induction false} AddAllBeside(plan: seq<Action>, actions: seq<Action>)
    requires forall x :: x in actions ==> x !in plan
    ensures AddAll(plan, actions) == plan + AddAll([], actions)
  {
    if actions == [] {
      assert plan + [] == plan;
    } else {
      var n := |actions| - 1;
      AddAllBeside(plan, actions[..n]);
      assert actions[n] in actions;
      var rest := AddAll([], actions[..n]);
      assert plan + rest + [actions[n]] == plan + (rest + [actions[n]]);
    }
  }

  lemma DistinctJoin(p: seq<Action>, q: seq<Action>)
    requires Distinct(p) && Distinct(q) && forall x :: x in p ==> x !in q
    ensures Distinct(p + q)
    ensures RebuildGraph !in p + q ==> Distinct(p + q + [RebuildGraph])
    ensures p + q + [] == p + q
  {
    forall i | 0 <= i < |p| ensures p[i] !in q {
      assert p[i] in p;
    }
  }

  /** The plan: what collections ask for, what columns ask for, and the graph. */
  lemma PlanIs(before: Mapping, after: Mapping)
    ensures Plan(before, after) ==
      AddAll([], AllCollectionActions(before, after, before.keys))
      + AddAll([], AllFieldActions(before, after, before.keys))
      + if exists t :: Retargeted(before, after, t) then [RebuildGraph] else []
  {
    var cs, fs := AllCollectionActions(before, after, before.keys), AllFieldActions(before, after, before.keys);
    CollectionKinds(before, after);
    FieldKinds(before, after);
    hide AllCollectionActions, AllFieldActions, Retargeted;
    AddAllBeside(AddAll([], cs), fs) by { AddedFrom(cs); }
    AddedFrom(cs);
    AddedFrom(fs);
    assert AddAll(AddAll([], cs), fs) == AddAll([], cs) + AddAll([], fs);
    assert RebuildGraph !in AddAll([], cs) + AddAll([], fs);
    RenamesExactly(before, after);
    assert AddAll([], cs) + AddAll([], fs) + [] == AddAll([], cs) + AddAll([], fs);
  }

  lemma AddedFrom(actions: seq<Action>)
    ensures forall x :: x in AddAll([], actions) <==> x in actions
  {
    var rest := AddAllSplits([], actions);
    assert [] + rest == rest;
  }

  lemma CollectionKinds(before: Mapping, after: Mapping)
    ensures forall x :: x in AllCollectionActions(before, after, before.keys) ==> x.RenameCollection? || x.ReloadEdge?
  {
    hide AllCollectionActions, CollectionActions;
    forall x | x in AllCollectionActions(before, after, before.keys) ensures x.RenameCollection? || x.ReloadEdge? {
      SomeTablesAction(before, after, before.keys, x);
      var t :| t in before.keys && x in CollectionActions(before, after, t);
      CollectionActionsExactly(before, after, t, x);
    }
  }

  lemma FieldKinds(before: Mapping, after: Mapping)
    ensures forall x :: x in AllFieldActions(before, after, before.keys) ==> x.UpdateDocuments?
  {
    AllFieldsUpdate(before, after, before.keys);
  }

  lemma RenamesExactly(before: Mapping, after: Mapping)
    ensures Renames(AddAll([], AllCollectionActions(before, after, before.keys))) <==> exists t :: Retargeted(before, after, t)
  {
    hide AllCollectionActions, CollectionActions, AddAll;
    var cs := AllCollectionActions(before, after, before.keys);
    AddedFrom(cs);
    if Renames(AddAll([], cs)) {
      var i :| 0 <= i < |AddAll([], cs)| && AddAll([], cs)[i].RenameCollection?;
      var x := AddAll([], cs)[i];
      assert x in cs;
      SomeTablesAction(before, after, before.keys, x);
      var t :| t in before.keys && x in CollectionActions(before, after, t);
      CollectionActionsExactly(before, after, t, x);
    }
    if t :| Retargeted(before, after, t) {
      var x := RenameCollection(before.tables[t].target, after.tables[t].target);
      CollectionActionsExactly(before, after, t, x);
      SomeTablesAction(before, after, before.keys, x);
      assert x in AddAll([], cs);
    }
  }

  // ----- what is planned

  /** Which actions are planned, each once. */
  lemma PlannedExactly(before: Mapping, after: Mapping)
    ensures Distinct(Plan(before, after))
    ensures forall a, b :: RenameCollection(a, b) in Plan(before, after) <==>
      exists t :: Retargeted(before, after, t) && a == before.tables[t].target && b == after.tables[t].target
    ensures forall n :: ReloadEdge(n) in Plan(before, after) <==>
      exists t :: Retargeted(before, after, t) && Joins(before, after, n, t)
    ensures forall c, x, y :: UpdateDocuments(c, x, y) in Plan(before, after) <==>
      exists t, column :: t in before.keys && UpdatesColumn(before, after, t, column, UpdateDocuments(c, x, y))
    ensures RebuildGraph in Plan(before, after) <==> exists t :: Retargeted(before, after, t)
  {
    hide AllCollectionActions, AllFieldActions, Plan, Retargeted, Joins, UpdatesColumn, AddAll, Distinct;
    var cs, fs := AllCollectionActions(before, after, before.keys), AllFieldActions(before, after, before.keys);
    PlanIs(before, after);
    CollectionKinds(before, after);
    FieldKinds(before, after);
    AddedFrom(cs);
    AddedFrom(fs);
    AddAllDistinct([], cs);
    AddAllDistinct([], fs);
    DistinctJoin(AddAll([], cs), AddAll([], fs));
    forall x ensures x in cs <==> PlannedForTable(before, after, x) {
      CollectionsExactly(before, after, x);
    }
    forall x ensures x in fs <==> exists t, c :: t in before.keys && UpdatesColumn(before, after, t, c, x) {
      FieldActionsExactly(before, after, x);
    }
  }

  ghost predicate PlannedForTable(before: Mapping, after: Mapping, x: Action)
  {
    match x
    case RenameCollection(a, b) =>
      exists t :: Retargeted(before, after, t) && a == before.tables[t].target && b == after.tables[t].target
    case ReloadEdge(n) => exists t :: Retargeted(before, after, t) && Joins(before, after, n, t)
    case _ => false
  }

  lemma CollectionsExactly(before: Mapping, after: Mapping, x: Action)
    ensures x in AllCollectionActions(before, after, before.keys) <==> PlannedForTable(before, after, x)
  {
    hide AllCollectionActions, CollectionActions, Joins;
    SomeTablesAction(before, after, before.keys, x);
    forall t | t in before.keys
      ensures x in CollectionActions(before, after, t) <==>
        && Retargeted(before, after, t)
        && (|| x == RenameCollection(before.tables[t].target, after.tables[t].target)
            || (x.ReloadEdge? && Joins(before, after, x.name, t)))
    {
      CollectionActionsExactly(before, after, t, x);
    }
  }

  // ----- in which order

  ghost predicate Before(plan: seq<Action>, x: Action, y: Action)
  {
    exists i, j :: 0 <= i < j < |plan| && plan[i] == x && plan[j] == y
  }

  /** `x` is asked for before `y` is first asked for. */
  ghost predicate Leads(asked: seq<Action>, x: Action, y: Action)
  {
    exists i :: 0 <= i < |asked| && asked[i] == x && y !in asked[..i]
  }

  /** Planning each action once keeps the order of the first requests. */
  lemma {:induction false} OrderKept(asked: seq<Action>, x: Action, y: Action)
    requires x != y && y in asked
    ensures Before(AddAll([], asked), x, y) <==> Leads(asked, x, y)
  {
    var n := |asked| - 1;
    var less, z := asked[..n], asked[n];
    assert asked == less + [z];
    AddedFrom(less);
    AddAllDistinct([], less);
    LeadsMore(less, [z], x, y);
    if y in less {
      OrderKept(less, x, y);
      BeforeMore(AddAll([], less), z, x, y);
    } else {
      assert AddAll([], asked) == AddAll([], less) + [y];
      BeforeLast(AddAll([], less), x, y);
    }
  }

  lemma BeforeMore(plan: seq<Action>, z: Action, x: Action, y: Action)
    requires Distinct(plan) && y in plan
    ensures Before(Add(plan, z), x, y) <==> Before(plan, x, y)
  {
    if Before(plan, x, y) {
      var i, j :| 0 <= i < j < |plan| && plan[i] == x && plan[j] == y;
      assert Add(plan, z)[i] == x && Add(plan, z)[j] == y;
    }
  }

  lemma BeforeLast(plan: seq<Action>, x: Action, y: Action)
    requires x != y && y !in plan
    ensures Before(plan + [y], x, y) <==> x in plan
  {
    if x in plan {
      var i :| 0 <= i < |plan| && plan[i] == x;
      assert (plan + [y])[i] == x && (plan + [y])[|plan|] == y;
    }
  }

  lemma LeadsMore(p: seq<Action>, q: seq<Action>, x: Action, y: Action)
    ensures Leads(p + q, x, y) <==> Leads(p, x, y) || (y !in p && Leads(q, x, y))
  {
    if i :| 0 <= i < |p + q| && (p + q)[i] == x && y !in (p + q)[..i] {
      if i < |p| {
        assert (p + q)[..i] == p[..i];
      } else {
        assert (p + q)[..i] == p + q[..i - |p|];
      }
    }
    if i :| 0 <= i < |p| && p[i] == x && y !in p[..i] {
      assert (p + q)[..i] == p[..i] && (p + q)[i] == x;
    }
    if y !in p {
      if i :| 0 <= i < |q| && q[i] == x && y !in q[..i] {
        assert (p + q)[..|p| + i] == p + q[..i] && (p + q)[|p| + i] == x;
      }
    }
  }

  /** Some table asks for `x`, and no table listed earlier asks for `y`. */
  ghost predicate AskedFirst(before: Mapping, after: Mapping, keys: seq<string>, x: Action, y: Action)
  {
    exists k :: 0 <= k < |keys| && x in CollectionActions(before, after, keys[k])
      && forall j :: 0 <= j < k ==> y !in CollectionActions(before, after, keys[j])
  }

  lemma {:induction false} LeadsByTable(before: Mapping, after: Mapping, keys: seq<string>, x: Action, y: Action)
    requires x.RenameCollection? && y != x
    ensures Leads(AllCollectionActions(before, after, keys), x, y) <==> AskedFirst(before, after, keys, x, y)
  {
    if keys != [] {
      var n := |keys| - 1;
      var less, last := keys[..n], keys[n];
      LeadsByTable(before, after, less, x, y);
      LeadsMore(AllCollectionActions(before, after, less), CollectionActions(before, after, last), x, y);
      RenameLeads(before, after, last, x, y);
      SomeTablesAction(before, after, less, y);
      hide AllCollectionActions, CollectionActions, Leads;
      AskedFirstMore(before, after, keys, x, y);
    }
  }

  lemma AskedFirstMore(before: Mapping, after: Mapping, keys: seq<string>, x: Action, y: Action)
    requires keys != []
    ensures var less, last := keys[..|keys| - 1], keys[|keys| - 1];
      AskedFirst(before, after, keys, x, y) <==>
        || AskedFirst(before, after, less, x, y)
        || (x in CollectionActions(before, after, last)
            && forall t :: t in less ==> y !in CollectionActions(before, after, t))
  {
    hide CollectionActions;
    var n := |keys| - 1;
    var less, last := keys[..n], keys[n];
    if k :|
      && 0 <= k < |less| && x in CollectionActions(before, after, less[k])
      && forall j :: 0 <= j < k ==> y !in CollectionActions(before, after, less[j])
    {
      assert keys[k] == less[k] && forall j :: 0 <= j < k ==> keys[j] == less[j];
    }
    if k :|
      && 0 <= k < |keys| && x in CollectionActions(before, after, keys[k])
      && forall j :: 0 <= j < k ==> y !in CollectionActions(before, after, keys[j])
    {
      assert forall j :: 0 <= j < n ==> keys[j] == less[j];
      if k < n {
        assert less[k] == keys[k];
      }
    }
  }

  /** Each table's rename is asked for before its reloads. */
  lemma RenameLeads(before: Mapping, after: Mapping, table: string, x: Action, y: Action)
    requires x.RenameCollection? && y != x
    ensures Leads(CollectionActions(before, after, table), x, y) <==> x in CollectionActions(before, after, table)
  {
    var asked := CollectionActions(before, after, table);
    AffectedReloads(before.edges, table);
    AffectedReloads(after.edges, table);
    if x in asked {
      assert asked[0] == x && y !in asked[..0];
    }
  }

  /** What a table asks for: its collection's rename and the reload of the relationships it joins. */
  ghost predicate AsksFor(before: Mapping, after: Mapping, table: string, x: Action)
  {
    && Retargeted(before, after, table)
    && (|| x == RenameCollection(before.tables[table].target, after.tables[table].target)
        || (x.ReloadEdge? && Joins(before, after, x.name, table)))
  }

  /** The renames keep the order of the tables, and a rename stands before a reload, exactly
      when a table that asks for it is listed with none before it that asks for the other. */
  lemma RenamedFirstExactly(before: Mapping, after: Mapping, x: Action, y: Action)
    requires x in Plan(before, after) && y in Plan(before, after) && x != y
    requires x.RenameCollection? && (y.RenameCollection? || y.ReloadEdge?)
    ensures Before(Plan(before, after), x, y) <==>
      exists k :: 0 <= k < |before.keys| && AsksFor(before, after, before.keys[k], x)
        && forall j :: 0 <= j < k ==> !AsksFor(before, after, before.keys[j], y)
  {
    hide AllCollectionActions, AllFieldActions, CollectionActions, Plan, Retargeted, Joins, AddAll, Before, Leads;
    var cs, fs := AllCollectionActions(before, after, before.keys), AllFieldActions(before, after, before.keys);
    PlanIs(before, after);
    CollectionKinds(before, after);
    FieldKinds(before, after);
    AddedFrom(cs);
    AddedFrom(fs);
    BeforeIn(AddAll([], cs), AddAll([], fs), x, y);
    OrderKept(cs, x, y);
    LeadsByTable(before, after, before.keys, x, y);
    forall k | 0 <= k < |before.keys|
      ensures x in CollectionActions(before, after, before.keys[k]) <==> AsksFor(before, after, before.keys[k], x)
      ensures y in CollectionActions(before, after, before.keys[k]) <==> AsksFor(before, after, before.keys[k], y)
    {
      CollectionActionsExactly(before, after, before.keys[k], x);
      CollectionActionsExactly(before, after, before.keys[k], y);
    }
  }

  lemma BeforeIn(p: seq<Action>, q: seq<Action>, x: Action, y: Action)
    requires y in p && y !in q && y != RebuildGraph
    ensures Before(p + q, x, y) <==> Before(p, x, y)
    ensures Before(p + q + [RebuildGraph], x, y) <==> Before(p, x, y)
    ensures p + q + [] == p + q
  {
    var all := p + q + [RebuildGraph];
    if i, j :| 0 <= i < j < |p| && p[i] == x && p[j] == y {
      assert (p + q)[i] == x && (p + q)[j] == y && all[i] == x && all[j] == y;
    }
  }

  /** Two tables in these collections, joined by one relationship. */
  function TwoTables(t: string, u: string, first: string, second: string, name: string): Mapping
    requires t != u
  {
    Mapping([t, u], map[t := Table(first, Fields([], map[])), u := Table(second, Fields([], map[]))], [Edge(name, t, u)])
  }

  lemma OneAffected(e: Edge, table: string)
    requires e.from == table || e.to == table
    ensures Affected([e], table) == [ReloadEdge(e.name)]
  {
    assert [e][..0] == [];
  }

  lemma TwoTablesAsk(t: string, u: string, a: string, b: string, c: string, d: string, name: string)
    requires t != u && a != b && c != d
    ensures var before, after := TwoTables(t, u, a, c, name), TwoTables(t, u, b, d, name);
      && AllCollectionActions(before, after, [t, u]) ==
         [RenameCollection(a, b), ReloadEdge(name), ReloadEdge(name),
          RenameCollection(c, d), ReloadEdge(name), ReloadEdge(name)]
      && AllFieldActions(before, after, [t, u]) == []
  {
    hide Affected;
    var before, after := TwoTables(t, u, a, c, name), TwoTables(t, u, b, d, name);
    OneAffected(Edge(name, t, u), t);
    OneAffected(Edge(name, t, u), u);
    assert [t, u][..1] == [t] && [t][..0] == [];
    assert TableFieldActions(before, after, t) == [] && TableFieldActions(before, after, u) == [];
    assert AllFieldActions(before, after, [t]) == [];
    assert AllCollectionActions(before, after, [t]) == CollectionActions(before, after, t);
  }

  lemma SixPlanned(r: Action, s: Action, q: Action)
    requires r != s && r != q && s != q
    ensures AddAll([], [r, q, q, s, q, q]) == [r, q, s]
  {
    assert [r, q, q, s, q, q][..5] == [r, q, q, s, q] && [r, q, q, s, q][..4] == [r, q, q, s];
    assert [r, q, q, s][..3] == [r, q, q] && [r, q, q][..2] == [r, q] && [r, q][..1] == [r] && [r][..0] == [];
    assert AddAll([], [r]) == [r] && AddAll([], [r, q]) == [r, q];
    assert AddAll([], [r, q, q, s]) == [r, q, s];
  }

  lemma NothingAdded()
    ensures AddAll([], []) == []
  {
  }

  /** A relationship whose two ends are renamed is reloaded between the renames: behind the end
      listed first, and not planned again behind the other. */
  lemma ReloadedBetween(t: string, u: string, a: string, b: string, c: string, d: string, name: string)
    requires t != u && a != b && c != d && (a != c || b != d)
    ensures Plan(TwoTables(t, u, a, c, name), TwoTables(t, u, b, d, name)) ==
      [RenameCollection(a, b), ReloadEdge(name), RenameCollection(c, d), RebuildGraph]
  {
    hide AllCollectionActions, AllFieldActions, AddAll;
    var before, after := TwoTables(t, u, a, c, name), TwoTables(t, u, b, d, name);
    TwoTablesAsk(t, u, a, b, c, d, name);
    SixPlanned(RenameCollection(a, b), RenameCollection(c, d), ReloadEdge(name));
    NothingAdded();
    assert Retargeted(before, after, t);
    PlanIs(before, after);
  }

  /** Renames and reloads, then attribute updates, then the graph. */
  function Phase(x: Action): nat
  {
    if x.UpdateDocuments? then 1 else if x.RebuildGraph? then 2 else 0
  }

  lemma PhasesInOrder(before: Mapping, after: Mapping)
    ensures var plan := Plan(before, after);
      forall i, j :: 0 <= i < j < |plan| ==> Phase(plan[i]) <= Phase(plan[j])
  {
    hide AllCollectionActions, AllFieldActions, Plan, Retargeted, AddAll;
    var cs, fs := AllCollectionActions(before, after, before.keys), AllFieldActions(before, after, before.keys);
    PlanIs(before, after);
    CollectionKinds(before, after);
    FieldKinds(before, after);
    AddedFrom(cs);
    AddedFrom(fs);
    ThreePhases(AddAll([], cs), AddAll([], fs));
  }

  lemma ThreePhases(p: seq<Action>, q: seq<Action>)
    requires (forall x :: x in p ==> Phase(x) == 0) && (forall x :: x in q ==> Phase(x) == 1)
    ensures forall i, j :: 0 <= i < j < |p + q| ==> Phase((p + q)[i]) <= Phase((p + q)[j])
    ensures var all := p + q + [RebuildGraph];
      forall i, j :: 0 <= i < j < |all| ==> Phase(all[i]) <= Phase(all[j])
    ensures p + q + [] == p + q
  {
    forall i | 0 <= i < |p + q| ensures (p + q)[i] == (if i < |p| then p[i] else q[i - |p|]) {
      assert i < |p| ==> p[i] in p;
      assert i >= |p| ==> q[i - |p|] in q;
    }
  }
}
