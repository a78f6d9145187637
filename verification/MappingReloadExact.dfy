/**
 When carrying a mapping over in place equals loading again: exact conditions for
 the attributes of a table and for the collections, with inputs that miss them.
 */
module MappingReloadExact {
  import opened Names
  import opened Renaming
  import opened MappingReload

  // ----- the plan has no repeats

  lemma {:induction false} AddAllDistinct(plan: seq<Action>, actions: seq<Action>)
    requires NoDuplicates(plan)
    ensures NoDuplicates(AddAll(plan, actions))
  {
    if actions != [] {
      AddAllDistinct(plan, actions[..|actions| - 1]);
    }
  }

  // ----- attributes of one table

  /** A mapping of a single table. */
  function Single(table: string, target: string, f: Fields): Mapping
  {
    Mapping([table], map[table := Table(target, f)], [])
  }

  /** A database with a single document. */
  function Holding(target: string, key: string, doc: Document): Database
  {
    map[target := map[key := doc]]
  }

  /** The plan for a table whose attribute names change. */
  function FieldPlan(table: string, target: string, f: Fields, g: Fields): seq<Action>
  {
    Plan(Single(table, target, f), Single(table, target, g))
  }

  ghost predicate RenamesColumn(a: Naming, b: Naming, target: string, c: string, x: Action)
  {
    && c in a && c in b && a[c] != b[c] && a[c] !in RESERVED && b[c] !in RESERVED
    && x == UpdateDocuments(target, a[c], b[c])
  }

  /** Every action renames a column that changes, each such column has one, and none is repeated. */
  ghost predicate PlansColumns(a: Naming, b: Naming, target: string, plan: seq<Action>)
  {
    && NoDuplicates(plan)
    && (forall x :: x in plan ==> exists c :: RenamesColumn(a, b, target, c, x))
    && (forall c, x :: RenamesColumn(a, b, target, c, x) ==> x in plan)
  }

  lemma FieldPlanIs(table: string, target: string, f: Fields, g: Fields)
    ensures FieldPlan(table, target, f, g)
         == AddAll([], FieldActions(Table(target, f), Table(target, g), f.columns + g.columns))
  {
    var before, after := Single(table, target, f), Single(table, target, g);
    assert [table][..0] == [];
    assert AllCollectionActions(before, after, [table]) == [];
    var fields := FieldActions(Table(target, f), Table(target, g), f.columns + g.columns);
    assert AllFieldActions(before, after, [table]) == fields;
  }

  lemma FieldPlanColumns(table: string, target: string, f: Fields, g: Fields, columns: set<string>)
    requires FieldsListed(f) && FieldsListed(g) && f.names.Keys + g.names.Keys <= columns
    ensures PlansColumns(AttributesOf(f, columns), AttributesOf(g, columns), target, FieldPlan(table, target, f, g))
  {
    hide FieldActions, AddAll, FieldPlan, FieldsListed;
    var a, b := AttributesOf(f, columns), AttributesOf(g, columns);
    var actions := FieldActions(Table(target, f), Table(target, g), f.columns + g.columns);
    FieldPlanIs(table, target, f, g);
    AddAllDistinct([], actions);
    var rest := AddAllSplits([], actions);
    assert [] + rest == rest;
    forall x | x in actions ensures exists c :: RenamesColumn(a, b, target, c, x) {
      var c := ActionColumn(target, f, g, columns, x);
    }
    forall c, x | RenamesColumn(a, b, target, c, x) ensures x in actions {
      ColumnAction(target, f, g, columns, c, x);
    }
  }

  lemma ActionColumn(target: string, f: Fields, g: Fields, columns: set<string>, x: Action) returns (c: string)
    requires FieldsListed(f) && FieldsListed(g) && f.names.Keys + g.names.Keys <= columns
    requires x in FieldActions(Table(target, f), Table(target, g), f.columns + g.columns)
    ensures RenamesColumn(AttributesOf(f, columns), AttributesOf(g, columns), target, c, x)
  {
    hide FieldActions;
    FieldActionsExact(Table(target, f), Table(target, g), f.columns + g.columns, x);
    c :| c in f.columns + g.columns && x in FieldAction(Table(target, f), Table(target, g), c);
    ListedColumn(f, g, c);
    hide FieldsListed;
  }

  lemma ColumnAction(target: string, f: Fields, g: Fields, columns: set<string>, c: string, x: Action)
    requires FieldsListed(f) && FieldsListed(g) && f.names.Keys + g.names.Keys <= columns
    requires RenamesColumn(AttributesOf(f, columns), AttributesOf(g, columns), target, c, x)
    ensures x in FieldActions(Table(target, f), Table(target, g), f.columns + g.columns)
  {
    hide FieldActions;
    FieldActionsExact(Table(target, f), Table(target, g), f.columns + g.columns, x);
    ListedColumn(f, g, c);
    hide FieldsListed;
    assert x in FieldAction(Table(target, f), Table(target, g), c);
  }

  lemma ListedColumn(f: Fields, g: Fields, c: string)
    requires FieldsListed(f) && FieldsListed(g)
    ensures c in f.columns + g.columns <==> c in f.names || c in g.names
  {
    assert c in f.columns <==> c in Elements(f.columns);
    assert c in g.columns <==> c in Elements(g.columns);
  }

  // ----- following one attribute through a plan

  /** The name an attribute has after the renames. */
  function Moved(name: string, plan: seq<Action>): string
  {
    if plan == [] then name
    else
      var before, last := Moved(name, plan[..|plan| - 1]), plan[|plan| - 1];
      if last.UpdateDocuments? && last.from == before && last.from !in RESERVED && last.to !in RESERVED then last.to else before
  }

  ghost predicate UpdatesOnly(plan: seq<Action>, target: string)
  {
    forall x :: x in plan ==> x.UpdateDocuments? && x.collection == target
  }

  /** A document with one attribute keeps its value, under the name the plan moves it to. */
  lemma {:induction false} ExecuteMoves(target: string, key: string, name: string, v: string, plan: seq<Action>)
    requires UpdatesOnly(plan, target)
    ensures Execute(Holding(target, key, map[name := v]), plan) == Holding(target, key, map[Moved(name, plan) := v])
  {
    if plan != [] {
      var n := |plan| - 1;
      var last := plan[n];
      ExecuteMoves(target, key, name, v, plan[..n]);
      assert last in plan;
      var at := Moved(name, plan[..n]);
      UpdateMoves(target, key, at, v, last.from, last.to);
    }
  }

  lemma UpdateMoves(target: string, key: string, at: string, v: string, from: string, to: string)
    ensures Do(Holding(target, key, map[at := v]), UpdateDocuments(target, from, to))
         == Holding(target, key, map[(if from == at && from !in RESERVED && to !in RESERVED then to else at) := v])
  {
    var doc: Document := map[at := v];
    assert RenameKey(doc, from, to) == map[(if from == at then to else at) := v];
    assert RenameAttribute(map[key := doc], from, to) == map[key := RenameKey(doc, from, to)];
  }

  lemma {:induction false} MovedMore(name: string, p: seq<Action>, q: seq<Action>)
    ensures Moved(name, p + q) == Moved(Moved(name, p), q)
  {
    if q == [] {
      assert p + q == p;
    } else {
      MovedMore(name, p, q[..|q| - 1]);
      assert (p + q)[..|p + q| - 1] == p + q[..|q| - 1];
    }
  }

  lemma {:induction false} Unmoved(name: string, plan: seq<Action>)
    requires forall x :: x in plan && x.UpdateDocuments? ==> x.from != name
    ensures Moved(name, plan) == name
  {
    if plan != [] {
      Unmoved(name, plan[..|plan| - 1]);
      assert plan[|plan| - 1] in plan;
    }
  }

  lemma {:induction false} NeverReturns(name: string, away: string, plan: seq<Action>)
    requires away != name && forall x :: x in plan && x.UpdateDocuments? ==> x.to != name
    ensures Moved(away, plan) != name
  {
    if plan != [] {
      NeverReturns(name, away, plan[..|plan| - 1]);
      assert plan[|plan| - 1] in plan;
    }
  }

  /** Up to its own rename nothing moves an attribute; its rename does. */
  lemma MovedAt(a: Naming, b: Naming, target: string, plan: seq<Action>, c: string, i: nat)
    requires PlansColumns(a, b, target, plan) && Injective(a) && i < |plan| && RenamesColumn(a, b, target, c, plan[i])
    ensures Moved(a[c], plan[..i]) == a[c] && Moved(a[c], plan[..i + 1]) == b[c]
    ensures forall k :: 0 <= k < |plan| && k != i ==> plan[k].UpdateDocuments? && plan[k].from != a[c]
  {
    forall k | 0 <= k < |plan| && k != i ensures plan[k].UpdateDocuments? && plan[k].from != a[c] {
      assert plan[k] in plan;
      var d :| RenamesColumn(a, b, target, d, plan[k]);
    }
    forall x | x in plan[..i] && x.UpdateDocuments? ensures x.from != a[c] {
      var k :| 0 <= k < i && plan[k] == x;
    }
    Unmoved(a[c], plan[..i]);
    assert plan[..i + 1][..i] == plan[..i];
  }

  // ----- exactly when the attributes are carried over

  /** No attribute that changes gets an old name of any column, and none is a system attribute. */
  ghost predicate FreshNames(a: Naming, b: Naming)
  {
    && (forall x, y :: x in a && x in b && y in a && a[x] != b[x] ==> b[x] != a[y])
    && (forall x :: x in a && x in b && a[x] != b[x] ==> a[x] !in RESERVED && b[x] !in RESERVED)
  }

  ghost predicate RowFits(a: Naming, b: Naming, row: Row)
  {
    row.values.Keys <= a.Keys && Apart(row.others, a, b)
  }

  /** Executing the plan gives the document loaded again, and executing it again leaves that. */
  ghost predicate CarriesRow(a: Naming, b: Naming, target: string, key: string, plan: seq<Action>, row: Row)
    requires Injective(a) && Injective(b) && a.Keys == b.Keys && RowFits(a, b, row)
  {
    var loaded := Holding(target, key, LoadRow(b, row));
    Execute(Holding(target, key, LoadRow(a, row)), plan) == loaded && Execute(loaded, plan) == loaded
  }

  /** The row with a value in one column only. */
  function OneValue(c: string, v: string): Row
  {
    Row(map[c := v], map[])
  }

  lemma OneValueLoads(m: Naming, c: string, v: string)
    requires Injective(m) && c in m
    ensures LoadRow(m, OneValue(c, v)) == map[m[c] := v]
  {
    KeyedOne(m, c, v);
    assert map[m[c] := v] + map[] == map[m[c] := v];
  }

  lemma KeyedOne<V>(m: Naming, c: string, v: V)
    requires Injective(m) && c in m
    ensures Keyed(m, map[c := v]) == map[m[c] := v]
  {
    var values := map[c := v];
    KeyedIsKeyed(m, values);
    assert Owns(m, values, c, m[c]);
    forall k | k in Keyed(m, values) ensures k == m[c] {
      var x :| Owns(m, values, x, k);
    }
  }

  /** What carrying over a row of one value comes to. */
  lemma OneValueCarried(a: Naming, b: Naming, target: string, key: string, plan: seq<Action>, c: string, v: string)
    requires Injective(a) && Injective(b) && a.Keys == b.Keys && c in a && UpdatesOnly(plan, target)
    ensures RowFits(a, b, OneValue(c, v))
    ensures CarriesRow(a, b, target, key, plan, OneValue(c, v)) <==> Moved(a[c], plan) == b[c] && Moved(b[c], plan) == b[c]
  {
    hide Execute, LoadRow, Moved, Holding;
    OneValueLoads(a, c, v);
    OneValueLoads(b, c, v);
    ExecuteMoves(target, key, a[c], v, plan);
    ExecuteMoves(target, key, b[c], v, plan);
    SameHolding(target, key, Moved(a[c], plan), b[c], v);
    SameHolding(target, key, Moved(b[c], plan), b[c], v);
  }

  lemma SameHolding(target: string, key: string, m: string, n: string, v: string)
    ensures Holding(target, key, map[m := v]) == Holding(target, key, map[n := v]) <==> m == n
  {
    if Holding(target, key, map[m := v]) == Holding(target, key, map[n := v]) {
      assert Holding(target, key, map[m := v])[target][key] == map[m := v];
      assert Holding(target, key, map[n := v])[target][key] == map[n := v];
      assert m in map[n := v];
    }
  }

  lemma ColumnsUpdate(a: Naming, b: Naming, target: string, plan: seq<Action>)
    requires PlansColumns(a, b, target, plan)
    ensures UpdatesOnly(plan, target)
  {
    forall x | x in plan ensures x.UpdateDocuments? && x.collection == target {
      var c :| RenamesColumn(a, b, target, c, x);
    }
  }

  /** A column that changes from or to a system attribute is never renamed. */
  lemma ReservedStays(a: Naming, b: Naming, target: string, plan: seq<Action>, c: string)
    requires PlansColumns(a, b, target, plan) && Injective(a)
    requires c in a && c in b && a[c] != b[c] && (a[c] in RESERVED || b[c] in RESERVED)
    ensures Moved(a[c], plan) == a[c]
  {
    forall x | x in plan && x.UpdateDocuments? ensures x.from != a[c] {
      var d :| RenamesColumn(a, b, target, d, x);
    }
    Unmoved(a[c], plan);
  }

  /** `x` takes the old name of `y`, whose rename comes later: the value moves on. */
  lemma MovesOn(a: Naming, b: Naming, target: string, plan: seq<Action>, x: string, i: nat, y: string, j: nat)
    requires PlansColumns(a, b, target, plan) && Injective(a) && Injective(b)
    requires i < j < |plan| && RenamesColumn(a, b, target, x, plan[i]) && RenamesColumn(a, b, target, y, plan[j]) && b[x] == a[y]
    ensures Moved(a[x], plan) != b[x]
  {
    hide Moved, PlansColumns;
    MovesToNext(a, b, target, plan, x, i, y, j);
    NobodyElseArrives(a, b, target, plan, x, i, j);
    assert b[y] != b[x];
    hide RenamesColumn, Injective;
    EndsElsewhere(a[x], b[x], plan, j + 1);
  }

  lemma EndsElsewhere(name: string, end: string, plan: seq<Action>, n: nat)
    requires n <= |plan| && Moved(name, plan[..n]) != end
    requires forall u :: u in plan[n..] && u.UpdateDocuments? ==> u.to != end
    ensures Moved(name, plan) != end
  {
    hide Moved;
    assert plan == plan[..n] + plan[n..];
    NeverReturns(end, Moved(name, plan[..n]), plan[n..]);
    MovedMore(name, plan[..n], plan[n..]);
  }

  /** Past the rename of `x` no other rename leads to its new name. */
  lemma NobodyElseArrives(a: Naming, b: Naming, target: string, plan: seq<Action>, x: string, i: nat, j: nat)
    requires PlansColumns(a, b, target, plan) && Injective(b) && i < j < |plan| && RenamesColumn(a, b, target, x, plan[i])
    ensures forall u :: u in plan[j + 1..] && u.UpdateDocuments? ==> u.to != b[x]
  {
    forall u | u in plan[j + 1..] && u.UpdateDocuments? ensures u.to != b[x] {
      var k :| j < k < |plan| && plan[k] == u;
      assert u in plan && u != plan[i];
      var d :| RenamesColumn(a, b, target, d, u);
      assert d != x;
    }
  }

  lemma MovesToNext(a: Naming, b: Naming, target: string, plan: seq<Action>, x: string, i: nat, y: string, j: nat)
    requires PlansColumns(a, b, target, plan) && Injective(a)
    requires i < j < |plan| && RenamesColumn(a, b, target, x, plan[i]) && RenamesColumn(a, b, target, y, plan[j]) && b[x] == a[y]
    ensures Moved(a[x], plan[..j + 1]) == b[y]
  {
    MovedAt(a, b, target, plan, x, i);
    MovedAt(a, b, target, plan, y, j);
    hide PlansColumns, Injective;
    var middle := plan[i + 1..j];
    assert plan[..j] == plan[..i + 1] + middle;
    forall u | u in middle && u.UpdateDocuments? ensures u.from != a[y] {
      var k :| 0 <= k < |middle| && middle[k] == u;
      assert plan[i + 1 + k] == u;
    }
    MovedMore(a[x], plan[..i + 1], middle);
    Unmoved(a[y], middle);
    assert plan[..j + 1][..j] == plan[..j];
  }

  /** `x` takes the old name of `y`, whose rename comes first, and no rename after that one
      takes the value further: a second execution moves it. */
  lemma MovesAgain(a: Naming, b: Naming, target: string, plan: seq<Action>, x: string, y: string, j: nat)
    requires PlansColumns(a, b, target, plan) && Injective(a) && Injective(b)
    requires j < |plan| && RenamesColumn(a, b, target, y, plan[j]) && x in b && x != y && b[x] == a[y] && y in b
    requires forall k :: j < k < |plan| && plan[k].UpdateDocuments? ==> plan[k].from != b[y]
    ensures Moved(b[x], plan) != b[x]
  {
    hide Moved;
    MovedAt(a, b, target, plan, y, j);
    hide PlansColumns;
    var rest := plan[j + 1..];
    assert plan == plan[..j + 1] + rest;
    forall u | u in rest && u.UpdateDocuments? ensures u.from != b[y] {
      var k :| j < k < |plan| && plan[k] == u;
    }
    Unmoved(b[y], rest);
    MovedMore(b[x], plan[..j + 1], rest);
  }

  /** Names that are not fresh, with no system attribute among those that change:
      some row of one value is not carried over. */
  lemma StaleNameMissed(a: Naming, b: Naming, target: string, key: string, plan: seq<Action>, x: string, y: string)
    returns (c: string)
    requires PlansColumns(a, b, target, plan) && Injective(a) && Injective(b) && a.Keys == b.Keys
    requires x in a && y in a && a[x] != b[x] && b[x] == a[y]
    requires forall d :: d in a && a[d] != b[d] ==> a[d] !in RESERVED && b[d] !in RESERVED
    ensures c in a && !(Moved(a[c], plan) == b[c] && Moved(b[c], plan) == b[c])
  {
    hide Moved;
    var i := PlaceOf(a, b, target, plan, x);
    var j := PlaceOf(a, b, target, plan, y);
    if i < j {
      MovesOn(a, b, target, plan, x, i, y, j);
      c := x;
    } else if k: nat :| j < k < |plan| && plan[k].UpdateDocuments? && plan[k].from == b[y] {
      assert plan[k] in plan;
      var z :| RenamesColumn(a, b, target, z, plan[k]);
      MovesOn(a, b, target, plan, y, j, z, k);
      c := y;
    } else {
      MovesAgain(a, b, target, plan, x, y, j);
      c := x;
    }
  }

  /** Where a column's rename stands in the plan. */
  lemma PlaceOf(a: Naming, b: Naming, target: string, plan: seq<Action>, c: string) returns (i: nat)
    requires PlansColumns(a, b, target, plan)
    requires c in a && c in b && a[c] != b[c] && a[c] !in RESERVED && b[c] !in RESERVED
    ensures i < |plan| && RenamesColumn(a, b, target, c, plan[i])
  {
    var x := UpdateDocuments(target, a[c], b[c]);
    assert RenamesColumn(a, b, target, c, x);
    i :| i < |plan| && plan[i] == x;
  }

  /** The rows of a table whose mapped columns are its columns are carried over, all of them, ... */
  ghost predicate CarriesRows(a: Naming, b: Naming, target: string, key: string, plan: seq<Action>)
    requires Injective(a) && Injective(b) && a.Keys == b.Keys
  {
    forall row :: RowFits(a, b, row) ==> CarriesRow(a, b, target, key, plan, row)
  }

  /** ... exactly when the names that change are fresh and no system attributes: in place,
      and in place again, is then loading again, and otherwise some row shows that it is not. */
  lemma FieldsExactly(table: string, target: string, f: Fields, g: Fields, columns: set<string>, key: string)
    requires FieldsListed(f) && FieldsListed(g) && f.names.Keys + g.names.Keys <= columns
    requires Injective(AttributesOf(f, columns)) && Injective(AttributesOf(g, columns))
    ensures var a, b := AttributesOf(f, columns), AttributesOf(g, columns);
      CarriesRows(a, b, target, key, FieldPlan(table, target, f, g)) <==> FreshNames(a, b)
  {
    var a, b, plan := AttributesOf(f, columns), AttributesOf(g, columns), FieldPlan(table, target, f, g);
    FieldPlanColumns(table, target, f, g, columns);
    ColumnsUpdate(a, b, target, plan);
    if FreshNames(a, b) {
      forall row | RowFits(a, b, row) ensures CarriesRow(a, b, target, key, plan, row) {
        FreshRowCarried(table, target, f, g, columns, key, row);
      }
    } else {
      var c := MissedColumn(a, b, target, key, plan);
      OneValueCarried(a, b, target, key, plan, c, "");
      assert !CarriesRow(a, b, target, key, plan, OneValue(c, ""));
    }
  }

  lemma MissedColumn(a: Naming, b: Naming, target: string, key: string, plan: seq<Action>) returns (c: string)
    requires PlansColumns(a, b, target, plan) && Injective(a) && Injective(b) && a.Keys == b.Keys && !FreshNames(a, b)
    ensures c in a && !(Moved(a[c], plan) == b[c] && Moved(b[c], plan) == b[c])
  {
    hide Moved;
    if x :| x in a && a[x] != b[x] && (a[x] in RESERVED || b[x] in RESERVED) {
      ReservedStays(a, b, target, plan, x);
      c := x;
    } else {
      var x, y :| x in a && x in b && y in a && a[x] != b[x] && b[x] == a[y];
      c := StaleNameMissed(a, b, target, key, plan, x, y);
    }
  }

  /** A table loaded by itself. */
  lemma SingleLoaded(table: string, target: string, m: Naming, sources: map<string, Source>, key: string, row: Row,
                     columns: set<string>)
    requires sources == map[table := Source(columns, map[key := row])]
    requires Injective(m) && row.values.Keys <= m.Keys
    ensures FitsAll(Layout(map[table := target], map[table := m]), sources)
    ensures Loaded(Layout(map[table := target], map[table := m]), sources, map[]) == Holding(target, key, LoadRow(m, row))
  {
    hide LoadRow;
    var docs: Documents := map[key := LoadRow(m, row)];
    assert LoadTable(m, sources[table]) == docs;
    assert LoadTables(map[table := m], sources) == map[table := docs];
    KeyedOne(map[table := target], table, docs);
    var db: Database := map[target := docs];
    assert db + map[] == db;
  }

  lemma FreshRowCarried(table: string, target: string, f: Fields, g: Fields, columns: set<string>, key: string,
                        row: Row)
    requires FieldsListed(f) && FieldsListed(g) && f.names.Keys + g.names.Keys <= columns
    requires var a, b := AttributesOf(f, columns), AttributesOf(g, columns);
      Injective(a) && Injective(b) && FreshNames(a, b) && RowFits(a, b, row)
    ensures CarriesRow(AttributesOf(f, columns), AttributesOf(g, columns), target, key, FieldPlan(table, target, f, g), row)
  {
    var a, b := AttributesOf(f, columns), AttributesOf(g, columns);
    var before, after := Single(table, target, f), Single(table, target, g);
    var sources := map[table := Source(columns, map[key := row])];
    SingleMigratable(table, target, f, g, columns, sources);
    MigratesOnce(before, after, sources, map[]);
    SingleLoaded(table, target, a, sources, key, row, columns);
    SingleLoaded(table, target, b, sources, key, row, columns);
  }

  lemma SingleMigratable(table: string, target: string, f: Fields, g: Fields, columns: set<string>,
                         sources: map<string, Source>)
    requires FieldsListed(f) && FieldsListed(g) && f.names.Keys + g.names.Keys <= columns
    requires sources.Keys == {table} && sources[table].columns == columns
    requires var a, b := AttributesOf(f, columns), AttributesOf(g, columns);
      Injective(a) && Injective(b) && FreshNames(a, b) && forall k :: k in sources[table].rows ==> RowFits(a, b, sources[table].rows[k])
    ensures var before, after := Single(table, target, f), Single(table, target, g);
      && Migratable(before, after, sources, map[])
      && LayoutOf(before, before, after, sources) == Layout(map[table := target], map[table := AttributesOf(f, columns)])
      && LayoutOf(after, before, after, sources) == Layout(map[table := target], map[table := AttributesOf(g, columns)])
  {
    hide CanChange, SameTables, AttributesOf, FreshNames, LayoutOf, Universe, Injective, FieldsListed, RowFits;
    var before, after := Single(table, target, f), Single(table, target, g);
    SingleSameTables(table, target, f, g, columns, sources);
    SingleLayout(table, target, f, before, after, sources, columns);
    SingleLayout(table, target, g, before, after, sources, columns);
    SingleCanChange(table, target, AttributesOf(f, columns), AttributesOf(g, columns), sources);
  }

  lemma SingleSameTables(table: string, target: string, f: Fields, g: Fields, columns: set<string>,
                         sources: map<string, Source>)
    requires FieldsListed(f) && FieldsListed(g) && f.names.Keys + g.names.Keys <= columns
    requires sources.Keys == {table} && sources[table].columns == columns
    ensures var before, after := Single(table, target, f), Single(table, target, g);
      && SameTables(before, after, sources) && Universe(before, after, sources, table) == columns
      && before.tables.Keys == after.tables.Keys == sources.Keys
      && AttributesOf(f, columns).Keys == columns && AttributesOf(g, columns).Keys == columns
  {
    hide FieldsListed;
  }

  lemma SingleCanChange(table: string, target: string, a: Naming, b: Naming, sources: map<string, Source>)
    requires sources.Keys == {table} && a.Keys == b.Keys && Injective(a) && Injective(b) && FreshNames(a, b)
    requires forall k :: k in sources[table].rows ==> RowFits(a, b, sources[table].rows[k])
    ensures CanChange(Layout(map[table := target], map[table := a]), Layout(map[table := target], map[table := b]), sources, map[])
  {
    OneName(table, target, target);
    assert TableCanChange(a, b, sources[table]);
  }

  lemma SingleLayout(table: string, target: string, f: Fields, before: Mapping, after: Mapping,
                     sources: map<string, Source>, columns: set<string>)
    requires SameTables(before, after, sources) && sources.Keys == {table} && Universe(before, after, sources, table) == columns
    ensures LayoutOf(Single(table, target, f), before, after, sources)
         == Layout(map[table := target], map[table := AttributesOf(f, columns)])
  {
    hide SameTables;
  }

  /** Two attributes that swap names: the plan is two renames, and one value is overwritten. */
  lemma SwapLosesValue(table: string, target: string, c: string, d: string, x: string, y: string, key: string,
                       v: string, w: string)
    requires c != d && x != y && x !in RESERVED && y !in RESERVED
    ensures var f, g := Fields([c, d], map[c := x, d := y]), Fields([c, d], map[c := y, d := x]);
      && FieldPlan(table, target, f, g) == [UpdateDocuments(target, x, y), UpdateDocuments(target, y, x)]
      && Execute(Holding(target, key, map[x := v, y := w]), FieldPlan(table, target, f, g)) == Holding(target, key, map[x := v])
  {
    SwapPlan(table, target, c, d, x, y);
    SwapExecuted(target, key, x, y, v, w);
  }

  lemma SwapExecuted(target: string, key: string, x: string, y: string, v: string, w: string)
    requires x != y && x !in RESERVED && y !in RESERVED
    ensures Execute(Holding(target, key, map[x := v, y := w]), [UpdateDocuments(target, x, y), UpdateDocuments(target, y, x)])
         == Holding(target, key, map[x := v])
  {
    var first, second := UpdateDocuments(target, x, y), UpdateDocuments(target, y, x);
    var both: Document := map[x := v, y := w];
    assert RenameKey(both, x, y) == map[y := v];
    assert RenameAttribute(map[key := both], x, y) == map[key := map[y := v]];
    assert Do(Holding(target, key, both), first) == Holding(target, key, map[y := v]);
    UpdateMoves(target, key, y, v, y, x);
    hide Do, Holding;
    ExecuteTwo(Holding(target, key, both), first, second);
  }

  lemma ExecuteTwo(db: Database, first: Action, second: Action)
    ensures Execute(db, [first, second]) == Do(Do(db, first), second)
  {
    assert [first, second][..1] == [first] && [first][..0] == [];
    assert Execute(db, [first]) == Do(db, first);
  }

  lemma SwapPlan(table: string, target: string, c: string, d: string, x: string, y: string)
    requires c != d && x != y && x !in RESERVED && y !in RESERVED
    ensures var f, g := Fields([c, d], map[c := x, d := y]), Fields([c, d], map[c := y, d := x]);
      FieldPlan(table, target, f, g) == [UpdateDocuments(target, x, y), UpdateDocuments(target, y, x)]
  {
    var f, g := Fields([c, d], map[c := x, d := y]), Fields([c, d], map[c := y, d := x]);
    var first, second := UpdateDocuments(target, x, y), UpdateDocuments(target, y, x);
    var a, b := Table(target, f), Table(target, g);
    assert FieldAction(a, b, c) == [first] && FieldAction(a, b, d) == [second];
    assert f.columns + g.columns == [c, d] + [c, d];
    hide FieldAction, AddAll, FieldActions, FieldPlan;
    FieldPlanIs(table, target, f, g);
    FieldActionsFour(a, b, c, d);
    assert [first] + [second] == [first, second];
    AddsTwice(first, second);
  }

  lemma FieldActionsFour(a: Table, b: Table, c: string, d: string)
    ensures FieldActions(a, b, [c, d] + [c, d])
         == FieldAction(a, b, c) + FieldAction(a, b, d) + FieldAction(a, b, c) + FieldAction(a, b, d)
  {
    hide FieldAction;
    FieldActionsNext(a, b, [], c);
    FieldActionsNext(a, b, [c], d);
    FieldActionsNext(a, b, [c, d], c);
    FieldActionsNext(a, b, [c, d, c], d);
    assert [] + [c] == [c] && [c] + [d] == [c, d] && [c, d] + [c] == [c, d, c];
    assert [c, d, c] + [d] == [c, d] + [c, d];
  }

  lemma FieldActionsNext(a: Table, b: Table, columns: seq<string>, c: string)
    ensures FieldActions(a, b, columns + [c]) == FieldActions(a, b, columns) + FieldAction(a, b, c)
  {
    assert (columns + [c])[..|columns|] == columns;
  }

  lemma AddsTwice(first: Action, second: Action)
    requires first != second
    ensures AddAll([], [first, second] + [first] + [second]) == [first, second]
  {
    AddAllMore([], [first, second] + [first], [second]);
    AddAllMore([], [first, second], [first]);
    AddAllMore([], [first], [second]);
    assert [first] + [second] == [first, second];
    AddOne([], first);
    AddOne([first], second);
    AddOne([first, second], first);
    AddOne([first, second], second);
  }

  lemma AddOne(plan: seq<Action>, x: Action)
    ensures AddAll(plan, [x]) == Add(plan, x)
  {
    assert [x][..0] == [];
  }

  // ----- collections

  /** A table takes a new name unless some table has it. */
  ghost function Taking(m: Naming, t: string, name: string): Naming
  {
    if exists u :: u in m && m[u] == name then m else m[t := name]
  }

  /** The names the collections have after the renames for these tables: a rename is
      skipped while a collection of its new name is there. */
  ghost function Retargeted(a: Naming, b: Naming, keys: seq<string>): (m: Naming)
    requires a.Keys == b.Keys && Elements(keys) <= a.Keys
    ensures m.Keys == a.Keys
  {
    if keys == [] then a
    else
      var t := keys[|keys| - 1];
      TakeLast(keys);
      Taking(Retargeted(a, b, keys[..|keys| - 1]), t, b[t])
  }

  lemma TakeLast(keys: seq<string>)
    requires keys != []
    ensures Elements(keys[..|keys| - 1]) <= Elements(keys) && keys[|keys| - 1] in Elements(keys)
  {
  }

  lemma {:induction false} RetargetedFacts(a: Naming, b: Naming, keys: seq<string>)
    requires a.Keys == b.Keys && Elements(keys) <= a.Keys && Injective(a) && Injective(b)
    ensures Injective(Retargeted(a, b, keys)) && Between(a, b, Retargeted(a, b, keys))
    ensures forall t :: t in a && t !in keys ==> Retargeted(a, b, keys)[t] == a[t]
  {
    if keys == [] {
    } else {
      var before, last := keys[..|keys| - 1], keys[|keys| - 1];
      TakeLast(keys);
      RetargetedFacts(a, b, before);
      hide Taking, Injective, Between;
      TakingKeeps(a, b, Retargeted(a, b, before), last);
      forall t | t in a && t !in keys ensures Retargeted(a, b, keys)[t] == a[t] {
        assert t != last && t !in before;
        TakingOther(Retargeted(a, b, before), last, b[last], t);
      }
    }
  }

  lemma TakingKeeps(a: Naming, b: Naming, m: Naming, t: string)
    requires Injective(m) && Between(a, b, m) && t in m && t in b
    ensures Injective(Taking(m, t, b[t])) && Between(a, b, Taking(m, t, b[t]))
  {
  }

  lemma RetargetedTurn(a: Naming, b: Naming, keys: seq<string>, n: nat)
    requires a.Keys == b.Keys && n < |keys| && Elements(keys) <= a.Keys && keys[n] in b
    requires Elements(keys[..n]) <= a.Keys && Elements(keys[..n + 1]) <= a.Keys
    ensures Retargeted(a, b, keys[..n + 1]) == Taking(Retargeted(a, b, keys[..n]), keys[n], b[keys[n]])
  {
    hide Taking;
    assert keys[..n + 1][..n] == keys[..n];
  }

  /** Table `i` takes over the name of table `j`, which is renamed later. */
  ghost predicate LeftLater(keys: seq<string>, a: Naming, b: Naming, i: nat, j: nat)
  {
    && i < j < |keys| && keys[i] in a && keys[j] in a && keys[i] in b
    && a[keys[i]] != b[keys[i]] && b[keys[i]] == a[keys[j]]
  }

  /** A collection name is taken over only once its holder has been renamed away. */
  ghost predicate FreedInTime(keys: seq<string>, a: Naming, b: Naming)
  {
    forall i, j :: !LeftLater(keys, a, b, i, j)
  }

  /** The first `n` tables have their new names. */
  ghost predicate TakenOver(m: Naming, b: Naming, keys: seq<string>, n: nat)
  {
    forall k :: 0 <= k < n && k < |keys| ==> keys[k] in m && keys[k] in b && m[keys[k]] == b[keys[k]]
  }

  lemma {:induction false} RetargetedInTime(a: Naming, b: Naming, keys: seq<string>, n: nat)
    requires a.Keys == b.Keys && Elements(keys) == a.Keys && NoDuplicates(keys) && Injective(a) && Injective(b)
    requires FreedInTime(keys, a, b) && n <= |keys| && Elements(keys[..n]) <= a.Keys
    ensures TakenOver(Retargeted(a, b, keys[..n]), b, keys, n)
  {
    if n > 0 {
      var before, t := keys[..n - 1], keys[n - 1];
      assert t in Elements(keys);
      TakeNext(keys, n - 1);
      RetargetedInTime(a, b, keys, n - 1);
      RetargetedFacts(a, b, before);
      RetargetedTurn(a, b, keys, n - 1);
      var m := Retargeted(a, b, before);
      if a[t] == b[t] {
        NameKept(m, t, b[t]);
      } else {
        forall u | u in m && u != t ensures m[u] != b[t] {
          NameFree(a, b, keys, n - 1, m, u);
        }
      }
      hide Retargeted, Injective, FreedInTime;
      TakesTurn(m, b, keys, n - 1);
    }
  }

  lemma TakesTurn(m: Naming, b: Naming, keys: seq<string>, n: nat)
    requires n < |keys| && NoDuplicates(keys) && keys[n] in m && keys[n] in b && TakenOver(m, b, keys, n)
    requires m[keys[n]] == b[keys[n]] || forall u :: u in m && u != keys[n] ==> m[u] != b[keys[n]]
    ensures TakenOver(Taking(m, keys[n], b[keys[n]]), b, keys, n + 1)
  {
  }

  /** At its turn the new name of a table is nobody else's. */
  lemma NameFree(a: Naming, b: Naming, keys: seq<string>, n: nat, m: Naming, u: string)
    requires a.Keys == b.Keys == m.Keys == Elements(keys) && NoDuplicates(keys) && Injective(b) && FreedInTime(keys, a, b)
    requires n < |keys| && keys[n] in a && a[keys[n]] != b[keys[n]] && TakenOver(m, b, keys, n)
    requires (u !in keys[..n] ==> u in m && u in a && m[u] == a[u]) && u in m && u != keys[n]
    ensures m[u] != b[keys[n]]
  {
    assert u in Elements(keys);
    var j :| 0 <= j < |keys| && keys[j] == u;
    if j < n {
      assert m[u] == b[u];
    } else {
      assert !LeftLater(keys, a, b, n, j);
      LaterNotBefore(keys, n, j);
    }
  }

  lemma TakingHeld(m: Naming, t: string, name: string, u: string)
    requires u in m && m[u] == name
    ensures Taking(m, t, name) == m
  {
  }

  lemma TakingOther(m: Naming, t: string, name: string, u: string)
    requires u in m && u != t
    ensures u in Taking(m, t, name) && Taking(m, t, name)[u] == m[u]
  {
  }

  /** A table whose new name is held by one renamed later keeps its old one. */
  lemma {:induction false} RetargetedTooLate(a: Naming, b: Naming, keys: seq<string>, i: nat, j: nat, n: nat)
    requires a.Keys == b.Keys && Elements(keys) == a.Keys && NoDuplicates(keys) && Injective(a) && Injective(b)
    requires LeftLater(keys, a, b, i, j)
    requires i < n <= |keys| && Elements(keys[..n]) <= a.Keys
    ensures Retargeted(a, b, keys[..n])[keys[i]] == a[keys[i]]
  {
    hide Retargeted, Injective, Taking;
    var before, t := keys[..n - 1], keys[n - 1];
    TakeNext(keys, n - 1);
    assert t in Elements(keys);
    RetargetedTurn(a, b, keys, n - 1);
    var m := Retargeted(a, b, before);
    if n - 1 == i {
      RetargetedFacts(a, b, before);
      LaterNotBefore(keys, i, j);
      TakingHeld(m, t, b[t], keys[j]);
      assert t !in before;
    } else {
      assert t != keys[i];
      RetargetedTooLate(a, b, keys, i, j, n - 1);
      TakingOther(m, t, b[t], keys[i]);
    }
  }

  lemma LaterNotBefore(keys: seq<string>, i: nat, j: nat)
    requires NoDuplicates(keys) && i <= j < |keys|
    ensures keys[j] !in keys[..i]
  {
    forall k | 0 <= k < i ensures keys[..i][k] != keys[j] {
      assert keys[k] != keys[j];
    }
  }

  /** Actions without effect on the collections. */
  ghost predicate NoEffect(actions: seq<Action>)
  {
    forall x :: x in actions ==> x.ReloadEdge? || x.RebuildGraph?
  }

  lemma {:induction false} ExecuteNothing(db: Database, actions: seq<Action>)
    requires NoEffect(actions)
    ensures Execute(db, actions) == db
  {
    if actions != [] {
      ExecuteNothing(db, actions[..|actions| - 1]);
      assert actions[|actions| - 1] in actions;
    }
  }

  /** Adding actions without effect to a plan does not change what it does. */
  lemma AddNothing(db: Database, plan: seq<Action>, actions: seq<Action>)
    requires NoEffect(actions)
    ensures Execute(db, AddAll(plan, actions)) == Execute(db, plan)
  {
    var rest := AddAllSplits(plan, actions);
    ExecuteMore(db, plan, rest);
    ExecuteNothing(Execute(db, plan), rest);
  }

  /** The mappings differ in collection names only. */
  ghost predicate SameFields(before: Mapping, after: Mapping)
  {
    && NoDuplicates(before.keys) && Elements(before.keys) == before.tables.Keys == after.tables.Keys
    && forall t :: t in before.tables ==> before.tables[t].fields == after.tables[t].fields
  }

  ghost function TargetsOf(m: Mapping): Naming
  {
    map t | t in m.tables :: m.tables[t].target
  }

  lemma {:induction false} NoFieldActions(before: Mapping, after: Mapping, keys: seq<string>)
    requires SameFields(before, after)
    ensures AllFieldActions(before, after, keys) == []
  {
    if keys != [] {
      NoFieldActions(before, after, keys[..|keys| - 1]);
      var t := keys[|keys| - 1];
      if t in before.tables {
        var f, g := before.tables[t], after.tables[t];
        SameFieldsNoAction(f, g, f.fields.columns + g.fields.columns);
      }
    }
  }

  lemma {:induction false} SameFieldsNoAction(a: Table, b: Table, columns: seq<string>)
    requires a.fields == b.fields
    ensures FieldActions(a, b, columns) == []
  {
    if columns != [] {
      SameFieldsNoAction(a, b, columns[..|columns| - 1]);
    }
  }

  /** Planned renames are of the tables gone through. */
  lemma {:induction false} RenamesOfKeys(before: Mapping, after: Mapping, keys: seq<string>, x: Action)
    requires x in AllCollectionActions(before, after, keys) && x.RenameCollection?
    ensures exists t :: t in keys && t in before.tables && x.from == before.tables[t].target
  {
    var n := |keys| - 1;
    assert keys == keys[..n] + [keys[n]];
    if x in AllCollectionActions(before, after, keys[..n]) {
      RenamesOfKeys(before, after, keys[..n], x);
      var t :| t in keys[..n] && t in before.tables && x.from == before.tables[t].target;
      assert t in keys;
    } else {
      AffectedReloads(before.edges, keys[n]);
      AffectedReloads(after.edges, keys[n]);
      assert keys[n] in keys;
    }
  }

  /** The database holds the tables' documents under these collection names, beside the others. */
  ghost predicate Stores(db: Database, m: Naming, values: Database, others: Database)
  {
    Injective(m) && values.Keys == m.Keys && db == Keyed(m, values) + others
  }

  /** The renames of the first `n` tables have been executed: every collection keeps
      its documents, under the names `Retargeted` gives. */
  ghost predicate RenamedSoFar(before: Mapping, after: Mapping, a: Naming, b: Naming,
                               db: Database, values: Database, others: Database, n: nat)
    requires a.Keys == b.Keys && n <= |before.keys| && Elements(before.keys) <= a.Keys
  {
    TakeSome(before.keys, n);
    Stores(Execute(db, AddAll([], AllCollectionActions(before, after, before.keys[..n]))),
           Retargeted(a, b, before.keys[..n]), values, others)
  }

  lemma TakeSome(keys: seq<string>, n: nat)
    requires n <= |keys|
    ensures Elements(keys[..n]) <= Elements(keys)
  {
    forall t | t in Elements(keys[..n]) ensures t in Elements(keys) {
      var k :| 0 <= k < n && keys[..n][k] == t;
      assert keys[k] == t;
    }
  }

  lemma {:induction false} CollectionsRenamed(before: Mapping, after: Mapping, a: Naming, b: Naming,
                                              db: Database, values: Database, others: Database, n: nat)
    requires SameFields(before, after) && a == TargetsOf(before) && b == TargetsOf(after)
    requires n <= |before.keys| && Injective(a) && Injective(b) && Apart(others, a, b) && Stores(db, a, values, others)
    ensures RenamedSoFar(before, after, a, b, db, values, others, n)
  {
    hide Stores, Injective, Apart;
    if n == 0 {
      assert before.keys[..0] == [];
      assert Execute(db, AddAll([], [])) == db;
    } else {
      hide Execute, AddAll, AllCollectionActions, SameFields, TargetsOf;
      CollectionsRenamed(before, after, a, b, db, values, others, n - 1);
      CollectionTurn(before, after, a, b, db, values, others, n - 1);
    }
  }

  lemma ActionsOf(before: Mapping, after: Mapping, t: string)
    requires t in before.tables && t in after.tables
    ensures var a, b := before.tables[t].target, after.tables[t].target;
      CollectionActions(before, after, t)
      == if a == b then [] else [RenameCollection(a, b)] + (Affected(before.edges, t) + Affected(after.edges, t))
  {
    hide Affected;
  }

  lemma AllCollectionActionsNext(before: Mapping, after: Mapping, keys: seq<string>, t: string)
    ensures AllCollectionActions(before, after, keys + [t]) == AllCollectionActions(before, after, keys) + CollectionActions(before, after, t)
  {
    hide CollectionActions;
    assert (keys + [t])[..|keys|] == keys;
  }

  /** The plan of one table more: its rename, if its name changes, and actions without effect. */
  lemma PlanTurn(before: Mapping, after: Mapping, db: Database, keys: seq<string>, t: string)
    requires Injective(TargetsOf(before)) && t in before.tables && t in after.tables && t !in keys
    ensures var done := Execute(db, AddAll([], AllCollectionActions(before, after, keys)));
      var a, b := before.tables[t].target, after.tables[t].target;
      Execute(db, AddAll([], AllCollectionActions(before, after, keys + [t])))
      == if a == b then done else Do(done, RenameCollection(a, b))
  {
    var first, here := AllCollectionActions(before, after, keys), CollectionActions(before, after, t);
    AllCollectionActionsNext(before, after, keys, t);
    ActionsOf(before, after, t);
    var x := RenameCollection(before.tables[t].target, after.tables[t].target);
    RenameIsNew(before, after, keys, t);
    hide Execute, Do, AllCollectionActions, CollectionActions, Affected, TargetsOf, Injective, AddAll;
    var plan := AddAll([], first);
    AddAllMore([], first, here);
    if x.from != x.to {
      PlanAdds(db, plan, x, Affected(before.edges, t) + Affected(after.edges, t), before.edges, after.edges, t);
    } else {
      NothingMore(plan);
    }
  }

  lemma NothingMore(plan: seq<Action>)
    ensures AddAll(plan, []) == plan
  {
  }

  lemma RenameIsNew(before: Mapping, after: Mapping, keys: seq<string>, t: string)
    requires Injective(TargetsOf(before)) && t in before.tables && t in after.tables && t !in keys
    ensures RenameCollection(before.tables[t].target, after.tables[t].target) !in AddAll([], AllCollectionActions(before, after, keys))
  {
    hide AddAll, AllCollectionActions;
    var first := AllCollectionActions(before, after, keys);
    var rest := AddAllSplits([], first);
    forall y | y in first && y.RenameCollection? ensures y.from != before.tables[t].target {
      RenamesOfKeys(before, after, keys, y);
      var u :| u in keys && u in before.tables && y.from == before.tables[u].target;
      var a := TargetsOf(before);
      assert u in a && t in a && u != t;
      assert a[u] != a[t];
    }
  }

  lemma PlanAdds(db: Database, plan: seq<Action>, x: Action, noise: seq<Action>, p: seq<Edge>, q: seq<Edge>, t: string)
    requires x !in plan && noise == Affected(p, t) + Affected(q, t)
    ensures Execute(db, AddAll(plan, [x] + noise)) == Do(Execute(db, plan), x)
  {
    AffectedReloads(p, t);
    AffectedReloads(q, t);
    hide Affected, Do;
    AddAllMore(plan, [x], noise);
    AddOne(plan, x);
    hide AddAll;
    AddNothing(db, plan + [x], noise);
    assert (plan + [x])[..|plan|] == plan;
  }

  lemma SkippedRename(db: Database, from: string, to: string)
    requires to in db
    ensures Do(db, RenameCollection(from, to)) == db
  {
  }

  lemma InjectiveUpdate(m: Naming, t: string, name: string)
    requires Injective(m) && forall u :: u in m ==> m[u] != name
    ensures Injective(m[t := name])
  {
  }

  lemma DoRenameSkipped(db: Database, m: Naming, values: Database, others: Database, from: string, to: string,
                        u: string)
    requires Stores(db, m, values, others) && u in m && m[u] == to
    ensures Stores(Do(db, RenameCollection(from, to)), m, values, others)
  {
    KeyedKeys(m, values, others, to);
    SkippedRename(db, from, to);
  }

  lemma DoRenameMoves(db: Database, m: Naming, values: Database, others: Database, t: string, to: string)
    requires Stores(db, m, values, others) && t in m && (forall u :: u in m ==> m[u] != to)
    requires m[t] !in others && to !in others
    ensures Stores(Do(db, RenameCollection(m[t], to)), m[t := to], values, others)
  {
    hide Do, Stores, RenameKey;
    MovesCollection(db, m, values, others, t, to);
    DoRename(db, m[t], to);
  }

  lemma MovesCollection(db: Database, m: Naming, values: Database, others: Database, t: string, to: string)
    requires Stores(db, m, values, others) && t in m && (forall u :: u in m ==> m[u] != to)
    requires m[t] !in others && to !in others
    ensures to !in db && Stores(RenameKey(db, m[t], to), m[t := to], values, others)
  {
    InjectiveUpdate(m, t, to);
    KeyedKeys(m, values, others, to);
    KeyedIsKeyed(m, values);
    var d := Keyed(m, values);
    assert forall u :: u in m && u != t ==> m[u] != m[t];
    assert m[t := to].Keys == m.Keys;
    hide Keyed, IsKeyed, Injective, RenameKey;
    KeyMovedBeside(d, m, t, values, to, others);
  }

  /** One rename: skipped while the new name is there, else the collection moves. */
  lemma RenameTurn(db: Database, m: Naming, values: Database, others: Database, t: string, from: string, to: string)
    requires Stores(db, m, values, others) && from !in others && to !in others && t in m && m[t] == from
    ensures Stores(Do(db, RenameCollection(from, to)), Taking(m, t, to), values, others)
  {
    hide Do, Stores;
    if u :| u in m && m[u] == to {
      DoRenameSkipped(db, m, values, others, from, to, u);
    } else {
      DoRenameMoves(db, m, values, others, t, to);
    }
  }

  lemma ApartNames(a: Naming, b: Naming, others: Database, t: string)
    requires Apart(others, a, b) && t in a && t in b
    ensures a[t] !in others && b[t] !in others
  {
    assert a[t] in a.Values && b[t] in b.Values;
  }

  lemma CollectionTurn(before: Mapping, after: Mapping, a: Naming, b: Naming,
                       db: Database, values: Database, others: Database, n: nat)
    requires SameFields(before, after) && a == TargetsOf(before) && b == TargetsOf(after)
    requires n < |before.keys| && Injective(a) && Injective(b) && Apart(others, a, b)
    requires RenamedSoFar(before, after, a, b, db, values, others, n)
    ensures RenamedSoFar(before, after, a, b, db, values, others, n + 1)
  {
    hide Execute, Retargeted, Do, AddAll, AllCollectionActions, Stores, Taking, Apart;
    var keys, t := before.keys[..n], before.keys[n];
    TakeNext(before.keys, n);
    TakeSome(before.keys, n);
    TakeSome(before.keys, n + 1);
    assert t in Elements(before.keys) && t !in Elements(keys);
    RetargetedFacts(a, b, keys);
    PlanTurn(before, after, db, keys, t);
    RetargetedTurn(a, b, before.keys, n);
    var m := Retargeted(a, b, keys);
    assert before.tables[t].target == a[t] && after.tables[t].target == b[t] && m[t] == a[t];
    hide SameFields, TargetsOf, Injective;
    if a[t] != b[t] {
      ApartNames(a, b, others, t);
      RenameTurn(Execute(db, AddAll([], AllCollectionActions(before, after, keys))), m, values, others, t, a[t], b[t]);
    } else {
      NameKept(m, t, b[t]);
    }
  }

  lemma NameKept(m: Naming, t: string, name: string)
    requires t in m && m[t] == name
    ensures Taking(m, t, name) == m
  {
  }

  // ----- exactly when the collections are carried over

  ghost predicate CarriesCollections(before: Mapping, after: Mapping, a: Naming, b: Naming, values: Database,
                                     others: Database)
    requires Injective(a) && Injective(b) && a.Keys == b.Keys == values.Keys
  {
    Execute(Keyed(a, values) + others, Plan(before, after)) == Keyed(b, values) + others
  }

  lemma PlanIsRenames(before: Mapping, after: Mapping, db: Database)
    requires SameFields(before, after)
    ensures Execute(db, Plan(before, after)) == Execute(db, AddAll([], AllCollectionActions(before, after, before.keys)))
  {
    NoFieldActions(before, after, before.keys);
    var collections := AddAll([], AllCollectionActions(before, after, before.keys));
    assert AddAll(collections, []) == collections;
    AddOne(collections, RebuildGraph);
    AddNothing(db, collections, [RebuildGraph]);
  }

  lemma PlanRetargets(before: Mapping, after: Mapping, a: Naming, b: Naming, db: Database, values: Database,
                      others: Database)
    requires SameFields(before, after) && a == TargetsOf(before) && b == TargetsOf(after)
    requires Injective(a) && Injective(b) && Apart(others, a, b) && Stores(db, a, values, others)
    ensures a.Keys == b.Keys && Elements(before.keys) <= a.Keys
    ensures Stores(Execute(db, Plan(before, after)), Retargeted(a, b, before.keys), values, others)
  {
    hide Execute, Retargeted, AddAll, AllCollectionActions, Plan, Injective, Apart, Stores;
    CollectionsRenamed(before, after, a, b, db, values, others, |before.keys|);
    assert before.keys[..|before.keys|] == before.keys;
    PlanIsRenames(before, after, db);
  }

  /** For mappings that differ in collection names only, with distinct names on both
      sides: the plan gives the database loaded again, for all collections' contents,
      exactly when each name taken over has been freed by then. */
  lemma CollectionsExactly(before: Mapping, after: Mapping)
    requires SameFields(before, after) && Injective(TargetsOf(before)) && Injective(TargetsOf(after))
    ensures var a, b := TargetsOf(before), TargetsOf(after);
      (forall values: Database, others: Database :: values.Keys == a.Keys && Apart(others, a, b) ==>
         CarriesCollections(before, after, a, b, values, others))
      <==> FreedInTime(before.keys, a, b)
  {
    var a, b := TargetsOf(before), TargetsOf(after);
    if FreedInTime(before.keys, a, b) {
      forall values: Database, others: Database | values.Keys == a.Keys && Apart(others, a, b)
        ensures CarriesCollections(before, after, a, b, values, others)
      {
        PlanRetargets(before, after, a, b, Keyed(a, values) + others, values, others);
        AllInTime(before, after, a, b);
      }
    } else {
      var i: nat, j: nat :| LeftLater(before.keys, a, b, i, j);
      TooLate(before, after, a, b, i, j);
    }
  }

  lemma AllInTime(before: Mapping, after: Mapping, a: Naming, b: Naming)
    requires SameFields(before, after) && a == TargetsOf(before) && b == TargetsOf(after) && Injective(a) && Injective(b)
    requires FreedInTime(before.keys, a, b)
    ensures Retargeted(a, b, before.keys) == b
  {
    var n := |before.keys|;
    assert before.keys[..n] == before.keys;
    RetargetedInTime(a, b, before.keys, n);
    hide Retargeted, FreedInTime, Injective;
    var m := Retargeted(a, b, before.keys);
    forall t | t in a ensures m[t] == b[t] {
      assert t in Elements(before.keys);
      var k :| 0 <= k < n && before.keys[k] == t;
    }
  }

  const NOTHING_ELSE: Database := map[]

  /** Each collection with a document that names its table. */
  ghost function Labelled(a: Naming): Database
  {
    map t | t in a :: map[t := map[]]
  }

  lemma TooLate(before: Mapping, after: Mapping, a: Naming, b: Naming, i: nat, j: nat)
    requires SameFields(before, after) && a == TargetsOf(before) && b == TargetsOf(after) && Injective(a) && Injective(b)
    requires LeftLater(before.keys, a, b, i, j)
    ensures Labelled(a).Keys == a.Keys && Apart(NOTHING_ELSE, a, b)
    ensures !CarriesCollections(before, after, a, b, Labelled(a), NOTHING_ELSE)
  {
    var keys, db := before.keys, Keyed(a, Labelled(a)) + NOTHING_ELSE;
    assert Labelled(a).Keys == a.Keys && Apart(NOTHING_ELSE, a, b) && a.Keys == b.Keys;
    assert Stores(db, a, Labelled(a), NOTHING_ELSE);
    hide Retargeted, Injective, Keyed, Execute, Plan, SameFields, TargetsOf, Stores, Labelled, Apart;
    PlanRetargets(before, after, a, b, db, Labelled(a), NOTHING_ELSE);
    NameLeft(before, after, a, b, i, j);
    OtherNames(Execute(db, Plan(before, after)), Retargeted(a, b, keys), b, a, keys[i]);
    NotCarried(before, after, a, b, db);
  }

  lemma NotCarried(before: Mapping, after: Mapping, a: Naming, b: Naming, db: Database)
    requires Injective(a) && Injective(b) && a.Keys == b.Keys == Labelled(a).Keys
    requires db == Keyed(a, Labelled(a)) + NOTHING_ELSE && !Stores(Execute(db, Plan(before, after)), b, Labelled(a), NOTHING_ELSE)
    ensures !CarriesCollections(before, after, a, b, Labelled(a), NOTHING_ELSE)
  {
    hide Execute, Plan, Keyed, Labelled, Injective;
  }

  lemma NameLeft(before: Mapping, after: Mapping, a: Naming, b: Naming, i: nat, j: nat)
    requires SameFields(before, after) && a == TargetsOf(before) && b == TargetsOf(after) && Injective(a) && Injective(b)
    requires LeftLater(before.keys, a, b, i, j)
    ensures a.Keys == b.Keys && Elements(before.keys) <= a.Keys && before.keys[i] in a
    ensures Retargeted(a, b, before.keys)[before.keys[i]] != b[before.keys[i]]
  {
    var keys := before.keys;
    assert keys[..|keys|] == keys;
    hide Retargeted;
    RetargetedTooLate(a, b, keys, i, j, |keys|);
  }

  /** Under other names the labelled collections are another database. */
  lemma OtherNames(db: Database, m: Naming, b: Naming, a: Naming, t: string)
    requires Stores(db, m, Labelled(a), NOTHING_ELSE) && t in m && t in b && m[t] != b[t]
    ensures !Stores(db, b, Labelled(a), NOTHING_ELSE)
  {
    hide Labelled, Stores;
    if Stores(db, b, Labelled(a), NOTHING_ELSE) {
      StoredAt(db, b, Labelled(a), t);
      var u := OwnerOf(db, m, Labelled(a), b[t]);
      LabelsDiffer(a, t, u);
    }
  }

  lemma StoredAt(db: Database, m: Naming, values: Database, t: string)
    requires Stores(db, m, values, NOTHING_ELSE) && t in m
    ensures t in values && m[t] in db && db[m[t]] == values[t]
  {
    KeyedIsKeyed(m, values);
    assert Owns(m, values, t, m[t]);
  }

  lemma OwnerOf(db: Database, m: Naming, values: Database, k: string) returns (t: string)
    requires Stores(db, m, values, NOTHING_ELSE) && k in db
    ensures t in m && m[t] == k && t in values && db[k] == values[t]
  {
    KeyedIsKeyed(m, values);
    t :| Owns(m, values, t, k);
  }

  lemma LabelsDiffer(a: Naming, t: string, u: string)
    requires t in Labelled(a) && u in Labelled(a) && t != u
    ensures Labelled(a)[t] != Labelled(a)[u]
  {
    assert t in Labelled(a)[t] && t !in Labelled(a)[u];
  }

  /** Two tables that swap collections, one of which also renames an attribute: both
      renames are skipped, and the attribute is renamed in the other table's documents. */
  lemma SwapUpdatesOther(t: string, u: string, p: string, q: string, c: string, x: string, y: string, docsT: Documents,
                         docsU: Documents)
    requires t != u && p != q && x != y && x !in RESERVED && y !in RESERVED
    ensures var before := Mapping([t, u], map[t := Table(p, Fields([c], map[c := x])), u := Table(q, Fields([], map[]))], []);
      var after := Mapping([t, u], map[t := Table(q, Fields([c], map[c := y])), u := Table(p, Fields([], map[]))], []);
      && Plan(before, after) == [RenameCollection(p, q), RenameCollection(q, p), UpdateDocuments(q, x, y), RebuildGraph]
      && Execute(map[p := docsT, q := docsU], Plan(before, after)) == map[p := docsT, q := RenameAttribute(docsU, x, y)]
  {
    var before := Mapping([t, u], map[t := Table(p, Fields([c], map[c := x])), u := Table(q, Fields([], map[]))], []);
    var after := Mapping([t, u], map[t := Table(q, Fields([c], map[c := y])), u := Table(p, Fields([], map[]))], []);
    SwapCollectionsPlan(before, after, t, u, p, q, c, x, y);
    SwapCollectionsRun(p, q, x, y, docsT, docsU);
  }

  lemma SwapCollectionsPlan(before: Mapping, after: Mapping, t: string, u: string, p: string, q: string, c: string,
                            x: string, y: string)
    requires t != u && p != q && x != y && x !in RESERVED && y !in RESERVED
    requires before == Mapping([t, u], map[t := Table(p, Fields([c], map[c := x])), u := Table(q, Fields([], map[]))], [])
    requires after == Mapping([t, u], map[t := Table(q, Fields([c], map[c := y])), u := Table(p, Fields([], map[]))], [])
    ensures Plan(before, after) == [RenameCollection(p, q), RenameCollection(q, p), UpdateDocuments(q, x, y), RebuildGraph]
  {
    hide CollectionActions, TableFieldActions, AllCollectionActions, AllFieldActions, AddAll;
    var first, second, third := RenameCollection(p, q), RenameCollection(q, p), UpdateDocuments(q, x, y);
    SwapActions(before, after, t, u, p, q, c, x, y);
    TwoTables(before, after, t, u);
    assert [third, third] + [] == [third, third];
    SwapAdds(first, second, third);
  }

  lemma SwapActions(before: Mapping, after: Mapping, t: string, u: string, p: string, q: string, c: string, x: string,
                    y: string)
    requires t != u && p != q && x != y && x !in RESERVED && y !in RESERVED
    requires before == Mapping([t, u], map[t := Table(p, Fields([c], map[c := x])), u := Table(q, Fields([], map[]))], [])
    requires after == Mapping([t, u], map[t := Table(q, Fields([c], map[c := y])), u := Table(p, Fields([], map[]))], [])
    ensures CollectionActions(before, after, t) == [RenameCollection(p, q)]
    ensures CollectionActions(before, after, u) == [RenameCollection(q, p)]
    ensures TableFieldActions(before, after, t) == [UpdateDocuments(q, x, y), UpdateDocuments(q, x, y)]
    ensures TableFieldActions(before, after, u) == []
  {
    assert FieldAction(before.tables[t], after.tables[t], c) == [UpdateDocuments(q, x, y)];
    SwapFields(before.tables[t], after.tables[t], before.tables[u], after.tables[u], c, UpdateDocuments(q, x, y));
    hide FieldActions, FieldAction;
  }

  lemma TwoTables(before: Mapping, after: Mapping, t: string, u: string)
    ensures AllCollectionActions(before, after, [t, u]) == CollectionActions(before, after, t) + CollectionActions(before, after, u)
    ensures AllFieldActions(before, after, [t, u]) == TableFieldActions(before, after, t) + TableFieldActions(before, after, u)
  {
    hide CollectionActions, TableFieldActions;
    assert [t, u][..1] == [t] && [t][..0] == [];
    assert AllCollectionActions(before, after, [t]) == CollectionActions(before, after, t);
    assert AllFieldActions(before, after, [t]) == TableFieldActions(before, after, t);
  }

  lemma SwapFields(a: Table, b: Table, d: Table, e: Table, c: string, third: Action)
    requires a.fields.columns == [c] == b.fields.columns && d.fields.columns == [] == e.fields.columns
    requires FieldAction(a, b, c) == [third]
    ensures FieldActions(a, b, a.fields.columns + b.fields.columns) == [third, third]
    ensures FieldActions(d, e, d.fields.columns + e.fields.columns) == []
  {
    FieldActionsNext(a, b, [], c);
    FieldActionsNext(a, b, [c], c);
    assert [] + [c] == [c] && [third] + [third] == [third, third];
  }

  lemma SwapAdds(first: Action, second: Action, third: Action)
    requires first != second && third != first && third != second && first.RenameCollection? && third.UpdateDocuments? && second.RenameCollection?
    ensures var collections := AddAll([], [first] + [second]);
      collections == [first, second] && Renames(collections) && AddAll(collections, [third, third]) == [first, second, third]
  {
    AddAllMore([], [first], [second]);
    AddOne([], first);
    AddOne([first], second);
    assert [first, second][0].RenameCollection?;
    AddAllMore([first, second], [third], [third]);
    AddOne([first, second], third);
    AddOne([first, second, third], third);
    assert [third] + [third] == [third, third];
  }

  lemma SwapCollectionsRun(p: string, q: string, x: string, y: string, docsT: Documents, docsU: Documents)
    requires p != q && x !in RESERVED && y !in RESERVED
    ensures Execute(map[p := docsT, q := docsU], [RenameCollection(p, q), RenameCollection(q, p), UpdateDocuments(q, x, y), RebuildGraph])
         == map[p := docsT, q := RenameAttribute(docsU, x, y)]
  {
    var db: Database := map[p := docsT, q := docsU];
    var plan := [RenameCollection(p, q), RenameCollection(q, p), UpdateDocuments(q, x, y), RebuildGraph];
    SkippedRename(db, p, q);
    SkippedRename(db, q, p);
    assert plan[..3][..2] == plan[..2] && plan[..2] == [plan[0], plan[1]] && plan[..4] == plan && plan[..4][..3] == plan[..3];
    ExecuteTwo(db, plan[0], plan[1]);
    assert Execute(db, plan[..3]) == Do(db, plan[2]);
  }
}
