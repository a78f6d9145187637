/**
 Executing a plan with a source connected (src/r2g/selective_reload.py,
 src/r2g/streaming/pipeline.py): which collections exist and which collections
 the relationship documents point into. What documents hold besides is left to
 `MappingReload`.
 */
module ConnectedReload {
  import opened MappingReload
  import opened RelationshipReloads
  import Names

  /** The collections a relationship document points from and to. */
  datatype Ends = Ends(from: string, to: string)

  /** The document collections, and the relationship collections with their documents by key. */
  datatype World = World(collections: set<string>, links: map<string, map<string, Ends>>)

  /** The keys of the documents the source holds for each relationship. */
  type Rows = map<Edge, set<string>>

  // ----- loading

  function TargetOf(m: Mapping, table: string): string
  {
    if table in m.tables then m.tables[table].target else table
  }

  function LinksOf(m: Mapping, rows: Rows, e: Edge): map<string, Ends>
  {
    map k | e in rows && k in rows[e] :: Ends(TargetOf(m, e.from), TargetOf(m, e.to))
  }

  /** The relationships of `edges` that start at the table are loaded, in order, over what is there. */
  function LoadLinks(m: Mapping, rows: Rows, links: map<string, map<string, Ends>>, edges: seq<Edge>, table: string)
    : map<string, map<string, Ends>>
  {
    if edges == [] then links
    else
      var sofar, e := LoadLinks(m, rows, links, edges[..|edges| - 1], table), edges[|edges| - 1];
      if e.from != table then sofar
      else sofar[e.name := (if e.name in sofar then sofar[e.name] else map[]) + LinksOf(m, rows, e)]
  }

  /** The first relationship of this name. */
  function FirstNamed(edges: seq<Edge>, name: string): (i: nat)
    ensures i <= |edges| && (i < |edges| ==> edges[i].name == name)
    ensures forall j :: 0 <= j < i ==> edges[j].name != name
  {
    if edges == [] || edges[0].name == name then 0 else 1 + FirstNamed(edges[1..], name)
  }

  /** `_reload_edge`: the collection is emptied, and its first relationship's table is loaded
      again, its documents and every relationship that starts there. */
  function Reload(m: Mapping, rows: Rows, w: World, name: string): World
  {
    var i := FirstNamed(m.edges, name);
    if i == |m.edges| then w
    else
      var table := m.edges[i].from;
      World(w.collections + (if table in m.tables then {m.tables[table].target} else {}),
            LoadLinks(m, rows, w.links[name := map[]], m.edges, table))
  }

  function DoConnected(m: Mapping, rows: Rows, w: World, action: Action): World
  {
    match action
    case RenameCollection(from, to) =>
      if from == to || to in w.collections || to in w.links || from !in w.collections then w
      else w.(collections := w.collections - {from} + {to})
    case ReloadEdge(name) => Reload(m, rows, w, name)
    case UpdateDocuments(_, _, _) => w
    case RebuildGraph => w
  }

  function ExecuteConnected(m: Mapping, rows: Rows, w: World, plan: seq<Action>): World
  {
    if plan == [] then w
    else DoConnected(m, rows, ExecuteConnected(m, rows, w, plan[..|plan| - 1]), plan[|plan| - 1])
  }

  /** The renames of collections are those of an unconnected execution. */
  lemma SameRenames(m: Mapping, rows: Rows, db: Database, from: string, to: string)
    ensures Do(db, RenameCollection(from, to)).Keys
      == DoConnected(m, rows, World(db.Keys, map[]), RenameCollection(from, to)).collections
  {
  }

  // ----- the relationships

  ghost predicate NamedApart(edges: seq<Edge>)
  {
    forall i, j :: 0 <= i < j < |edges| ==> edges[i].name != edges[j].name
  }

  /** Each relationship was loaded under one of the two mappings. */
  ghost predicate LoadedUnderEither(before: Mapping, after: Mapping, rows: Rows, links: map<string, map<string, Ends>>)
  {
    forall e :: e in after.edges ==>
      e.name in links && (links[e.name] == LinksOf(before, rows, e) || links[e.name] == LinksOf(after, rows, e))
  }

  ghost predicate LoadedUnder(m: Mapping, rows: Rows, links: map<string, map<string, Ends>>)
  {
    forall e :: e in m.edges ==> e.name in links && links[e.name] == LinksOf(m, rows, e)
  }

  /** Loading again what was loaded under either mapping replaces every document of it. */
  lemma LoadedOver(before: Mapping, after: Mapping, rows: Rows, e: Edge, held: map<string, Ends>)
    requires held == LinksOf(before, rows, e) || held == LinksOf(after, rows, e) || held == map[]
    ensures held + LinksOf(after, rows, e) == LinksOf(after, rows, e)
  {
  }

  function Held(links: map<string, map<string, Ends>>, name: string): map<string, Ends>
  {
    if name in links then links[name] else map[]
  }

  lemma {:induction false} LoadLinksBeside(m: Mapping, rows: Rows, links: map<string, map<string, Ends>>,
                                           edges: seq<Edge>, table: string, name: string)
    requires forall i :: 0 <= i < |edges| ==> edges[i].name != name || edges[i].from != table
    ensures var r := LoadLinks(m, rows, links, edges, table);
      (name in r <==> name in links) && Held(r, name) == Held(links, name)
  {
    if edges != [] {
      LoadLinksBeside(m, rows, links, edges[..|edges| - 1], table, name);
    }
  }

  lemma {:induction false} LoadLinksAt(m: Mapping, rows: Rows, links: map<string, map<string, Ends>>,
                                       edges: seq<Edge>, table: string, i: nat)
    requires NamedApart(edges) && i < |edges| && edges[i].from == table
    ensures var r, e := LoadLinks(m, rows, links, edges, table), edges[i];
      e.name in r && r[e.name] == Held(links, e.name) + LinksOf(m, rows, e)
  {
    var n := |edges| - 1;
    if i == n {
      LoadLinksBeside(m, rows, links, edges[..n], table, edges[n].name);
    } else {
      LoadLinksAt(m, rows, links, edges[..n], table, i);
    }
  }

  /** The mappings have the same relationships, each with a collection of its own. */
  ghost predicate SameEdges(before: Mapping, after: Mapping)
  {
    before.edges == after.edges && NamedApart(after.edges)
  }

  ghost predicate AnyOf(before: Mapping, after: Mapping, rows: Rows, links: map<string, map<string, Ends>>, i: nat)
    requires i < |after.edges|
  {
    var e := after.edges[i];
    e.name in links && (links[e.name] == LinksOf(before, rows, e) || links[e.name] == LinksOf(after, rows, e))
  }

  ghost predicate NewOf(after: Mapping, rows: Rows, links: map<string, map<string, Ends>>, i: nat)
    requires i < |after.edges|
  {
    var e := after.edges[i];
    e.name in links && links[e.name] == LinksOf(after, rows, e)
  }

  /** One action leaves a relationship loaded under one of the mappings, under the new one
      if it was, and under the new one if the action reloads it. */
  lemma ReloadKeeps(before: Mapping, after: Mapping, rows: Rows, w: World, action: Action, i: nat)
    requires SameEdges(before, after) && i < |after.edges| && AnyOf(before, after, rows, w.links, i)
    ensures var links := DoConnected(after, rows, w, action).links;
      && AnyOf(before, after, rows, links, i)
      && (NewOf(after, rows, w.links, i) || action == ReloadEdge(after.edges[i].name) ==> NewOf(after, rows, links, i))
  {
    if action.ReloadEdge? && FirstNamed(after.edges, action.name) < |after.edges| {
      var e, first := after.edges[i], FirstNamed(after.edges, action.name);
      var emptied := w.links[action.name := map[]];
      var table := after.edges[first].from;
      LoadedOver(before, after, rows, e, Held(emptied, e.name));
      if e.from == table {
        LoadLinksAt(after, rows, emptied, after.edges, table, i);
      } else {
        LoadLinksBeside(after, rows, emptied, after.edges, table, e.name);
      }
    }
  }

  lemma {:induction false} ReloadsKeep(before: Mapping, after: Mapping, rows: Rows, w: World, plan: seq<Action>, i: nat)
    requires SameEdges(before, after) && i < |after.edges| && AnyOf(before, after, rows, w.links, i)
    ensures var links := ExecuteConnected(after, rows, w, plan).links;
      && AnyOf(before, after, rows, links, i)
      && (NewOf(after, rows, w.links, i) || ReloadEdge(after.edges[i].name) in plan ==> NewOf(after, rows, links, i))
  {
    if plan != [] {
      var n := |plan| - 1;
      assert plan == plan[..n] + [plan[n]];
      ReloadsKeep(before, after, rows, w, plan[..n], i);
      ReloadKeeps(before, after, rows, ExecuteConnected(after, rows, w, plan[..n]), plan[n], i);
    }
  }

  /** Executing the plan leaves every relationship's documents as loading them under the new
      mapping does, wherever an earlier execution was stopped. */
  lemma LinksAreReloaded(before: Mapping, after: Mapping, rows: Rows, w: World)
    requires SameEdges(before, after) && Names.Elements(before.keys) == before.tables.Keys == after.tables.Keys
    requires LoadedUnderEither(before, after, rows, w.links)
    ensures LoadedUnder(after, rows, ExecuteConnected(after, rows, w, Plan(before, after)).links)
  {
    var plan := Plan(before, after);
    hide Plan, LinksOf, ExecuteConnected;
    PlannedExactly(before, after);
    forall e | e in after.edges
      ensures var links := ExecuteConnected(after, rows, w, plan).links;
        e.name in links && links[e.name] == LinksOf(after, rows, e)
    {
      var i :| 0 <= i < |after.edges| && after.edges[i] == e;
      ReloadsKeep(before, after, rows, w, plan, i);
      if ReloadEdge(e.name) !in plan {
        Untouched(before, after, rows, e);
      }
    }
  }

  /** What no renamed table joins is loaded alike under both mappings. */
  lemma Untouched(before: Mapping, after: Mapping, rows: Rows, e: Edge)
    requires e in after.edges && Names.Elements(before.keys) == before.tables.Keys == after.tables.Keys
    requires forall t :: Retargeted(before, after, t) ==> !Joins(before, after, e.name, t)
    ensures LinksOf(before, rows, e) == LinksOf(after, rows, e)
  {
    assert Joins(before, after, e.name, e.from) && Joins(before, after, e.name, e.to);
    assert TargetOf(before, e.from) == TargetOf(after, e.from) && TargetOf(before, e.to) == TargetOf(after, e.to) by {
      assert e.from in before.tables ==> e.from in Names.Elements(before.keys);
      assert e.to in before.tables ==> e.to in Names.Elements(before.keys);
    }
  }

  // ----- the collections

  /** Collection names are distinct on both sides, and new ones fresh: no table or relationship had them. */
  ghost predicate FreshTargets(before: Mapping, after: Mapping, w: World)
  {
    && Names.Elements(before.keys) == before.tables.Keys == after.tables.Keys
    && (forall t, u :: t in before.tables && u in before.tables && t != u ==>
          before.tables[t].target != before.tables[u].target && after.tables[t].target != after.tables[u].target)
    && (forall t, u :: t in before.tables && u in before.tables && Retargeted(before, after, t) ==>
          after.tables[t].target != before.tables[u].target)
    && (forall t :: Retargeted(before, after, t) ==> FreshName(after, w, after.tables[t].target))
    && (forall t :: t in before.tables ==> before.tables[t].target in w.collections)
  }

  ghost predicate FreshName(after: Mapping, w: World, name: string)
  {
    name !in w.collections && name !in w.links && forall e :: e in after.edges ==> e.name != name
  }

  function RenameOf(before: Mapping, after: Mapping, table: string): Action
    requires table in before.tables && table in after.tables
  {
    RenameCollection(before.tables[table].target, after.tables[table].target)
  }

  /** A relationship that starts at the table has been reloaded. */
  ghost predicate StartReloaded(after: Mapping, plan: seq<Action>, table: string)
  {
    exists e :: e in after.edges && e.from == table && ReloadEdge(e.name) in plan
  }

  /** ... before the table's collection was renamed. */
  ghost predicate StartReloadedFirst(before: Mapping, after: Mapping, plan: seq<Action>, table: string)
    requires table in before.tables && table in after.tables
  {
    exists e :: e in after.edges && e.from == table && Before(plan, ReloadEdge(e.name), RenameOf(before, after, table))
  }

  /** Which names of a renamed table exist once these actions were executed. */
  ghost predicate NamesAfter(before: Mapping, after: Mapping, done: seq<Action>, w: World, table: string)
    requires table in before.tables && table in after.tables
  {
    && after.tables[table].target !in w.links
    && (after.tables[table].target in w.collections <==>
          RenameOf(before, after, table) in done || StartReloaded(after, done, table))
    && (before.tables[table].target in w.collections <==>
          RenameOf(before, after, table) !in done || StartReloadedFirst(before, after, done, table))
  }

  lemma ReloadCreates(before: Mapping, after: Mapping, rows: Rows, w: World, name: string, table: string)
    requires SameEdges(before, after) && table in after.tables && table in before.tables
    ensures var r := Reload(after, rows, w, name);
      && (after.tables[table].target in r.collections <==>
            || after.tables[table].target in w.collections
            || exists e :: e in after.edges && e.name == name && e.from in after.tables
                 && after.tables[e.from].target == after.tables[table].target)
      && (before.tables[table].target in r.collections <==>
            || before.tables[table].target in w.collections
            || exists e :: e in after.edges && e.name == name && e.from in after.tables
                 && after.tables[e.from].target == before.tables[table].target)
  {
    var i := FirstNamed(after.edges, name);
    forall e | e in after.edges && e.name == name ensures i < |after.edges| && e == after.edges[i] {
      var j :| 0 <= j < |after.edges| && after.edges[j] == e;
    }
    if i < |after.edges| {
      assert after.edges[i] in after.edges;
    }
  }

  lemma {:induction false} LinksNamed(m: Mapping, rows: Rows, links: map<string, map<string, Ends>>, edges: seq<Edge>,
                                      table: string, name: string)
    requires name !in links && forall e :: e in edges ==> e.name != name
    ensures name !in LoadLinks(m, rows, links, edges, table)
  {
    LoadLinksBeside(m, rows, links, edges, table, name);
  }

  lemma ReloadNames(m: Mapping, rows: Rows, w: World, name: string, target: string)
    requires target !in w.links && forall e :: e in m.edges ==> e.name != target
    ensures target !in Reload(m, rows, w, name).links
  {
    var i := FirstNamed(m.edges, name);
    if i < |m.edges| {
      assert m.edges[i] in m.edges;
      LinksNamed(m, rows, w.links[name := map[]], m.edges, m.edges[i].from, target);
    }
  }

  lemma StartReloadedMore(after: Mapping, done: seq<Action>, x: Action, table: string)
    ensures StartReloaded(after, done + [x], table) <==>
      || StartReloaded(after, done, table)
      || exists e :: e in after.edges && e.from == table && x == ReloadEdge(e.name)
  {
  }

  lemma StartReloadedFirstMore(before: Mapping, after: Mapping, done: seq<Action>, x: Action, table: string)
    requires table in before.tables && table in after.tables && x !in done
    ensures StartReloadedFirst(before, after, done + [x], table) <==>
      if x == RenameOf(before, after, table) then StartReloaded(after, done, table)
      else StartReloadedFirst(before, after, done, table)
  {
    var r := RenameOf(before, after, table);
    forall e | e in after.edges
      ensures Before(done + [x], ReloadEdge(e.name), r) <==>
        if x == r then ReloadEdge(e.name) in done else Before(done, ReloadEdge(e.name), r)
    {
      if x == r {
        BeforeLast(done, ReloadEdge(e.name), r);
      } else {
        BeforeOneMore(done, x, ReloadEdge(e.name), r);
      }
    }
    hide Before;
  }

  lemma BeforeOneMore(done: seq<Action>, x: Action, y: Action, z: Action)
    requires x != z
    ensures Before(done + [x], y, z) <==> Before(done, y, z)
  {
    if i, j :| 0 <= i < j < |done| && done[i] == y && done[j] == z {
      assert (done + [x])[i] == y && (done + [x])[j] == z;
    }
  }

  /** Executing the table's own rename. */
  lemma OwnRename(before: Mapping, after: Mapping, rows: Rows, done: seq<Action>, w: World, table: string)
    requires Retargeted(before, after, table) && RenameOf(before, after, table) !in done
    requires NamesAfter(before, after, done, w, table)
    ensures var x := RenameOf(before, after, table);
      NamesAfter(before, after, done + [x], DoConnected(after, rows, w, x), table)
  {
    hide Before, StartReloadedFirst, StartReloaded;
    var x := RenameOf(before, after, table);
    StartReloadedMore(after, done, x, table);
    StartReloadedFirstMore(before, after, done, x, table);
    StartedBefore(before, after, done, table);
  }

  lemma StartedBefore(before: Mapping, after: Mapping, done: seq<Action>, table: string)
    requires table in before.tables && table in after.tables && RenameOf(before, after, table) !in done
    ensures !StartReloadedFirst(before, after, done, table)
  {
  }

  /** Executing any other action of a plan. */
  lemma OtherAction(before: Mapping, after: Mapping, rows: Rows, first: World, done: seq<Action>, w: World, x: Action,
                    table: string)
    requires SameEdges(before, after) && FreshTargets(before, after, first)
    requires Retargeted(before, after, table) && x != RenameOf(before, after, table) && x !in done
    requires x.RenameCollection? ==> exists u :: Retargeted(before, after, u) && x == RenameOf(before, after, u)
    requires NamesAfter(before, after, done, w, table)
    ensures NamesAfter(before, after, done + [x], DoConnected(after, rows, w, x), table)
  {
    hide Before, StartReloadedFirst, StartReloaded;
    StartReloadedMore(after, done, x, table);
    StartReloadedFirstMore(before, after, done, x, table);
    if x.RenameCollection? {
      OtherRename(before, after, rows, first, w, x, table);
      hide DoConnected;
    } else if x.ReloadEdge? {
      hide FreshTargets;
      OtherReload(before, after, rows, first, w, x.name, table);
    }
  }

  ghost predicate SameNames(before: Mapping, after: Mapping, v: World, w: World, table: string)
    requires table in before.tables && table in after.tables
  {
    && (after.tables[table].target in v.links <==> after.tables[table].target in w.links)
    && (after.tables[table].target in v.collections <==> after.tables[table].target in w.collections)
    && (before.tables[table].target in v.collections <==> before.tables[table].target in w.collections)
  }

  /** Renaming another table's collection leaves the names of this one. */
  lemma OtherRename(before: Mapping, after: Mapping, rows: Rows, first: World, w: World, x: Action, table: string)
    requires FreshTargets(before, after, first) && Retargeted(before, after, table) && x != RenameOf(before, after, table)
    requires x.RenameCollection? && exists u :: Retargeted(before, after, u) && x == RenameOf(before, after, u)
    ensures SameNames(before, after, w, DoConnected(after, rows, w, x), table)
  {
    var u :| Retargeted(before, after, u) && x == RenameOf(before, after, u);
    assert u != table;
  }

  /** Reloading a relationship adds the table's new collection if it starts there, and leaves the old one. */
  lemma OtherReload(before: Mapping, after: Mapping, rows: Rows, first: World, w: World, name: string, table: string)
    requires SameEdges(before, after) && FreshTargets(before, after, first) && Retargeted(before, after, table)
    requires after.tables[table].target !in w.links
    ensures var r := Reload(after, rows, w, name);
      && after.tables[table].target !in r.links
      && (after.tables[table].target in r.collections <==>
            || after.tables[table].target in w.collections
            || exists e :: e in after.edges && e.from == table && ReloadEdge(name) == ReloadEdge(e.name))
      && (before.tables[table].target in r.collections <==> before.tables[table].target in w.collections)
  {
    var target := after.tables[table].target;
    assert FreshName(after, first, target);
    hide FreshTargets, Reload;
    ReloadNames(after, rows, w, name, target);
    ReloadCreates(before, after, rows, w, name, table);
    StartOf(before, after, first, name, table);
  }

  /** Only a relationship that starts at the table can create its new collection, and none its old one. */
  lemma StartOf(before: Mapping, after: Mapping, first: World, name: string, table: string)
    requires SameEdges(before, after) && FreshTargets(before, after, first) && Retargeted(before, after, table)
    ensures (exists e :: e in after.edges && e.name == name && e.from in after.tables
               && after.tables[e.from].target == after.tables[table].target)
      <==> exists e :: e in after.edges && e.from == table && ReloadEdge(name) == ReloadEdge(e.name)
    ensures !(exists e :: e in after.edges && e.name == name && e.from in after.tables
                && after.tables[e.from].target == before.tables[table].target)
  {
    forall e | e in after.edges && e.from in after.tables
      ensures after.tables[e.from].target != before.tables[table].target
    {
      assert e.from in Names.Elements(before.keys);
      if !Retargeted(before, after, e.from) {
        assert e.from != table;
      }
    }
  }

  lemma {:induction false} NamesKeep(before: Mapping, after: Mapping, rows: Rows, w: World, plan: seq<Action>, k: nat,
                                     table: string)
    requires SameEdges(before, after) && FreshTargets(before, after, w) && Retargeted(before, after, table)
    requires plan == Plan(before, after) && k <= |plan|
    ensures NamesAfter(before, after, plan[..k], ExecuteConnected(after, rows, w, plan[..k]), table)
  {
    hide Plan, NamesAfter, DoConnected;
    if k == 0 {
      NamesAtFirst(before, after, w, table);
      assert plan[..0] == [];
    } else {
      var done, x := plan[..k - 1], plan[k - 1];
      NamesKeep(before, after, rows, w, plan, k - 1, table);
      PlannedExactly(before, after);
      assert plan[..k] == done + [x];
      assert x in plan && x !in done;
      if x == RenameOf(before, after, table) {
        OwnRename(before, after, rows, done, ExecuteConnected(after, rows, w, done), table);
      } else {
        RenameIsOf(before, after, x);
        OtherAction(before, after, rows, w, done, ExecuteConnected(after, rows, w, done), x, table);
      }
    }
  }

  lemma RenameIsOf(before: Mapping, after: Mapping, x: Action)
    requires x in Plan(before, after)
    ensures x.RenameCollection? ==> exists u :: Retargeted(before, after, u) && x == RenameOf(before, after, u)
  {
    PlannedExactly(before, after);
  }

  lemma NamesAtFirst(before: Mapping, after: Mapping, w: World, table: string)
    requires FreshTargets(before, after, w) && Retargeted(before, after, table)
    ensures NamesAfter(before, after, [], w, table)
  {
    assert FreshName(after, w, after.tables[table].target);
  }

  /** `a` occurs in `keys` before the first occurrence of `b`. */
  ghost predicate ListedBefore(keys: seq<string>, a: string, b: string)
  {
    exists j :: 0 <= j < |keys| && keys[j] == a && b !in keys[..j + 1]
  }

  /** The plan reloads a relationship that starts at the table before it renames the table's
      collection exactly when the relationship ends in a renamed table listed before it. */
  lemma ReloadedFirstExactly(before: Mapping, after: Mapping, w: World, e: Edge, table: string)
    requires SameEdges(before, after) && FreshTargets(before, after, w) && Retargeted(before, after, table)
    requires e in after.edges && e.from == table
    ensures Before(Plan(before, after), ReloadEdge(e.name), RenameOf(before, after, table)) <==>
      Retargeted(before, after, e.to) && ListedBefore(before.keys, e.to, table)
  {
    var plan, x, y := Plan(before, after), RenameOf(before, after, table), ReloadEdge(e.name);
    hide Plan;
    PlannedExactly(before, after);
    assert Joins(before, after, e.name, table);
    EitherFirst(plan, x, y);
    RenamedFirstExactly(before, after, x, y);
    hide Before;
    forall t ensures AsksFor(before, after, t, x) <==> t == table {
    }
    forall t ensures AsksFor(before, after, t, y) <==> Retargeted(before, after, t) && (t == table || t == e.to) {
      JoinsOnly(before, after, e, t);
    }
    NoneAskedBefore(before, after, table, e.to, y, x);
  }

  lemma EitherFirst(plan: seq<Action>, x: Action, y: Action)
    requires Distinct(plan) && x in plan && y in plan && x != y
    ensures Before(plan, x, y) <==> !Before(plan, y, x)
  {
    var i :| 0 <= i < |plan| && plan[i] == x;
    var j :| 0 <= j < |plan| && plan[j] == y;
    assert i < j || j < i;
  }

  lemma JoinsOnly(before: Mapping, after: Mapping, e: Edge, table: string)
    requires SameEdges(before, after) && e in after.edges
    ensures Joins(before, after, e.name, table) <==> e.from == table || e.to == table
  {
  }

  lemma NoneAskedBefore(before: Mapping, after: Mapping, table: string, to: string, y: Action, x: Action)
    requires Retargeted(before, after, table)
    requires forall t :: AsksFor(before, after, t, x) <==> t == table
    requires forall t :: AsksFor(before, after, t, y) <==> Retargeted(before, after, t) && (t == table || t == to)
    ensures (exists k :: 0 <= k < |before.keys| && AsksFor(before, after, before.keys[k], x)
               && forall j :: 0 <= j < k ==> !AsksFor(before, after, before.keys[j], y))
      <==> !(Retargeted(before, after, to) && ListedBefore(before.keys, to, table))
  {
    hide AsksFor;
    var keys := before.keys;
    if Retargeted(before, after, to) && ListedBefore(keys, to, table) {
      var j :| 0 <= j < |keys| && keys[j] == to && table !in keys[..j + 1];
      forall k | 0 <= k <= j ensures keys[k] != table {
        assert keys[..j + 1][k] == keys[k];
      }
    } else {
      var k := FirstListed(keys, table);
      forall j | 0 <= j < k ensures !AsksFor(before, after, keys[j], y) {
        assert table !in keys[..j + 1];
      }
    }
  }

  lemma {:induction false} FirstListed(keys: seq<string>, x: string) returns (k: nat)
    requires x in keys
    ensures k < |keys| && keys[k] == x && forall j :: 0 <= j < k ==> keys[j] != x
  {
    if keys[0] == x {
      k := 0;
    } else {
      k := FirstListed(keys[1..], x);
      k := k + 1;
    }
  }

  /** Executing a plan with a source leaves the old collection of a renamed table behind exactly
      when a relationship leads from it to a renamed table listed before it. */
  lemma LeftBehindExactly(before: Mapping, after: Mapping, rows: Rows, w: World, table: string)
    requires SameEdges(before, after) && FreshTargets(before, after, w) && Retargeted(before, after, table)
    ensures var end := ExecuteConnected(after, rows, w, Plan(before, after)).collections;
      && after.tables[table].target in end
      && (before.tables[table].target in end <==>
            exists e :: e in after.edges && e.from == table
              && Retargeted(before, after, e.to) && ListedBefore(before.keys, e.to, table))
  {
    var plan := Plan(before, after);
    NamesKeep(before, after, rows, w, plan, |plan|, table);
    assert plan[..|plan|] == plan;
    PlannedExactly(before, after);
    hide Plan, ExecuteConnected, Before, ListedBefore, Retargeted;
    forall e | e in after.edges && e.from == table
      ensures Before(plan, ReloadEdge(e.name), RenameOf(before, after, table)) <==>
        Retargeted(before, after, e.to) && ListedBefore(before.keys, e.to, table)
    {
      ReloadedFirstExactly(before, after, w, e, table);
    }
  }

  /** A collection that is not renamed stays. */
  lemma {:induction false} UnchangedStays(before: Mapping, after: Mapping, rows: Rows, w: World, plan: seq<Action>,
                                          table: string)
    requires FreshTargets(before, after, w) && table in before.tables && !Retargeted(before, after, table)
    requires forall x :: x in plan && x.RenameCollection? ==>
      exists u :: Retargeted(before, after, u) && x == RenameOf(before, after, u)
    ensures before.tables[table].target in ExecuteConnected(after, rows, w, plan).collections
  {
    if plan != [] {
      var n := |plan| - 1;
      assert plan == plan[..n] + [plan[n]];
      UnchangedStays(before, after, rows, w, plan[..n], table);
      if plan[n].RenameCollection? {
        assert plan[n] in plan;
        var u :| Retargeted(before, after, u) && plan[n] == RenameOf(before, after, u);
        assert u != table;
      }
    }
  }

  /** After executing a plan every table's collection exists under its new name, ... */
  lemma TargetsExist(before: Mapping, after: Mapping, rows: Rows, w: World, table: string)
    requires SameEdges(before, after) && FreshTargets(before, after, w) && table in before.tables
    ensures after.tables[table].target in ExecuteConnected(after, rows, w, Plan(before, after)).collections
  {
    hide Plan, ExecuteConnected;
    if Retargeted(before, after, table) {
      LeftBehindExactly(before, after, rows, w, table);
    } else {
      forall x | x in Plan(before, after) && x.RenameCollection?
        ensures exists u :: Retargeted(before, after, u) && x == RenameOf(before, after, u)
      {
        RenameIsOf(before, after, x);
      }
      UnchangedStays(before, after, rows, w, Plan(before, after), table);
      assert table in Names.Elements(before.keys);
    }
  }

  /** ... and the relationship documents are those of the source, each pointing from and to the
      collections of the tables it joins, which exist. */
  lemma NoEndMissing(before: Mapping, after: Mapping, rows: Rows, w: World, e: Edge, k: string)
    requires SameEdges(before, after) && FreshTargets(before, after, w) && LoadedUnderEither(before, after, rows, w.links)
    requires e in after.edges && e.from in after.tables && e.to in after.tables
    ensures var end := ExecuteConnected(after, rows, w, Plan(before, after));
      && e.name in end.links && (k in end.links[e.name] <==> e in rows && k in rows[e])
      && (k in end.links[e.name] ==>
            && end.links[e.name][k] == Ends(after.tables[e.from].target, after.tables[e.to].target)
            && end.links[e.name][k].from in end.collections && end.links[e.name][k].to in end.collections)
  {
    hide Plan, ExecuteConnected, FreshTargets;
    KeysListed(before, after, w);
    LinksAreReloaded(before, after, rows, w);
    TargetsExist(before, after, rows, w, e.from);
    TargetsExist(before, after, rows, w, e.to);
  }

  lemma KeysListed(before: Mapping, after: Mapping, w: World)
    requires FreshTargets(before, after, w)
    ensures Names.Elements(before.keys) == before.tables.Keys == after.tables.Keys
  {
  }

  /** Table `t` before table `u`, and a relationship from `u` to `t`. */
  function Referenced(t: string, u: string, first: string, second: string, name: string): Mapping
    requires t != u
  {
    Mapping([t, u], map[t := Table(first, Fields([], map[])), u := Table(second, Fields([], map[]))], [Edge(name, u, t)])
  }

  lemma ReferencedNames(t: string, u: string, a: string, b: string, c: string, d: string, name: string)
    requires t != u && a != b && c != d
    ensures var before, after := Referenced(t, u, a, c, name), Referenced(t, u, b, d, name);
      && Names.Elements(before.keys) == before.tables.Keys == after.tables.Keys == {t, u}
      && Retargeted(before, after, t) && Retargeted(before, after, u) && SameEdges(before, after)
      && ListedBefore(before.keys, t, u) && before.edges == after.edges == [Edge(name, u, t)]
      && before.tables[t].target == a && before.tables[u].target == c
      && after.tables[t].target == b && after.tables[u].target == d
  {
    var keys := [t, u];
    assert keys[0] == t && keys[1] == u && keys[..1] == [t];
  }

  lemma ReferencedFresh(t: string, u: string, a: string, b: string, c: string, d: string, name: string, w: World)
    requires t != u && a != b && a != c && a != d && b != c && b != d && c != d && name != b && name != d
    requires w.collections == {a, c} && w.links.Keys == {name}
    ensures FreshTargets(Referenced(t, u, a, c, name), Referenced(t, u, b, d, name), w)
  {
    hide Names.Elements, Referenced, SameEdges, ListedBefore;
    ReferencedNames(t, u, a, b, c, d, name);
  }

  /** The smallest case: a table listed behind the one its relationship leads to, both renamed.
      Its old collection is left behind. */
  lemma ReferencedFirstLeavesBehind(t: string, u: string, a: string, b: string, c: string, d: string, name: string,
                                    rows: Rows, w: World)
    requires t != u && a != b && a != c && a != d && b != c && b != d && c != d && name != b && name != d
    requires w.collections == {a, c} && w.links.Keys == {name}
    ensures var before, after := Referenced(t, u, a, c, name), Referenced(t, u, b, d, name);
      c in ExecuteConnected(after, rows, w, Plan(before, after)).collections
  {
    var before, after := Referenced(t, u, a, c, name), Referenced(t, u, b, d, name);
    ReferencedNames(t, u, a, b, c, d, name);
    ReferencedFresh(t, u, a, b, c, d, name, w);
    hide Plan, ExecuteConnected, FreshTargets, SameEdges, ListedBefore, Retargeted;
    LeftBehindExactly(before, after, rows, w, u);
    assert Edge(name, u, t) in after.edges;
  }
}
