/**
 Carrying a changed mapping over to a loaded database in place
 (src/r2g/mapping_diff.py, src/r2g/selective_reload.py), for mappings over the
 same tables that differ in collection names and attribute names, with no source
 connected. Adding, removing and reloading tables is not part of this model.
 */
module MappingReload {
  import Names
  import opened Renaming

  /** A dictionary from column to attribute, with its keys in insertion order. */
  datatype Fields = Fields(columns: seq<string>, names: Naming)

  datatype Table = Table(target: string, fields: Fields)

  /** A relationship collection and the source tables at its ends. */
  datatype Edge = Edge(name: string, from: string, to: string)

  /** Tables by source table, with the keys in insertion order. */
  datatype Mapping = Mapping(keys: seq<string>, tables: map<string, Table>, edges: seq<Edge>)

  datatype Action =
    | RenameCollection(from: string, to: string)
    | UpdateDocuments(collection: string, from: string, to: string)
    | ReloadEdge(name: string)
    | RebuildGraph

  const RESERVED := {"_id", "_key", "_rev", "_from", "_to"}

  /** The attribute a column is loaded as. */
  function Attribute(f: Fields, column: string): string
  {
    if column in f.names then f.names[column] else column
  }

  // ----- the plan

  /** `_add_action`: an action already planned is not planned again. */
  function Add(plan: seq<Action>, action: Action): seq<Action>
  {
    if action in plan then plan else plan + [action]
  }

  function AddAll(plan: seq<Action>, actions: seq<Action>): seq<Action>
  {
    if actions == [] then plan else Add(AddAll(plan, actions[..|actions| - 1]), actions[|actions| - 1])
  }

  function Affected(edges: seq<Edge>, table: string): seq<Action>
  {
    if edges == [] then []
    else
      var last := edges[|edges| - 1];
      Affected(edges[..|edges| - 1], table)
      + (if last.from == table || last.to == table then [ReloadEdge(last.name)] else [])
  }

  /** What one table's collection asks for. */
  function CollectionActions(before: Mapping, after: Mapping, key: string): seq<Action>
  {
    if key !in before.tables || key !in after.tables then []
    else
      var a, b := before.tables[key].target, after.tables[key].target;
      if a == b then [] else [RenameCollection(a, b)] + Affected(before.edges, key) + Affected(after.edges, key)
  }

  function AllCollectionActions(before: Mapping, after: Mapping, keys: seq<string>): seq<Action>
  {
    if keys == [] then []
    else AllCollectionActions(before, after, keys[..|keys| - 1]) + CollectionActions(before, after, keys[|keys| - 1])
  }

  /** What one column asks for; system attributes are never renamed in place. */
  function FieldAction(a: Table, b: Table, column: string): seq<Action>
  {
    var x, y := Attribute(a.fields, column), Attribute(b.fields, column);
    if x == y || x in RESERVED || y in RESERVED then [] else [UpdateDocuments(b.target, x, y)]
  }

  function FieldActions(a: Table, b: Table, columns: seq<string>): seq<Action>
  {
    if columns == [] then []
    else FieldActions(a, b, columns[..|columns| - 1]) + FieldAction(a, b, columns[|columns| - 1])
  }

  function TableFieldActions(before: Mapping, after: Mapping, key: string): seq<Action>
  {
    if key !in before.tables || key !in after.tables then []
    else
      var a, b := before.tables[key], after.tables[key];
      FieldActions(a, b, a.fields.columns + b.fields.columns)
  }

  function AllFieldActions(before: Mapping, after: Mapping, keys: seq<string>): seq<Action>
  {
    if keys == [] then []
    else AllFieldActions(before, after, keys[..|keys| - 1]) + TableFieldActions(before, after, keys[|keys| - 1])
  }

  predicate Renames(actions: seq<Action>)
  {
    exists i :: 0 <= i < |actions| && actions[i].RenameCollection?
  }

  /** `diff_mappings`, for mappings over the same tables and relationships. */
  function Plan(before: Mapping, after: Mapping): seq<Action>
  {
    var collections := AddAll([], AllCollectionActions(before, after, before.keys));
    var fields := AddAll(collections, AllFieldActions(before, after, before.keys));
    if Renames(collections) then Add(fields, RebuildGraph) else fields
  }

  // ----- the database

  type Document = map<string, string>
  type Documents = map<string, Document>
  type Database = map<string, Documents>

  /** The update query: in every document that has `from`, its value moves to `to`. */
  function RenameAttribute(docs: Documents, from: string, to: string): Documents
  {
    map k | k in docs :: RenameKey(docs[k], from, to)
  }

  /** What executing one action without a source does to the collections. */
  function Do(db: Database, action: Action): Database
  {
    match action
    case RenameCollection(from, to) =>
      if from == to || to in db || from !in db then db else RenameKey(db, from, to)
    case UpdateDocuments(collection, from, to) =>
      if from in RESERVED || to in RESERVED || collection !in db then db
      else db[collection := RenameAttribute(db[collection], from, to)]
    case ReloadEdge(_) => db
    case RebuildGraph => db
  }

  function Execute(db: Database, plan: seq<Action>): Database
  {
    if plan == [] then db else Do(Execute(db, plan[..|plan| - 1]), plan[|plan| - 1])
  }

  // ----- loading

  /** One source row: its column values, and what a document holds besides them
      under either mapping (its key, computed attributes). */
  datatype Row = Row(values: map<string, string>, others: Document)

  datatype Source = Source(columns: set<string>, rows: map<string, Row>)

  ghost function LoadRow(attributes: Naming, row: Row): Document
    requires Injective(attributes) && row.values.Keys <= attributes.Keys
  {
    Keyed(attributes, row.values) + row.others
  }

  ghost predicate Fits(attributes: Naming, source: Source)
  {
    Injective(attributes) && forall k :: k in source.rows ==> source.rows[k].values.Keys <= attributes.Keys
  }

  ghost function LoadTable(attributes: Naming, source: Source): Documents
    requires Fits(attributes, source)
  {
    map k | k in source.rows :: LoadRow(attributes, source.rows[k])
  }

  /** The names in use: of collections by table, and of attributes by table and column. */
  datatype Layout = Layout(targets: Naming, attributes: map<string, Naming>)

  ghost predicate FitsAll(l: Layout, sources: map<string, Source>)
  {
    Injective(l.targets) && l.targets.Keys == sources.Keys && AttributesFit(l.attributes, sources)
  }

  ghost predicate AttributesFit(attributes: map<string, Naming>, sources: map<string, Source>)
  {
    attributes.Keys == sources.Keys && forall t :: t in sources ==> Fits(attributes[t], sources[t])
  }

  ghost function LoadTables(attributes: map<string, Naming>, sources: map<string, Source>): map<string, Documents>
    requires AttributesFit(attributes, sources)
  {
    map t | t in sources :: LoadTable(attributes[t], sources[t])
  }

  /** The database with every table loaded under these names, beside its other collections. */
  ghost function Loaded(l: Layout, sources: map<string, Source>, others: Database): Database
    requires FitsAll(l, sources)
  {
    Keyed(l.targets, LoadTables(l.attributes, sources)) + others
  }

  /** Names before and after, for the collections and for each table's attributes. */
  ghost predicate CanChange(a: Layout, b: Layout, sources: map<string, Source>, others: Database)
  {
    && Renamable(a.targets, b.targets) && Apart(others, a.targets, b.targets)
    && a.targets.Keys == sources.Keys && a.attributes.Keys == sources.Keys && b.attributes.Keys == sources.Keys
    && forall t :: t in sources ==> TableCanChange(a.attributes[t], b.attributes[t], sources[t])
  }

  /** The attribute names are distinct on both sides, those that change are fresh and not
      system attributes, and nothing else in a document has such a name. */
  ghost predicate TableCanChange(a: Naming, b: Naming, source: Source)
  {
    && Renamable(a, b)
    && (forall c :: c in a && a[c] != b[c] ==> a[c] !in RESERVED && b[c] !in RESERVED)
    && (forall k :: k in source.rows ==> source.rows[k].values.Keys <= a.Keys && Apart(source.rows[k].others, a, b))
  }

  /** Part of the names have been carried over. */
  ghost predicate PartWay(a: Layout, b: Layout, l: Layout)
  {
    && Between(a.targets, b.targets, l.targets)
    && a.attributes.Keys == b.attributes.Keys == l.attributes.Keys
    && forall t :: t in a.attributes ==> Between(a.attributes[t], b.attributes[t], l.attributes[t])
  }

  lemma PartWayFits(a: Layout, b: Layout, sources: map<string, Source>, others: Database, l: Layout)
    requires CanChange(a, b, sources, others) && PartWay(a, b, l)
    ensures FitsAll(l, sources)
  {
    BetweenInjective(a.targets, b.targets, l.targets);
    forall t | t in sources ensures Fits(l.attributes[t], sources[t]) {
      assert TableCanChange(a.attributes[t], b.attributes[t], sources[t]);
      BetweenInjective(a.attributes[t], b.attributes[t], l.attributes[t]);
    }
  }

  // ----- one action

  lemma DoRename(db: Database, from: string, to: string)
    requires from != to && !(from in db && to in db)
    ensures Do(db, RenameCollection(from, to)) == RenameKey(db, from, to)
  {
  }

  lemma RenameUnder(a: Naming, b: Naming, m: Naming, t: string, values: Database, others: Database)
    requires Renamable(a, b) && Between(a, b, m) && Injective(m) && values.Keys <= m.Keys && Apart(others, a, b)
    requires t in a && a[t] != b[t]
    ensures Between(a, b, m[t := b[t]]) && Injective(m[t := b[t]])
    ensures Do(Keyed(m, values) + others, RenameCollection(a[t], b[t])) == Keyed(m[t := b[t]], values) + others
  {
    KeyRenamed(a, b, m, t, values, others);
    NamesPresent(a, b, m, t, values, others);
    DoRename(Keyed(m, values) + others, a[t], b[t]);
  }

  lemma UpdateUnder(a: Naming, b: Naming, m: Naming, t: string, values: Database, others: Database, from: string,
                    to: string)
    requires Between(a, b, m) && Injective(m) && values.Keys <= m.Keys && Apart(others, a, b) && t in values
    requires from !in RESERVED && to !in RESERVED
    ensures Do(Keyed(m, values) + others, UpdateDocuments(m[t], from, to))
         == Keyed(m, values[t := RenameAttribute(values[t], from, to)]) + others
  {
    KeyedValues(a, b, m, values, others, t);
    KeyedKeys(m, values, others, m[t]);
    KeyedReplaced(a, b, m, values, others, t, RenameAttribute(values[t], from, to));
  }

  /** Renaming a collection carries its name over, or finds it carried over already. */
  lemma CollectionStep(a: Layout, b: Layout, sources: map<string, Source>, others: Database, l: Layout, t: string)
    requires CanChange(a, b, sources, others) && PartWay(a, b, l) && FitsAll(l, sources)
    requires t in sources && a.targets[t] != b.targets[t]
    ensures var next := Layout(l.targets[t := b.targets[t]], l.attributes);
      && PartWay(a, b, next) && FitsAll(next, sources)
      && Do(Loaded(l, sources, others), RenameCollection(a.targets[t], b.targets[t])) == Loaded(next, sources, others)
  {
    RenameUnder(a.targets, b.targets, l.targets, t, LoadTables(l.attributes, sources), others);
  }

  lemma DocumentsStep(a: Naming, b: Naming, source: Source, m: Naming, c: string)
    requires TableCanChange(a, b, source) && Between(a, b, m) && Fits(m, source) && c in a && a[c] != b[c]
    ensures Between(a, b, m[c := b[c]]) && Fits(m[c := b[c]], source)
    ensures RenameAttribute(LoadTable(m, source), a[c], b[c]) == LoadTable(m[c := b[c]], source)
  {
    BetweenInjective(a, b, m[c := b[c]]);
    forall k | k in source.rows
      ensures RenameKey(LoadRow(m, source.rows[k]), a[c], b[c]) == LoadRow(m[c := b[c]], source.rows[k])
    {
      KeyRenamed(a, b, m, c, source.rows[k].values, source.rows[k].others);
    }
  }

  lemma LoadTablesStep(attributes: map<string, Naming>, sources: map<string, Source>, t: string, m: Naming)
    requires AttributesFit(attributes, sources) && t in sources && Fits(m, sources[t])
    ensures AttributesFit(attributes[t := m], sources)
    ensures LoadTables(attributes[t := m], sources) == LoadTables(attributes, sources)[t := LoadTable(m, sources[t])]
  {
  }

  lemma AttributesStep(a: Layout, b: Layout, sources: map<string, Source>, others: Database, l: Layout, t: string,
                       c: string)
    requires CanChange(a, b, sources, others) && PartWay(a, b, l) && FitsAll(l, sources)
    requires t in sources && c in a.attributes[t] && c in b.attributes[t] && a.attributes[t][c] != b.attributes[t][c]
    ensures var x, y := a.attributes[t][c], b.attributes[t][c];
      var next := l.attributes[t := l.attributes[t][c := y]];
      && PartWay(a, b, Layout(l.targets, next)) && AttributesFit(next, sources) && x !in RESERVED && y !in RESERVED
      && LoadTables(next, sources)
         == LoadTables(l.attributes, sources)[t := RenameAttribute(LoadTables(l.attributes, sources)[t], x, y)]
  {
    assert TableCanChange(a.attributes[t], b.attributes[t], sources[t]);
    DocumentsStep(a.attributes[t], b.attributes[t], sources[t], l.attributes[t], c);
    LoadTablesStep(l.attributes, sources, t, l.attributes[t][c := b.attributes[t][c]]);
  }

  /** The same for an attribute, once its collection has its new name. */
  lemma FieldStep(a: Layout, b: Layout, sources: map<string, Source>, others: Database, l: Layout, t: string, c: string)
    requires CanChange(a, b, sources, others) && PartWay(a, b, l) && FitsAll(l, sources)
    requires t in sources && l.targets[t] == b.targets[t]
    requires c in a.attributes[t] && c in b.attributes[t] && a.attributes[t][c] != b.attributes[t][c]
    ensures var next := Layout(l.targets, l.attributes[t := l.attributes[t][c := b.attributes[t][c]]]);
      && PartWay(a, b, next) && FitsAll(next, sources)
      && Do(Loaded(l, sources, others), UpdateDocuments(b.targets[t], a.attributes[t][c], b.attributes[t][c]))
         == Loaded(next, sources, others)
  {
    AttributesStep(a, b, sources, others, l, t, c);
    UpdateUnder(a.targets, b.targets, l.targets, t, LoadTables(l.attributes, sources), others,
                a.attributes[t][c], b.attributes[t][c]);
  }

  // ----- whole plans

  /** An action that renames the collection of a table, or leaves the collections alone. */
  ghost predicate RenamesSome(a: Layout, b: Layout, action: Action)
  {
    action.ReloadEdge? || exists t :: RenamesFor(a, b, action, t)
  }

  ghost predicate RenamesFor(a: Layout, b: Layout, action: Action, t: string)
  {
    t in a.targets && t in b.targets && a.targets[t] != b.targets[t] && action == RenameCollection(a.targets[t], b.targets[t])
  }

  ghost predicate UpdatesSome(a: Layout, b: Layout, action: Action)
  {
    action.RebuildGraph? || exists t, c :: UpdatesFor(a, b, action, t, c)
  }

  ghost predicate UpdatesFor(a: Layout, b: Layout, action: Action, t: string, c: string)
  {
    && t in a.attributes && t in b.attributes && t in b.targets && c in a.attributes[t] && c in b.attributes[t]
    && a.attributes[t][c] != b.attributes[t][c]
    && action == UpdateDocuments(b.targets[t], a.attributes[t][c], b.attributes[t][c])
  }

  /** A database that can be carried on from. */
  ghost predicate Midway(a: Layout, b: Layout, sources: map<string, Source>, others: Database, l: Layout)
  {
    CanChange(a, b, sources, others) && PartWay(a, b, l) && FitsAll(l, sources)
  }

  ghost predicate TargetCarried(b: Layout, l: Layout, t: string)
  {
    t in l.targets && t in b.targets && l.targets[t] == b.targets[t]
  }

  /** Every collection these actions rename has its new name. */
  ghost predicate TargetsCarried(a: Layout, b: Layout, plan: seq<Action>, l: Layout)
  {
    forall t, action :: action in plan && RenamesFor(a, b, action, t) ==> TargetCarried(b, l, t)
  }

  lemma CollectionOne(a: Layout, b: Layout, sources: map<string, Source>, others: Database, l: Layout, action: Action)
    returns (next: Layout)
    requires Midway(a, b, sources, others, l) && RenamesSome(a, b, action)
    ensures Midway(a, b, sources, others, next) && next.attributes == l.attributes
    ensures Do(Loaded(l, sources, others), action) == Loaded(next, sources, others)
    ensures forall t :: TargetCarried(b, l, t) ==> TargetCarried(b, next, t)
    ensures forall t :: RenamesFor(a, b, action, t) ==> TargetCarried(b, next, t)
  {
    hide FitsAll, PartWay, Loaded;
    if action.ReloadEdge? {
      next := l;
    } else {
      var t :| RenamesFor(a, b, action, t);
      CollectionStep(a, b, sources, others, l, t);
      next := Layout(l.targets[t := b.targets[t]], l.attributes);
      TargetsKept(a, b, l, t, action);
    }
  }

  lemma TargetsKept(a: Layout, b: Layout, l: Layout, t: string, action: Action)
    requires Renamable(a.targets, b.targets) && RenamesFor(a, b, action, t)
    ensures var next := Layout(l.targets[t := b.targets[t]], l.attributes);
      && (forall u :: TargetCarried(b, l, u) ==> TargetCarried(b, next, u))
      && (forall u :: RenamesFor(a, b, action, u) ==> TargetCarried(b, next, u))
  {
    forall u | RenamesFor(a, b, action, u) ensures u == t {
    }
  }

  /** Executing collection renames carries over each collection renamed, and no attribute. */
  lemma {:induction false} CollectionPhase(a: Layout, b: Layout, sources: map<string, Source>, others: Database,
                                           l: Layout, plan: seq<Action>) returns (end: Layout)
    requires Midway(a, b, sources, others, l)
    requires forall action :: action in plan ==> RenamesSome(a, b, action)
    ensures Midway(a, b, sources, others, end) && end.attributes == l.attributes
    ensures Execute(Loaded(l, sources, others), plan) == Loaded(end, sources, others)
    ensures TargetsCarried(a, b, plan, end)
  {
    if plan == [] {
      end := l;
    } else {
      var n := |plan| - 1;
      assert plan == plan[..n] + [plan[n]];
      var middle := CollectionPhase(a, b, sources, others, l, plan[..n]);
      end := CollectionOne(a, b, sources, others, middle, plan[n]);
      CarriedMore(a, b, plan, middle, end);
    }
  }

  lemma CarriedMore(a: Layout, b: Layout, plan: seq<Action>, middle: Layout, end: Layout)
    requires plan != [] && TargetsCarried(a, b, plan[..|plan| - 1], middle)
    requires forall t :: TargetCarried(b, middle, t) ==> TargetCarried(b, end, t)
    requires forall t :: RenamesFor(a, b, plan[|plan| - 1], t) ==> TargetCarried(b, end, t)
    ensures TargetsCarried(a, b, plan, end)
  {
    assert plan == plan[..|plan| - 1] + [plan[|plan| - 1]];
  }

  /** Every attribute these actions rename has its new name. */
  ghost predicate FieldsCarried(a: Layout, b: Layout, plan: seq<Action>, l: Layout)
  {
    forall t, c, action :: action in plan && UpdatesFor(a, b, action, t, c) ==> CarriedOver(b, l, t, c)
  }

  lemma FieldOne(a: Layout, b: Layout, sources: map<string, Source>, others: Database, l: Layout, action: Action)
    returns (next: Layout)
    requires Midway(a, b, sources, others, l) && UpdatesSome(a, b, action) && l.targets == b.targets
    ensures Midway(a, b, sources, others, next) && next.targets == b.targets
    ensures Do(Loaded(l, sources, others), action) == Loaded(next, sources, others)
    ensures forall t, c :: CarriedOver(b, l, t, c) ==> CarriedOver(b, next, t, c)
    ensures forall t, c :: UpdatesFor(a, b, action, t, c) ==> CarriedOver(b, next, t, c)
  {
    if action.RebuildGraph? {
      next := l;
    } else {
      var t, c :| UpdatesFor(a, b, action, t, c);
      FieldStep(a, b, sources, others, l, t, c);
      next := Layout(l.targets, l.attributes[t := l.attributes[t][c := b.attributes[t][c]]]);
      forall u, d | UpdatesFor(a, b, action, u, d) ensures u == t && d == c {
        OneUpdate(a, b, sources, others, action, t, c, u, d);
      }
      FieldsKept(b, l, t, c);
    }
  }

  lemma FieldsKept(b: Layout, l: Layout, t: string, c: string)
    requires t in b.attributes && t in l.attributes && c in b.attributes[t]
    ensures var next := Layout(l.targets, l.attributes[t := l.attributes[t][c := b.attributes[t][c]]]);
      CarriedOver(b, next, t, c) && forall u, d :: CarriedOver(b, l, u, d) ==> CarriedOver(b, next, u, d)
  {
  }

  /** With the collections renamed, executing attribute renames carries over each attribute renamed. */
  lemma {:induction false} FieldPhase(a: Layout, b: Layout, sources: map<string, Source>, others: Database,
                                      l: Layout, plan: seq<Action>) returns (end: Layout)
    requires Midway(a, b, sources, others, l) && l.targets == b.targets
    requires forall action :: action in plan ==> UpdatesSome(a, b, action)
    ensures Midway(a, b, sources, others, end) && end.targets == b.targets
    ensures Execute(Loaded(l, sources, others), plan) == Loaded(end, sources, others)
    ensures FieldsCarried(a, b, plan, end)
  {
    if plan == [] {
      end := l;
    } else {
      var n := |plan| - 1;
      assert plan == plan[..n] + [plan[n]];
      var middle := FieldPhase(a, b, sources, others, l, plan[..n]);
      end := FieldOne(a, b, sources, others, middle, plan[n]);
      FieldsCarriedMore(a, b, plan, middle, end);
    }
  }

  lemma FieldsCarriedMore(a: Layout, b: Layout, plan: seq<Action>, middle: Layout, end: Layout)
    requires plan != [] && FieldsCarried(a, b, plan[..|plan| - 1], middle)
    requires forall t, c :: CarriedOver(b, middle, t, c) ==> CarriedOver(b, end, t, c)
    requires forall t, c :: UpdatesFor(a, b, plan[|plan| - 1], t, c) ==> CarriedOver(b, end, t, c)
    ensures FieldsCarried(a, b, plan, end)
  {
    assert plan == plan[..|plan| - 1] + [plan[|plan| - 1]];
  }

  ghost predicate CarriedOver(b: Layout, l: Layout, t: string, c: string)
  {
    t in l.attributes && t in b.attributes && c in l.attributes[t] && c in b.attributes[t] && l.attributes[t][c] == b.attributes[t][c]
  }

  lemma OneUpdate(a: Layout, b: Layout, sources: map<string, Source>, others: Database, action: Action,
                  t: string, c: string, u: string, d: string)
    requires CanChange(a, b, sources, others) && UpdatesFor(a, b, action, t, c) && UpdatesFor(a, b, action, u, d)
    ensures u == t && d == c
  {
    assert TableCanChange(a.attributes[t], b.attributes[t], sources[t]);
  }

  lemma {:induction false} ExecuteMore(db: Database, p: seq<Action>, q: seq<Action>)
    ensures Execute(db, p + q) == Execute(Execute(db, p), q)
  {
    if q == [] {
      assert p + q == p;
    } else {
      ExecuteMore(db, p, q[..|q| - 1]);
      assert (p + q)[..|p + q| - 1] == p + q[..|q| - 1];
    }
  }

  /** The plan renames every collection that changes, then every attribute that changes. */
  ghost predicate Carries(a: Layout, b: Layout, collections: seq<Action>, fields: seq<Action>)
  {
    && (forall action :: action in collections ==> RenamesSome(a, b, action))
    && (forall action :: action in fields ==> UpdatesSome(a, b, action))
    && (forall t :: t in a.targets && t in b.targets && a.targets[t] != b.targets[t] ==>
          RenameCollection(a.targets[t], b.targets[t]) in collections)
    && (forall t, c :: Changes(a, b, t, c) ==> UpdateDocuments(b.targets[t], a.attributes[t][c], b.attributes[t][c]) in fields)
  }

  ghost predicate Changes(a: Layout, b: Layout, t: string, c: string)
  {
    && t in a.attributes && t in b.attributes && t in b.targets && c in a.attributes[t] && c in b.attributes[t]
    && a.attributes[t][c] != b.attributes[t][c]
  }

  /** From any database part of whose names have been carried over, such a plan carries over the rest. */
  lemma PlanCarries(a: Layout, b: Layout, sources: map<string, Source>, others: Database, l: Layout,
                    collections: seq<Action>, fields: seq<Action>)
    requires Midway(a, b, sources, others, l) && Carries(a, b, collections, fields)
    ensures FitsAll(b, sources)
    ensures Execute(Loaded(l, sources, others), collections + fields) == Loaded(b, sources, others)
  {
    ExecuteMore(Loaded(l, sources, others), collections, fields);
    var middle := CollectionPhase(a, b, sources, others, l, collections);
    AllTargetsCarried(a, b, sources, others, middle, collections, fields);
    var end := FieldPhase(a, b, sources, others, middle, fields);
    AllCarriedOver(a, b, sources, others, end, collections, fields);
  }

  lemma AllTargetsCarried(a: Layout, b: Layout, sources: map<string, Source>, others: Database, l: Layout,
                          collections: seq<Action>, fields: seq<Action>)
    requires Midway(a, b, sources, others, l) && Carries(a, b, collections, fields) && TargetsCarried(a, b, collections, l)
    ensures l.targets == b.targets
  {
    forall t | t in sources ensures l.targets[t] == b.targets[t] {
      if a.targets[t] != b.targets[t] {
        assert RenamesFor(a, b, RenameCollection(a.targets[t], b.targets[t]), t);
        assert TargetCarried(b, l, t);
      }
    }
  }

  lemma AllCarriedOver(a: Layout, b: Layout, sources: map<string, Source>, others: Database, end: Layout,
                       collections: seq<Action>, fields: seq<Action>)
    requires Midway(a, b, sources, others, end) && end.targets == b.targets
    requires Carries(a, b, collections, fields) && FieldsCarried(a, b, fields, end)
    ensures end == b
  {
    forall t | t in sources ensures end.attributes[t] == b.attributes[t] {
      TableCarriedOver(a, b, end, collections, fields, t);
    }
    assert end.attributes == b.attributes;
  }

  lemma TableCarriedOver(a: Layout, b: Layout, end: Layout, collections: seq<Action>, fields: seq<Action>, t: string)
    requires PartWay(a, b, end) && Carries(a, b, collections, fields) && FieldsCarried(a, b, fields, end)
    requires t in b.targets && t in a.attributes
    ensures end.attributes[t] == b.attributes[t]
  {
    assert Between(a.attributes[t], b.attributes[t], end.attributes[t]);
    forall c | c in a.attributes[t] ensures end.attributes[t][c] == b.attributes[t][c] {
      CarriedAt(a, b, end, collections, fields, t, c);
    }
  }

  lemma CarriedAt(a: Layout, b: Layout, end: Layout, collections: seq<Action>, fields: seq<Action>, t: string,
                  c: string)
    requires Carries(a, b, collections, fields) && FieldsCarried(a, b, fields, end)
    requires t in b.targets && t in a.attributes && t in b.attributes && t in end.attributes
    requires Between(a.attributes[t], b.attributes[t], end.attributes[t]) && c in a.attributes[t]
    ensures end.attributes[t][c] == b.attributes[t][c]
  {
    if a.attributes[t][c] != b.attributes[t][c] {
      assert Changes(a, b, t, c);
      var action := UpdateDocuments(b.targets[t], a.attributes[t][c], b.attributes[t][c]);
      assert UpdatesFor(a, b, action, t, c);
      assert CarriedOver(b, end, t, c);
    }
  }

  // ----- the plan of two mappings

  ghost predicate SameTables(before: Mapping, after: Mapping, sources: map<string, Source>)
  {
    && before.tables.Keys == sources.Keys && after.tables.Keys == sources.Keys
    && Names.Elements(before.keys) == before.tables.Keys
    && forall t :: t in sources ==> FieldsListed(before.tables[t].fields) && FieldsListed(after.tables[t].fields)
  }

  ghost predicate FieldsListed(f: Fields)
  {
    Names.Elements(f.columns) == f.names.Keys
  }

  /** Every column the table or one of the mappings knows. */
  ghost function Universe(before: Mapping, after: Mapping, sources: map<string, Source>, t: string): set<string>
    requires t in before.tables && t in after.tables && t in sources
  {
    sources[t].columns + before.tables[t].fields.names.Keys + after.tables[t].fields.names.Keys
  }

  ghost function AttributesOf(f: Fields, columns: set<string>): Naming
  {
    map c | c in columns :: Attribute(f, c)
  }

  /** The names a mapping gives. */
  ghost function LayoutOf(m: Mapping, before: Mapping, after: Mapping, sources: map<string, Source>): Layout
    requires SameTables(before, after, sources) && m.tables.Keys == sources.Keys
  {
    Layout(map t | t in m.tables :: m.tables[t].target,
           map t | t in sources :: AttributesOf(m.tables[t].fields, Universe(before, after, sources, t)))
  }

  /** The mappings are over the same tables and differ in fresh, distinct names only. */
  ghost predicate Migratable(before: Mapping, after: Mapping, sources: map<string, Source>, others: Database)
  {
    && SameTables(before, after, sources)
    && CanChange(LayoutOf(before, before, after, sources), LayoutOf(after, before, after, sources), sources, others)
  }

  lemma {:induction false} AddAllSplits(plan: seq<Action>, actions: seq<Action>) returns (rest: seq<Action>)
    ensures AddAll(plan, actions) == plan + rest
    ensures forall x :: x in rest ==> x in actions
    ensures forall x :: x in actions ==> x in plan || x in rest
  {
    if actions == [] {
      rest := [];
    } else {
      var n := |actions| - 1;
      var first := AddAllSplits(plan, actions[..n]);
      assert actions == actions[..n] + [actions[n]];
      rest := if actions[n] in plan + first then first else first + [actions[n]];
    }
  }

  lemma {:induction false} AffectedReloads(edges: seq<Edge>, table: string)
    ensures forall x :: x in Affected(edges, table) ==> x.ReloadEdge?
  {
    if edges != [] {
      AffectedReloads(edges[..|edges| - 1], table);
    }
  }

  lemma {:induction false} CollectionActionsExact(before: Mapping, after: Mapping, keys: seq<string>, a: Layout,
                                                  b: Layout)
    requires a.targets == (map t | t in before.tables :: before.tables[t].target)
    requires b.targets == (map t | t in after.tables :: after.tables[t].target)
    ensures forall x :: x in AllCollectionActions(before, after, keys) ==> RenamesSome(a, b, x)
    ensures forall t :: t in keys && t in a.targets && t in b.targets && a.targets[t] != b.targets[t] ==>
              RenameCollection(a.targets[t], b.targets[t]) in AllCollectionActions(before, after, keys)
  {
    if keys != [] {
      var n := |keys| - 1;
      CollectionActionsExact(before, after, keys[..n], a, b);
      assert keys == keys[..n] + [keys[n]];
      var t := keys[n];
      AffectedReloads(before.edges, t);
      AffectedReloads(after.edges, t);
      forall x | x in CollectionActions(before, after, t) ensures RenamesSome(a, b, x) {
        if !x.ReloadEdge? {
          assert RenamesFor(a, b, x, t);
        }
      }
    }
  }

  lemma {:induction false} FieldActionsExact(a: Table, b: Table, columns: seq<string>, x: Action)
    ensures x in FieldActions(a, b, columns) <==> exists c :: c in columns && x in FieldAction(a, b, c)
  {
    if columns != [] {
      var n := |columns| - 1;
      FieldActionsExact(a, b, columns[..n], x);
      assert columns == columns[..n] + [columns[n]];
    }
  }

  lemma {:induction false} AllFieldActionsExact(before: Mapping, after: Mapping, keys: seq<string>, x: Action)
    ensures x in AllFieldActions(before, after, keys) <==> exists t :: t in keys && x in TableFieldActions(before, after, t)
  {
    if keys != [] {
      var n := |keys| - 1;
      AllFieldActionsExact(before, after, keys[..n], x);
      assert keys == keys[..n] + [keys[n]];
    }
  }

  /** Every field action is for one column that changes ... */
  lemma FieldActionFor(before: Mapping, after: Mapping, sources: map<string, Source>, others: Database, x: Action)
    requires Migratable(before, after, sources, others) && x in AllFieldActions(before, after, before.keys)
    ensures UpdatesSome(LayoutOf(before, before, after, sources), LayoutOf(after, before, after, sources), x)
  {
    hide CanChange, FieldAction, Attribute;
    var a, b := LayoutOf(before, before, after, sources), LayoutOf(after, before, after, sources);
    AllFieldActionsExact(before, after, before.keys, x);
    var t :| t in before.keys && x in TableFieldActions(before, after, t);
    var f, g := before.tables[t], after.tables[t];
    FieldActionsExact(f, g, f.fields.columns + g.fields.columns, x);
    var c :| c in f.fields.columns + g.fields.columns && x in FieldAction(f, g, c);
    FieldActionAt(before, after, sources, t, c, x);
    assert UpdatesFor(a, b, x, t, c);
  }

  lemma FieldActionAt(before: Mapping, after: Mapping, sources: map<string, Source>, t: string, c: string, x: Action)
    requires SameTables(before, after, sources) && t in sources
    requires c in before.tables[t].fields.columns + after.tables[t].fields.columns
    requires x in FieldAction(before.tables[t], after.tables[t], c)
    ensures UpdatesFor(LayoutOf(before, before, after, sources), LayoutOf(after, before, after, sources), x, t, c)
  {
    assert c in Names.Elements(before.tables[t].fields.columns) || c in Names.Elements(after.tables[t].fields.columns);
  }

  /** ... and every column that changes has one. */
  lemma FieldActionPlanned(before: Mapping, after: Mapping, sources: map<string, Source>, others: Database, t: string,
                           c: string)
    requires Migratable(before, after, sources, others)
    requires Changes(LayoutOf(before, before, after, sources), LayoutOf(after, before, after, sources), t, c)
    ensures var a, b := LayoutOf(before, before, after, sources), LayoutOf(after, before, after, sources);
      UpdateDocuments(b.targets[t], a.attributes[t][c], b.attributes[t][c]) in AllFieldActions(before, after, before.keys)
  {
    var a, b := LayoutOf(before, before, after, sources), LayoutOf(after, before, after, sources);
    var x := UpdateDocuments(b.targets[t], a.attributes[t][c], b.attributes[t][c]);
    var f, g := before.tables[t], after.tables[t];
    assert TableCanChange(a.attributes[t], b.attributes[t], sources[t]);
    assert c in Names.Elements(f.fields.columns) || c in Names.Elements(g.fields.columns);
    assert x in FieldAction(f, g, c);
    FieldActionsExact(f, g, f.fields.columns + g.fields.columns, x);
    assert t in Names.Elements(before.keys);
    AllFieldActionsExact(before, after, before.keys, x);
  }

  lemma PlanParts(before: Mapping, after: Mapping) returns (collections: seq<Action>, fields: seq<Action>)
    ensures Plan(before, after) == collections + fields
    ensures forall x :: x in collections <==> x in AllCollectionActions(before, after, before.keys)
    ensures forall x :: x in fields ==> x in AllFieldActions(before, after, before.keys) || x.RebuildGraph?
    ensures forall x :: x in AllFieldActions(before, after, before.keys) ==> x in collections || x in fields
  {
    hide AddAll, AllCollectionActions, AllFieldActions, Renames;
    collections := AddAllSplits([], AllCollectionActions(before, after, before.keys));
    assert [] + collections == collections;
    var rest := AddAllSplits(collections, AllFieldActions(before, after, before.keys));
    if Renames(collections) && RebuildGraph !in collections + rest {
      fields := rest + [RebuildGraph];
      assert collections + rest + [RebuildGraph] == collections + fields;
    } else {
      fields := rest;
    }
  }

  /** The plan falls into collection renames and then attribute renames. */
  lemma PlanSplits(before: Mapping, after: Mapping, sources: map<string, Source>, others: Database)
    returns (collections: seq<Action>, fields: seq<Action>)
    requires Migratable(before, after, sources, others)
    ensures Plan(before, after) == collections + fields
    ensures Carries(LayoutOf(before, before, after, sources), LayoutOf(after, before, after, sources), collections, fields)
  {
    var a, b := LayoutOf(before, before, after, sources), LayoutOf(after, before, after, sources);
    collections, fields := PlanParts(before, after);
    CollectionActionsExact(before, after, before.keys, a, b);
    forall x | x in fields ensures UpdatesSome(a, b, x) {
      if !x.RebuildGraph? {
        FieldActionFor(before, after, sources, others, x);
      }
    }
    forall t, c | Changes(a, b, t, c) ensures UpdateDocuments(b.targets[t], a.attributes[t][c], b.attributes[t][c]) in fields {
      PlannedField(before, after, sources, others, collections, fields, t, c);
    }
    forall t | t in a.targets && t in b.targets && a.targets[t] != b.targets[t]
      ensures RenameCollection(a.targets[t], b.targets[t]) in collections
    {
      assert t in Names.Elements(before.keys);
    }
  }

  lemma PlannedField(before: Mapping, after: Mapping, sources: map<string, Source>, others: Database,
                     collections: seq<Action>, fields: seq<Action>, t: string, c: string)
    requires Migratable(before, after, sources, others)
    requires var a, b := LayoutOf(before, before, after, sources), LayoutOf(after, before, after, sources);
      Changes(a, b, t, c) && forall x :: x in collections ==> RenamesSome(a, b, x)
    requires forall x :: x in AllFieldActions(before, after, before.keys) ==> x in collections || x in fields
    ensures var a, b := LayoutOf(before, before, after, sources), LayoutOf(after, before, after, sources);
      UpdateDocuments(b.targets[t], a.attributes[t][c], b.attributes[t][c]) in fields
  {
    FieldActionPlanned(before, after, sources, others, t, c);
  }

  /** Executing the plan in place gives the database that loading under the new
      mapping gives; also when some of it had been executed before. */
  lemma InPlaceIsReload(before: Mapping, after: Mapping, sources: map<string, Source>, others: Database, l: Layout)
    requires Migratable(before, after, sources, others)
    requires PartWay(LayoutOf(before, before, after, sources), LayoutOf(after, before, after, sources), l)
    ensures var b := LayoutOf(after, before, after, sources);
      && FitsAll(l, sources) && FitsAll(b, sources)
      && Execute(Loaded(l, sources, others), Plan(before, after)) == Loaded(b, sources, others)
  {
    var a, b := LayoutOf(before, before, after, sources), LayoutOf(after, before, after, sources);
    var collections, fields := PlanSplits(before, after, sources, others);
    PartWayFits(a, b, sources, others, l);
    PlanCarries(a, b, sources, others, l, collections, fields);
  }

  lemma EndsPartWay(a: Layout, b: Layout, sources: map<string, Source>, others: Database)
    requires CanChange(a, b, sources, others)
    ensures PartWay(a, b, a) && PartWay(a, b, b)
  {
    forall t | t in sources
      ensures Between(a.attributes[t], b.attributes[t], a.attributes[t]) && Between(a.attributes[t], b.attributes[t], b.attributes[t])
    {
      assert TableCanChange(a.attributes[t], b.attributes[t], sources[t]);
    }
  }

  /** From the old mapping's database to the new one's, and a second execution changes nothing. */
  lemma MigratesOnce(before: Mapping, after: Mapping, sources: map<string, Source>, others: Database)
    requires Migratable(before, after, sources, others)
    ensures var a, b := LayoutOf(before, before, after, sources), LayoutOf(after, before, after, sources);
      && FitsAll(a, sources) && FitsAll(b, sources)
      && Execute(Loaded(a, sources, others), Plan(before, after)) == Loaded(b, sources, others)
      && Execute(Loaded(b, sources, others), Plan(before, after)) == Loaded(b, sources, others)
  {
    var a, b := LayoutOf(before, before, after, sources), LayoutOf(after, before, after, sources);
    EndsPartWay(a, b, sources, others);
    InPlaceIsReload(before, after, sources, others, a);
    InPlaceIsReload(before, after, sources, others, b);
  }

  /** An execution that stops after any action can be run again from the start. */
  lemma InterruptedIsResumed(before: Mapping, after: Mapping, sources: map<string, Source>, others: Database, k: nat)
    requires Migratable(before, after, sources, others) && k <= |Plan(before, after)|
    ensures var a, b := LayoutOf(before, before, after, sources), LayoutOf(after, before, after, sources);
      && FitsAll(a, sources) && FitsAll(b, sources)
      && Execute(Execute(Loaded(a, sources, others), Plan(before, after)[..k]), Plan(before, after)) == Loaded(b, sources, others)
  {
    var a, b := LayoutOf(before, before, after, sources), LayoutOf(after, before, after, sources);
    var collections, fields := PlanSplits(before, after, sources, others);
    EndsPartWay(a, b, sources, others);
    PartWayFits(a, b, sources, others, a);
    var l := Interrupted(a, b, sources, others, collections, fields, k);
    InPlaceIsReload(before, after, sources, others, l);
  }

  lemma Interrupted(a: Layout, b: Layout, sources: map<string, Source>, others: Database,
                    collections: seq<Action>, fields: seq<Action>, k: nat) returns (l: Layout)
    requires Midway(a, b, sources, others, a) && Carries(a, b, collections, fields) && k <= |collections + fields|
    ensures Midway(a, b, sources, others, l)
    ensures Execute(Loaded(a, sources, others), (collections + fields)[..k]) == Loaded(l, sources, others)
  {
    if k <= |collections| {
      assert (collections + fields)[..k] == collections[..k];
      l := CollectionPhase(a, b, sources, others, a, collections[..k]);
    } else {
      var j := k - |collections|;
      assert (collections + fields)[..k] == collections + fields[..j];
      ExecuteMore(Loaded(a, sources, others), collections, fields[..j]);
      var middle := CollectionPhase(a, b, sources, others, a, collections);
      AllTargetsCarried(a, b, sources, others, middle, collections, fields);
      l := FieldPhase(a, b, sources, others, middle, fields[..j]);
    }
  }

  /** The smallest case: one table gets a new name, and its only column too. */
  lemma OneRenameMigrates(table: string, from: string, to: string, column: string, x: string, y: string, row: Row,
                          k: string)
    requires x !in RESERVED && y !in RESERVED
    requires row.values.Keys <= {column} && row.others.Keys <= {"_key"}
    ensures Migratable(OneTable(table, from, column, x), OneTable(table, to, column, y), OneSource(table, column, k, row), map[])
  {
    hide SameTables, Universe, OneTable, CanChange, LayoutOf;
    var before, after := OneTable(table, from, column, x), OneTable(table, to, column, y);
    var sources := OneSource(table, column, k, row);
    OneSameTables(table, from, to, column, x, y, sources);
    OneLayout(table, from, column, x, before, after, sources);
    OneLayout(table, to, column, y, before, after, sources);
    OneCanChange(table, from, to, column, x, y, sources);
  }

  lemma OneSameTables(table: string, from: string, to: string, column: string, x: string, y: string,
                      sources: map<string, Source>)
    requires sources.Keys == {table} && sources[table].columns == {column}
    ensures var before, after := OneTable(table, from, column, x), OneTable(table, to, column, y);
      && SameTables(before, after, sources) && Universe(before, after, sources, table) == {column}
      && before.tables.Keys == after.tables.Keys == sources.Keys
  {
  }

  lemma OneCanChange(table: string, from: string, to: string, column: string, x: string, y: string,
                     sources: map<string, Source>)
    requires x !in RESERVED && y !in RESERVED && sources.Keys == {table}
    requires forall k :: k in sources[table].rows ==>
      sources[table].rows[k].values.Keys <= {column} && sources[table].rows[k].others.Keys <= {"_key"}
    ensures CanChange(Layout(map[table := from], map[table := map[column := x]]),
                      Layout(map[table := to], map[table := map[column := y]]), sources, map[])
  {
    OneName(table, from, to);
    OneRow(column, x, y, sources[table]);
  }

  function OneTable(table: string, target: string, column: string, attribute: string): Mapping
  {
    Mapping([table], map[table := Table(target, Fields([column], map[column := attribute]))], [])
  }

  function OneSource(table: string, column: string, k: string, row: Row): map<string, Source>
  {
    map[table := Source({column}, map[k := row])]
  }

  lemma OneLayout(table: string, target: string, column: string, attribute: string,
                  before: Mapping, after: Mapping, sources: map<string, Source>)
    requires SameTables(before, after, sources) && sources.Keys == {table}
    requires Universe(before, after, sources, table) == {column}
    ensures LayoutOf(OneTable(table, target, column, attribute), before, after, sources)
         == Layout(map[table := target], map[table := map[column := attribute]])
  {
    hide SameTables;
    assert AttributesOf(Fields([column], map[column := attribute]), {column}) == map[column := attribute];
  }

  lemma OneRow(column: string, x: string, y: string, source: Source)
    requires x !in RESERVED && y !in RESERVED
    requires forall k :: k in source.rows ==> source.rows[k].values.Keys <= {column} && source.rows[k].others.Keys <= {"_key"}
    ensures TableCanChange(map[column := x], map[column := y], source)
  {
    OneName(column, x, y);
    assert "_key" in RESERVED;
  }

  lemma OneName(k: string, from: string, to: string)
    ensures Renamable(map[k := from], map[k := to])
  {
  }

  // ----- planning and executing, step by step

  lemma {:induction false} AddAllMore(plan: seq<Action>, p: seq<Action>, q: seq<Action>)
    ensures AddAll(plan, p + q) == AddAll(AddAll(plan, p), q)
  {
    if q == [] {
      assert p + q == p;
    } else {
      AddAllMore(plan, p, q[..|q| - 1]);
      assert (p + q)[..|p + q| - 1] == p + q[..|q| - 1];
    }
  }

  method AddEach(plan: seq<Action>, actions: seq<Action>) returns (r: seq<Action>)
    ensures r == AddAll(plan, actions)
  {
    r := plan;
    for i := 0 to |actions|
      invariant r == AddAll(plan, actions[..i])
    {
      assert actions[..i + 1][..i] == actions[..i];
      if actions[i] !in r {
        r := r + [actions[i]];
      }
    }
    assert actions[..|actions|] == actions;
  }

  method DetectCollectionRenamed(before: Mapping, after: Mapping) returns (plan: seq<Action>)
    ensures plan == AddAll([], AllCollectionActions(before, after, before.keys))
  {
    plan := [];
    for i := 0 to |before.keys|
      invariant plan == AddAll([], AllCollectionActions(before, after, before.keys[..i]))
    {
      assert before.keys[..i + 1][..i] == before.keys[..i];
      AddAllMore([], AllCollectionActions(before, after, before.keys[..i]), CollectionActions(before, after, before.keys[i]));
      plan := AddEach(plan, CollectionActions(before, after, before.keys[i]));
    }
    assert before.keys[..|before.keys|] == before.keys;
  }

  method DetectFieldMappingChanges(before: Mapping, after: Mapping, planned: seq<Action>) returns (plan: seq<Action>)
    ensures plan == AddAll(planned, AllFieldActions(before, after, before.keys))
  {
    plan := planned;
    for i := 0 to |before.keys|
      invariant plan == AddAll(planned, AllFieldActions(before, after, before.keys[..i]))
    {
      assert before.keys[..i + 1][..i] == before.keys[..i];
      AddAllMore(planned, AllFieldActions(before, after, before.keys[..i]), TableFieldActions(before, after, before.keys[i]));
      plan := AddEach(plan, TableFieldActions(before, after, before.keys[i]));
    }
    assert before.keys[..|before.keys|] == before.keys;
  }

  /** `diff_mappings` */
  method DiffMappings(before: Mapping, after: Mapping) returns (plan: seq<Action>)
    ensures plan == Plan(before, after)
  {
    plan := DetectCollectionRenamed(before, after);
    var renamed := Renames(plan);
    plan := DetectFieldMappingChanges(before, after, plan);
    if renamed {
      plan := AddEach(plan, [RebuildGraph]);
      assert [RebuildGraph][..0] == [];
    }
  }

  datatype Outcome = Executed | Skipped | Failed | Silent

  /** How an action is reported; a rename to the same name is not reported at all. */
  function OutcomeOf(db: Database, action: Action): Outcome
  {
    match action
    case RenameCollection(from, to) =>
      if from == to then Silent else if to in db || from !in db then Skipped else Executed
    case UpdateDocuments(collection, from, to) =>
      if from in RESERVED || to in RESERVED then Skipped else if collection !in db then Failed else Executed
    case ReloadEdge(_) => Skipped
    case RebuildGraph => Skipped
  }

  /** A rename is reported as executed exactly when it renamed something, an update unless it
      concerns a system attribute or its collection is missing; without a source the others are skipped. */
  lemma ReportedTruly(db: Database, action: Action)
    ensures action.RenameCollection? ==>
      && (OutcomeOf(db, action) == Silent <==> action.from == action.to)
      && (OutcomeOf(db, action) == Executed <==> Do(db, action) != db)
      && OutcomeOf(db, action) != Failed
    ensures action.UpdateDocuments? ==>
      && (OutcomeOf(db, action) == Skipped <==>
            || action.from in ["_id", "_key", "_rev", "_from", "_to"]
            || action.to in ["_id", "_key", "_rev", "_from", "_to"])
      && (OutcomeOf(db, action) == Failed ==> action.collection !in db)
      && (OutcomeOf(db, action) == Executed ==> action.collection in db)
      && OutcomeOf(db, action) != Silent
    ensures action.ReloadEdge? || action.RebuildGraph? ==> OutcomeOf(db, action) == Skipped
  {
    if action.RenameCollection? && OutcomeOf(db, action) == Executed {
      DoRename(db, action.from, action.to);
      assert action.to in RenameKey(db, action.from, action.to);
    }
  }

  /** The actions of a plan reported with one outcome, in order. */
  function Those(db: Database, plan: seq<Action>, outcome: Outcome): seq<Action>
  {
    if plan == [] then []
    else
      var n := |plan| - 1;
      Those(db, plan[..n], outcome) + (if OutcomeOf(Execute(db, plan[..n]), plan[n]) == outcome then [plan[n]] else [])
  }

  /** A rename to the same name. */
  predicate Idle(action: Action)
  {
    action.RenameCollection? && action.from == action.to
  }

  function CountIdle(plan: seq<Action>): nat
  {
    if plan == [] then 0 else CountIdle(plan[..|plan| - 1]) + (if Idle(plan[|plan| - 1]) then 1 else 0)
  }

  /** Every action is reported once, but for renames to the same name. */
  lemma {:induction false} EachReported(db: Database, plan: seq<Action>)
    ensures |Those(db, plan, Executed)| + |Those(db, plan, Skipped)| + |Those(db, plan, Failed)| == |plan| - CountIdle(plan)
  {
    if plan == [] {
    } else {
      EachReported(db, plan[..|plan| - 1]);
    }
  }

  /** A planned rename always changes the name, ... */
  lemma {:induction false} PlannedRenamesDiffer(before: Mapping, after: Mapping, keys: seq<string>)
    ensures forall action :: action in AllCollectionActions(before, after, keys) ==> !Idle(action)
  {
    if keys == [] {
    } else {
      var n := |keys| - 1;
      PlannedRenamesDiffer(before, after, keys[..n]);
      AffectedReloads(before.edges, keys[n]);
      AffectedReloads(after.edges, keys[n]);
    }
  }

  /** ... so of a plan for two mappings every action is reported once. */
  lemma PlanReported(before: Mapping, after: Mapping, db: Database)
    ensures var plan := Plan(before, after);
      |Those(db, plan, Executed)| + |Those(db, plan, Skipped)| + |Those(db, plan, Failed)| == |plan|
  {
    var plan := Plan(before, after);
    var collections, fields := PlanParts(before, after);
    PlannedRenamesDiffer(before, after, before.keys);
    forall x | x in plan ensures !Idle(x) {
      if x in fields && !x.RebuildGraph? {
        AllFieldsUpdate(before, after, before.keys);
      }
    }
    EachReported(db, plan);
    hide Plan;
    NoneIdle(plan);
  }

  lemma {:induction false} NoneIdle(plan: seq<Action>)
    requires forall x :: x in plan ==> !Idle(x)
    ensures CountIdle(plan) == 0
  {
    if plan == [] {
    } else {
      assert plan[|plan| - 1] in plan;
      NoneIdle(plan[..|plan| - 1]);
    }
  }

  lemma AllFieldsUpdate(before: Mapping, after: Mapping, keys: seq<string>)
    ensures forall x :: x in AllFieldActions(before, after, keys) ==> x.UpdateDocuments?
  {
    forall x | x in AllFieldActions(before, after, keys) ensures x.UpdateDocuments? {
      AllFieldActionsExact(before, after, keys, x);
      var t :| t in keys && x in TableFieldActions(before, after, t);
      var a, b := before.tables[t], after.tables[t];
      FieldActionsExact(a, b, a.fields.columns + b.fields.columns, x);
      var c :| c in a.fields.columns + b.fields.columns && x in FieldAction(a, b, c);
    }
  }

  /** The database the reloader writes to. */
  class Writer {
    var collections: Database

    constructor (collections: Database)
      ensures this.collections == collections
    {
      this.collections := collections;
    }
  }

  /** `SelectiveReloader` with no source connected and no graph name. */
  class Reloader {
    const writer: Writer
    var executed: seq<Action>
    var skipped: seq<Action>
    var errors: seq<Action>

    constructor (writer: Writer)
      ensures this.writer == writer && executed == [] && skipped == [] && errors == []
    {
      this.writer := writer;
      executed, skipped, errors := [], [], [];
    }

    method Report(action: Action, outcome: Outcome)
      modifies this
      ensures executed == old(executed) + (if outcome.Executed? then [action] else [])
      ensures skipped == old(skipped) + (if outcome.Skipped? then [action] else [])
      ensures errors == old(errors) + (if outcome.Failed? then [action] else [])
    {
      match outcome
      case Executed => executed := executed + [action];
      case Skipped => skipped := skipped + [action];
      case Failed => errors := errors + [action];
      case Silent =>
    }

    /** Executes the plan in order; a failed action is reported and the rest goes on. */
    method ExecutePlan(plan: seq<Action>)
      modifies this, writer
      ensures writer.collections == Execute(old(writer.collections), plan)
      ensures executed == old(executed) + Those(old(writer.collections), plan, Executed)
      ensures skipped == old(skipped) + Those(old(writer.collections), plan, Skipped)
      ensures errors == old(errors) + Those(old(writer.collections), plan, Failed)
    {
      for i := 0 to |plan|
        invariant writer.collections == Execute(old(writer.collections), plan[..i])
        invariant executed == old(executed) + Those(old(writer.collections), plan[..i], Executed)
        invariant skipped == old(skipped) + Those(old(writer.collections), plan[..i], Skipped)
        invariant errors == old(errors) + Those(old(writer.collections), plan[..i], Failed)
      {
        assert plan[..i + 1][..i] == plan[..i];
        Report(plan[i], OutcomeOf(writer.collections, plan[i]));
        Dispatch(plan[i]);
      }
      assert plan[..|plan|] == plan;
    }

    method Dispatch(action: Action)
      modifies writer
      ensures writer.collections == Do(old(writer.collections), action)
    {
      match action
      case RenameCollection(from, to) =>
        if from != to && to !in writer.collections && from in writer.collections {
          writer.collections := RenameKey(writer.collections, from, to);
        }
      case UpdateDocuments(collection, from, to) =>
        if from !in RESERVED && to !in RESERVED && collection in writer.collections {
          writer.collections := writer.collections[collection := RenameAttribute(writer.collections[collection], from, to)];
        }
      case _ =>
    }
  }
}
