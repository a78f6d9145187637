/**
 Adapting a mapping to a changed source schema (src/r2g/config_migrate.py).
 Settings the migration copies unchanged stand as one opaque text.
 */
module ConfigMigration {
  import opened Names
  import opened Characters

  datatype ForeignKey = ForeignKey(columns: seq<string>, foreignTable: string, foreignColumns: seq<string>)

  datatype TableDef = TableDef(columns: seq<string>, primaryKey: seq<string>, foreignKeys: seq<ForeignKey>)

  type Schema = map<string, TableDef>

  datatype Collection = Collection(
    sourceTable: string,
    target: string,
    isJoinTable: bool,
    fieldMappings: map<string, string>,
    excludeFields: seq<string>,
    includeFields: Option<seq<string>>,
    others: string)

  datatype Edge = Edge(name: string, from: string, to: string, fromFields: seq<string>, toFields: seq<string>, term: Option<string>)

  datatype Config = Config(
    sourceSchema: string,
    collections: map<string, Collection>,
    edges: seq<Edge>,
    typeOverrides: map<string, string>,
    others: string)

  /** What a relationship and a foreign key are matched by. */
  datatype Signature = Signature(from: string, fromFields: seq<string>, to: string, toFields: seq<string>)

  datatype Cleaned =
    | FieldMapping(key: string, column: string)
    | ExcludeField(key: string, column: string)
    | IncludeField(key: string, column: string)
    | TypeOverride(key: string)

  datatype Report = Report(
    addedCollections: seq<string>,
    orphanedCollections: set<string>,
    addedEdges: seq<string>,
    removedEdges: seq<string>,
    cleaned: set<Cleaned>)

  // ----- how a relationship's fields are normalised when it is made

  function StripLeft(t: CharTable, s: string): string
  {
    if s != [] && t.isSpace(s[0]) then StripLeft(t, s[1..]) else s
  }

  function StripRight(t: CharTable, s: string): string
  {
    if s != [] && t.isSpace(s[|s| - 1]) then StripRight(t, s[..|s| - 1]) else s
  }

  function Strip(t: CharTable, s: string): string
  {
    StripRight(t, StripLeft(t, s))
  }

  /** The pieces between commas; `piece` is the one being read. */
  function SplitAtCommas(s: string, piece: string): seq<string>
  {
    if s == [] then [piece]
    else if s[0] == ',' then [piece] + SplitAtCommas(s[1..], [])
    else SplitAtCommas(s[1..], piece + [s[0]])
  }

  function StripPieces(t: CharTable, pieces: seq<string>): seq<string>
  {
    if pieces == [] then []
    else (if Strip(t, pieces[0]) == [] then [] else [Strip(t, pieces[0])]) + StripPieces(t, pieces[1..])
  }

  /** A field given as one name or as a comma-separated list. */
  function SplitSpec(t: CharTable, field: string): seq<string>
  {
    var s := Strip(t, field);
    if s == [] then []
    else if ',' in s then StripPieces(t, SplitAtCommas(s, []))
    else [s]
  }

  function NormalFields(t: CharTable, fields: seq<string>): seq<string>
  {
    if fields == [] then [] else SplitSpec(t, fields[0]) + NormalFields(t, fields[1..])
  }

  /** A column name that names one column and nothing else to `SplitSpec`. */
  predicate Plain(t: CharTable, name: string)
  {
    name != [] && ',' !in name && !t.isSpace(name[0]) && !t.isSpace(name[|name| - 1])
  }

  predicate AllPlain(t: CharTable, names: seq<string>)
  {
    forall k :: 0 <= k < |names| ==> Plain(t, names[k])
  }

  lemma {:induction false} StripLeftFacts(t: CharTable, s: string)
    ensures StripLeft(t, s) == [] || !t.isSpace(StripLeft(t, s)[0])
    ensures forall c :: c in StripLeft(t, s) ==> c in s
  {
    if s != [] {
      StripLeftFacts(t, s[1..]);
    }
  }

  lemma {:induction false} StripRightFacts(t: CharTable, s: string)
    ensures var r := StripRight(t, s); r <= s && (r == [] || !t.isSpace(r[|r| - 1]))
  {
    if s != [] {
      StripRightFacts(t, s[..|s| - 1]);
    }
  }

  lemma StripFacts(t: CharTable, s: string)
    ensures var r := Strip(t, s); r == [] || (!t.isSpace(r[0]) && !t.isSpace(r[|r| - 1]))
    ensures forall c :: c in Strip(t, s) ==> c in s
    ensures Plain(t, s) ==> Strip(t, s) == s
  {
    StripLeftFacts(t, s);
    StripRightFacts(t, StripLeft(t, s));
  }

  lemma {:induction false} PiecesHaveNoComma(s: string, piece: string)
    requires ',' !in piece
    ensures forall k :: 0 <= k < |SplitAtCommas(s, piece)| ==> ',' !in SplitAtCommas(s, piece)[k]
  {
    if s != [] {
      PiecesHaveNoComma(s[1..], if s[0] == ',' then [] else piece + [s[0]]);
    }
  }

  lemma {:induction false} StrippedPiecesPlain(t: CharTable, pieces: seq<string>)
    requires forall k :: 0 <= k < |pieces| ==> ',' !in pieces[k]
    ensures AllPlain(t, StripPieces(t, pieces))
  {
    if pieces != [] {
      StripFacts(t, pieces[0]);
      StrippedPiecesPlain(t, pieces[1..]);
    }
  }

  lemma SplitSpecPlain(t: CharTable, field: string)
    ensures AllPlain(t, SplitSpec(t, field))
    ensures Plain(t, field) ==> SplitSpec(t, field) == [field]
  {
    StripFacts(t, field);
    PiecesHaveNoComma(Strip(t, field), []);
    StrippedPiecesPlain(t, SplitAtCommas(Strip(t, field), []));
  }

  /** The constructor leaves plain names, and leaves fields alone exactly when
      every one is plain. */
  lemma {:induction false} NormalFieldsExact(t: CharTable, fields: seq<string>)
    ensures AllPlain(t, NormalFields(t, fields))
    ensures NormalFields(t, fields) == fields <==> AllPlain(t, fields)
  {
    if fields != [] {
      SplitSpecPlain(t, fields[0]);
      NormalFieldsExact(t, fields[1..]);
      if AllPlain(t, fields) {
        assert AllPlain(t, fields[1..]) by {
          forall k | 0 <= k < |fields[1..]| ensures Plain(t, fields[1..][k]) {
            assert fields[1..][k] == fields[k + 1];
          }
        }
        assert fields == [fields[0]] + fields[1..];
      }
    }
  }

  // ----- collections

  function Sources(collections: map<string, Collection>): set<string>
  {
    set k | k in collections :: collections[k].sourceTable
  }

  const JUNCTION_META := {"quantity", "qty", "count", "sort_order", "position", "rank",
                          "created_at", "updated_at", "created", "updated"}

  function KeyColumns(def: TableDef): set<string>
  {
    (set i, j | 0 <= i < |def.foreignKeys| && 0 <= j < |def.foreignKeys[i].columns| :: def.foreignKeys[i].columns[j])
    + (set j | 0 <= j < |def.primaryKey| :: def.primaryKey[j])
  }

  predicate IsLikelyJoinTable(t: CharTable, def: TableDef)
  {
    |def.foreignKeys| == 2 &&
    forall k :: 0 <= k < |def.columns| && def.columns[k] !in KeyColumns(def) ==> t.Lower(def.columns[k]) in JUNCTION_META
  }

  function NewCollection(t: CharTable, table: string, def: TableDef): Collection
  {
    Collection(table, table, IsLikelyJoinTable(t, def), map[], [], None, "")
  }

  /** A table counts as a join table exactly when it has two foreign keys and each of its columns
      belongs to a key or is, in lower case, one that junction tables are known to carry. */
  lemma JoinTableExactly(t: CharTable, def: TableDef)
    ensures IsLikelyJoinTable(t, def) <==>
      && |def.foreignKeys| == 2
      && forall c :: c in def.columns ==>
           || (exists fk :: fk in def.foreignKeys && c in fk.columns)
           || c in def.primaryKey
           || t.Lower(c) in ["quantity", "qty", "count", "sort_order", "position", "rank",
                             "created_at", "updated_at", "created", "updated"]
  {
    forall c ensures c in KeyColumns(def) <==>
      (exists fk :: fk in def.foreignKeys && c in fk.columns) || c in def.primaryKey
    {
      if fk :| fk in def.foreignKeys && c in fk.columns {
        var i :| 0 <= i < |def.foreignKeys| && def.foreignKeys[i] == fk;
        var j :| 0 <= j < |fk.columns| && fk.columns[j] == c;
        assert def.foreignKeys[i].columns[j] == c;
      }
    }
  }

  function WithAdded(t: CharTable, collections: map<string, Collection>, schema: Schema,
                     tables: set<string>): map<string, Collection>
  {
    collections + map k | k in tables && k in schema :: NewCollection(t, k, schema[k])
  }

  function Only(names: seq<string>, columns: set<string>): seq<string>
  {
    if names == [] then []
    else Only(names[..|names| - 1], columns) + (if names[|names| - 1] in columns then [names[|names| - 1]] else [])
  }

  function Columns(def: TableDef): set<string>
  {
    set k | 0 <= k < |def.columns| :: def.columns[k]
  }

  function OnlyIncluded(listed: Option<seq<string>>, columns: set<string>): Option<seq<string>>
  {
    match listed
    case None => None
    case Some(names) =>
      var kept := Only(names, columns);
      if |kept| < |names| && kept == [] then None else Some(kept)
  }

  function CleanCollection(c: Collection, columns: set<string>): Collection
  {
    c.(fieldMappings := (map k | k in c.fieldMappings && k in columns :: c.fieldMappings[k]),
       excludeFields := Only(c.excludeFields, columns),
       includeFields := OnlyIncluded(c.includeFields, columns))
  }

  /** Names a collection mentions that are not columns of its table any more. */
  function Stale(key: string, c: Collection, columns: set<string>): set<Cleaned>
  {
    (set k | k in c.fieldMappings && k !in columns :: FieldMapping(key, k))
    + (set k | k in c.excludeFields && k !in columns :: ExcludeField(key, k))
    + (if c.includeFields.Some? then set k | k in c.includeFields.value && k !in columns :: IncludeField(key, k) else {})
  }

  function CleanAt(schema: Schema, c: Collection): Collection
  {
    if c.sourceTable in schema then CleanCollection(c, Columns(schema[c.sourceTable])) else c
  }

  function StaleAt(schema: Schema, key: string, c: Collection): set<Cleaned>
  {
    if c.sourceTable in schema then Stale(key, c, Columns(schema[c.sourceTable])) else {}
  }

  function CleanAll(schema: Schema, collections: map<string, Collection>): map<string, Collection>
  {
    map k | k in collections :: CleanAt(schema, collections[k])
  }

  ghost function StaleAll(schema: Schema, collections: map<string, Collection>): set<Cleaned>
  {
    set k, x | k in collections && x in StaleAt(schema, k, collections[k]) :: x
  }

  // ----- relationships

  function EdgeSignature(e: Edge): Signature
  {
    Signature(e.from, e.fromFields, e.to, e.toFields)
  }

  function KeySignature(table: string, fk: ForeignKey): Signature
  {
    Signature(table, fk.columns, fk.foreignTable, fk.foreignColumns)
  }

  function EdgeSignatures(edges: seq<Edge>): set<Signature>
  {
    set i | 0 <= i < |edges| :: EdgeSignature(edges[i])
  }

  function KeySignatures(schema: Schema): set<Signature>
  {
    set k, i | k in schema && 0 <= i < |schema[k].foreignKeys| :: KeySignature(k, schema[k].foreignKeys[i])
  }

  /** The relationships whose foreign key is still there, in order. */
  function Surviving(edges: seq<Edge>, signatures: set<Signature>): seq<Edge>
  {
    if edges == [] then []
    else
      var last := edges[|edges| - 1];
      Surviving(edges[..|edges| - 1], signatures) + (if EdgeSignature(last) in signatures then [last] else [])
  }

  /** The others, as reported. */
  function Removed(edges: seq<Edge>, signatures: set<Signature>): seq<string>
  {
    if edges == [] then []
    else
      var last := edges[|edges| - 1];
      Removed(edges[..|edges| - 1], signatures)
      + (if EdgeSignature(last) in signatures then [] else [last.name + " (" + last.from + " -> " + last.to + ")"])
  }

  datatype TableKey = TableKey(table: string, fk: ForeignKey)

  /** The foreign keys of these tables, in order. */
  function KeysOf(schema: Schema, tables: seq<string>): seq<TableKey>
    requires forall k :: 0 <= k < |tables| ==> tables[k] in schema
  {
    if tables == [] then []
    else KeysOf(schema, tables[..|tables| - 1]) + TableKeys(tables[|tables| - 1], schema[tables[|tables| - 1]].foreignKeys)
  }

  function TableKeys(table: string, fks: seq<ForeignKey>): seq<TableKey>
  {
    seq(|fks|, i requires 0 <= i < |fks| => TableKey(table, fks[i]))
  }

  function JoinColumns(columns: seq<string>): string
  {
    if columns == [] then [] else if |columns| == 1 then columns[0] else columns[0] + "_" + JoinColumns(columns[1..])
  }

  function EdgeName(used: set<string>, k: TableKey): string
  {
    var base := k.table + "_to_" + k.fk.foreignTable;
    if base in used then base + "_" + JoinColumns(k.fk.columns) else base
  }

  function NewEdge(t: CharTable, used: set<string>, k: TableKey): Edge
  {
    Edge(EdgeName(used, k), k.table, k.fk.foreignTable, NormalFields(t, k.fk.columns), NormalFields(t, k.fk.foreignColumns), None)
  }

  function NamesUsed(edges: seq<Edge>): set<string>
  {
    set i | 0 <= i < |edges| :: edges[i].name
  }

  /** The relationships after one for every new foreign key has been added. */
  function WithNewEdges(t: CharTable, edges: seq<Edge>, existing: set<Signature>, keys: seq<TableKey>): seq<Edge>
  {
    if keys == [] then edges
    else
      var before := WithNewEdges(t, edges, existing, keys[..|keys| - 1]);
      var k := keys[|keys| - 1];
      if KeySignature(k.table, k.fk) in existing then before else before + [NewEdge(t, NamesUsed(before), k)]
  }

  // ----- type overrides

  /** Where the first dot is, if there is one. */
  function FirstDot(key: string): Option<nat>
  {
    if key == [] then None
    else if key[0] == '.' then Some(0)
    else match FirstDot(key[1..])
      case None => None
      case Some(i) => Some(i + 1)
  }

  lemma {:induction false} FirstDotExact(key: string)
    ensures match FirstDot(key)
            case None => '.' !in key
            case Some(i) => i < |key| && key[i] == '.' && '.' !in key[..i]
  {
    if key != [] && key[0] != '.' {
      FirstDotExact(key[1..]);
      match FirstDot(key[1..])
      case None => assert key == [key[0]] + key[1..];
      case Some(i) => assert key[..i + 1] == [key[0]] + key[1..][..i];
    }
  }

  /** A dotted override names a table and a column; both must be there. */
  predicate KeepOverride(schema: Schema, key: string)
  {
    match FirstDot(key)
    case None => true
    case Some(i) =>
      i < |key| && key[..i] in schema && key[i + 1..] in Columns(schema[key[..i]])
  }

  function CleanOverrides(schema: Schema, overrides: map<string, string>): map<string, string>
  {
    map k | k in overrides && KeepOverride(schema, k) :: overrides[k]
  }

  // ----- the migration as a whole

  /** Tables no collection is mapped from yet. */
  function NewTables(before: Config, schema: Schema): set<string>
  {
    schema.Keys - Sources(before.collections)
  }

  ghost function Migrated(t: CharTable, before: Config, schema: Schema, sourceSchema: Option<string>): Config
  {
    var collections := WithAdded(t, before.collections, schema, NewTables(before, schema));
    Config(
      if sourceSchema.Some? then sourceSchema.value else before.sourceSchema,
      CleanAll(schema, collections),
      WithNewEdges(t, Surviving(before.edges, KeySignatures(schema)), EdgeSignatures(before.edges), AllKeys(schema)),
      CleanOverrides(schema, before.typeOverrides),
      before.others)
  }

  ghost function AllKeys(schema: Schema): seq<TableKey>
  {
    ListedTables(schema);
    KeysOf(schema, Listing(schema.Keys))
  }

  lemma ListedTables(schema: Schema)
    ensures forall k :: 0 <= k < |Listing(schema.Keys)| ==> Listing(schema.Keys)[k] in schema
  {
    forall k | 0 <= k < |Listing(schema.Keys)| ensures Listing(schema.Keys)[k] in schema {
      assert Listing(schema.Keys)[k] in Elements(Listing(schema.Keys));
    }
  }

  ghost function Reported(t: CharTable, before: Config, schema: Schema): Report
  {
    var collections := WithAdded(t, before.collections, schema, NewTables(before, schema));
    var kept := Surviving(before.edges, KeySignatures(schema));
    var edges := WithNewEdges(t, kept, EdgeSignatures(before.edges), AllKeys(schema));
    Report(
      Listing(NewTables(before, schema)),
      set k | k in collections && collections[k].sourceTable !in schema :: k,
      NamesFrom(edges, |kept|),
      Removed(before.edges, KeySignatures(schema)),
      StaleAll(schema, collections) + StaleOverrides(schema, before.typeOverrides))
  }

  function NamesFrom(edges: seq<Edge>, from: nat): seq<string>
  {
    seq(if from <= |edges| then |edges| - from else 0, i requires 0 <= i && from + i < |edges| => edges[from + i].name)
  }

  function StaleOverrides(schema: Schema, overrides: map<string, string>): set<Cleaned>
  {
    set k | k in overrides && !KeepOverride(schema, k) :: TypeOverride(k)
  }

  // ----- relationships match foreign keys

  /** The relationships are as their constructor leaves them. */
  ghost predicate NormalEdges(t: CharTable, edges: seq<Edge>)
  {
    forall k :: 0 <= k < |edges| ==> AllPlain(t, edges[k].fromFields) && AllPlain(t, edges[k].toFields)
  }

  predicate PlainKey(t: CharTable, s: Signature)
  {
    AllPlain(t, s.fromFields) && AllPlain(t, s.toFields)
  }

  lemma SurvivingExact(edges: seq<Edge>, signatures: set<Signature>)
    ensures forall e :: e in Surviving(edges, signatures) <==> e in edges && EdgeSignature(e) in signatures
    ensures EdgeSignatures(Surviving(edges, signatures)) == EdgeSignatures(edges) * signatures
    ensures EdgeSignatures(edges) <= signatures <==> Surviving(edges, signatures) == edges
    ensures EdgeSignatures(edges) <= signatures <==> Removed(edges, signatures) == []
    ensures |Surviving(edges, signatures)| <= |edges|
  {
    hide Surviving, Removed, EdgeSignatures, EdgeSignature;
    SurvivingMembers(edges, signatures);
    SurvivingSignatures(edges, signatures);
    SurvivingAll(edges, signatures);
  }

  lemma {:induction false} SurvivingMembers(edges: seq<Edge>, signatures: set<Signature>)
    ensures forall e :: e in Surviving(edges, signatures) <==> e in edges && EdgeSignature(e) in signatures
  {
    hide EdgeSignature;
    if edges != [] {
      var n := |edges| - 1;
      SurvivingMembers(edges[..n], signatures);
      assert edges == edges[..n] + [edges[n]];
    }
  }

  lemma {:induction false} SurvivingSignatures(edges: seq<Edge>, signatures: set<Signature>)
    ensures EdgeSignatures(Surviving(edges, signatures)) == EdgeSignatures(edges) * signatures
  {
    if edges == [] {
    } else {
      var n := |edges| - 1;
      SurvivingSignatures(edges[..n], signatures);
      assert edges == edges[..n] + [edges[n]];
      SignaturesAppend(edges[..n], edges[n]);
      SignaturesAppend(Surviving(edges[..n], signatures), edges[n]);
      var kept := Surviving(edges[..n], signatures);
      assert Surviving(edges, signatures) == if EdgeSignature(edges[n]) in signatures then kept + [edges[n]] else kept;
      hide EdgeSignatures, EdgeSignature, Surviving;
    }
  }

  lemma {:induction false} SurvivingAll(edges: seq<Edge>, signatures: set<Signature>)
    ensures EdgeSignatures(edges) <= signatures <==> Surviving(edges, signatures) == edges
    ensures EdgeSignatures(edges) <= signatures <==> Removed(edges, signatures) == []
    ensures |Surviving(edges, signatures)| <= |edges|
  {
    if edges == [] {
    } else {
      var n := |edges| - 1;
      SurvivingAll(edges[..n], signatures);
      assert edges == edges[..n] + [edges[n]];
      SignaturesAppend(edges[..n], edges[n]);
      hide EdgeSignatures, EdgeSignature;
    }
  }

  lemma SignaturesAppend(edges: seq<Edge>, e: Edge)
    ensures EdgeSignatures(edges + [e]) == EdgeSignatures(edges) + {EdgeSignature(e)}
  {
    var more := edges + [e];
    forall i | 0 <= i < |edges| ensures EdgeSignature(edges[i]) in EdgeSignatures(more) {
      assert more[i] == edges[i];
    }
    assert more[|edges|] == e;
    assert EdgeSignature(e) in EdgeSignatures(more);
  }

  /** The signatures of a list of foreign keys. */
  ghost function ListedSignatures(keys: seq<TableKey>): set<Signature>
  {
    set i | 0 <= i < |keys| :: KeySignature(keys[i].table, keys[i].fk)
  }

  lemma ListedAppend(p: seq<TableKey>, q: seq<TableKey>)
    ensures ListedSignatures(p + q) == ListedSignatures(p) + ListedSignatures(q)
  {
    var both := p + q;
    forall s | s in ListedSignatures(p) ensures s in ListedSignatures(both) {
      var i :| 0 <= i < |p| && KeySignature(p[i].table, p[i].fk) == s;
      assert both[i] == p[i];
    }
    forall s | s in ListedSignatures(q) ensures s in ListedSignatures(both) {
      var i :| 0 <= i < |q| && KeySignature(q[i].table, q[i].fk) == s;
      assert both[|p| + i] == q[i];
    }
  }

  lemma {:induction false} KeysOfSignatures(schema: Schema, tables: seq<string>, s: Signature)
    requires forall k :: 0 <= k < |tables| ==> tables[k] in schema
    ensures s in ListedSignatures(KeysOf(schema, tables)) <==> s.from in tables && s in KeySignatures(schema)
  {
    if tables != [] {
      var n := |tables| - 1;
      KeysOfSignatures(schema, tables[..n], s);
      assert tables == tables[..n] + [tables[n]];
      ListedAppend(KeysOf(schema, tables[..n]), TableKeys(tables[n], schema[tables[n]].foreignKeys));
      TableKeysSignatures(schema, tables[n], s);
    }
  }

  lemma TableKeysSignatures(schema: Schema, table: string, s: Signature)
    requires table in schema
    ensures s in ListedSignatures(TableKeys(table, schema[table].foreignKeys)) <==> s.from == table && s in KeySignatures(schema)
  {
    var keys := TableKeys(table, schema[table].foreignKeys);
    if s.from == table && s in KeySignatures(schema) {
      var k, i :| k in schema && 0 <= i < |schema[k].foreignKeys| && s == KeySignature(k, schema[k].foreignKeys[i]);
      assert keys[i] == TableKey(table, schema[table].foreignKeys[i]);
    }
    if s in ListedSignatures(keys) {
      var i :| 0 <= i < |keys| && KeySignature(keys[i].table, keys[i].fk) == s;
      assert s == KeySignature(table, schema[table].foreignKeys[i]);
    }
  }

  lemma AllKeysSignatures(schema: Schema)
    ensures ListedSignatures(AllKeys(schema)) == KeySignatures(schema)
  {
    ListedTables(schema);
    forall s ensures s in ListedSignatures(AllKeys(schema)) <==> s in KeySignatures(schema) {
      KeysOfSignatures(schema, Listing(schema.Keys), s);
      if s in KeySignatures(schema) {
        assert s.from in Elements(Listing(schema.Keys));
      }
    }
  }

  /** The signature a new relationship for this foreign key has. */
  function NormalSignature(t: CharTable, s: Signature): Signature
  {
    s.(fromFields := NormalFields(t, s.fromFields), toFields := NormalFields(t, s.toFields))
  }

  lemma NormalSignatureExact(t: CharTable, s: Signature)
    ensures PlainKey(t, NormalSignature(t, s))
    ensures NormalSignature(t, s) == s <==> PlainKey(t, s)
  {
    NormalFieldsExact(t, s.fromFields);
    NormalFieldsExact(t, s.toFields);
  }

  /** New relationships come last; the ones there keep their place. */
  lemma {:induction false} WithNewEdgesFacts(t: CharTable, edges: seq<Edge>, existing: set<Signature>,
                                             keys: seq<TableKey>)
    ensures edges <= WithNewEdges(t, edges, existing, keys)
    ensures WithNewEdges(t, edges, existing, keys) == edges <==> ListedSignatures(keys) <= existing
    ensures forall s :: s in EdgeSignatures(WithNewEdges(t, edges, existing, keys)) <==>
      s in EdgeSignatures(edges) || IsNew(t, existing, keys, s)
  {
    if keys != [] {
      var n := |keys| - 1;
      var k := keys[n];
      var before := WithNewEdges(t, edges, existing, keys[..n]);
      WithNewEdgesFacts(t, edges, existing, keys[..n]);
      assert keys == keys[..n] + [k];
      ListedAppend(keys[..n], [k]);
      assert ListedSignatures([k]) == {KeySignature(k.table, k.fk)} by {
        assert [k][0] == k;
        assert KeySignature([k][0].table, [k][0].fk) in ListedSignatures([k]);
      }
      SignaturesAppend(before, NewEdge(t, NamesUsed(before), k));
      var x := KeySignature(k.table, k.fk);
      forall s ensures IsNew(t, existing, keys, s) <==>
        (IsNew(t, existing, keys[..n], s) || (x !in existing && s == NormalSignature(t, x)))
      {
      }
    }
  }

  /** Some listed foreign key without a relationship gets one of signature `s`. */
  ghost predicate IsNew(t: CharTable, existing: set<Signature>, keys: seq<TableKey>, s: Signature)
  {
    exists x :: x in ListedSignatures(keys) && x !in existing && s == NormalSignature(t, x)
  }

  /** A signature is there after a migration if its relationship survives or is new. */
  lemma SignaturesAfter(t: CharTable, before: Config, schema: Schema, sourceSchema: Option<string>, s: Signature)
    ensures s in EdgeSignatures(Migrated(t, before, schema, sourceSchema).edges) <==>
      (s in EdgeSignatures(before.edges) && s in KeySignatures(schema))
      || (exists x :: x in KeySignatures(schema) && x !in EdgeSignatures(before.edges) && s == NormalSignature(t, x))
  {
    SurvivingExact(before.edges, KeySignatures(schema));
    WithNewEdgesFacts(t, Surviving(before.edges, KeySignatures(schema)), EdgeSignatures(before.edges), AllKeys(schema));
    AllKeysSignatures(schema);
  }

  ghost predicate PlainKeys(t: CharTable, schema: Schema)
  {
    forall s :: s in KeySignatures(schema) ==> PlainKey(t, s)
  }

  /** After a migration the relationships are exactly the schema's foreign keys:
      if and only if no foreign key has a column name the constructor of a
      relationship would take apart. */
  lemma AlignedExactly(t: CharTable, before: Config, schema: Schema, sourceSchema: Option<string>)
    requires NormalEdges(t, before.edges)
    ensures EdgeSignatures(Migrated(t, before, schema, sourceSchema).edges) == KeySignatures(schema) <==> PlainKeys(t, schema)
    ensures KeySignatures(schema) <= EdgeSignatures(Migrated(t, before, schema, sourceSchema).edges) ==> PlainKeys(t, schema)
  {
    var keys, after := KeySignatures(schema), EdgeSignatures(Migrated(t, before, schema, sourceSchema).edges);
    if PlainKeys(t, schema) {
      forall s ensures s in after <==> s in keys {
        AlignedAt(t, before, schema, sourceSchema, s);
      }
    }
    forall s | s in keys && s in after ensures PlainKey(t, s) {
      PlainAfter(t, before, schema, sourceSchema, s);
    }
  }

  lemma AlignedAt(t: CharTable, before: Config, schema: Schema, sourceSchema: Option<string>, s: Signature)
    requires PlainKeys(t, schema)
    ensures s in EdgeSignatures(Migrated(t, before, schema, sourceSchema).edges) <==> s in KeySignatures(schema)
  {
    SignaturesAfter(t, before, schema, sourceSchema, s);
    NormalSignatureExact(t, s);
    if x :| x in KeySignatures(schema) && x !in EdgeSignatures(before.edges) && s == NormalSignature(t, x) {
      NormalSignatureExact(t, x);
    }
  }

  lemma PlainAfter(t: CharTable, before: Config, schema: Schema, sourceSchema: Option<string>, s: Signature)
    requires NormalEdges(t, before.edges)
    requires s in EdgeSignatures(Migrated(t, before, schema, sourceSchema).edges)
    ensures PlainKey(t, s)
  {
    SignaturesAfter(t, before, schema, sourceSchema, s);
    if s in EdgeSignatures(before.edges) {
      var i :| 0 <= i < |before.edges| && EdgeSignature(before.edges[i]) == s;
    } else {
      var x :| x in KeySignatures(schema) && x !in EdgeSignatures(before.edges) && s == NormalSignature(t, x);
      NormalSignatureExact(t, x);
    }
  }

  /** A schema of one table with one foreign key. */
  function KeyedSchema(table: string, column: string, foreign: string, other: string): Schema
  {
    map[table := TableDef([column], [], [ForeignKey([column], foreign, [other])])]
  }

  /** A column with a comma in its name: its foreign key never gets a relationship that matches it. */
  lemma CommaMisaligned(t: CharTable, before: Config, table: string, foreign: string, other: string,
                        sourceSchema: Option<string>)
    requires before.edges == []
    ensures var schema := KeyedSchema(table, "a,b", foreign, other);
      var after := Migrated(t, before, schema, sourceSchema);
      && Signature(table, ["a,b"], foreign, [other]) in KeySignatures(schema)
      && Signature(table, ["a,b"], foreign, [other]) !in EdgeSignatures(after.edges)
      && Reported(t, after, schema).addedEdges != []
  {
    var schema := KeyedSchema(table, "a,b", foreign, other);
    var s := Signature(table, ["a,b"], foreign, [other]);
    assert KeySignature(table, schema[table].foreignKeys[0]) == s;
    assert s in KeySignatures(schema);
    assert !Plain(t, "a,b") by {
      assert "a,b"[1] == ',';
    }
    assert s.fromFields[0] == "a,b";
    assert !PlainKey(t, s);
    hide Migrated, KeySignatures, PlainKey, Plain, Reported, EdgeSignatures, KeyedSchema;
    if s in EdgeSignatures(Migrated(t, before, schema, sourceSchema).edges) {
      PlainAfter(t, before, schema, sourceSchema, s);
    }
    EdgesTwice(t, before, schema, sourceSchema);
  }

  // ----- the names of new relationships

  /** A new relationship gets a name in use exactly when its plain name and its name
      with the columns are both in use. */
  lemma NameTakenExactly(used: set<string>, k: TableKey)
    ensures var plain := k.table + "_to_" + k.fk.foreignTable;
      EdgeName(used, k) in used <==> plain in used && plain + "_" + JoinColumns(k.fk.columns) in used
  {
  }

  ghost predicate NamesDiffer(edges: seq<Edge>)
  {
    forall i, j :: 0 <= i < j < |edges| ==> edges[i].name != edges[j].name
  }

  /** The `i`-th foreign key is new, and at its turn both its names are in use. */
  ghost predicate NamesGone(t: CharTable, edges: seq<Edge>, existing: set<Signature>, keys: seq<TableKey>, i: nat)
    requires i < |keys|
  {
    var used, plain := NamesUsed(WithNewEdges(t, edges, existing, keys[..i])), keys[i].table + "_to_" + keys[i].fk.foreignTable;
    && KeySignature(keys[i].table, keys[i].fk) !in existing
    && plain in used && plain + "_" + JoinColumns(keys[i].fk.columns) in used
  }

  ghost predicate SomeNamesGone(t: CharTable, edges: seq<Edge>, existing: set<Signature>, keys: seq<TableKey>)
  {
    exists i :: 0 <= i < |keys| && NamesGone(t, edges, existing, keys, i)
  }

  /** All relationships have different names afterwards exactly when they had before
      and no new foreign key found both its names in use. */
  lemma {:induction false} NamesDifferExactly(t: CharTable, edges: seq<Edge>, existing: set<Signature>,
                                              keys: seq<TableKey>)
    ensures NamesDiffer(WithNewEdges(t, edges, existing, keys)) <==> NamesDiffer(edges) && !SomeNamesGone(t, edges, existing, keys)
  {
    if keys == [] {
    } else {
      var n := |keys| - 1;
      assert keys == keys[..n] + [keys[n]];
      var before := WithNewEdges(t, edges, existing, keys[..n]);
      WithNewEdgesNext(t, edges, existing, keys[..n], keys[n]);
      hide WithNewEdges, NamesUsed, NamesDiffer, EdgeName, NamesGone, SomeNamesGone;
      NamesDifferExactly(t, edges, existing, keys[..n]);
      GoneAtLast(t, edges, existing, keys);
      NamesDifferNext(before, NewEdge(t, NamesUsed(before), keys[n]));
    }
  }

  lemma GoneAtLast(t: CharTable, edges: seq<Edge>, existing: set<Signature>, keys: seq<TableKey>)
    requires keys != []
    ensures var n := |keys| - 1;
      var used := NamesUsed(WithNewEdges(t, edges, existing, keys[..n]));
      SomeNamesGone(t, edges, existing, keys) <==>
        (SomeNamesGone(t, edges, existing, keys[..n])
         || (KeySignature(keys[n].table, keys[n].fk) !in existing && EdgeName(used, keys[n]) in used))
  {
    hide WithNewEdges, NamesUsed;
    var n := |keys| - 1;
    NameTakenExactly(NamesUsed(WithNewEdges(t, edges, existing, keys[..n])), keys[n]);
    forall i | 0 <= i < n ensures NamesGone(t, edges, existing, keys[..n], i) <==> NamesGone(t, edges, existing, keys, i) {
      assert keys[..n][..i] == keys[..i];
    }
    if SomeNamesGone(t, edges, existing, keys[..n]) {
      var i :| 0 <= i < n && NamesGone(t, edges, existing, keys[..n], i);
      assert NamesGone(t, edges, existing, keys, i);
    }
    assert NamesGone(t, edges, existing, keys, n) <==>
      KeySignature(keys[n].table, keys[n].fk) !in existing
      && EdgeName(NamesUsed(WithNewEdges(t, edges, existing, keys[..n])), keys[n])
         in NamesUsed(WithNewEdges(t, edges, existing, keys[..n]));
  }

  lemma NamesDifferNext(edges: seq<Edge>, e: Edge)
    ensures NamesDiffer(edges + [e]) <==> NamesDiffer(edges) && e.name !in NamesUsed(edges)
  {
    var more := edges + [e];
    assert more[|edges|] == e;
    if NamesDiffer(more) {
      forall i | 0 <= i < |edges| ensures edges[i].name != e.name {
        assert more[i] == edges[i];
      }
      forall i, j | 0 <= i < j < |edges| ensures edges[i].name != edges[j].name {
        assert more[i].name != more[j].name;
      }
    }
    if e.name !in NamesUsed(edges) {
      forall i | 0 <= i < |edges| ensures edges[i].name != e.name {
        assert edges[i].name in NamesUsed(edges);
      }
    }
  }

  /** Three foreign keys to one table, two of them over columns whose names run together:
      the second and the third relationship get one name. */
  lemma NamesRunTogether(t: CharTable, table: string, foreign: string, c: string, x: string, y: string,
                         others: seq<string>)
    ensures var keys := [TableKey(table, ForeignKey([c], foreign, others)),
                         TableKey(table, ForeignKey([x + "_" + y], foreign, others)),
                         TableKey(table, ForeignKey([x, y], foreign, others))];
      var after := WithNewEdges(t, [], {}, keys);
      |after| == 3 && after[1].name == after[2].name == table + "_to_" + foreign + "_" + (x + "_" + y)
  {
    var one, two, three := TableKey(table, ForeignKey([c], foreign, others)),
                           TableKey(table, ForeignKey([x + "_" + y], foreign, others)),
                           TableKey(table, ForeignKey([x, y], foreign, others));
    var plain := table + "_to_" + foreign;
    var first, second := NewEdge(t, {}, one), NewEdge(t, {plain}, two);
    WithNewEdgesNext(t, [], {}, [], one);
    WithNewEdgesNext(t, [], {}, [one], two);
    WithNewEdgesNext(t, [], {}, [one, two], three);
    hide WithNewEdges, NormalFields;
    assert NamesUsed([]) == {} && [first][0] == first && [first, second][0] == first && [first, second][1] == second;
    assert first.name == plain;
    assert NamesUsed([first]) == {plain};
    assert second.name == plain + "_" + (x + "_" + y);
    assert plain in NamesUsed([first, second]);
    assert [x, y][1..] == [y] && JoinColumns([x, y]) == x + "_" + y;
    assert [] + [one] == [one] && [one] + [two] == [one, two] && [one, two] + [three] == [one, two, three];
    assert WithNewEdges(t, [], {}, [one]) == [first];
    assert [first] + [second] == [first, second];
  }

  lemma WithNewEdgesNext(t: CharTable, edges: seq<Edge>, existing: set<Signature>, keys: seq<TableKey>, k: TableKey)
    ensures var before := WithNewEdges(t, edges, existing, keys);
      WithNewEdges(t, edges, existing, keys + [k])
      == if KeySignature(k.table, k.fk) in existing then before else before + [NewEdge(t, NamesUsed(before), k)]
    ensures WithNewEdges(t, edges, existing, []) == edges
  {
    assert (keys + [k])[..|keys|] == keys;
  }

  // ----- collections keep what is still there

  lemma {:induction false} OnlyExact(names: seq<string>, columns: set<string>)
    ensures forall n :: n in Only(names, columns) <==> n in names && n in columns
    ensures (forall n :: n in names ==> n in columns) <==> Only(names, columns) == names
    ensures |Only(names, columns)| <= |names|
  {
    if names != [] {
      var n := |names| - 1;
      OnlyExact(names[..n], columns);
      assert names == names[..n] + [names[n]];
    }
  }

  /** Every name a collection mentions is one of these columns. */
  ghost predicate MentionsOnly(c: Collection, columns: set<string>)
  {
    && c.fieldMappings.Keys <= columns
    && (forall n :: n in c.excludeFields ==> n in columns)
    && (c.includeFields.Some? ==> forall n :: n in c.includeFields.value ==> n in columns)
  }

  /** A cleaned collection mentions live columns only, and is unchanged exactly
      when it did before. */
  lemma CleanCollectionExact(key: string, c: Collection, columns: set<string>)
    ensures MentionsOnly(CleanCollection(c, columns), columns)
    ensures CleanCollection(c, columns) == c <==> MentionsOnly(c, columns)
    ensures Stale(key, c, columns) == {} <==> MentionsOnly(c, columns)
  {
    OnlyExact(c.excludeFields, columns);
    OnlyIncludedExact(c.includeFields, columns);
    OnlyMappedExact(c.fieldMappings, columns);
    StaleExact(key, c, columns);
  }

  lemma OnlyIncludedExact(listed: Option<seq<string>>, columns: set<string>)
    ensures var kept := OnlyIncluded(listed, columns);
      && (kept.Some? ==> forall n :: n in kept.value ==> n in columns)
      && (kept == listed <==> (listed.Some? ==> forall n :: n in listed.value ==> n in columns))
  {
    if listed.Some? {
      OnlyExact(listed.value, columns);
    }
  }

  lemma OnlyMappedExact(mappings: map<string, string>, columns: set<string>)
    ensures (map k | k in mappings && k in columns :: mappings[k]) == mappings <==> mappings.Keys <= columns
  {
    var kept := map k | k in mappings && k in columns :: mappings[k];
    if kept == mappings {
      forall k | k in mappings ensures k in columns {
        assert k in kept;
      }
    }
  }

  lemma StaleExact(key: string, c: Collection, columns: set<string>)
    ensures Stale(key, c, columns) == {} <==> MentionsOnly(c, columns)
  {
    forall k ensures FieldMapping(key, k) in Stale(key, c, columns) <==> k in c.fieldMappings && k !in columns {
    }
    forall k ensures ExcludeField(key, k) in Stale(key, c, columns) <==> k in c.excludeFields && k !in columns {
    }
    forall k ensures IncludeField(key, k) in Stale(key, c, columns) <==>
      (c.includeFields.Some? && k in c.includeFields.value && k !in columns)
    {
    }
  }

  /** No collection of a live table names a dropped column any more, and no
      dotted override names a dropped table or column. */
  lemma NoStaleNames(t: CharTable, before: Config, schema: Schema, sourceSchema: Option<string>, key: string)
    ensures var after := Migrated(t, before, schema, sourceSchema);
      && (key in after.collections && after.collections[key].sourceTable in schema ==>
            MentionsOnly(after.collections[key], Columns(schema[after.collections[key].sourceTable])))
      && (key in after.typeOverrides <==> key in before.typeOverrides && KeepOverride(schema, key))
  {
    var collections := WithAdded(t, before.collections, schema, NewTables(before, schema));
    if key in collections && collections[key].sourceTable in schema {
      CleanCollectionExact(key, collections[key], Columns(schema[collections[key].sourceTable]));
    }
  }

  /** A collection keeps its settings, apart from dropped columns, exactly when
      its key is not the name of a table that is being added. */
  lemma KeptExactly(t: CharTable, before: Config, schema: Schema, sourceSchema: Option<string>, key: string)
    requires key in before.collections
    ensures key in Migrated(t, before, schema, sourceSchema).collections
    ensures Migrated(t, before, schema, sourceSchema).collections[key] == CleanAt(schema, before.collections[key])
      <==> key !in NewTables(before, schema)
  {
    var after := Migrated(t, before, schema, sourceSchema).collections[key];
    if key in NewTables(before, schema) {
      assert after.sourceTable == key;
      assert before.collections[key].sourceTable in Sources(before.collections);
    }
  }

  // ----- a second migration

  /** Tables of the schema whose every collection gives way to an added one. */
  ghost function Lost(before: Config, schema: Schema): set<string>
  {
    set s | s in Sources(before.collections) && s in schema &&
      forall k :: k in before.collections && before.collections[k].sourceTable == s ==> k in NewTables(before, schema)
  }

  lemma SourcesAfter(t: CharTable, before: Config, schema: Schema, sourceSchema: Option<string>)
    ensures NewTables(Migrated(t, before, schema, sourceSchema), schema) == Lost(before, schema)
  {
    var after := Migrated(t, before, schema, sourceSchema).collections;
    SourcesKept(t, before, schema);
    forall s | s in schema ensures s in Sources(after) <==> s !in Lost(before, schema) {
      SourceAfter(before, schema, after, s);
    }
  }

  /** Cleaning leaves a collection with its table; an added one has the table it is named after. */
  lemma SourcesKept(t: CharTable, before: Config, schema: Schema)
    ensures var after := CleanAll(schema, WithAdded(t, before.collections, schema, NewTables(before, schema)));
      && after.Keys == before.collections.Keys + NewTables(before, schema)
      && forall k :: k in after ==>
           after[k].sourceTable == if k in NewTables(before, schema) then k else before.collections[k].sourceTable
  {
    var added := WithAdded(t, before.collections, schema, NewTables(before, schema));
    assert added.Keys == before.collections.Keys + NewTables(before, schema);
    forall k | k in added ensures CleanAll(schema, added)[k].sourceTable == added[k].sourceTable {
    }
  }

  lemma SourceAfter(before: Config, schema: Schema, after: map<string, Collection>, s: string)
    requires s in schema && after.Keys == before.collections.Keys + NewTables(before, schema)
    requires forall k :: k in after ==>
      after[k].sourceTable == if k in NewTables(before, schema) then k else before.collections[k].sourceTable
    ensures s in Sources(after) <==> s !in Lost(before, schema)
  {
    if s in NewTables(before, schema) {
      assert after[s].sourceTable == s;
    } else if s !in Lost(before, schema) {
      var k :| k in before.collections && before.collections[k].sourceTable == s && k !in NewTables(before, schema);
      assert after[k].sourceTable == s;
    }
    if s in Sources(after) && s !in NewTables(before, schema) {
      var k :| k in after && after[k].sourceTable == s;
      assert k in before.collections;
    }
  }

  lemma CleanedTwice(schema: Schema, collections: map<string, Collection>)
    ensures CleanAll(schema, CleanAll(schema, collections)) == CleanAll(schema, collections)
    ensures StaleAll(schema, CleanAll(schema, collections)) == {}
  {
    var once := CleanAll(schema, collections);
    forall k | k in once ensures CleanAt(schema, once[k]) == once[k] && StaleAt(schema, k, once[k]) == {} {
      var c := collections[k];
      if c.sourceTable in schema {
        CleanCollectionExact(k, c, Columns(schema[c.sourceTable]));
        CleanCollectionExact(k, once[k], Columns(schema[c.sourceTable]));
      }
    }
  }

  lemma EdgesTwice(t: CharTable, before: Config, schema: Schema, sourceSchema: Option<string>)
    requires NormalEdges(t, before.edges)
    ensures var once := Migrated(t, before, schema, sourceSchema);
      && (Reported(t, once, schema).addedEdges == [] <==> PlainKeys(t, schema))
      && (PlainKeys(t, schema) ==> Migrated(t, once, schema, sourceSchema).edges == once.edges)
      && (PlainKeys(t, schema) ==> Reported(t, once, schema).removedEdges == [])
  {
    var once, keys := Migrated(t, before, schema, sourceSchema), KeySignatures(schema);
    AlignedExactly(t, before, schema, sourceSchema);
    SurvivingExact(once.edges, keys);
    AllKeysSignatures(schema);
    WithNewEdgesFacts(t, Surviving(once.edges, keys), EdgeSignatures(once.edges), AllKeys(schema));
  }

  /** A second migration finds nothing to do, and changes nothing, exactly when
      no table lost its collection to the first and every foreign key has plain columns. */
  lemma SettledExactly(t: CharTable, before: Config, schema: Schema, sourceSchema: Option<string>)
    requires NormalEdges(t, before.edges)
    ensures var once := Migrated(t, before, schema, sourceSchema);
      var report := Reported(t, once, schema);
      && (report.addedCollections == [] && report.addedEdges == [] <==> Lost(before, schema) == {} && PlainKeys(t, schema))
      && (report.addedCollections == [] && report.addedEdges == [] ==>
            Migrated(t, once, schema, sourceSchema) == once && report.removedEdges == [] && report.cleaned == {})
  {
    NoElements(Listing(NewTables(Migrated(t, before, schema, sourceSchema), schema)));
    SourcesAfter(t, before, schema, sourceSchema);
    EdgesTwice(t, before, schema, sourceSchema);
    if Lost(before, schema) == {} {
      CollectionsTwice(t, before, schema, sourceSchema);
      OverridesTwice(schema, before.typeOverrides);
    }
  }

  lemma CollectionsTwice(t: CharTable, before: Config, schema: Schema, sourceSchema: Option<string>)
    requires Lost(before, schema) == {}
    ensures var once := Migrated(t, before, schema, sourceSchema);
      var collections := WithAdded(t, once.collections, schema, NewTables(once, schema));
      CleanAll(schema, collections) == once.collections && StaleAll(schema, collections) == {}
  {
    var once := Migrated(t, before, schema, sourceSchema);
    SourcesAfter(t, before, schema, sourceSchema);
    CleanedTwice(schema, WithAdded(t, before.collections, schema, NewTables(before, schema)));
    assert WithAdded(t, once.collections, schema, {}) == once.collections;
  }

  lemma OverridesTwice(schema: Schema, overrides: map<string, string>)
    ensures CleanOverrides(schema, CleanOverrides(schema, overrides)) == CleanOverrides(schema, overrides)
    ensures StaleOverrides(schema, CleanOverrides(schema, overrides)) == {}
  {
  }

  /** Nothing is lost when every collection is keyed by its table. */
  lemma KeyedByTableLosesNothing(before: Config, schema: Schema)
    requires forall k :: k in before.collections ==> before.collections[k].sourceTable == k
    ensures Lost(before, schema) == {}
    ensures forall k :: k in before.collections ==> k !in NewTables(before, schema)
  {
    forall s | s in Sources(before.collections) ensures s !in Lost(before, schema) {
      assert s in before.collections && s !in NewTables(before, schema);
    }
  }

  /** A collection keyed by the name of a table that is being added: it is replaced, its
      own table is left without one, and a second migration adds that table's collection. */
  lemma KeyedOtherwiseLoses(t: CharTable, before: Config, schema: Schema, sourceSchema: Option<string>, table: string,
                            added: string)
    requires table != added && schema.Keys == {table, added}
    requires before.collections.Keys == {added} && before.collections[added].sourceTable == table
    ensures Lost(before, schema) == {table}
    ensures var once := Migrated(t, before, schema, sourceSchema);
      && added in once.collections && once.collections[added] != CleanAt(schema, before.collections[added])
      && Reported(t, once, schema).addedCollections == [table]
  {
    var once := Migrated(t, before, schema, sourceSchema);
    OnlySource(before, table, added);
    assert NewTables(before, schema) == {added};
    KeptExactly(t, before, schema, sourceSchema, added);
    hide Migrated, CleanAt;
    SourcesAfter(t, before, schema, sourceSchema);
    IsTheListing([table], {table});
  }

  lemma OnlySource(before: Config, table: string, added: string)
    requires before.collections.Keys == {added} && before.collections[added].sourceTable == table
    ensures Sources(before.collections) == {table}
  {
    assert before.collections[added].sourceTable in Sources(before.collections);
  }

  /** The collection of a table that had none: named after the table, nothing renamed or left out. */
  lemma AddedAsIs(t: CharTable, before: Config, schema: Schema, sourceSchema: Option<string>, table: string)
    requires table in schema && forall k :: k in before.collections ==> before.collections[k].sourceTable != table
    ensures var collections := Migrated(t, before, schema, sourceSchema).collections;
      table in collections
      && collections[table] == Collection(table, table, IsLikelyJoinTable(t, schema[table]), map[], [], None, "")
  {
    var c := NewCollection(t, table, schema[table]);
    var columns := Columns(schema[table]);
    CleanCollectionExact(table, c, columns);
    assert Stale(table, c, columns) == {};
  }

  /** The surviving relationships are those with a foreign key, unchanged and in their order. */
  lemma {:induction false} SurvivingInOrder(edges: seq<Edge>, signatures: set<Signature>) returns (places: seq<nat>)
    ensures AreAt(edges, signatures, Surviving(edges, signatures), places)
  {
    if edges == [] {
      places := [];
    } else {
      var n := |edges| - 1;
      var before := SurvivingInOrder(edges[..n], signatures);
      places := if EdgeSignature(edges[n]) in signatures then before + [n] else before;
      AreAtNext(edges, signatures, Surviving(edges[..n], signatures), before);
    }
  }

  /** `kept` are the relationships at these ascending places, which are all with a listed signature. */
  ghost predicate AreAt(edges: seq<Edge>, signatures: set<Signature>, kept: seq<Edge>, places: seq<nat>)
  {
    && |places| == |kept|
    && (forall i, j :: 0 <= i < j < |places| ==> places[i] < places[j])
    && (forall i :: 0 <= i < |places| ==> places[i] < |edges| && edges[places[i]] == kept[i])
    && (forall k :: 0 <= k < |edges| ==> (EdgeSignature(edges[k]) in signatures <==> k in places))
  }

  lemma AreAtNext(edges: seq<Edge>, signatures: set<Signature>, kept: seq<Edge>, places: seq<nat>)
    requires edges != [] && AreAt(edges[..|edges| - 1], signatures, kept, places)
    ensures var n := |edges| - 1;
      if EdgeSignature(edges[n]) in signatures then AreAt(edges, signatures, kept + [edges[n]], places + [n])
      else AreAt(edges, signatures, kept, places)
  {
    var n := |edges| - 1;
    var before := edges[..n];
    forall k | 0 <= k < n ensures before[k] == edges[k] {
    }
    forall k | 0 <= k < n ensures k in places <==> k in places + [n] {
    }
    assert n in places + [n];
  }

  /** They come first; the relationships added for new foreign keys follow. */
  lemma SurvivorsFirst(t: CharTable, before: Config, schema: Schema, sourceSchema: Option<string>)
    ensures Surviving(before.edges, KeySignatures(schema)) <= Migrated(t, before, schema, sourceSchema).edges
  {
    WithNewEdgesFacts(t, Surviving(before.edges, KeySignatures(schema)), EdgeSignatures(before.edges), AllKeys(schema));
  }

  // ----- the migration, step by step

  method AddCollections(t: CharTable, before: Config, schema: Schema) returns (collections: map<string, Collection>,
                        added: seq<string>)
    ensures collections == WithAdded(t, before.collections, schema, NewTables(before, schema))
    ensures added == Listing(NewTables(before, schema))
  {
    hide WithAdded, NewCollection, Sources;
    added := Sorted(schema.Keys - Sources(before.collections));
    collections := before.collections;
    WithAddedNone(t, before.collections, schema);
    NoElements(added[..0]);
    for i := 0 to |added|
      invariant collections == WithAdded(t, before.collections, schema, Elements(added[..i]))
    {
      assert added[i] in Elements(added);
      TakeNext(added, i);
      WithAddedNext(t, before.collections, schema, Elements(added[..i]), added[i]);
      collections := collections[added[i] := NewCollection(t, added[i], schema[added[i]])];
    }
    assert added[..|added|] == added;
  }

  lemma WithAddedNone(t: CharTable, collections: map<string, Collection>, schema: Schema)
    ensures WithAdded(t, collections, schema, {}) == collections
  {
  }

  lemma WithAddedNext(t: CharTable, collections: map<string, Collection>, schema: Schema, tables: set<string>,
                      table: string)
    requires table in schema
    ensures WithAdded(t, collections, schema, tables + {table})
         == WithAdded(t, collections, schema, tables)[table := NewCollection(t, table, schema[table])]
  {
  }

  /** Drops the removed columns from every collection of a live table. */
  method CleanCollections(schema: Schema, before: map<string, Collection>)
    returns (collections: map<string, Collection>, cleaned: set<Cleaned>)
    ensures collections == CleanAll(schema, before) && cleaned == StaleAll(schema, before)
  {
    collections, cleaned := before, {};
    var todo := before.Keys;
    while todo != {}
      invariant todo <= before.Keys && collections.Keys == before.Keys
      invariant forall k :: k in before ==> collections[k] == if k in todo then before[k] else CleanAt(schema, before[k])
      invariant forall x :: x in cleaned <==> exists k :: k in before && k !in todo && x in StaleAt(schema, k, before[k])
      decreases todo
    {
      var key :| key in todo;
      var c := before[key];
      if c.sourceTable in schema {
        var columns := Columns(schema[c.sourceTable]);
        collections := collections[key := CleanCollection(c, columns)];
        cleaned := cleaned + Stale(key, c, columns);
      }
      todo := todo - {key};
    }
  }

  method KeepEdges(edges: seq<Edge>, signatures: set<Signature>) returns (kept: seq<Edge>, removed: seq<string>)
    ensures kept == Surviving(edges, signatures) && removed == Removed(edges, signatures)
  {
    kept, removed := [], [];
    for i := 0 to |edges|
      invariant kept == Surviving(edges[..i], signatures) && removed == Removed(edges[..i], signatures)
    {
      var e := edges[i];
      assert edges[..i + 1][..i] == edges[..i];
      if EdgeSignature(e) in signatures {
        kept := kept + [e];
      } else {
        removed := removed + [e.name + " (" + e.from + " -> " + e.to + ")"];
      }
    }
    assert edges[..|edges|] == edges;
  }

  /** One relationship for every foreign key that had none, under a name not used before if there is one. */
  method AddEdges(t: CharTable, kept: seq<Edge>, existing: set<Signature>, schema: Schema)
    returns (edges: seq<Edge>, added: seq<string>)
    ensures edges == WithNewEdges(t, kept, existing, AllKeys(schema)) && added == NamesFrom(edges, |kept|)
  {
    var tables := Sorted(schema.Keys);
    ListedTables(schema);
    edges, added := kept, [];
    var used := NamesUsed(edges);
    for i := 0 to |tables|
      invariant Adding(t, kept, existing, KeysOf(schema, tables[..i]), edges, added, used)
    {
      KeysOfNext(schema, tables, i);
      var fks := schema[tables[i]].foreignKeys;
      edges, added, used := AddTableEdges(t, kept, existing, KeysOf(schema, tables[..i]), tables[i], fks, edges, added, used);
    }
    assert tables[..|tables|] == tables;
  }

  lemma KeysOfNext(schema: Schema, tables: seq<string>, i: nat)
    requires i < |tables| && forall k :: 0 <= k < |tables| ==> tables[k] in schema
    ensures KeysOf(schema, tables[..i + 1]) == KeysOf(schema, tables[..i]) + TableKeys(tables[i], schema[tables[i]].foreignKeys)
  {
    assert tables[..i + 1][..i] == tables[..i];
  }

  ghost predicate Adding(t: CharTable, kept: seq<Edge>, existing: set<Signature>, keys: seq<TableKey>,
                         edges: seq<Edge>, added: seq<string>, used: set<string>)
  {
    && edges == WithNewEdges(t, kept, existing, keys) && |edges| >= |kept|
    && added == NamesFrom(edges, |kept|) && used == NamesUsed(edges)
  }

  method AddTableEdges(t: CharTable, ghost kept: seq<Edge>, existing: set<Signature>, ghost keys: seq<TableKey>,
                       table: string, fks: seq<ForeignKey>, before: seq<Edge>, addedBefore: seq<string>, usedBefore: set<string>)
    returns (edges: seq<Edge>, added: seq<string>, used: set<string>)
    requires Adding(t, kept, existing, keys, before, addedBefore, usedBefore)
    ensures Adding(t, kept, existing, keys + TableKeys(table, fks), edges, added, used)
  {
    edges, added, used := before, addedBefore, usedBefore;
    assert keys + TableKeys(table, fks)[..0] == keys;
    for i := 0 to |fks|
      invariant Adding(t, kept, existing, keys + TableKeys(table, fks)[..i], edges, added, used)
    {
      ghost var done := keys + TableKeys(table, fks)[..i];
      assert keys + TableKeys(table, fks)[..i + 1] == done + [TableKey(table, fks[i])];
      AddingNext(t, kept, existing, done, TableKey(table, fks[i]), edges, added, used);
      if KeySignature(table, fks[i]) !in existing {
        var e := NewEdge(t, used, TableKey(table, fks[i]));
        used := used + {e.name};
        edges := edges + [e];
        added := added + [e.name];
      }
    }
    assert TableKeys(table, fks)[..|fks|] == TableKeys(table, fks);
  }

  lemma AddingNext(t: CharTable, kept: seq<Edge>, existing: set<Signature>, keys: seq<TableKey>, k: TableKey,
                   edges: seq<Edge>, added: seq<string>, used: set<string>)
    requires Adding(t, kept, existing, keys, edges, added, used)
    ensures var e := NewEdge(t, used, k);
      if KeySignature(k.table, k.fk) in existing then Adding(t, kept, existing, keys + [k], edges, added, used)
      else Adding(t, kept, existing, keys + [k], edges + [e], added + [e.name], used + {e.name})
  {
    assert (keys + [k])[..|keys|] == keys;
    var more := edges + [NewEdge(t, used, k)];
    forall i | 0 <= i < |edges| ensures edges[i].name in NamesUsed(more) {
      assert more[i] == edges[i];
    }
    assert more[|edges|].name in NamesUsed(more);
    assert NamesUsed(more) == used + {NewEdge(t, used, k).name};
  }

  /** `migrate_config` */
  method MigrateConfig(t: CharTable, before: Config, schema: Schema, sourceSchema: Option<string>)
    returns (config: Config, report: Report)
    ensures config == Migrated(t, before, schema, sourceSchema) && report == Reported(t, before, schema)
  {
    config := before;
    if sourceSchema.Some? {
      config := config.(sourceSchema := sourceSchema.value);
    }
    var collections, addedCollections := AddCollections(t, before, schema);
    var orphaned := set k | k in collections && collections[k].sourceTable !in schema :: k;
    var cleanedCollections, cleaned := CleanCollections(schema, collections);
    config := config.(collections := cleanedCollections);
    var kept, removed := KeepEdges(before.edges, KeySignatures(schema));
    var edges, addedEdges := AddEdges(t, kept, EdgeSignatures(before.edges), schema);
    config := config.(edges := edges, typeOverrides := CleanOverrides(schema, before.typeOverrides));
    report := Report(addedCollections, orphaned, addedEdges, removed, cleaned + StaleOverrides(schema, before.typeOverrides));
  }
}
