/**
 What saving a mapping changes, and the classes each change is checked on
 (src/r2g/mapping_changes.py). A model is its serialised form: field name to
 value, an absent field reading as null.
 */
module MappingChanges {
  import opened Names

  /** A value of a serialised model. Anything but text and lists of names stands as opaque JSON. */
  datatype Value = Null | Text(text: string) | List(names: seq<string>) | Json(json: string)

  type Dump = map<string, Value>

  function Get(d: Dump, field: string): Value
  {
    if field in d then d[field] else Null
  }

  function TextOf(v: Value): string
  {
    if v.Text? then v.text else ""
  }

  function ListOf(v: Value): seq<string>
  {
    if v.List? then v.names else []
  }

  /** A class, or `Null` for the project-wide rules. */
  function Term(d: Dump): Value
  {
    Get(d, "term")
  }

  /** The tables by their key, in insertion order. */
  datatype Table = Table(key: string, dump: Dump)

  datatype Config = Config(settings: Dump, tables: seq<Table>, edges: seq<Dump>)

  datatype Found = Missing | Present(dump: Dump)

  function Find(tables: seq<Table>, key: string): Found
  {
    if tables == [] then Missing
    else if tables[0].key == key then Present(tables[0].dump)
    else Find(tables[1..], key)
  }

  /** The order of two relationships' JSON texts decides which is compared first. */
  type Serialise = Dump -> string

  datatype Item = Item(where: string, terms: seq<Value>, what: seq<string>)

  // ----- small helpers of the source

  function Join(names: seq<string>): string
  {
    if names == [] then []
    else if |names| == 1 then names[0]
    else names[0] + "," + Join(names[1..])
  }

  /** The columns of one end, joined: a relationship over single columns has a text
      field for its column, any other a list. */
  function Columns(e: Dump, many: string, single: string): string
  {
    if many in e then Join(ListOf(e[many])) else TextOf(Get(e, single))
  }

  function EdgeWhere(e: Dump): string
  {
    "edges/" + TextOf(Get(e, "edge_collection")) + "(" + TextOf(Get(e, "from_collection")) + "."
    + Columns(e, "from_fields", "from_field") + " -> " + TextOf(Get(e, "to_collection")) + "."
    + Columns(e, "to_fields", "to_field") + ")"
  }

  /** `dict.fromkeys`: each term once, at its first place. */
  function Unique(terms: seq<Value>): seq<Value>
  {
    if terms == [] then []
    else
      var before := Unique(terms[..|terms| - 1]);
      if terms[|terms| - 1] in before then before else before + [terms[|terms| - 1]]
  }

  lemma {:induction false} UniqueExact(terms: seq<Value>)
    ensures forall t :: t in Unique(terms) <==> t in terms
    ensures NoDuplicates(Unique(terms))
    ensures |Unique(terms)| == 0 <==> terms == []
  {
    if terms != [] {
      UniqueExact(terms[..|terms| - 1]);
      assert terms == terms[..|terms| - 1] + [terms[|terms| - 1]];
    }
  }

  /** The classes of the table a relationship starts from: of every table mapped
      from that source, else of the one keyed so, else project-wide. */
  function StartClasses(c: Config, table: string): seq<Value>
  {
    var found := TermsFrom(c.tables, table);
    if found != [] then Unique(found)
    else
      var keyed := Find(c.tables, table);
      if keyed.Present? then [Term(keyed.dump)] else [Null]
  }

  function TermsFrom(tables: seq<Table>, source: string): seq<Value>
  {
    if tables == [] then []
    else
      (if Get(tables[0].dump, "source_table") == Text(source) then [Term(tables[0].dump)] else [])
      + TermsFrom(tables[1..], source)
  }

  function DifferingFields(a: Dump, b: Dump): set<string>
  {
    set k | k in a.Keys + b.Keys && Get(a, k) != Get(b, k)
  }

  ghost function Differing(a: Found, b: Found): seq<string>
  {
    if a.Missing? then ["added"]
    else if b.Missing? then ["removed"]
    else Listing(DifferingFields(a.dump, b.dump))
  }

  function TermsOf(a: Found, b: Found): seq<Value>
  {
    Unique((if a.Present? then [Term(a.dump)] else []) + (if b.Present? then [Term(b.dump)] else []))
  }

  /** The relationships of one identity, in order. */
  function Group(edges: seq<Dump>, where: string): seq<Dump>
  {
    if edges == [] then []
    else Group(edges[..|edges| - 1], where)
         + (if EdgeWhere(edges[|edges| - 1]) == where then [edges[|edges| - 1]] else [])
  }

  function ClassesOf(c: Config, group: seq<Dump>): seq<Value>
  {
    if group == [] then []
    else StartClasses(c, TextOf(Get(group[0], "from_collection"))) + ClassesOf(c, group[1..])
  }

  /** The relationship whose text sorts first. */
  ghost function FirstByText(text: Serialise, group: seq<Dump>): Found
  {
    if group == [] then Missing
    else
      var rest := FirstByText(text, group[..|group| - 1]);
      var last := group[|group| - 1];
      if rest.Missing? || Before(text(last), text(rest.dump)) then Present(last) else rest
  }

  // ----- the changes, item by item

  ghost function SettingItem(key: string): Item
  {
    Item("mapping/" + key, [Null], [key])
  }

  ghost function TableItem(a: Config, b: Config, key: string): Item
  {
    var x, y := Find(a.tables, key), Find(b.tables, key);
    Item("collections/" + key, TermsOf(x, y), Differing(x, y))
  }

  ghost function EdgeItem(text: Serialise, a: Config, b: Config, where: string): Item
  {
    var x, y := Group(a.edges, where), Group(b.edges, where);
    Item(where, Unique(ClassesOf(a, x) + ClassesOf(b, y)), Differing(FirstByText(text, x), FirstByText(text, y)))
  }

  function Keys(tables: seq<Table>): set<string>
  {
    set i | 0 <= i < |tables| :: tables[i].key
  }

  function Wheres(edges: seq<Dump>): set<string>
  {
    set i | 0 <= i < |edges| :: EdgeWhere(edges[i])
  }

  function ChangedTables(a: Config, b: Config): set<string>
  {
    set k | k in Keys(a.tables) + Keys(b.tables) && Find(a.tables, k) != Find(b.tables, k)
  }

  ghost function ChangedEdges(a: Config, b: Config): set<string>
  {
    set w | w in Wheres(a.edges) + Wheres(b.edges) && multiset(Group(a.edges, w)) != multiset(Group(b.edges, w))
  }

  ghost function SettingItems(keys: seq<string>): seq<Item>
  {
    seq(|keys|, i requires 0 <= i < |keys| => SettingItem(keys[i]))
  }

  ghost function TableItems(a: Config, b: Config, keys: seq<string>): seq<Item>
  {
    seq(|keys|, i requires 0 <= i < |keys| => TableItem(a, b, keys[i]))
  }

  ghost function EdgeItems(text: Serialise, a: Config, b: Config, wheres: seq<string>): seq<Item>
  {
    seq(|wheres|, i requires 0 <= i < |wheres| => EdgeItem(text, a, b, wheres[i]))
  }

  ghost function Changes(text: Serialise, a: Config, b: Config): seq<Item>
  {
    SettingItems(Listing(DifferingFields(a.settings, b.settings)))
    + TableItems(a, b, Listing(ChangedTables(a, b)))
    + EdgeItems(text, a, b, Listing(ChangedEdges(a, b)))
  }

  // ----- nothing is missed

  lemma {:induction false} FindKeys(tables: seq<Table>, key: string)
    ensures Find(tables, key).Present? <==> key in Keys(tables)
  {
    if tables != [] {
      FindKeys(tables[1..], key);
      assert Keys(tables) == {tables[0].key} + Keys(tables[1..]) by {
        forall i | 0 < i < |tables| ensures tables[i].key in Keys(tables[1..]) {
          assert tables[i] == tables[1..][i - 1];
        }
      }
    }
  }

  lemma {:induction false} GroupCount(edges: seq<Dump>, where: string, e: Dump)
    ensures multiset(Group(edges, where))[e] == if EdgeWhere(e) == where then multiset(edges)[e] else 0
  {
    if edges != [] {
      var before, last := edges[..|edges| - 1], edges[|edges| - 1];
      GroupCount(before, where, e);
      assert edges == before + [last];
    }
  }

  lemma {:induction false} GroupEmpty(edges: seq<Dump>, where: string)
    ensures Group(edges, where) == [] <==> where !in Wheres(edges)
  {
    if edges != [] {
      var before, last := edges[..|edges| - 1], edges[|edges| - 1];
      GroupEmpty(before, where);
      WheresNext(before, last);
      assert edges == before + [last];
    }
  }

  lemma WheresNext(before: seq<Dump>, last: Dump)
    ensures Wheres(before + [last]) == Wheres(before) + {EdgeWhere(last)}
  {
    var all := before + [last];
    forall i | 0 <= i < |before| ensures EdgeWhere(before[i]) in Wheres(all) {
      assert all[i] == before[i];
    }
    assert all[|before|] == last;
    assert EdgeWhere(last) in Wheres(all);
  }

  /** The groups agree everywhere exactly when the relationships are the same up to order. */
  lemma GroupsAgree(a: Config, b: Config)
    ensures ChangedEdges(a, b) == {} <==> multiset(a.edges) == multiset(b.edges)
  {
    if multiset(a.edges) == multiset(b.edges) {
      forall w ensures multiset(Group(a.edges, w)) == multiset(Group(b.edges, w)) {
        forall e ensures multiset(Group(a.edges, w))[e] == multiset(Group(b.edges, w))[e] {
          GroupCount(a.edges, w, e);
          GroupCount(b.edges, w, e);
        }
      }
    } else if ChangedEdges(a, b) == {} {
      forall e ensures multiset(a.edges)[e] == multiset(b.edges)[e] {
        var w := EdgeWhere(e);
        GroupCount(a.edges, w, e);
        GroupCount(b.edges, w, e);
        GroupEmpty(a.edges, w);
        GroupEmpty(b.edges, w);
        assert w !in ChangedEdges(a, b);
      }
      assert false;
    }
  }

  /** Every setting reads the same, every key maps to the same table, and the
      relationships are the same up to order. */
  ghost predicate SameMapping(a: Config, b: Config)
  {
    && (forall k :: Get(a.settings, k) == Get(b.settings, k))
    && (forall k :: Find(a.tables, k) == Find(b.tables, k))
    && multiset(a.edges) == multiset(b.edges)
  }

  /** A save that changes nothing asks nothing; any other asks something. */
  lemma NoChangesExactly(text: Serialise, a: Config, b: Config)
    ensures Changes(text, a, b) == [] <==> SameMapping(a, b)
  {
    NoElements(Listing(DifferingFields(a.settings, b.settings)));
    NoElements(Listing(ChangedTables(a, b)));
    NoElements(Listing(ChangedEdges(a, b)));
    GroupsAgree(a, b);
    forall k ensures k in DifferingFields(a.settings, b.settings) <==> Get(a.settings, k) != Get(b.settings, k) {
    }
    forall k ensures k in ChangedTables(a, b) <==> Find(a.tables, k) != Find(b.tables, k) {
      FindKeys(a.tables, k);
      FindKeys(b.tables, k);
    }
  }

  /** A changed table is listed with the class it had and the class it gets. */
  lemma ChangedTableListed(text: Serialise, a: Config, b: Config, key: string)
    requires Find(a.tables, key) != Find(b.tables, key)
    ensures TableItem(a, b, key) in Changes(text, a, b)
    ensures Find(a.tables, key).Present? ==> Term(Find(a.tables, key).dump) in TableItem(a, b, key).terms
    ensures Find(b.tables, key).Present? ==> Term(Find(b.tables, key).dump) in TableItem(a, b, key).terms
  {
    FindKeys(a.tables, key);
    FindKeys(b.tables, key);
    var keys := Listing(ChangedTables(a, b));
    assert key in Elements(keys);
    var i :| 0 <= i < |keys| && keys[i] == key;
    assert TableItems(a, b, keys)[i] == TableItem(a, b, key);
    var x, y := Find(a.tables, key), Find(b.tables, key);
    UniqueExact((if x.Present? then [Term(x.dump)] else []) + (if y.Present? then [Term(y.dump)] else []));
  }

  /** A changed relationship is listed with every class its table starts from, before and after. */
  lemma ChangedEdgeListed(text: Serialise, a: Config, b: Config, where: string)
    requires multiset(Group(a.edges, where)) != multiset(Group(b.edges, where))
    ensures EdgeItem(text, a, b, where) in Changes(text, a, b)
    ensures forall t :: t in EdgeItem(text, a, b, where).terms <==>
              t in ClassesOf(a, Group(a.edges, where)) || t in ClassesOf(b, Group(b.edges, where))
  {
    GroupEmpty(a.edges, where);
    GroupEmpty(b.edges, where);
    var wheres := Listing(ChangedEdges(a, b));
    assert where in Elements(wheres);
    var i :| 0 <= i < |wheres| && wheres[i] == where;
    assert EdgeItems(text, a, b, wheres)[i] == EdgeItem(text, a, b, where);
    UniqueExact(ClassesOf(a, Group(a.edges, where)) + ClassesOf(b, Group(b.edges, where)));
  }

  /** A changed setting is listed under the project-wide rules. */
  lemma ChangedSettingListed(text: Serialise, a: Config, b: Config, key: string)
    requires Get(a.settings, key) != Get(b.settings, key)
    ensures SettingItem(key) in Changes(text, a, b)
  {
    var keys := Listing(DifferingFields(a.settings, b.settings));
    assert key in Elements(keys);
    var i :| 0 <= i < |keys| && keys[i] == key;
    assert SettingItems(keys)[i] == SettingItem(key);
  }

  // ----- when a listed relationship shows nothing that differs

  /** The relationship of a group whose text sorts before all others. */
  ghost predicate IsFirst(text: Serialise, group: seq<Dump>, d: Dump)
  {
    d in group && forall e :: e in group && e != d ==> Before(text(d), text(e))
  }

  lemma {:induction false} FirstIsFirst(text: Serialise, group: seq<Dump>)
    requires Readable(text, group)
    ensures FirstByText(text, group).Missing? <==> group == []
    ensures group != [] ==> IsFirst(text, group, FirstByText(text, group).dump)
  {
    if group == [] {
    } else {
      var n := |group| - 1;
      var last := group[n];
      assert group == group[..n] + [last];
      FirstIsFirst(text, group[..n]);
      if n > 0 {
        var first := FirstByText(text, group[..n]).dump;
        hide FirstByText;
        BeforeTotal(text(first), text(last));
        forall e | e in group[..n] && Before(text(last), text(first)) && e != first ensures Before(text(last), text(e)) {
          BeforeTransitive(text(last), text(first), text(e));
        }
      }
    }
  }

  lemma OneFirst(text: Serialise, group: seq<Dump>, d: Dump, e: Dump)
    requires IsFirst(text, group, d) && IsFirst(text, group, e)
    ensures d == e
  {
    if d != e {
      BeforeTransitive(text(d), text(e), text(d));
      BeforeIrreflexive(text(d));
    }
  }

  /** What serialising gives: no field is null, and different values have different texts. */
  ghost predicate Readable(text: Serialise, group: seq<Dump>)
  {
    && (forall d, k :: d in group && k in d ==> d[k] != Null)
    && (forall d, e :: d in group && e in group && text(d) == text(e) ==> d == e)
  }

  /** Without nulls, two values with the same fields are the same. */
  lemma SameDump(d: Dump, e: Dump)
    requires (forall k :: k in d ==> d[k] != Null) && (forall k :: k in e ==> e[k] != Null)
    ensures DifferingFields(d, e) == {} <==> d == e
  {
    if DifferingFields(d, e) == {} {
      forall k | k in d.Keys + e.Keys ensures k in d && k in e && d[k] == e[k] {
        assert k !in DifferingFields(d, e);
      }
    }
  }

  /** A listed relationship shows no differing field exactly when the relationships of
      its identity, before and after, have the same first one. */
  lemma WhatEmptyExactly(text: Serialise, a: Config, b: Config, where: string)
    requires where in ChangedEdges(a, b)
    requires Readable(text, Group(a.edges, where)) && Readable(text, Group(b.edges, where))
    ensures EdgeItem(text, a, b, where).what == [] <==>
      exists d :: IsFirst(text, Group(a.edges, where), d) && IsFirst(text, Group(b.edges, where), d)
  {
    var x, y := Group(a.edges, where), Group(b.edges, where);
    FirstIsFirst(text, x);
    FirstIsFirst(text, y);
    if x != [] && y != [] {
      var d, e := FirstByText(text, x).dump, FirstByText(text, y).dump;
      hide FirstByText, Group;
      SameDump(d, e);
      NoElements(Listing(DifferingFields(d, e)));
      forall f | IsFirst(text, x, f) && IsFirst(text, y, f) ensures f == d && f == e {
        OneFirst(text, x, f, d);
        OneFirst(text, y, f, e);
      }
    }
  }

  /** So it always shows one while neither side has two relationships of that identity. */
  lemma WhatShown(text: Serialise, a: Config, b: Config, where: string)
    requires where in ChangedEdges(a, b)
    requires Readable(text, Group(a.edges, where)) && Readable(text, Group(b.edges, where))
    requires |Group(a.edges, where)| <= 1 && |Group(b.edges, where)| <= 1
    ensures EdgeItem(text, a, b, where).what != []
  {
    WhatEmptyExactly(text, a, b, where);
    var x, y := Group(a.edges, where), Group(b.edges, where);
    hide Group;
    if d :| IsFirst(text, x, d) && IsFirst(text, y, d) {
      OnlyFirst(text, x, d);
      OnlyFirst(text, y, d);
      assert false;
    }
  }

  lemma OnlyFirst(text: Serialise, group: seq<Dump>, d: Dump)
    requires IsFirst(text, group, d) && |group| <= 1
    ensures group == [d]
  {
  }

  /** A relationship over single columns, without a term. */
  function Relationship(name: string, from: string, column: string, to: string, other: string): Dump
  {
    map["edge_collection" := Text(name), "from_collection" := Text(from), "to_collection" := Text(to),
        "from_field" := Text(column), "to_field" := Text(other)]
  }

  lemma RelationshipFacts(name: string, from: string, column: string, to: string, other: string)
    ensures var e := Relationship(name, from, column, to, other);
      "term" !in e && Get(e, "from_collection") == Text(from) && forall k :: k in e ==> e[k] != Null
  {
  }

  lemma TermKeepsIdentity(e: Dump, term: string)
    ensures EdgeWhere(e["term" := Text(term)]) == EdgeWhere(e)
    ensures Get(e["term" := Text(term)], "from_collection") == Get(e, "from_collection")
  {
    var f := e["term" := Text(term)];
    forall k | k != "term" ensures Get(f, k) == Get(e, k) && (k in f <==> k in e) {
    }
  }

  /** Mappings of relationships only. */
  function Edges(edges: seq<Dump>): Config
  {
    Config(map[], [], edges)
  }

  /** A relationship that is given a second time is listed, with nothing that differs ... */
  lemma DoubledShowsNothing(text: Serialise, name: string, from: string, column: string, to: string, other: string)
    ensures var e := Relationship(name, from, column, to, other);
      var a, b, where := Edges([e]), Edges([e, e]), EdgeWhere(e);
      && where in ChangedEdges(a, b) && EdgeItem(text, a, b, where) in Changes(text, a, b)
      && EdgeItem(text, a, b, where).what == []
  {
    hide Relationship;
    RelationshipFacts(name, from, column, to, other);
    var e := Relationship(name, from, column, to, other);
    SecondShowsNothing(text, e, e);
  }

  /** ... and so is one with a term that gets a second without, if its text sorts first. */
  lemma TermShowsNothing(text: Serialise, name: string, from: string, column: string, to: string, other: string,
                         term: string)
    requires var e := Relationship(name, from, column, to, other); Before(text(e["term" := Text(term)]), text(e))
    ensures var e := Relationship(name, from, column, to, other);
      var f, where := e["term" := Text(term)], EdgeWhere(e);
      var a, b := Edges([f]), Edges([f, e]);
      where in ChangedEdges(a, b) && EdgeItem(text, a, b, where) in Changes(text, a, b) && EdgeItem(text, a, b, where).what == []
  {
    hide Relationship;
    RelationshipFacts(name, from, column, to, other);
    var e := Relationship(name, from, column, to, other);
    TermKeepsIdentity(e, term);
    SecondShowsNothing(text, e["term" := Text(term)], e);
  }

  lemma SecondShowsNothing(text: Serialise, d: Dump, e: Dump)
    requires EdgeWhere(d) == EdgeWhere(e) && (forall k :: k in d ==> d[k] != Null) && (forall k :: k in e ==> e[k] != Null)
    requires d == e || Before(text(d), text(e))
    ensures var a, b, where := Edges([d]), Edges([d, e]), EdgeWhere(e);
      where in ChangedEdges(a, b) && EdgeItem(text, a, b, where) in Changes(text, a, b) && EdgeItem(text, a, b, where).what == []
  {
    var a, b, where := Edges([d]), Edges([d, e]), EdgeWhere(e);
    SmallGroups(d, e, where);
    hide EdgeWhere, Group, Changes, EdgeItem;
    assert |multiset(Group(a.edges, where))| == 1 && |multiset(Group(b.edges, where))| == 2;
    ChangedEdgeListed(text, a, b, where);
    GroupEmpty(a.edges, where);
    SmallReadable(text, d, e);
    assert where in ChangedEdges(a, b);
    hide ChangedEdges, Readable;
    WhatEmptyExactly(text, a, b, where);
  }

  lemma SmallReadable(text: Serialise, d: Dump, e: Dump)
    requires (forall k :: k in d ==> d[k] != Null) && (forall k :: k in e ==> e[k] != Null)
    requires d == e || Before(text(d), text(e))
    ensures Readable(text, [d]) && Readable(text, [d, e])
    ensures IsFirst(text, [d], d) && IsFirst(text, [d, e], d)
  {
    if d != e {
      BeforeIrreflexive(text(d));
    }
  }

  lemma SmallGroups(d: Dump, e: Dump, where: string)
    requires EdgeWhere(d) == EdgeWhere(e) == where
    ensures Group([d], where) == [d] && Group([d, e], where) == [d, e]
  {
    hide EdgeWhere;
    assert [d][..0] == [] && [d, e][..1] == [d];
    assert Group([d], where) == [d];
  }

  // ----- the class a change is recorded under

  /** The last class of a change. */
  function RecordedTerm(item: Item): Value
    requires item.terms != []
  {
    item.terms[|item.terms| - 1]
  }

  /** A change is recorded under the last class it was checked on. For a
      relationship that is one of its classes afterwards exactly when it gained
      a class or the last class it had before is one it still has. */
  lemma RecordedUnderCurrentClass(text: Serialise, a: Config, b: Config, where: string)
    requires Group(b.edges, where) != []
    ensures EdgeItem(text, a, b, where).terms != []
    ensures var before, after := ClassesOf(a, Group(a.edges, where)), ClassesOf(b, Group(b.edges, where));
      RecordedTerm(EdgeItem(text, a, b, where)) in after <==>
      (exists t :: t in after && t !in before) || (before != [] && Unique(before)[|Unique(before)| - 1] in after)
  {
    var x, y := Group(a.edges, where), Group(b.edges, where);
    var before, after := ClassesOf(a, x), ClassesOf(b, y);
    ClassesExist(b, y);
    hide Group, ClassesOf;
    LastOfBoth(before, after);
  }

  lemma ClassesExist(c: Config, group: seq<Dump>)
    ensures ClassesOf(c, group) == [] <==> group == []
  {
    if group == [] {
    } else {
      var table := TextOf(Get(group[0], "from_collection"));
      UniqueExact(TermsFrom(c.tables, table));
    }
  }

  /** A changed table that remains is recorded under the class it has now. */
  lemma TableUnderCurrentClass(a: Config, b: Config, key: string)
    requires Find(b.tables, key).Present?
    ensures TableItem(a, b, key).terms != []
    ensures RecordedTerm(TableItem(a, b, key)) == Term(Find(b.tables, key).dump)
  {
    var x, y := Find(a.tables, key), Find(b.tables, key);
    hide Find;
    var t := Term(y.dump);
    if x.Present? {
      UniqueOfTwo(Term(x.dump), t);
      assert [Term(x.dump)] + [t] == [Term(x.dump), t];
    } else {
      UniqueOfOne(t);
      assert [] + [t] == [t];
    }
  }

  lemma UniqueOfOne(t: Value)
    ensures Unique([t]) == [t]
  {
    assert [t][..0] == [];
  }

  lemma UniqueOfTwo(t: Value, u: Value)
    ensures Unique([t, u]) == if t == u then [t] else [t, u]
  {
    UniqueOfOne(t);
    assert [t, u][..1] == [t];
  }

  /** A table mapped twice, under two classes, and a relationship from it. One mapping of
      the table is dropped and the relationship gets a term: that is recorded under the
      class of the dropped one, which the relationship has no longer. */
  lemma RecordedUnderLostClass(text: Serialise, source: string, p: string, q: string, first: string, second: string,
                             name: string, column: string, to: string, other: string, term: string)
    requires p != q && first != second
    ensures var kept, dropped := Table(p, ClassTable(source, first)), Table(q, ClassTable(source, second));
      var e := Relationship(name, source, column, to, other);
      var a, b := Config(map[], [kept, dropped], [e]), Config(map[], [kept], [e["term" := Text(term)]]);
      var where := EdgeWhere(e);
      && EdgeItem(text, a, b, where) in Changes(text, a, b)
      && EdgeItem(text, a, b, where).terms == [Text(first), Text(second)]
      && RecordedTerm(EdgeItem(text, a, b, where)) == Text(second)
      && ClassesOf(b, Group(b.edges, where)) == [Text(first)]
  {
    RelationshipFacts(name, source, column, to, other);
    hide Relationship;
    var e := Relationship(name, source, column, to, other);
    var d, g, f := ClassTable(source, first), ClassTable(source, second), e["term" := Text(term)];
    var a, b := Config(map[], [Table(p, d), Table(q, g)], [e]), Config(map[], [Table(p, d)], [f]);
    var where := EdgeWhere(e);
    TermKeepsIdentity(e, term);
    SmallGroups(e, e, where);
    SmallGroups(f, f, where);
    TwoClasses(source, p, q, first, second);
    hide EdgeWhere, Group, StartClasses, ClassTable;
    assert "term" in f;
    assert multiset([e])[e] == 1 && multiset([f])[e] == 0;
    ChangedEdgeListed(text, a, b, where);
    OneClass(a, e);
    OneClass(b, f);
    LostClassTerms(Text(first), Text(second));
  }

  function ClassTable(source: string, term: string): Dump
  {
    map["source_table" := Text(source), "term" := Text(term)]
  }

  lemma TwoClasses(source: string, p: string, q: string, first: string, second: string)
    requires first != second
    ensures var d, g := Table(p, ClassTable(source, first)), Table(q, ClassTable(source, second));
      && (forall settings, edges :: StartClasses(Config(settings, [d, g], edges), source) == [Text(first), Text(second)])
      && (forall settings, edges :: StartClasses(Config(settings, [d], edges), source) == [Text(first)])
  {
    var d, g := Table(p, ClassTable(source, first)), Table(q, ClassTable(source, second));
    assert [d, g][1..] == [g] && [g][1..] == [] && [d][1..] == [];
    assert TermsFrom([g], source) == [Text(second)];
    assert TermsFrom([d], source) == [Text(first)];
    assert TermsFrom([d, g], source) == [Text(first)] + [Text(second)];
    UniqueOfOne(Text(first));
    UniqueOfTwo(Text(first), Text(second));
    assert [Text(first)] + [Text(second)] == [Text(first), Text(second)];
  }

  lemma OneClass(c: Config, e: Dump)
    ensures ClassesOf(c, [e]) == StartClasses(c, TextOf(Get(e, "from_collection")))
  {
    assert [e][1..] == [];
  }

  lemma LostClassTerms(t: Value, u: Value)
    requires t != u
    ensures Unique([t, u] + [t]) == [t, u]
  {
    UniqueOfTwo(t, u);
    assert ([t, u] + [t])[..2] == [t, u];
  }

  /** The last of the terms of both. */
  lemma LastOfBoth(before: seq<Value>, after: seq<Value>)
    requires after != []
    ensures Unique(before + after) != []
    ensures var terms := Unique(before + after);
      terms[|terms| - 1] in after <==>
      (exists t :: t in after && t !in before) || (before != [] && Unique(before)[|Unique(before)| - 1] in after)
  {
    UniqueExact(before);
    UniqueExact(before + after);
    UniqueOfBoth(before, after);
    var terms, had := Unique(before + after), Unique(before);
    if terms == had {
      forall t | t in after ensures t in before {
        assert t in before + after;
      }
    } else {
      assert terms[|terms| - 1] in terms[|had|..];
    }
  }

  /** The terms of both: those before, then the new ones of after. */
  lemma {:induction false} UniqueOfBoth(before: seq<Value>, after: seq<Value>)
    ensures Unique(before) <= Unique(before + after)
    ensures forall t :: t in Unique(before + after)[|Unique(before)|..] <==> t in after && t !in before
  {
    UniqueExact(before);
    if after == [] {
      assert before + after == before;
    } else {
      var n := |after| - 1;
      UniqueOfBoth(before, after[..n]);
      UniqueExact(before + after[..n]);
      assert (before + after)[..|before + after| - 1] == before + after[..n];
      assert after == after[..n] + [after[n]];
      var most := Unique(before + after[..n]);
      assert most == Unique(before) + most[|Unique(before)|..];
      if after[n] !in most {
        assert (most + [after[n]])[|Unique(before)|..] == most[|Unique(before)|..] + [after[n]];
      }
    }
  }

  // ----- the comparison, as it is computed

  /** Going through sorted keys and keeping those in `wanted`. */
  ghost function Kept(keys: seq<string>, i: nat, wanted: set<string>): seq<string>
    requires i <= |keys|
  {
    Listing(Elements(keys[..i]) * wanted)
  }

  lemma KeptNext(keys: seq<string>, i: nat, wanted: set<string>)
    requires Ascending(keys) && i < |keys|
    ensures Kept(keys, i + 1, wanted) == Kept(keys, i, wanted) + (if keys[i] in wanted then [keys[i]] else [])
  {
    TakeNext(keys, i);
    AscendingTake(keys, i);
    if keys[i] in wanted {
      assert Elements(keys[..i + 1]) * wanted == Elements(keys[..i]) * wanted + {keys[i]};
      ListingAppend(Elements(keys[..i]) * wanted, keys[i]);
    } else {
      assert Elements(keys[..i + 1]) * wanted == Elements(keys[..i]) * wanted;
    }
  }

  lemma KeptEnds(keys: seq<string>, wanted: set<string>)
    ensures Kept(keys, 0, wanted) == []
    ensures wanted <= Elements(keys) ==> Kept(keys, |keys|, wanted) == Listing(wanted)
  {
    assert keys[..0] == [] && keys[..|keys|] == keys;
    NothingListed();
    assert Elements(keys[..0]) * wanted == {};
    if wanted <= Elements(keys) {
      assert Elements(keys) * wanted == wanted;
    }
  }

  method DifferingNames(a: Found, b: Found) returns (what: seq<string>)
    ensures what == Differing(a, b)
  {
    if a.Missing? {
      return ["added"];
    } else if b.Missing? {
      return ["removed"];
    }
    what := Sorted(DifferingFields(a.dump, b.dump));
  }

  method SettingChanges(a: Config, b: Config) returns (items: seq<Item>)
    ensures items == SettingItems(Listing(DifferingFields(a.settings, b.settings)))
  {
    ghost var wanted := DifferingFields(a.settings, b.settings);
    var keys := Sorted(a.settings.Keys + b.settings.Keys);
    KeptEnds(keys, wanted);
    items := [];
    for i := 0 to |keys|
      invariant items == SettingItems(Kept(keys, i, wanted))
    {
      KeptNext(keys, i, wanted);
      assert keys[i] in Elements(keys);
      if Get(a.settings, keys[i]) != Get(b.settings, keys[i]) {
        items := items + [Item("mapping/" + keys[i], [Null], [keys[i]])];
      }
    }
  }

  /** One turn of the loop over the tables' keys. */
  method TableTurn(a: Config, b: Config, key: string) returns (items: seq<Item>)
    requires key in Keys(a.tables) + Keys(b.tables)
    ensures items == TableItems(a, b, if key in ChangedTables(a, b) then [key] else [])
  {
    hide Find, Keys, TermsOf, Differing;
    var x, y := Find(a.tables, key), Find(b.tables, key);
    items := [];
    if x != y {
      var what := DifferingNames(x, y);
      items := [Item("collections/" + key, TermsOf(x, y), what)];
    }
  }

  lemma TableItemsAppend(a: Config, b: Config, p: seq<string>, q: seq<string>)
    ensures TableItems(a, b, p + q) == TableItems(a, b, p) + TableItems(a, b, q)
  {
    hide TableItem;
  }

  method TableChanges(a: Config, b: Config) returns (items: seq<Item>)
    ensures items == TableItems(a, b, Listing(ChangedTables(a, b)))
  {
    hide Keys, TableItem, TableItems, Kept;
    ghost var wanted := ChangedTables(a, b);
    var keys := Sorted(Keys(a.tables) + Keys(b.tables));
    hide ChangedTables;
    KeptEnds(keys, wanted);
    ChangedKnown(a, b);
    NoTableItems(a, b);
    items := [];
    for i := 0 to |keys|
      invariant items == TableItems(a, b, Kept(keys, i, wanted))
    {
      KeptNext(keys, i, wanted);
      assert keys[i] in Elements(keys);
      var more := TableTurn(a, b, keys[i]);
      TableItemsAppend(a, b, Kept(keys, i, wanted), if keys[i] in wanted then [keys[i]] else []);
      items := items + more;
    }
  }

  lemma NoTableItems(a: Config, b: Config)
    ensures TableItems(a, b, []) == []
  {
  }

  lemma ChangedKnown(a: Config, b: Config)
    ensures ChangedTables(a, b) <= Keys(a.tables) + Keys(b.tables)
  {
  }

  /** The relationships by identity. */
  ghost predicate Grouped(groups: map<string, seq<Dump>>, edges: seq<Dump>)
  {
    forall w :: Group(edges, w) == GroupIn(groups, w)
  }

  function GroupIn(groups: map<string, seq<Dump>>, where: string): seq<Dump>
  {
    if where in groups then groups[where] else []
  }

  method ByIdentity(edges: seq<Dump>) returns (groups: map<string, seq<Dump>>)
    ensures Grouped(groups, edges)
  {
    groups := map[];
    for i := 0 to |edges|
      invariant Grouped(groups, edges[..i])
    {
      var where := EdgeWhere(edges[i]);
      GroupedNext(groups, edges, i, where);
      groups := groups[where := GroupIn(groups, where) + [edges[i]]];
    }
    assert edges[..|edges|] == edges;
  }

  lemma GroupedNext(groups: map<string, seq<Dump>>, edges: seq<Dump>, i: nat, where: string)
    requires i < |edges| && Grouped(groups, edges[..i]) && where == EdgeWhere(edges[i])
    ensures Grouped(groups[where := GroupIn(groups, where) + [edges[i]]], edges[..i + 1])
  {
    var more := edges[..i + 1];
    assert more[..i] == edges[..i];
    forall w ensures Group(more, w) == GroupIn(groups[where := GroupIn(groups, where) + [edges[i]]], w) {
      assert Group(more, w) == Group(edges[..i], w) + (if where == w then [edges[i]] else []);
    }
  }

  /** The relationship whose text comes first of a sorted group. */
  method First(text: Serialise, group: seq<Dump>) returns (first: Found)
    ensures first == FirstByText(text, group)
  {
    first := Missing;
    for i := 0 to |group|
      invariant first == FirstByText(text, group[..i])
    {
      assert group[..i + 1][..i] == group[..i];
      if first.Missing? || Before(text(group[i]), text(first.dump)) {
        first := Present(group[i]);
      }
    }
    assert group[..|group|] == group;
  }

  method EdgeChange(text: Serialise, a: Config, b: Config, where: string, x: seq<Dump>,
                    y: seq<Dump>) returns (item: Item)
    requires x == Group(a.edges, where) && y == Group(b.edges, where)
    ensures item == EdgeItem(text, a, b, where)
  {
    var firstX := First(text, x);
    var firstY := First(text, y);
    var what := DifferingNames(firstX, firstY);
    item := Item(where, Unique(ClassesOf(a, x) + ClassesOf(b, y)), what);
  }

  /** One turn of the loop over the relationships' identities. */
  method EdgeTurn(text: Serialise, a: Config, b: Config, where: string,
                  before: map<string, seq<Dump>>, after: map<string, seq<Dump>>) returns (items: seq<Item>)
    requires Grouped(before, a.edges) && Grouped(after, b.edges)
    requires where in Wheres(a.edges) + Wheres(b.edges)
    ensures items == EdgeItems(text, a, b, if where in ChangedEdges(a, b) then [where] else [])
  {
    hide EdgeWhere, Wheres, ClassesOf;
    var x, y := GroupIn(before, where), GroupIn(after, where);
    assert x == Group(a.edges, where) && y == Group(b.edges, where);
    items := [];
    if multiset(x) != multiset(y) {
      var item := EdgeChange(text, a, b, where, x, y);
      items := [item];
    }
  }

  lemma EdgeItemsAppend(text: Serialise, a: Config, b: Config, p: seq<string>, q: seq<string>)
    ensures EdgeItems(text, a, b, p + q) == EdgeItems(text, a, b, p) + EdgeItems(text, a, b, q)
  {
  }

  method EdgeChanges(text: Serialise, a: Config, b: Config) returns (items: seq<Item>)
    ensures items == EdgeItems(text, a, b, Listing(ChangedEdges(a, b)))
  {
    ghost var wanted := ChangedEdges(a, b);
    var before := ByIdentity(a.edges);
    var after := ByIdentity(b.edges);
    var wheres := Sorted(Wheres(a.edges) + Wheres(b.edges));
    KeptEnds(wheres, wanted);
    items := [];
    for i := 0 to |wheres|
      invariant items == EdgeItems(text, a, b, Kept(wheres, i, wanted))
    {
      KeptNext(wheres, i, wanted);
      ListedWhere(a, b, wheres, i);
      var more := EdgeTurn(text, a, b, wheres[i], before, after);
      EdgeItemsAppend(text, a, b, Kept(wheres, i, wanted), if wheres[i] in wanted then [wheres[i]] else []);
      items := items + more;
    }
  }

  lemma ListedWhere(a: Config, b: Config, wheres: seq<string>, i: nat)
    requires i < |wheres| && Elements(wheres) == Wheres(a.edges) + Wheres(b.edges)
    ensures wheres[i] in Wheres(a.edges) + Wheres(b.edges)
  {
    assert wheres[i] in Elements(wheres);
  }

  /** `save_changes` */
  method SaveChanges(text: Serialise, saved: Config, updated: Config) returns (items: seq<Item>)
    ensures items == Changes(text, saved, updated)
  {
    var settings := SettingChanges(saved, updated);
    var tables := TableChanges(saved, updated);
    var edges := EdgeChanges(text, saved, updated);
    items := settings + tables + edges;
  }
}
