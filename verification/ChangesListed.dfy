/**
 What the items of a save say, told without the functions that compute them
 (src/r2g/mapping_changes.py:55-126).
 */
module ChangesListed {
  import opened MappingChanges
  import opened Names

  // ----- the classes a relationship starts from

  /** A table mapped from this source, with this class. */
  ghost predicate MappedFrom(tables: seq<Table>, source: string, t: Value)
  {
    exists i :: 0 <= i < |tables| && Get(tables[i].dump, "source_table") == Text(source) && Term(tables[i].dump) == t
  }

  /** The table stored under this key, the first if there are more. */
  ghost predicate StoredAs(tables: seq<Table>, key: string, d: Dump)
  {
    exists i: nat :: FirstAt(tables, key, i) && tables[i].dump == d
  }

  ghost predicate FirstAt(tables: seq<Table>, key: string, i: nat)
  {
    i < |tables| && tables[i].key == key && forall j :: 0 <= j < i ==> tables[j].key != key
  }

  ghost predicate Starts(c: Config, table: string, t: Value)
  {
    if exists u :: MappedFrom(c.tables, table, u) then MappedFrom(c.tables, table, t)
    else if exists d :: StoredAs(c.tables, table, d) then exists d :: StoredAs(c.tables, table, d) && Term(d) == t
    else t == Null
  }

  lemma {:induction false} TermsExactly(tables: seq<Table>, source: string, t: Value)
    ensures t in TermsFrom(tables, source) <==> MappedFrom(tables, source, t)
  {
    if tables != [] {
      TermsExactly(tables[1..], source, t);
      if i :| 0 <= i < |tables| && Get(tables[i].dump, "source_table") == Text(source) && Term(tables[i].dump) == t && i > 0 {
        assert tables[1..][i - 1] == tables[i];
      }
    }
  }

  lemma {:induction false} FindExactly(tables: seq<Table>, key: string, d: Dump)
    ensures Find(tables, key) == Present(d) <==> StoredAs(tables, key, d)
  {
    if tables != [] {
      FindExactly(tables[1..], key, d);
      StoredFirst(tables[0], tables[1..], key, d);
      assert tables == [tables[0]] + tables[1..];
      hide StoredAs;
    }
  }

  lemma StoredFirst(first: Table, rest: seq<Table>, key: string, d: Dump)
    ensures StoredAs([first] + rest, key, d) <==> if first.key == key then first.dump == d else StoredAs(rest, key, d)
  {
    hide FirstAt;
    var tables := [first] + rest;
    FirstOfAll(first, rest, key);
    if i: nat :| FirstAt(tables, key, i) && tables[i].dump == d {
      if i > 0 {
        FirstOfRest(first, rest, key, i - 1);
        assert tables[i] == rest[i - 1];
      }
    }
    if first.key == key {
      assert tables[0] == first;
    } else if i: nat :| FirstAt(rest, key, i) && rest[i].dump == d {
      FirstOfRest(first, rest, key, i);
      assert tables[i + 1] == rest[i];
    }
  }

  lemma FirstOfAll(first: Table, rest: seq<Table>, key: string)
    ensures FirstAt([first] + rest, key, 0) <==> first.key == key
    ensures first.key == key ==> forall i: nat :: FirstAt([first] + rest, key, i) ==> i == 0
    ensures forall i: nat :: FirstAt([first] + rest, key, i) ==> i < |[first] + rest|
    ensures forall i: nat :: FirstAt(rest, key, i) ==> i < |rest|
  {
    assert ([first] + rest)[0] == first;
  }

  lemma FirstOfRest(first: Table, rest: seq<Table>, key: string, i: nat)
    ensures FirstAt([first] + rest, key, i + 1) <==> first.key != key && FirstAt(rest, key, i)
  {
    var tables := [first] + rest;
    assert tables[0] == first;
    forall j: nat | j < |rest| ensures tables[j + 1] == rest[j] {
    }
    forall j: nat | 0 < j < |tables| ensures tables[j] == rest[j - 1] {
    }
  }

  /** A relationship is checked on the class of every table mapped from its start; if there is
      none, on that of the table stored under its name; if there is none, project-wide. */
  lemma StartsExactly(c: Config, table: string, t: Value)
    ensures t in StartClasses(c, table) <==> Starts(c, table, t)
    ensures NoDuplicates(StartClasses(c, table))
  {
    var found := TermsFrom(c.tables, table);
    UniqueExact(found);
    forall u ensures u in found <==> MappedFrom(c.tables, table, u) {
      TermsExactly(c.tables, table, u);
    }
    forall d ensures Find(c.tables, table) == Present(d) <==> StoredAs(c.tables, table, d) {
      FindExactly(c.tables, table, d);
    }
    hide TermsFrom, MappedFrom, StoredAs, Find, Unique;
    if found != [] {
      assert MappedFrom(c.tables, table, found[0]);
    }
  }

  lemma {:induction false} ClassesExactly(c: Config, group: seq<Dump>, t: Value)
    ensures t in ClassesOf(c, group) <==>
      exists e :: e in group && Starts(c, TextOf(Get(e, "from_collection")), t)
  {
    hide Starts, StartClasses;
    if group != [] {
      ClassesExactly(c, group[1..], t);
      StartsExactly(c, TextOf(Get(group[0], "from_collection")), t);
      assert group == [group[0]] + group[1..];
    }
  }

  // ----- what differs

  /** "added", "removed", or the fields that read differently, in name order. */
  ghost predicate SaysWhat(a: Found, b: Found, what: seq<string>)
  {
    && (a.Missing? ==> what == ["added"])
    && (a.Present? && b.Missing? ==> what == ["removed"])
    && (a.Present? && b.Present? ==>
          Ascending(what) && forall k :: k in what <==> Get(a.dump, k) != Get(b.dump, k))
  }

  lemma WhatExactly(a: Found, b: Found)
    ensures SaysWhat(a, b, Differing(a, b))
  {
    if a.Present? && b.Present? {
      forall k ensures k in Differing(a, b) <==> Get(a.dump, k) != Get(b.dump, k) {
        assert k in Elements(Differing(a, b)) <==> k in DifferingFields(a.dump, b.dump);
      }
    }
  }

  // ----- every item

  ghost predicate SaysSetting(a: Config, b: Config, item: Item, key: string)
  {
    Get(a.settings, key) != Get(b.settings, key) && item == Item("mapping/" + key, [Null], [key])
  }

  ghost predicate SaysTable(a: Config, b: Config, item: Item, key: string)
  {
    var x, y := Find(a.tables, key), Find(b.tables, key);
    && x != y && item.where == "collections/" + key && NoDuplicates(item.terms)
    && (forall t :: t in item.terms <==> (x.Present? && t == Term(x.dump)) || (y.Present? && t == Term(y.dump)))
    && SaysWhat(x, y, item.what)
  }

  /** The relationships of an identity, some of which changed, and the classes they start from. */
  ghost predicate SaysEdge(text: Serialise, a: Config, b: Config, item: Item)
  {
    var x, y := Group(a.edges, item.where), Group(b.edges, item.where);
    && multiset(x) != multiset(y) && NoDuplicates(item.terms)
    && (forall t :: t in item.terms <==> StartsAny(a, x, t) || StartsAny(b, y, t))
    && SaysWhat(FirstByText(text, x), FirstByText(text, y), item.what)
  }

  ghost predicate StartsAny(c: Config, group: seq<Dump>, t: Value)
  {
    exists e :: e in group && Starts(c, TextOf(Get(e, "from_collection")), t)
  }

  lemma TableSays(a: Config, b: Config, key: string)
    requires Find(a.tables, key) != Find(b.tables, key)
    ensures SaysTable(a, b, TableItem(a, b, key), key)
  {
    var x, y := Find(a.tables, key), Find(b.tables, key);
    WhatExactly(x, y);
    UniqueExact((if x.Present? then [Term(x.dump)] else []) + (if y.Present? then [Term(y.dump)] else []));
    hide SaysWhat, Differing, Find;
  }

  lemma EdgeSays(text: Serialise, a: Config, b: Config, where: string)
    requires multiset(Group(a.edges, where)) != multiset(Group(b.edges, where))
    ensures SaysEdge(text, a, b, EdgeItem(text, a, b, where))
  {
    var x, y := Group(a.edges, where), Group(b.edges, where);
    WhatExactly(FirstByText(text, x), FirstByText(text, y));
    hide SaysWhat, Differing, Starts, Group, FirstByText, Unique, ClassesOf;
    UniqueExact(ClassesOf(a, x) + ClassesOf(b, y));
    forall t ensures t in ClassesOf(a, x) <==> StartsAny(a, x, t) {
      ClassesExactly(a, x, t);
    }
    forall t ensures t in ClassesOf(b, y) <==> StartsAny(b, y, t) {
      ClassesExactly(b, y, t);
    }
  }

  /** Every item of a save is a setting, a table or a relationship that changed, checked on its
      classes and saying what differs. */
  lemma EachItemSays(text: Serialise, a: Config, b: Config, item: Item)
    requires item in Changes(text, a, b)
    ensures || (exists key :: SaysSetting(a, b, item, key))
            || (exists key :: SaysTable(a, b, item, key))
            || SaysEdge(text, a, b, item)
  {
    hide SaysTable, SaysEdge, TableItem, EdgeItem;
    var settings, tables, edges :=
      Listing(DifferingFields(a.settings, b.settings)), Listing(ChangedTables(a, b)), Listing(ChangedEdges(a, b));
    if item in SettingItems(settings) {
      var i :| 0 <= i < |settings| && SettingItems(settings)[i] == item;
      assert settings[i] in Elements(settings);
      assert SaysSetting(a, b, item, settings[i]);
    } else if item in TableItems(a, b, tables) {
      var i :| 0 <= i < |tables| && TableItems(a, b, tables)[i] == item;
      assert tables[i] in Elements(tables);
      TableSays(a, b, tables[i]);
    } else {
      var i :| 0 <= i < |edges| && EdgeItems(text, a, b, edges)[i] == item;
      assert edges[i] in Elements(edges);
      EdgeSays(text, a, b, edges[i]);
    }
  }

  /** The columns of one end are listed with commas: that tells lists of columns apart whose
      names have no comma. */
  lemma {:induction false} JoinInjective(p: seq<string>, q: seq<string>)
    requires p != [] && q != [] && (forall x :: x in p ==> ',' !in x) && (forall x :: x in q ==> ',' !in x)
    requires Join(p) == Join(q)
    ensures p == q
  {
    JoinHead(p);
    JoinHead(q);
    SameHead(p[0], q[0], Join(p));
    if |p| > 1 {
      assert Join(p)[|p[0]| + 1..] == Join(p[1..]) && Join(q)[|q[0]| + 1..] == Join(q[1..]);
      JoinInjective(p[1..], q[1..]);
    }
    assert p == [p[0]] + p[1..] && q == [q[0]] + q[1..];
  }

  /** `head` is what stands in `s` before its first comma. */
  ghost predicate UpToComma(s: string, head: string)
  {
    head <= s && ',' !in head && (|head| < |s| ==> s[|head|] == ',')
  }

  lemma JoinHead(p: seq<string>)
    requires p != [] && forall x :: x in p ==> ',' !in x
    ensures UpToComma(Join(p), p[0]) && (|Join(p)| == |p[0]| <==> |p| == 1)
  {
    if |p| > 1 {
      assert Join(p) == p[0] + ("," + Join(p[1..]));
    }
  }

  lemma SameHead(a: string, b: string, s: string)
    requires UpToComma(s, a) && UpToComma(s, b)
    ensures a == b
  {
    forall k | 0 <= k < |a| ensures s[k] != ',' {
      assert a[k] == s[k] && a[k] in a;
    }
    forall k | 0 <= k < |b| ensures s[k] != ',' {
      assert b[k] == s[k] && b[k] in b;
    }
  }

  /** A relationship's identity names its collection, tables and columns, the same for a
      relationship over single columns as for one over lists of one column. */
  lemma IdentityNames(name: string, from: string, column: string, to: string, other: string)
    ensures EdgeWhere(Relationship(name, from, column, to, other))
      == "edges/" + name + "(" + from + "." + column + " -> " + to + "." + other + ")"
    ensures EdgeWhere(ListRelationship(name, from, [column], to, [other]))
      == EdgeWhere(Relationship(name, from, column, to, other))
  {
  }

  lemma JoinTwo(a: string, b: string)
    ensures Join([a, b]) == a + "," + b
  {
    assert [a, b][1..] == [b];
  }

  /** A relationship over two columns is identified by both, in order. */
  lemma PairIdentity(name: string, from: string, a: string, b: string, to: string, c: string, d: string)
    ensures EdgeWhere(ListRelationship(name, from, [a, b], to, [c, d]))
      == EdgeWhere(Relationship(name, from, a + "," + b, to, c + "," + d))
  {
    JoinTwo(a, b);
    JoinTwo(c, d);
    hide Join;
  }

  /** A relationship over lists of columns. */
  function ListRelationship(name: string, from: string, columns: seq<string>, to: string, others: seq<string>): Dump
  {
    map["edge_collection" := Text(name), "from_collection" := Text(from), "to_collection" := Text(to),
        "from_fields" := List(columns), "to_fields" := List(others)]
  }
}
