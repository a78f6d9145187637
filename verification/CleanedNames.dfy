/**
 What a migrated mapping still names, told from the mapping and the schema alone
 (src/r2g/config_migrate.py:96-182, src/r2g/types.py:242-263).
 */
module CleanedNames {
  import opened Characters
  import opened ConfigMigration

  // ----- collections

  /** `kept` are the names at these ascending places, which are all that are live. */
  ghost predicate LiveAt(names: seq<string>, live: seq<string>, kept: seq<string>, places: seq<nat>)
  {
    && |places| == |kept|
    && (forall i, j :: 0 <= i < j < |places| ==> places[i] < places[j])
    && (forall i :: 0 <= i < |places| ==> places[i] < |names| && names[places[i]] == kept[i])
    && (forall k :: 0 <= k < |names| ==> (names[k] in live <==> k in places))
  }

  /** The live names of a list, unchanged and in their order. */
  ghost predicate KeepsLive(names: seq<string>, live: seq<string>, kept: seq<string>)
  {
    exists places :: LiveAt(names, live, kept, places)
  }

  lemma LiveAtNext(names: seq<string>, live: seq<string>, kept: seq<string>, places: seq<nat>)
    requires names != [] && LiveAt(names[..|names| - 1], live, kept, places)
    ensures var n := |names| - 1;
      if names[n] in live then LiveAt(names, live, kept + [names[n]], places + [n]) else LiveAt(names, live, kept, places)
  {
    var n := |names| - 1;
    var before := names[..n];
    forall k | 0 <= k < n ensures before[k] == names[k] {
    }
    forall k | 0 <= k < n ensures k in places <==> k in places + [n] {
    }
    assert n in places + [n];
  }

  lemma {:induction false} OnlyInOrder(names: seq<string>, def: TableDef) returns (places: seq<nat>)
    ensures LiveAt(names, def.columns, Only(names, Columns(def)), places)
  {
    if names == [] {
      places := [];
    } else {
      var n := |names| - 1;
      var before := OnlyInOrder(names[..n], def);
      LiveAtNext(names, def.columns, Only(names[..n], Columns(def)), before);
      assert names[n] in Columns(def) <==> names[n] in def.columns;
      places := if names[n] in def.columns then before + [n] else before;
    }
  }

  /** A list of columns to include is cut to the live ones, and dropped if that takes all of them. */
  ghost predicate IncludesLive(listed: Option<seq<string>>, live: seq<string>, kept: Option<seq<string>>)
  {
    match listed
    case None => kept == None
    case Some(names) =>
      if names != [] && forall n :: n in names ==> n !in live then kept == None
      else kept.Some? && KeepsLive(names, live, kept.value)
  }

  /** A collection of a live table keeps every setting but the columns it names that are gone; a
      collection of any other table is left alone. */
  lemma CleanedExactly(schema: Schema, c: Collection)
    ensures c.sourceTable !in schema ==> CleanAt(schema, c) == c
    ensures c.sourceTable in schema ==>
      var live, d := schema[c.sourceTable].columns, CleanAt(schema, c);
      && d == c.(fieldMappings := d.fieldMappings, excludeFields := d.excludeFields, includeFields := d.includeFields)
      && (forall k :: k in d.fieldMappings <==> k in c.fieldMappings && k in live)
      && (forall k :: k in d.fieldMappings ==> d.fieldMappings[k] == c.fieldMappings[k])
      && KeepsLive(c.excludeFields, live, d.excludeFields)
      && IncludesLive(c.includeFields, live, d.includeFields)
  {
    if c.sourceTable in schema {
      var def := schema[c.sourceTable];
      MappingsCleaned(c, def);
      ListCleaned(c.excludeFields, def);
      IncludedCleaned(c.includeFields, def);
      hide KeepsLive, IncludesLive, Only, OnlyIncluded, Columns;
    }
  }

  lemma MappingsCleaned(c: Collection, def: TableDef)
    ensures var d := CleanCollection(c, Columns(def));
      && (forall k :: k in d.fieldMappings <==> k in c.fieldMappings && k in def.columns)
      && (forall k :: k in d.fieldMappings ==> d.fieldMappings[k] == c.fieldMappings[k])
  {
    forall k ensures k in Columns(def) <==> k in def.columns {
    }
    hide Columns, Only, OnlyIncluded;
  }

  lemma ListCleaned(names: seq<string>, def: TableDef)
    ensures KeepsLive(names, def.columns, Only(names, Columns(def)))
  {
    var places := OnlyInOrder(names, def);
  }

  lemma IncludedCleaned(listed: Option<seq<string>>, def: TableDef)
    ensures IncludesLive(listed, def.columns, OnlyIncluded(listed, Columns(def)))
  {
    if listed.Some? {
      var kept := Only(listed.value, Columns(def));
      ListCleaned(listed.value, def);
      OnlyLive(listed.value, def);
      hide KeepsLive, Only, Columns;
      NothingLive(listed.value, def.columns, kept);
    }
  }

  lemma OnlyLive(names: seq<string>, def: TableDef)
    ensures forall n :: n in Only(names, Columns(def)) <==> n in names && n in def.columns
  {
    OnlyExact(names, Columns(def));
    hide Only;
    forall n ensures n in Columns(def) <==> n in def.columns {
    }
  }

  lemma NothingLive(names: seq<string>, live: seq<string>, kept: seq<string>)
    requires forall n :: n in kept <==> n in names && n in live
    ensures kept == [] <==> forall n :: n in names ==> n !in live
    ensures names == [] ==> kept == []
  {
    if kept != [] {
      assert kept[0] in kept;
    }
  }

  // ----- type overrides

  /** An override of a column, `table.column` up to the first dot, needs both; any other is kept. */
  ghost predicate OverrideLive(schema: Schema, key: string)
  {
    '.' !in key
    || exists i :: 0 <= i < |key| && key[i] == '.' && '.' !in key[..i]
         && key[..i] in schema && key[i + 1..] in schema[key[..i]].columns
  }

  lemma OneFirstDot(key: string, i: nat, j: nat)
    requires i < |key| && key[i] == '.' && '.' !in key[..i] && j < |key| && key[j] == '.' && '.' !in key[..j]
    ensures i == j
  {
    forall k | 0 <= k < j ensures key[k] != '.' {
      assert key[..j][k] == key[k];
    }
    forall k | 0 <= k < i ensures key[k] != '.' {
      assert key[..i][k] == key[k];
    }
  }

  lemma OverridesExactly(t: CharTable, before: Config, schema: Schema, sourceSchema: Option<string>, key: string)
    ensures var after := Migrated(t, before, schema, sourceSchema).typeOverrides;
      && (key in after <==> key in before.typeOverrides && OverrideLive(schema, key))
      && (key in after ==> after[key] == before.typeOverrides[key])
  {
    FirstDotExact(key);
    if FirstDot(key).Some? {
      var i := FirstDot(key).value;
      assert '.' in key;
      assert key[..i] in schema ==>
        (key[i + 1..] in Columns(schema[key[..i]]) <==> key[i + 1..] in schema[key[..i]].columns);
      forall j | 0 <= j < |key| && key[j] == '.' && '.' !in key[..j] ensures j == i {
        OneFirstDot(key, i, j);
      }
    }
  }

  // ----- lists of columns given as text

  /** Stripping takes spaces from both ends and nothing else, and all of them. */
  lemma StripExactly(t: CharTable, s: string) returns (i: nat, j: nat)
    ensures i <= j <= |s| && Strip(t, s) == s[i..j]
    ensures forall k :: 0 <= k < i || j <= k < |s| ==> t.isSpace(s[k])
    ensures i < j ==> !t.isSpace(s[i]) && !t.isSpace(s[j - 1])
  {
    i := LeftEnd(t, s);
    var m := RightEnd(t, s[i..]);
    j := i + m;
    assert s[i..][..m] == s[i..j];
    forall k | j <= k < |s| ensures t.isSpace(s[k]) {
      assert s[k] == s[i..][k - i];
    }
    StripFacts(t, s);
  }

  lemma {:induction false} LeftEnd(t: CharTable, s: string) returns (i: nat)
    ensures i <= |s| && StripLeft(t, s) == s[i..] && forall k :: 0 <= k < i ==> t.isSpace(s[k])
  {
    i := 0;
    if s != [] && t.isSpace(s[0]) {
      i := LeftEnd(t, s[1..]);
      i := i + 1;
    }
  }

  lemma {:induction false} RightEnd(t: CharTable, s: string) returns (j: nat)
    ensures j <= |s| && StripRight(t, s) == s[..j] && forall k :: j <= k < |s| ==> t.isSpace(s[k])
  {
    j := |s|;
    if s != [] && t.isSpace(s[|s| - 1]) {
      j := RightEnd(t, s[..|s| - 1]);
    }
  }

  function Listed(names: seq<string>): string
  {
    if names == [] then [] else if |names| == 1 then names[0] else names[0] + "," + Listed(names[1..])
  }

  lemma {:induction false} SplitListed(names: seq<string>, piece: string, rest: string)
    requires names != [] && piece + rest == names[0] && forall k :: 0 <= k < |names| ==> ',' !in names[k]
    ensures SplitAtCommas(rest + (if |names| == 1 then [] else "," + Listed(names[1..])), piece) == names
    decreases |names|, |rest|
  {
    var s := rest + (if |names| == 1 then [] else "," + Listed(names[1..]));
    if rest != [] {
      assert rest[0] == (piece + rest)[|piece|] && rest[0] in names[0];
      assert s[1..] == rest[1..] + (if |names| == 1 then [] else "," + Listed(names[1..]));
      assert piece + [rest[0]] + rest[1..] == names[0];
      SplitListed(names, piece + [rest[0]], rest[1..]);
    } else if |names| == 1 {
      assert piece + rest == piece && names == [names[0]];
    } else {
      assert piece + rest == piece;
      assert s[1..] == Listed(names[1..]) == names[1..][0] + (if |names| == 2 then [] else "," + Listed(names[2..]));
      assert [] + names[1] == names[1] && names[1..][1..] == names[2..];
      SplitListed(names[1..], [], names[1]);
      assert names == [piece] + names[1..];
    }
  }

  lemma {:induction false} PiecesPlain(t: CharTable, names: seq<string>)
    requires AllPlain(t, names)
    ensures StripPieces(t, names) == names
  {
    if names != [] {
      StripFacts(t, names[0]);
      forall k | 0 <= k < |names[1..]| ensures Plain(t, names[1..][k]) {
        assert names[1..][k] == names[k + 1];
      }
      PiecesPlain(t, names[1..]);
      assert names == [names[0]] + names[1..];
    }
  }

  lemma {:induction false} ListedEnds(t: CharTable, names: seq<string>)
    requires names != [] && AllPlain(t, names)
    ensures var s := Listed(names);
      s != [] && s[0] == names[0][0] && !t.isSpace(s[|s| - 1]) && (',' in s <==> |names| > 1)
  {
    assert Plain(t, names[0]);
    if |names| > 1 {
      forall k | 0 <= k < |names[1..]| ensures Plain(t, names[1..][k]) {
        assert names[1..][k] == names[k + 1];
      }
      ListedEnds(t, names[1..]);
      assert Listed(names)[|names[0]|] == ',';
    }
  }

  /** Plain column names listed with commas are read back as the columns they name. */
  lemma ListedColumns(t: CharTable, names: seq<string>)
    requires names != [] && AllPlain(t, names)
    ensures NormalFields(t, [Listed(names)]) == names
  {
    var s := Listed(names);
    ListedEnds(t, names);
    assert Plain(t, names[0]);
    var i, j := StripExactly(t, s);
    assert i == 0 && j == |s| && s[i..j] == s;
    assert [] + names[0] == names[0];
    SplitListed(names, [], names[0]);
    PiecesPlain(t, names);
    assert [s][1..] == [];
    if |names| == 1 {
      assert names == [s];
    } else {
      assert s == names[0] + ("," + Listed(names[1..]));
    }
    assert SplitSpec(t, s) == names;
  }
}
