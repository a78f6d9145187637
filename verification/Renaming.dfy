/**
 Renaming the keys of a dictionary one at a time, under a plan that gives some of
 them new names. Collections of a database and attributes of a document are both
 renamed this way.
 */
module Renaming {

  type Naming = map<string, string>

  ghost predicate Injective(m: Naming)
  {
    forall x, y :: x in m && y in m && x != y ==> m[x] != m[y]
  }

  /** Naming before and after: distinct on both sides, and every name that changes is fresh. */
  ghost predicate Renamable(a: Naming, b: Naming)
  {
    && a.Keys == b.Keys && Injective(a) && Injective(b)
    && forall x, y :: x in a && y in a && a[x] != b[x] ==> b[x] != a[y]
  }

  /** Some of the names have changed already. */
  ghost predicate Between(a: Naming, b: Naming, m: Naming)
  {
    m.Keys == a.Keys && a.Keys == b.Keys && forall x :: x in m ==> m[x] == a[x] || m[x] == b[x]
  }

  lemma BetweenInjective(a: Naming, b: Naming, m: Naming)
    requires Renamable(a, b) && Between(a, b, m)
    ensures Injective(m)
  {
  }

  /** The values under their names. */
  ghost function Keyed<V>(m: Naming, values: map<string, V>): map<string, V>
    requires Injective(m) && values.Keys <= m.Keys
  {
    map x | x in values :: m[x] := values[x]
  }

  /** None of these keys is a name. */
  ghost predicate Apart<V>(rest: map<string, V>, a: Naming, b: Naming)
  {
    forall k :: k in rest ==> k !in a.Values && k !in b.Values
  }

  function RenameKey<V>(d: map<string, V>, from: string, to: string): map<string, V>
  {
    if from in d then (d - {from})[to := d[from]] else d
  }

  /** While `x` is being renamed nothing else has its old or its new name. */
  lemma NamesTaken(a: Naming, b: Naming, m: Naming, x: string, y: string)
    requires Renamable(a, b) && Between(a, b, m) && x in a && y in a && a[x] != b[x]
    ensures m[y] == a[x] ==> y == x
    ensures m[y] == b[x] ==> y == x
  {
  }

  lemma KeyedKeys<V>(m: Naming, values: map<string, V>, rest: map<string, V>, k: string)
    requires Injective(m) && values.Keys <= m.Keys
    ensures k in Keyed(m, values) + rest <==> k in rest || exists x :: x in values && m[x] == k
  {
    if x :| x in values && m[x] == k {
      assert k in Keyed(m, values);
    }
  }

  lemma KeyedValues<V>(a: Naming, b: Naming, m: Naming, values: map<string, V>, rest: map<string, V>, x: string)
    requires Between(a, b, m) && Injective(m) && values.Keys <= m.Keys && Apart(rest, a, b) && x in values
    ensures m[x] !in rest && (Keyed(m, values) + rest)[m[x]] == values[x]
  {
    assert a[x] in a.Values && b[x] in b.Values;
    assert m[x] in Keyed(m, values);
  }

  /** Whether the old or the new name of `x` is a key. */
  lemma NamesPresent<V>(a: Naming, b: Naming, m: Naming, x: string, values: map<string, V>, rest: map<string, V>)
    requires Renamable(a, b) && Between(a, b, m) && Injective(m) && values.Keys <= m.Keys && Apart(rest, a, b)
    requires x in a && a[x] != b[x]
    ensures a[x] in Keyed(m, values) + rest <==> x in values && m[x] == a[x]
    ensures b[x] in Keyed(m, values) + rest <==> x in values && m[x] == b[x]
  {
    KeyedKeys(m, values, rest, a[x]);
    KeyedKeys(m, values, rest, b[x]);
    assert a[x] in a.Values && b[x] in b.Values;
    forall y | y in values ensures (m[y] == a[x] ==> y == x) && (m[y] == b[x] ==> y == x) {
      NamesTaken(a, b, m, x, y);
    }
  }

  /** What `Keyed` is, key by key: `x` owns `k`. */
  ghost predicate Owns<V>(m: Naming, values: map<string, V>, x: string, k: string)
  {
    x in values && x in m && m[x] == k
  }

  ghost predicate IsKeyed<V>(d: map<string, V>, m: Naming, values: map<string, V>)
  {
    && (forall k :: k in d ==> exists x :: Owns(m, values, x, k))
    && (forall x, k :: Owns(m, values, x, k) ==> k in d && d[k] == values[x])
  }

  lemma KeyedIsKeyed<V>(m: Naming, values: map<string, V>)
    requires Injective(m) && values.Keys <= m.Keys
    ensures IsKeyed(Keyed(m, values), m, values)
  {
    var d := Keyed(m, values);
    forall k | k in d ensures exists x :: Owns(m, values, x, k) {
      var x :| x in values && m[x] == k;
      assert Owns(m, values, x, k);
    }
  }

  lemma KeyedUnique<V>(d: map<string, V>, e: map<string, V>, m: Naming, values: map<string, V>)
    requires IsKeyed(d, m, values) && IsKeyed(e, m, values)
    ensures d == e
  {
    forall k ensures (k in d <==> k in e) && (k in d ==> k in e && d[k] == e[k]) {
      if k in d {
        var x :| Owns(m, values, x, k);
      }
      if k in e {
        var x :| Owns(m, values, x, k);
      }
    }
  }

  lemma IsTheKeyed<V>(d: map<string, V>, m: Naming, values: map<string, V>)
    requires Injective(m) && values.Keys <= m.Keys && IsKeyed(d, m, values)
    ensures d == Keyed(m, values)
  {
    KeyedIsKeyed(m, values);
    KeyedUnique(d, Keyed(m, values), m, values);
  }

  lemma RenamedIsKeyed<V>(d: map<string, V>, m: Naming, x: string, values: map<string, V>, to: string)
    requires IsKeyed(d, m, values) && x in m && x in values && m[x] != to
    requires forall y :: y in values && y in m && y != x ==> m[y] != m[x] && m[y] != to
    ensures IsKeyed(RenameKey(d, m[x], to), m[x := to], values)
  {
    assert Owns(m, values, x, m[x]);
    var e, after := RenameKey(d, m[x], to), m[x := to];
    forall k | k in e ensures exists y :: Owns(after, values, y, k) {
      if k == to {
        assert Owns(after, values, x, k);
      } else {
        var y :| Owns(m, values, y, k);
        assert Owns(after, values, y, k);
      }
    }
    forall y, k | Owns(after, values, y, k) ensures k in e && e[k] == values[y] {
      if y != x {
        assert Owns(m, values, y, k);
      }
    }
  }

  /** Renaming one key moves its value to the new name; doing it again changes nothing. */
  lemma KeyRenamed<V>(a: Naming, b: Naming, m: Naming, x: string, values: map<string, V>, rest: map<string, V>)
    requires Renamable(a, b) && Between(a, b, m) && Injective(m) && values.Keys <= m.Keys && Apart(rest, a, b)
    requires x in a && a[x] != b[x]
    ensures Between(a, b, m[x := b[x]]) && Injective(m[x := b[x]])
    ensures RenameKey(Keyed(m, values) + rest, a[x], b[x]) == Keyed(m[x := b[x]], values) + rest
  {
    BetweenNext(a, b, m, x);
    hide Keyed, Injective, Between, Renamable, Apart, RenameKey;
    NamesPresent(a, b, m, x, values, rest);
    if x in values && m[x] == a[x] {
      KeyMoved(a, b, m, x, values, rest);
    } else {
      NothingRenamed(Keyed(m, values) + rest, a[x], b[x]);
      KeyStays(m, x, values, b[x]);
    }
  }

  lemma BetweenNext(a: Naming, b: Naming, m: Naming, x: string)
    requires Renamable(a, b) && Between(a, b, m) && x in a
    ensures x in m && x in b && (m[x] == a[x] || m[x] == b[x])
    ensures Between(a, b, m[x := b[x]]) && Injective(m[x := b[x]])
  {
    BetweenInjective(a, b, m[x := b[x]]);
  }

  lemma NothingRenamed<V>(d: map<string, V>, from: string, to: string)
    requires from !in d
    ensures RenameKey(d, from, to) == d
  {
  }

  lemma KeyStays<V>(m: Naming, x: string, values: map<string, V>, to: string)
    requires Injective(m) && Injective(m[x := to]) && values.Keys <= m.Keys && x in m && (x in values ==> m[x] == to)
    ensures Keyed(m[x := to], values) == Keyed(m, values)
  {
    KeyedIsKeyed(m, values);
    StillKeyed(Keyed(m, values), m, x, values, to);
    IsTheKeyed(Keyed(m, values), m[x := to], values);
  }

  lemma StillKeyed<V>(d: map<string, V>, m: Naming, x: string, values: map<string, V>, to: string)
    requires x in m && (x in values ==> m[x] == to) && IsKeyed(d, m, values)
    ensures IsKeyed(d, m[x := to], values)
  {
    var after := m[x := to];
    forall y, k ensures Owns(m, values, y, k) <==> Owns(after, values, y, k) {
    }
    forall k | k in d ensures exists y :: Owns(after, values, y, k) {
      var y :| Owns(m, values, y, k);
      assert Owns(after, values, y, k);
    }
  }

  lemma KeyMoved<V>(a: Naming, b: Naming, m: Naming, x: string, values: map<string, V>, rest: map<string, V>)
    requires Renamable(a, b) && Between(a, b, m) && Injective(m) && values.Keys <= m.Keys && Apart(rest, a, b)
    requires x in values && a[x] != b[x] && m[x] == a[x] && Injective(m[x := b[x]])
    ensures RenameKey(Keyed(m, values) + rest, a[x], b[x]) == Keyed(m[x := b[x]], values) + rest
  {
    assert a[x] in a.Values && b[x] in b.Values;
    forall y | y in values && y in m && y != x ensures m[y] != a[x] && m[y] != b[x] {
      NamesTaken(a, b, m, x, y);
    }
    KeyedIsKeyed(m, values);
    KeyMovedBeside(Keyed(m, values), m, x, values, b[x], rest);
  }

  lemma KeyMovedBeside<V>(d: map<string, V>, m: Naming, x: string, values: map<string, V>, to: string,
                          rest: map<string, V>)
    requires IsKeyed(d, m, values) && x in m && x in values && m[x] != to && m[x] !in rest && to !in rest
    requires forall y :: y in values && y in m && y != x ==> m[y] != m[x] && m[y] != to
    requires Injective(m[x := to]) && values.Keys <= m.Keys
    ensures RenameKey(d + rest, m[x], to) == Keyed(m[x := to], values) + rest
  {
    RenamedIsKeyed(d, m, x, values, to);
    IsTheKeyed(RenameKey(d, m[x], to), m[x := to], values);
    assert Owns(m, values, x, m[x]);
    RenameBeside(d, rest, m[x], to);
  }

  lemma RenameBeside<V>(d: map<string, V>, rest: map<string, V>, from: string, to: string)
    requires from in d && from !in rest && to !in rest
    ensures RenameKey(d + rest, from, to) == RenameKey(d, from, to) + rest
  {
  }

  /** Replacing the value under a name. */
  lemma KeyedReplaced<V>(a: Naming, b: Naming, m: Naming, values: map<string, V>, rest: map<string, V>, x: string, v: V)
    requires Between(a, b, m) && Injective(m) && values.Keys <= m.Keys && Apart(rest, a, b) && x in values
    ensures (Keyed(m, values) + rest)[m[x] := v] == Keyed(m, values[x := v]) + rest
  {
    hide Keyed, IsKeyed, Apart;
    KeyedValues(a, b, m, values, rest, x);
    KeyedIsKeyed(m, values);
    ReplacedIsKeyed(Keyed(m, values), m, values, x, v);
    IsTheKeyed(Keyed(m, values)[m[x] := v], m, values[x := v]);
    UpdateBeside(Keyed(m, values), rest, m[x], v);
  }

  lemma UpdateBeside<V>(d: map<string, V>, rest: map<string, V>, k: string, v: V)
    requires k !in rest
    ensures (d + rest)[k := v] == d[k := v] + rest
  {
  }

  lemma ReplacedIsKeyed<V>(d: map<string, V>, m: Naming, values: map<string, V>, x: string, v: V)
    requires IsKeyed(d, m, values) && Injective(m) && x in values && x in m
    ensures IsKeyed(d[m[x] := v], m, values[x := v])
  {
    var e, after := d[m[x] := v], values[x := v];
    forall k | k in e ensures exists y :: Owns(m, after, y, k) {
      if k == m[x] {
        assert Owns(m, after, x, k);
      } else {
        var y :| Owns(m, values, y, k);
        assert Owns(m, after, y, k);
      }
    }
    forall y, k | Owns(m, after, y, k) ensures k in e && e[k] == after[y] {
      if y != x {
        assert Owns(m, values, y, k);
      }
    }
  }
}
