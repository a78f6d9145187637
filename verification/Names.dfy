/**
 Table, label and key names as Python orders them: by code point, shortest first.
 `Listing(s)` is what `sorted(s)` returns for a set of names.
 */
module Names {

  /** Python's strict `<` on strings. */
  predicate Before(a: string, b: string)
  {
    if b == [] then false
    else if a == [] then true
    else a[0] < b[0] || (a[0] == b[0] && Before(a[1..], b[1..]))
  }

  lemma {:induction false} BeforeTotal(a: string, b: string)
    ensures a == b || Before(a, b) || Before(b, a)
  {
    if a != [] && b != [] && a[0] == b[0] {
      BeforeTotal(a[1..], b[1..]);
      assert a == [a[0]] + a[1..] && b == [b[0]] + b[1..];
    }
  }

  lemma {:induction false} BeforeTransitive(a: string, b: string, c: string)
    requires Before(a, b) && Before(b, c)
    ensures Before(a, c)
  {
    if a != [] && a[0] == b[0] && b[0] == c[0] {
      BeforeTransitive(a[1..], b[1..], c[1..]);
    }
  }

  lemma {:induction false} BeforeIrreflexive(a: string)
    ensures !Before(a, a)
  {
    if a != [] {
      BeforeIrreflexive(a[1..]);
    }
  }

  function Elements<T>(q: seq<T>): set<T>
  {
    set x | x in q
  }

  lemma ElementsConcat<T>(a: seq<T>, b: seq<T>)
    ensures Elements(a + b) == Elements(a) + Elements(b)
  {
  }

  ghost predicate NoDuplicates<T>(q: seq<T>)
  {
    forall i, j :: 0 <= i < j < |q| ==> q[i] != q[j]
  }

  ghost predicate Ascending(q: seq<string>)
  {
    forall i, j :: 0 <= i < j < |q| ==> Before(q[i], q[j])
  }

  ghost predicate IsLeast(m: string, s: set<string>)
  {
    m in s && forall x :: x in s && x != m ==> Before(m, x)
  }

  lemma {:induction false} LeastExists(s: set<string>)
    requires s != {}
    ensures exists m :: IsLeast(m, s)
  {
    var x :| x in s;
    if s == {x} {
      assert IsLeast(x, s);
    } else {
      LeastExists(s - {x});
      var m :| IsLeast(m, s - {x});
      BeforeTotal(m, x);
      if Before(x, m) {
        forall y | y in s && y != x ensures Before(x, y) {
          if y != m { BeforeTransitive(x, m, y); }
        }
        assert IsLeast(x, s);
      } else {
        assert IsLeast(m, s);
      }
    }
  }

  ghost predicate IsListing(q: seq<string>, s: set<string>)
  {
    Ascending(q) && Elements(q) == s
  }

  lemma {:induction false} ListingExists(s: set<string>)
    ensures exists q :: IsListing(q, s)
  {
    if s == {} {
      assert IsListing([], s);
    } else {
      LeastExists(s);
      var m :| IsLeast(m, s);
      ListingExists(s - {m});
      var rest :| IsListing(rest, s - {m});
      ElementsConcat([m], rest);
      assert forall x :: x in rest ==> x in Elements(rest);
      assert IsListing([m] + rest, s);
    }
  }

  /** The names of `s` in ascending order. */
  ghost function Listing(s: set<string>): (q: seq<string>)
    ensures IsListing(q, s)
  {
    ListingExists(s);
    var q :| IsListing(q, s); q
  }

  lemma AscendingNoDuplicates(q: seq<string>)
    requires Ascending(q)
    ensures NoDuplicates(q)
  {
    forall i, j | 0 <= i < j < |q| ensures q[i] != q[j] {
      BeforeIrreflexive(q[i]);
    }
  }

  lemma AscendingTake(q: seq<string>, i: nat)
    requires Ascending(q) && i < |q|
    ensures forall x :: x in Elements(q[..i]) ==> Before(x, q[i])
  {
  }

  lemma TakeNext<T>(q: seq<T>, i: nat)
    requires i < |q|
    ensures q[..i + 1] == q[..i] + [q[i]]
    ensures Elements(q[..i + 1]) == Elements(q[..i]) + {q[i]}
    ensures NoDuplicates(q) ==> q[i] !in Elements(q[..i])
  {
    ElementsConcat(q[..i], [q[i]]);
    assert q[..i + 1] == q[..i] + [q[i]];
  }

  /** An ascending sequence is determined by its elements. */
  lemma {:induction false} ListingUnique(p: seq<string>, q: seq<string>)
    requires Ascending(p) && Ascending(q) && Elements(p) == Elements(q)
    ensures p == q
  {
    if p == [] {
      NoElements(q);
    } else {
      assert p[0] in Elements(q);
      HeadIsLeast(p);
      HeadIsLeast(q);
      LeastUnique(Elements(p), p[0], q[0]);
      TailElements(p);
      TailElements(q);
      ListingUnique(p[1..], q[1..]);
    }
  }

  lemma NoElements<T>(q: seq<T>)
    ensures Elements(q) == {} <==> q == []
  {
    if q != [] {
      assert q[0] in Elements(q);
    }
  }

  lemma HeadIsLeast(q: seq<string>)
    requires Ascending(q) && q != []
    ensures IsLeast(q[0], Elements(q))
  {
  }

  lemma LeastUnique(s: set<string>, a: string, b: string)
    requires IsLeast(a, s) && IsLeast(b, s)
    ensures a == b
  {
    if a != b {
      BeforeTransitive(a, b, a);
      BeforeIrreflexive(a);
    }
  }

  lemma TailElements(q: seq<string>)
    requires Ascending(q) && q != []
    ensures Elements(q[1..]) == Elements(q) - {q[0]}
  {
    AscendingNoDuplicates(q);
    assert q == [q[0]] + q[1..];
    ElementsConcat([q[0]], q[1..]);
  }

  lemma NothingListed()
    ensures Listing({}) == []
  {
    IsTheListing([], {});
  }

  lemma IsTheListing(q: seq<string>, s: set<string>)
    requires IsListing(q, s)
    ensures q == Listing(s)
  {
    ListingUnique(q, Listing(s));
  }

  lemma ListingAppend(s: set<string>, x: string)
    requires forall y :: y in s ==> Before(y, x)
    ensures Listing(s + {x}) == Listing(s) + [x]
  {
    var q := Listing(s);
    AscendingAppend(q, x);
    ElementsConcat(q, [x]);
    IsTheListing(q + [x], s + {x});
  }

  lemma AscendingAppend(q: seq<string>, x: string)
    requires Ascending(q)
    requires forall y :: y in Elements(q) ==> Before(y, x)
    ensures Ascending(q + [x])
  {
    forall k | 0 <= k < |q| ensures Before(q[k], x) {
      assert q[k] in Elements(q);
    }
  }

  /** `sorted(s)`, by repeated selection. */
  method Sorted(s: set<string>) returns (q: seq<string>)
    ensures q == Listing(s)
  {
    q := [];
    var todo := s;
    while todo != {}
      invariant todo <= s && IsListing(q, s - todo)
      invariant forall x, y :: x in q && y in todo ==> Before(x, y)
      decreases todo
    {
      var m := Smallest(todo);
      AscendingAppend(q, m);
      ElementsConcat(q, [m]);
      q, todo := q + [m], todo - {m};
    }
    IsTheListing(q, s);
  }

  method Smallest(s: set<string>) returns (m: string)
    requires s != {}
    ensures IsLeast(m, s)
  {
    m :| m in s;
    var todo := s - {m};
    while todo != {}
      invariant todo < s && m in s - todo
      invariant IsLeast(m, s - todo)
      decreases todo
    {
      var x :| x in todo;
      var smaller := Before(x, m);
      BeforeTotal(x, m);
      forall y | y in s - todo && y != m && smaller ensures Before(x, y) {
        BeforeTransitive(x, m, y);
      }
      todo := todo - {x};
      if smaller { m := x; }
    }
  }
}
