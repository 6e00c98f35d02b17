/** Ordered selections. An SQL `ORDER BY` whose last term is the primary key, and Python's
    stable sort on (score, position), both list a finite set along a strict total order.  */
module Ordering {

  ghost predicate StrictTotal<T(!new)>(less: (T, T) -> bool, s: set<T>) {
    && (forall a | a in s :: !less(a, a))
    && (forall a, b | a in s && b in s && a != b :: less(a, b) || less(b, a))
    && (forall a, b, c | a in s && b in s && c in s && less(a, b) && less(b, c) :: less(a, c))
  }

  ghost predicate Sorted<T(!new)>(r: seq<T>, less: (T, T) -> bool) {
    forall i, j | 0 <= i < j < |r| :: less(r[i], r[j])
  }

  ghost predicate Distinct<T(!new)>(r: seq<T>) {
    forall i, j | 0 <= i < j < |r| :: r[i] != r[j]
  }

  lemma DistinctSnoc<T(!new)>(s: seq<T>, x: T)
    ensures Distinct(s + [x]) <==> Distinct(s) && x !in s
  {
    var t := s + [x];
    assert forall i | 0 <= i < |s| :: t[i] == s[i];
    assert t[|s|] == x;
  }

  predicate IsLeast<T(==)>(x: T, s: set<T>, less: (T, T) -> bool) {
    x in s && forall y | y in s :: y == x || less(x, y)
  }

  lemma LeastExists<T(!new)>(s: set<T>, less: (T, T) -> bool)
    requires StrictTotal(less, s) && s != {}
    ensures exists x :: IsLeast(x, s, less)
  {
    var x :| x in s;
    if s == {x} {
      assert IsLeast(x, s, less);
    } else {
      var rest := s - {x};
      assert rest != {};
      LeastExists(rest, less);
      var y :| IsLeast(y, rest, less);
      assert IsLeast(if less(x, y) then x else y, s, less);
    }
  }

  /** The elements of `s` from least to greatest. */
  function OrderBy<T(==, !new)>(s: set<T>, less: (T, T) -> bool): (r: seq<T>)
    requires StrictTotal(less, s)
    ensures |r| == |s|
    ensures forall x :: x in r <==> x in s
    ensures Sorted(r, less)
  {
    if s == {} then []
    else
      LeastExists(s, less);
      var x :| IsLeast(x, s, less);
      [x] + OrderBy(s - {x}, less)
  }

  lemma SortedIsDistinct<T(!new)>(r: seq<T>, less: (T, T) -> bool, s: set<T>)
    requires Sorted(r, less) && StrictTotal(less, s) && forall x | x in r :: x in s
    ensures Distinct(r)
  {
    forall i, j | 0 <= i < j < |r| ensures r[i] != r[j] {
      assert less(r[i], r[j]) && r[i] in s;
    }
  }

  /** Elements of a duplicate-free sequence: as many as the sequence is long. */
  lemma {:induction false} DistinctCard<T(!new)>(r: seq<T>)
    requires Distinct(r)
    ensures |set x | x in r| == |r|
  {
    if r != [] {
      var n := |r| - 1;
      DistinctCard(r[..n]);
      assert (set x | x in r) == (set x | x in r[..n]) + {r[n]} by {
        forall x | x in r ensures x in (set x | x in r[..n]) + {r[n]} {
          var i :| 0 <= i < |r| && r[i] == x;
          if i < n { assert r[..n][i] == x; }
        }
      }
      assert r[n] !in r[..n];
    }
  }

  lemma SortedLength<T(!new)>(a: seq<T>, less: (T, T) -> bool, s: set<T>)
    requires StrictTotal(less, s) && Sorted(a, less) && forall x :: x in a <==> x in s
    ensures |a| == |s|
  {
    SortedIsDistinct(a, less, s);
    DistinctCard(a);
    assert (set x | x in a) == s;
  }

  /** A finite set has only one sorted listing. */
  lemma {:induction false} SortedIsUnique<T(!new)>(a: seq<T>, b: seq<T>, less: (T, T) -> bool, s: set<T>)
    requires StrictTotal(less, s)
    requires Sorted(a, less) && Sorted(b, less)
    requires forall x :: x in a <==> x in s
    requires forall x :: x in b <==> x in s
    ensures a == b
  {
    SortedLength(a, less, s);
    SortedLength(b, less, s);
    if s != {} {
      var w :| w in s;
      assert w in a && w in b;
      assert a[0] in s && a[0] in b;
      assert b[0] in s && b[0] in a;
      assert a[0] == b[0];
      var rest := s - {a[0]};
      forall x ensures x in a[1..] <==> x in rest {
        if x in a[1..] { assert less(a[0], x); }
      }
      forall x ensures x in b[1..] <==> x in rest {
        if x in b[1..] { assert less(b[0], x); }
      }
      SortedIsUnique(a[1..], b[1..], less, rest);
      assert a == [a[0]] + a[1..] && b == [b[0]] + b[1..];
    }
  }

  /** A duplicate-free sequence inside a set is at most as long as the set is large. */
  lemma DistinctBound<T(!new)>(r: seq<T>, s: set<T>)
    requires Distinct(r) && forall x | x in r :: x in s
    ensures |r| <= |s|
  {
    DistinctCard(r);
    SubsetCard((set x | x in r), s);
  }

  lemma SubsetCard<T>(a: set<T>, b: set<T>)
    requires a <= b
    ensures |a| <= |b|
    ensures |a| == |b| ==> a == b
  {
    assert b == a + (b - a);
    assert |b| == |a| + |b - a|;
  }

  // ---- permutations ------------------------------------------------------------------

  lemma WithoutOne<T>(a: seq<T>, j: nat)
    requires j < |a|
    ensures multiset(a) == multiset(a[..j] + a[j + 1..]) + multiset{a[j]}
  {
    assert a == a[..j] + [a[j]] + a[j + 1..];
  }

  lemma SameRest<T>(a: multiset<T>, b: multiset<T>, x: T)
    requires a + multiset{x} == b + multiset{x}
    ensures a == b
  {
    assert a == a + multiset{x} - multiset{x};
  }

  lemma NoneLeft<T>(b: seq<T>)
    requires multiset(b) == multiset{}
    ensures b == []
  {
    assert |multiset(b)| == |b|;
  }

  /** Where the last element of `a` stands in a permutation, and what is left there. */
  lemma TakeOut<T>(a: seq<T>, b: seq<T>) returns (j: nat)
    requires multiset(a) == multiset(b) && a != []
    ensures j < |b| && b[j] == a[|a| - 1]
    ensures multiset(a[..|a| - 1]) == multiset(b[..j] + b[j + 1..])
  {
    var n := |a| - 1;
    assert a[n] in multiset(b);
    j :| 0 <= j < |b| && b[j] == a[n];
    WithoutOne(a, n);
    WithoutOne(b, j);
    assert a[..n] + a[n + 1..] == a[..n];
    SameRest(multiset(a[..n]), multiset(b[..j] + b[j + 1..]), a[n]);
  }

  // ---- the order of text keys --------------------------------------------------------

  /** Code-point order: SQLite's BINARY collation on UTF-8 text. */
  predicate TextLess(a: string, b: string) {
    if b == [] then false
    else if a == [] then true
    else a[0] < b[0] || (a[0] == b[0] && TextLess(a[1..], b[1..]))
  }

  lemma {:induction false} TextOrderTotal(a: string, b: string)
    ensures a == b ==> !TextLess(a, b)
    ensures a != b ==> TextLess(a, b) || TextLess(b, a)
    ensures !(TextLess(a, b) && TextLess(b, a))
  {
    if a != [] && b != [] && a[0] == b[0] {
      TextOrderTotal(a[1..], b[1..]);
      assert a == [a[0]] + a[1..] && b == [b[0]] + b[1..];
    }
  }

  lemma {:induction false} TextOrderTransitive(a: string, b: string, c: string)
    requires TextLess(a, b) && TextLess(b, c)
    ensures TextLess(a, c)
  {
    if a != [] && a[0] == b[0] == c[0] {
      TextOrderTransitive(a[1..], b[1..], c[1..]);
    }
  }
}
