/** `ORDER BY` over rows of a table: numeric terms, all ascending, then the text key. A descending
    term is negated; a term that puts NULL last is a pair of terms.  */
module SqlOrder {
  import opened Wrappers
  import opened Ordering
  import opened Arith

  predicate TermsLess(a: seq<real>, b: seq<real>) {
    if a == [] || b == [] then false
    else a[0] < b[0] || (a[0] == b[0] && TermsLess(a[1..], b[1..]))
  }

  lemma {:induction false} TermsTotal(a: seq<real>, b: seq<real>)
    requires |a| == |b|
    ensures a == b ==> !TermsLess(a, b)
    ensures a != b ==> TermsLess(a, b) || TermsLess(b, a)
  {
    if a != [] {
      TermsTotal(a[1..], b[1..]);
      assert a == [a[0]] + a[1..] && b == [b[0]] + b[1..];
    }
  }

  lemma {:induction false} TermsTransitive(a: seq<real>, b: seq<real>, c: seq<real>)
    requires TermsLess(a, b) && TermsLess(b, c)
    ensures TermsLess(a, c)
  {
    if a[0] == b[0] == c[0] { TermsTransitive(a[1..], b[1..], c[1..]); }
  }

  /** NULL last, then ascending. */
  function NullLast(x: Option<real>): seq<real> {
    if x.Some? then [0.0, x.value] else [1.0, 0.0]
  }

  type Terms = map<string, seq<real>>

  predicate Before(terms: Terms, a: string, b: string) {
    && a in terms && b in terms
    && (TermsLess(terms[a], terms[b]) || (terms[a] == terms[b] && TextLess(a, b)))
  }

  function By(terms: Terms): (string, string) -> bool {
    (a, b) => Before(terms, a, b)
  }

  /** The keys have terms, as many each. */
  ghost predicate Comparable(terms: Terms, keys: set<string>) {
    && (forall k | k in keys :: k in terms)
    && (forall a, b | a in keys && b in keys :: |terms[a]| == |terms[b]|)
  }

  lemma BeforeTotal(terms: Terms, a: string, b: string)
    requires a in terms && b in terms && |terms[a]| == |terms[b]|
    ensures !Before(terms, a, a)
    ensures a != b ==> Before(terms, a, b) || Before(terms, b, a)
  {
    TermsTotal(terms[a], terms[a]);
    TermsTotal(terms[a], terms[b]);
    TextOrderTotal(a, a);
    TextOrderTotal(a, b);
  }

  lemma BeforeTransitive(terms: Terms, a: string, b: string, c: string)
    requires Before(terms, a, b) && Before(terms, b, c)
    ensures Before(terms, a, c)
  {
    if TermsLess(terms[a], terms[b]) && TermsLess(terms[b], terms[c]) {
      TermsTransitive(terms[a], terms[b], terms[c]);
    } else if terms[a] == terms[b] && terms[b] == terms[c] {
      TextOrderTransitive(a, b, c);
    }
  }

  lemma ByIsStrictTotal(terms: Terms, keys: set<string>)
    requires Comparable(terms, keys)
    ensures StrictTotal(By(terms), keys)
  {
    forall a, b | a in keys && b in keys
      ensures !By(terms)(a, a)
      ensures a != b ==> By(terms)(a, b) || By(terms)(b, a)
    {
      BeforeTotal(terms, a, b);
    }
    forall a, b, c | a in keys && b in keys && c in keys && By(terms)(a, b) && By(terms)(b, c)
      ensures By(terms)(a, c)
    {
      BeforeTransitive(terms, a, b, c);
    }
  }

  /** The keys in the order of their terms. */
  function Listing(terms: Terms, keys: set<string>): (r: seq<string>)
    requires Comparable(terms, keys)
    ensures |r| == |keys|
    ensures forall k :: k in r <==> k in keys
  {
    ByIsStrictTotal(terms, keys);
    OrderBy(keys, By(terms))
  }

  lemma ListingIsSorted(terms: Terms, keys: set<string>)
    requires Comparable(terms, keys)
    ensures Sorted(Listing(terms, keys), By(terms)) && Distinct(Listing(terms, keys))
  {
    ByIsStrictTotal(terms, keys);
    SortedIsDistinct(Listing(terms, keys), By(terms), keys);
  }

  lemma ListingIsUnique(terms: Terms, keys: set<string>, r: seq<string>)
    requires Comparable(terms, keys) && Sorted(r, By(terms)) && forall k :: k in r <==> k in keys
    ensures r == Listing(terms, keys)
  {
    ByIsStrictTotal(terms, keys);
    ListingIsSorted(terms, keys);
    SortedIsUnique(r, Listing(terms, keys), By(terms), keys);
  }

  /** The elements of the rest of a duplicate-free list. */
  lemma RestMembers(all: seq<string>, n: nat)
    requires Distinct(all) && n <= |all|
    ensures (set k | k in all[n..]) == (set k | k in all) - (set k | k in all[..n])
  {
    assert all == all[..n] + all[n..];
    forall k | k in all[n..] ensures k !in all[..n] {
      var j :| 0 <= j < |all| - n && all[n..][j] == k;
      forall i | 0 <= i < n ensures all[..n][i] != k {
        assert all[i] != all[n + j];
      }
    }
  }

  /** `LIMIT n`: the first n keys, or all. */
  function First(terms: Terms, keys: set<string>, n: nat): (r: set<string>)
    requires Comparable(terms, keys)
  {
    set k | k in Listing(terms, keys)[..Min(n, |keys|)]
  }

  /** `LIMIT n` takes exactly that many keys, and none that comes after one it leaves. */
  lemma FirstIsExact(terms: Terms, keys: set<string>, n: nat)
    requires Comparable(terms, keys)
    ensures First(terms, keys, n) <= keys
    ensures |First(terms, keys, n)| == Min(n, |keys|)
    ensures forall a, b | a in First(terms, keys, n) && b in keys - First(terms, keys, n) :: Before(terms, a, b)
  {
    var all, m := Listing(terms, keys), Min(n, |keys|);
    ListingIsSorted(terms, keys);
    DistinctCard(all[..m]);
    forall i | 0 <= i < m ensures all[i] in First(terms, keys, n) {
      assert all[..m][i] == all[i];
    }
    forall a, b | a in First(terms, keys, n) && b in keys - First(terms, keys, n)
      ensures Before(terms, a, b)
    {
      var i :| 0 <= i < m && all[..m][i] == a;
      assert b in all;
      var j :| 0 <= j < |all| && all[j] == b;
      assert By(terms)(all[i], all[j]);
    }
  }

  /** The first n keys are listed as they were listed among all. */
  lemma ListingOfFirst(terms: Terms, keys: set<string>, n: nat)
    requires Comparable(terms, keys) && n <= |keys|
    ensures Comparable(terms, First(terms, keys, n))
    ensures Listing(terms, First(terms, keys, n)) == Listing(terms, keys)[..n]
  {
    FirstIsExact(terms, keys, n);
    ListingIsSorted(terms, keys);
    ListingIsUnique(terms, First(terms, keys, n), Listing(terms, keys)[..n]);
  }
}
