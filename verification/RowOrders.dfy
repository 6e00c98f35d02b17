/** What the orders of the tables mean on the fields of two rows (db.py): who is kept by a trim, who
    is deleted first, who is probed first.  */
module RowOrders {
  import opened Wrappers
  import opened Ordering
  import opened Arith
  import opened SqlOrder
  import opened Health
  import opened ProxySpec
  import Catalog
  import Inventory

  // ---- lists of terms ----------------------------------------------------------------------------

  lemma TermFirst(x: real, xs: seq<real>, y: real, ys: seq<real>)
    ensures TermsLess([x] + xs, [y] + ys) <==> x < y || (x == y && TermsLess(xs, ys))
    ensures [x] + xs == [y] + ys <==> x == y && xs == ys
  {
    var a, b := [x] + xs, [y] + ys;
    assert a[0] == x && b[0] == y && a[1..] == xs && b[1..] == ys;
  }

  lemma OneTerm(x: real, y: real)
    ensures TermsLess([x], [y]) <==> x < y
  {
    assert [x][1..] == [] && [y][1..] == [];
  }

  /** A value before a larger one, and any value before none. */
  predicate Lower(x: Option<real>, y: Option<real>) { x.Some? && (y.None? || x.value < y.value) }

  lemma NullLastFirst(x: Option<real>, xs: seq<real>, y: Option<real>, ys: seq<real>)
    ensures TermsLess(NullLast(x) + xs, NullLast(y) + ys) <==> Lower(x, y) || (x == y && TermsLess(xs, ys))
    ensures NullLast(x) + xs == NullLast(y) + ys <==> x == y && xs == ys
  {
    var a, b := if x.Some? then x.value else 0.0, if y.Some? then y.value else 0.0;
    var c, d := if x.Some? then 0.0 else 1.0, if y.Some? then 0.0 else 1.0;
    assert NullLast(x) + xs == [c] + ([a] + xs) && NullLast(y) + ys == [d] + ([b] + ys);
    TermFirst(c, [a] + xs, d, [b] + ys);
    TermFirst(a, xs, b, ys);
  }

  /** A larger score before a smaller one; on a tie the smaller key. */
  predicate HigherScore(ka: string, a: real, kb: string, b: real) { a > b || (a == b && TextLess(ka, kb)) }

  predicate LowerScore(ka: string, a: real, kb: string, b: real) { a < b || (a == b && TextLess(ka, kb)) }

  lemma NotBothBefore(terms: Terms, a: string, b: string)
    requires Before(terms, a, b)
    ensures !Before(terms, b, a)
  {
    if Before(terms, b, a) {
      BeforeTransitive(terms, a, b, a);
      TermsTotal(terms[a], terms[a]);
      TextOrderTotal(a, a);
    }
  }

  /** The texts agree before place n, where `a` ends or has the smaller character. */
  ghost predicate DiffersAt(a: string, b: string, n: nat) {
    n <= |a| && n < |b| && a[..n] == b[..n] && (n == |a| || a[n] < b[n])
  }

  lemma DiffersAtStart(a: string, b: string)
    requires b != [] && (a == [] || a[0] != b[0])
    ensures DiffersAt(a, b, 0) <==> a == [] || a[0] < b[0]
    ensures forall n: nat | DiffersAt(a, b, n) :: n == 0
  {
    forall n: nat | 0 < n <= |a| && n < |b| ensures a[..n] != b[..n] {
      assert a[..n][0] == a[0] && b[..n][0] == b[0];
    }
  }

  /** The text order: at the first difference the smaller character, or the shorter text. */
  lemma {:induction false} TextLessMeans(a: string, b: string)
    ensures TextLess(a, b) <==> exists n: nat :: DiffersAt(a, b, n)
  {
    if b != [] {
      if a == [] || a[0] != b[0] {
        DiffersAtStart(a, b);
      } else {
        TextLessMeans(a[1..], b[1..]);
        FirstDifference(a, b);
      }
    }
  }

  lemma FirstDifference(a: string, b: string)
    requires a != [] && b != [] && a[0] == b[0]
    ensures (exists n: nat :: DiffersAt(a[1..], b[1..], n)) <==> exists n: nat :: DiffersAt(a, b, n)
  {
    if n: nat :| DiffersAt(a[1..], b[1..], n) {
      assert a[..n + 1] == [a[0]] + a[1..][..n] && b[..n + 1] == [b[0]] + b[1..][..n];
      assert DiffersAt(a, b, n + 1);
    }
    if n: nat :| DiffersAt(a, b, n) {
      assert n > 0;
      assert a[1..][..n - 1] == a[..n][1..] && b[1..][..n - 1] == b[..n][1..];
      assert DiffersAt(a[1..], b[1..], n - 1);
    }
  }

  // ---- MTProto: the working ranking ----------------------------------------------------------------

  /** Row `a` ranks before row `b`: it is measured and `b` is not, or both are and it is faster; at
      equal latency, or with none, the higher score and then the smaller key decide. */
  predicate Better(ka: string, a: ProxySpec.Row, kb: string, b: ProxySpec.Row) {
    || (a.snap.lastMs.Some? && b.snap.lastMs.None?)
    || (a.snap.lastMs.Some? && b.snap.lastMs.Some? && a.snap.lastMs.value < b.snap.lastMs.value)
    || (a.snap.lastMs == b.snap.lastMs && a.snap.score > b.snap.score)
    || (a.snap.lastMs == b.snap.lastMs && a.snap.score == b.snap.score && TextLess(ka, kb))
  }

  lemma RankIsBetter(t: Table, a: string, b: string)
    requires a in t && b in t
    ensures Before(RankTerms(t), a, b) <==> Better(a, t[a], b, t[b])
  {
    NullLastFirst(t[a].snap.lastMs, [-t[a].snap.score], t[b].snap.lastMs, [-t[b].snap.score]);
    OneTerm(-t[a].snap.score, -t[b].snap.score);
    assert [-t[a].snap.score] == [-t[b].snap.score] <==> t[a].snap.score == t[b].snap.score;
  }

  /** A trim demotes no row that is better than one it keeps. */
  lemma TrimKeepsBetter(t: Table, max: int, a: string, b: string)
    requires max > 0 && a in Working(TrimWorking(t, max)) && b in Working(t) - Working(TrimWorking(t, max))
    ensures a in t && Better(a, t[a], b, t[b])
  {
    TrimIsExact(t, max);
    RankIsBetter(t, a, b);
  }

  lemma ListedIndex(keys: seq<string>, k: string) returns (i: nat)
    requires k in keys
    ensures i < |keys| && keys[i] == k
  {
    i :| 0 <= i < |keys| && keys[i] == k;
  }

  lemma ListingOrder(terms: Terms, keys: set<string>, i: nat, j: nat)
    requires Comparable(terms, keys) && i < |keys| && j < |keys|
    ensures i < j <==> Before(terms, Listing(terms, keys)[i], Listing(terms, keys)[j])
  {
    var all := Listing(terms, keys);
    ListingIsSorted(terms, keys);
    if i < j {
      assert By(terms)(all[i], all[j]);
    } else if j < i {
      assert By(terms)(all[j], all[i]);
      NotBothBefore(terms, all[j], all[i]);
    } else {
      assert all[i] in all;
      BeforeTotal(terms, all[i], all[i]);
    }
  }

  lemma RankAt(t: Table, i: nat, j: nat)
    requires i < |WorkingList(t)| && j < |WorkingList(t)|
    ensures var a, b := WorkingList(t)[i], WorkingList(t)[j];
      a in t && b in t && (i < j <==> Better(a, t[a], b, t[b]))
  {
    assert WorkingList(t)[i] in WorkingList(t) && WorkingList(t)[j] in WorkingList(t);
    ListingOrder(RankTerms(t), Working(t), i, j);
    RankIsBetter(t, WorkingList(t)[i], WorkingList(t)[j]);
  }

  lemma WorkingAt(t: Table, k: string) returns (i: nat)
    requires k in Working(t)
    ensures i < |WorkingList(t)| && WorkingList(t)[i] == k && k in Refresh(t) && Refresh(t)[k].sortOrder == i
  {
    i := ListedIndex(WorkingList(t), k);
    RefreshNumbersWorking(t, i);
  }

  lemma FailedAt(t: Table, k: string) returns (i: nat)
    requires k in Failed(t)
    ensures i < |FailedList(t)| && FailedList(t)[i] == k && k in Refresh(t) && Refresh(t)[k].sortOrder == i
  {
    i := ListedIndex(FailedList(t), k);
    RefreshNumbersFailed(t, i);
  }

  /** After a refresh the sort orders of two working rows say which is better. */
  lemma SortOrderIsRank(t: Table, a: string, b: string)
    requires a in Working(t) && b in Working(t)
    ensures var r := Refresh(t);
      a in r && b in r && (r[a].sortOrder < r[b].sortOrder <==> Better(a, t[a], b, t[b]))
  {
    var i := WorkingAt(t, a);
    var j := WorkingAt(t, b);
    RankAt(t, i, j);
  }

  // ---- MTProto: failed rows ------------------------------------------------------------------------

  lemma PriorityIsHigherScore(t: Table, a: string, b: string)
    requires a in t && b in t
    ensures Before(PriorityTerms(t), a, b) <==> HigherScore(a, t[a].snap.score, b, t[b].snap.score)
  {
    OneTerm(-t[a].snap.score, -t[b].snap.score);
    assert [-t[a].snap.score] == [-t[b].snap.score] <==> t[a].snap.score == t[b].snap.score;
  }

  /** Those of two failed rows say which has the higher score. */
  lemma SortOrderIsPriority(t: Table, a: string, b: string)
    requires a in Failed(t) && b in Failed(t)
    ensures var r := Refresh(t);
      a in r && b in r && (r[a].sortOrder < r[b].sortOrder <==> HigherScore(a, t[a].snap.score, b, t[b].snap.score))
  {
    var i := FailedAt(t, a);
    var j := FailedAt(t, b);
    ListingOrder(PriorityTerms(t), Failed(t), i, j);
    PriorityIsHigherScore(t, a, b);
  }

  function AsReal(x: Option<int>): Option<real> { if x.Some? then Some(x.value as real) else None }

  /** Of two probed rows the one with the lower score goes first; at equal scores the one checked
      longer ago, a row without a check time last; then the smaller key. */
  predicate GoesFirst(ka: string, a: Snapshot, kb: string, b: Snapshot) {
    || a.score < b.score
    || (a.score == b.score && a.checkedAt.Some? && b.checkedAt.None?)
    || (a.score == b.score && a.checkedAt.Some? && b.checkedAt.Some? && a.checkedAt.value < b.checkedAt.value)
    || (a.score == b.score && a.checkedAt == b.checkedAt && TextLess(ka, kb))
  }

  lemma ScoreThenCheck(x: real, p: Option<int>, y: real, q: Option<int>)
    ensures TermsLess([x] + NullLast(AsReal(p)), [y] + NullLast(AsReal(q)))
       <==> x < y || (x == y && Lower(AsReal(p), AsReal(q)))
    ensures [x] + NullLast(AsReal(p)) == [y] + NullLast(AsReal(q)) <==> x == y && p == q
    ensures Lower(AsReal(p), AsReal(q)) <==> p.Some? && (q.None? || p.value < q.value)
  {
    var none: seq<real> := [];
    TermFirst(x, NullLast(AsReal(p)), y, NullLast(AsReal(q)));
    NullLastFirst(AsReal(p), none, AsReal(q), none);
    assert NullLast(AsReal(p)) + none == NullLast(AsReal(p)) && NullLast(AsReal(q)) + none == NullLast(AsReal(q));
  }

  lemma ChronicIsGoesFirst(t: Table, a: string, b: string)
    requires a in t && b in t
    ensures Before(ChronicTerms(t), a, b) <==> GoesFirst(a, t[a].snap, b, t[b].snap)
  {
    ScoreThenCheck(t[a].snap.score, t[a].snap.checkedAt, t[b].snap.score, t[b].snap.checkedAt);
    assert ChronicTerms(t)[a] == [t[a].snap.score] + NullLast(AsReal(t[a].snap.checkedAt));
    assert ChronicTerms(t)[b] == [t[b].snap.score] + NullLast(AsReal(t[b].snap.checkedAt));
  }

  /** A trim of the failed rows deletes none before one that goes first; a never-probed row it
      deletes has no probed failed row beside it. */
  lemma TrimFailedOrder(t: Table, maxFailed: nat, a: string, b: string)
    requires a in t && a !in TrimFailed(t, maxFailed) && b in Failed(TrimFailed(t, maxFailed))
    ensures b in t
    ensures t[a].snap.checks > 0 && t[b].snap.checks > 0 ==> GoesFirst(a, t[a].snap, b, t[b].snap)
    ensures t[a].snap.checks == 0 ==>
      t[b].snap.checks == 0 && LowerScore(a, t[a].snap.score, b, t[b].snap.score)
  {
    TrimFailedIsExact(t, maxFailed);
    TrimFailedPicksFirst(t, maxFailed, a, b);
    ChronicIsGoesFirst(t, a, b);
    OneTerm(t[a].snap.score, t[b].snap.score);
  }

  // ---- V2Ray: the cap and the due rows -----------------------------------------------------------------

  /** The cap on the table deletes no dead row before one that goes first. */
  lemma EnforceMaxOrder(t: Inventory.Rows, max: int, a: string, b: string)
    requires a in t && a !in Inventory.EnforceMax(t, max)
    requires b in Inventory.EnforceMax(t, max) && (t[b].state.Dead? || t[b].state.Quarantined?)
    ensures t[a].state.Dead? || t[a].state.Quarantined?
    ensures GoesFirst(a, t[a].snap, b, t[b].snap)
  {
    Inventory.EnforceMaxIsExact(t, max);
    Inventory.EnforceMaxPicksFirst(t, max, a, b);
    ScoreThenCheck(t[a].snap.score, t[a].snap.checkedAt, t[b].snap.score, t[b].snap.checkedAt);
    assert Inventory.DeadTerms(t)[a] == [t[a].snap.score] + NullLast(AsReal(t[a].snap.checkedAt));
    assert Inventory.DeadTerms(t)[b] == [t[b].snap.score] + NullLast(AsReal(t[b].snap.checkedAt));
  }

  /** Unknown rows are probed first, then degraded, healthy and the others. */
  function Place(s: State): nat { if s.Unknown? then 0 else if s.Degraded? then 1 else if s.Healthy? then 2 else 3 }

  /** Within a state, a row that never was due, then the one due for longer, then the higher score,
      then the smaller key. */
  predicate ProbedFirst(ka: string, a: Catalog.Row, kb: string, b: Catalog.Row) {
    || Place(a.state) < Place(b.state)
    || (Place(a.state) == Place(b.state) && a.dueAt.None? && b.dueAt.Some?)
    || (Place(a.state) == Place(b.state) && a.dueAt.Some? && b.dueAt.Some? && a.dueAt.value < b.dueAt.value)
    || (Place(a.state) == Place(b.state) && a.dueAt == b.dueAt && HigherScore(ka, a.snap.score, kb, b.snap.score))
  }

  predicate Sooner(x: Option<real>, y: Option<real>) { y.Some? && (x.None? || x.value < y.value) }

  lemma NullFirstFirst(x: Option<real>, xs: seq<real>, y: Option<real>, ys: seq<real>)
    ensures TermsLess(Inventory.NullFirst(x) + xs, Inventory.NullFirst(y) + ys)
       <==> Sooner(x, y) || (x == y && TermsLess(xs, ys))
    ensures Inventory.NullFirst(x) + xs == Inventory.NullFirst(y) + ys <==> x == y && xs == ys
  {
    var a, b := if x.Some? then x.value else 0.0, if y.Some? then y.value else 0.0;
    var c, d := if x.Some? then 1.0 else 0.0, if y.Some? then 1.0 else 0.0;
    assert Inventory.NullFirst(x) + xs == [c] + ([a] + xs) && Inventory.NullFirst(y) + ys == [d] + ([b] + ys);
    TermFirst(c, [a] + xs, d, [b] + ys);
    TermFirst(a, xs, b, ys);
  }

  function StateTerms(row: Catalog.Row): seq<real> {
    [Place(row.state) as real] + (Inventory.NullFirst(AsReal(row.dueAt)) + [-row.snap.score])
  }

  lemma DueTermsOf(t: Inventory.Rows, k: string)
    requires k in t
    ensures Inventory.DueTerms(t)[k] == StateTerms(t[k])
  {
  }

  lemma StateThenDue(a: Catalog.Row, b: Catalog.Row)
    ensures TermsLess(StateTerms(a), StateTerms(b))
       <==> || Place(a.state) < Place(b.state)
            || (Place(a.state) == Place(b.state) && Sooner(AsReal(a.dueAt), AsReal(b.dueAt)))
            || (Place(a.state) == Place(b.state) && a.dueAt == b.dueAt && a.snap.score > b.snap.score)
    ensures StateTerms(a) == StateTerms(b)
       <==> Place(a.state) == Place(b.state) && a.dueAt == b.dueAt && a.snap.score == b.snap.score
  {
    var x, y := AsReal(a.dueAt), AsReal(b.dueAt);
    var xs, ys := [-a.snap.score], [-b.snap.score];
    TermFirst(Place(a.state) as real, Inventory.NullFirst(x) + xs, Place(b.state) as real, Inventory.NullFirst(y) + ys);
    NullFirstFirst(x, xs, y, ys);
    OneTerm(-a.snap.score, -b.snap.score);
    assert xs == ys <==> a.snap.score == b.snap.score;
  }

  lemma DueIsProbedFirst(t: Inventory.Rows, a: string, b: string)
    requires a in t && b in t
    ensures Before(Inventory.DueTerms(t), a, b) <==> ProbedFirst(a, t[a], b, t[b])
  {
    DueTermsOf(t, a);
    DueTermsOf(t, b);
    StateThenDue(t[a], t[b]);
  }

  /** The due rows are those that can be tested and have no due time or one that has come. */
  lemma DueMeans(t: Inventory.Rows, now: int, testable: string -> bool, k: string)
    ensures k in Inventory.Due(t, now, testable)
       <==> k in t && testable(t[k].identity) && (t[k].dueAt.None? || t[k].dueAt.value <= now)
  {
  }

  lemma IndexAfter(all: seq<string>, i: nat, b: string) returns (k: nat)
    requires i < |all| && b in all && b !in all[..i + 1]
    ensures i < k < |all| && all[k] == b
  {
    assert all == all[..i + 1] + all[i + 1..];
    k := ListedIndex(all[i + 1..], b);
    k := i + 1 + k;
  }

  /** What does not stand up to place i of a listing comes after it. */
  lemma AfterPlace(terms: Terms, keys: set<string>, i: nat, b: string)
    requires Comparable(terms, keys) && i < |keys| && b in keys && b !in Listing(terms, keys)[..i + 1]
    ensures Before(terms, Listing(terms, keys)[i], b)
  {
    var k := IndexAfter(Listing(terms, keys), i, b);
    ListingOrder(terms, keys, i, k);
  }

  lemma TakenPrefix(all: seq<string>, m: nat, i: nat)
    requires i < m <= |all|
    ensures all[..m][i] == all[i] && all[..m][..i + 1] == all[..i + 1] && all[i] in all
  {
  }

  lemma ServersOfListing(t: Inventory.Rows, now: int, testable: string -> bool, i: nat)
    requires i < |Inventory.DueServers(t, now, testable)|
    ensures var due, d := Inventory.Due(t, now, testable), Inventory.DueServers(t, now, testable);
      && i < |due| && d[i] in due
      && d[i] == Listing(Inventory.DueTerms(t), due)[i]
      && d[..i + 1] == Listing(Inventory.DueTerms(t), due)[..i + 1]
  {
    var due := Inventory.Due(t, now, testable);
    TakenPrefix(Listing(Inventory.DueTerms(t), due), Min(Inventory.WAVE_LIMIT, |due|), i);
  }

  lemma ListedFirst(t: Inventory.Rows, due: set<string>, i: nat, b: string)
    requires due <= t.Keys && i < |due| && b in due && b !in Listing(Inventory.DueTerms(t), due)[..i + 1]
    ensures var a := Listing(Inventory.DueTerms(t), due)[i]; a in t && ProbedFirst(a, t[a], b, t[b])
  {
    var a := Listing(Inventory.DueTerms(t), due)[i];
    assert a in Listing(Inventory.DueTerms(t), due);
    AfterPlace(Inventory.DueTerms(t), due, i, b);
    DueIsProbedFirst(t, a, b);
  }

  /** A wave takes the due servers in this order, and none is left out that should come before one
      taken: `b` is any due server that is not among the first i + 1. */
  lemma DueServersOrder(t: Inventory.Rows, now: int, testable: string -> bool, i: nat, b: string)
    requires i < |Inventory.DueServers(t, now, testable)| && b in Inventory.Due(t, now, testable)
    requires b !in Inventory.DueServers(t, now, testable)[..i + 1]
    ensures var a := Inventory.DueServers(t, now, testable)[i]; a in t && b in t && ProbedFirst(a, t[a], b, t[b])
  {
    ServersOfListing(t, now, testable, i);
    ListedFirst(t, Inventory.Due(t, now, testable), i, b);
  }
}
