/** The MTProto table (db.py): trimming, pruning, ranking and the statements that write it,
    as functions on a map from key to row.  */
module ProxySpec {
  import opened Wrappers
  import opened Ordering
  import opened Arith
  import opened SqlOrder
  import opened Health

  datatype Row = Row(identity: string, snap: Snapshot, working: bool, sortOrder: int)

  type Table = map<string, Row>

  function Working(t: Table): set<string> { set k | k in t && t[k].working }

  function Failed(t: Table): set<string> { set k | k in t && !t[k].working }

  // ---- the orders ---------------------------------------------------------------------------

  /** Working rows: measured before unmeasured, then latency, then priority. */
  function RankTerms(t: Table): Terms {
    map k | k in t :: NullLast(t[k].snap.lastMs) + [-t[k].snap.score]
  }

  /** Failed rows: priority. */
  function PriorityTerms(t: Table): Terms { map k | k in t :: [-t[k].snap.score] }

  /** Failed rows that were probed, first to delete first. */
  function ChronicTerms(t: Table): Terms {
    map k | k in t ::
      [t[k].snap.score] + NullLast(if t[k].snap.checkedAt.Some? then Some(t[k].snap.checkedAt.value as real) else None)
  }

  function UnprobedTerms(t: Table): Terms { map k | k in t :: [t[k].snap.score] }

  function WorkingList(t: Table): seq<string> { Listing(RankTerms(t), Working(t)) }

  function FailedList(t: Table): seq<string> { Listing(PriorityTerms(t), Failed(t)) }

  // ---- sort orders --------------------------------------------------------------------------

  /** Only the sort orders differ. */
  ghost predicate SameButOrder(a: Table, b: Table) {
    a.Keys == b.Keys && forall k | k in a :: b[k] == a[k].(sortOrder := b[k].sortOrder)
  }

  function Placed(t: Table, key: string, n: int): Table {
    if key in t then t[key := t[key].(sortOrder := n)] else t
  }

  function Numbered(t: Table, keys: seq<string>): Table {
    if keys == [] then t else Placed(Numbered(t, keys[..|keys| - 1]), keys[|keys| - 1], |keys| - 1)
  }

  lemma {:induction false} NumberedIsSame(t: Table, keys: seq<string>)
    ensures SameButOrder(t, Numbered(t, keys))
  {
    if keys != [] { NumberedIsSame(t, keys[..|keys| - 1]); }
  }

  lemma {:induction false} NumberedAt(t: Table, keys: seq<string>, i: nat)
    requires Distinct(keys) && i < |keys| && keys[i] in t
    ensures keys[i] in Numbered(t, keys) && Numbered(t, keys)[keys[i]].sortOrder == i
  {
    var n := |keys| - 1;
    NumberedIsSame(t, keys[..n]);
    if i < n { NumberedAt(t, keys[..n], i); }
  }

  lemma {:induction false} NumberedOthers(t: Table, keys: seq<string>, k: string)
    requires k in t && k !in keys
    ensures k in Numbered(t, keys) && Numbered(t, keys)[k] == t[k]
  {
    if keys != [] { NumberedOthers(t, keys[..|keys| - 1], k); }
  }

  /** `_mtproto_refresh_sort_orders`. */
  function Refresh(t: Table): Table {
    Numbered(Numbered(t, WorkingList(t)), FailedList(t))
  }

  lemma RefreshIsSame(t: Table)
    ensures SameButOrder(t, Refresh(t))
  {
    NumberedIsSame(t, WorkingList(t));
    NumberedIsSame(Numbered(t, WorkingList(t)), FailedList(t));
  }

  lemma SameWorking(a: Table, b: Table)
    requires SameButOrder(a, b)
    ensures Working(a) == Working(b) && WorkingList(a) == WorkingList(b)
  {
    assert Working(a) == Working(b);
    assert RankTerms(a) == RankTerms(b);
  }

  lemma SameFailed(a: Table, b: Table)
    requires SameButOrder(a, b)
    ensures Failed(a) == Failed(b) && FailedList(a) == FailedList(b)
  {
    assert Failed(a) == Failed(b);
    assert PriorityTerms(a) == PriorityTerms(b);
  }

  lemma NumberedTwice(t: Table, w: seq<string>, f: seq<string>, i: nat)
    requires Distinct(w) && i < |w| && w[i] in t && w[i] !in f
    ensures w[i] in Numbered(Numbered(t, w), f) && Numbered(Numbered(t, w), f)[w[i]].sortOrder == i
  {
    NumberedAt(t, w, i);
    NumberedOthers(Numbered(t, w), f, w[i]);
  }

  lemma ListedApart(t: Table, i: nat)
    requires i < |WorkingList(t)|
    ensures Distinct(WorkingList(t)) && WorkingList(t)[i] in t && WorkingList(t)[i] !in FailedList(t)
  {
    ListingIsSorted(RankTerms(t), Working(t));
    assert WorkingList(t)[i] in WorkingList(t);
  }

  /** After a refresh the working rows are numbered 0, 1, ... in their ranking. */
  lemma RefreshNumbersWorking(t: Table, i: nat)
    requires i < |WorkingList(t)|
    ensures WorkingList(Refresh(t)) == WorkingList(t)
    ensures var k := WorkingList(t)[i]; k in Refresh(t) && Refresh(t)[k].sortOrder == i
  {
    RefreshIsSame(t);
    SameWorking(t, Refresh(t));
    ListedApart(t, i);
    NumberedTwice(t, WorkingList(t), FailedList(t), i);
  }

  /** And so are the failed rows in theirs. */
  lemma RefreshNumbersFailed(t: Table, i: nat)
    requires i < |FailedList(t)|
    ensures FailedList(Refresh(t)) == FailedList(t)
    ensures var k := FailedList(t)[i]; k in Refresh(t) && Refresh(t)[k].sortOrder == i
  {
    var f := FailedList(t);
    RefreshIsSame(t);
    SameFailed(t, Refresh(t));
    ListingIsSorted(PriorityTerms(t), Failed(t));
    NumberedIsSame(t, WorkingList(t));
    assert f[i] in f;
    NumberedAt(Numbered(t, WorkingList(t)), f, i);
  }

  // ---- trimming the working set ---------------------------------------------------------------

  function DemoteOne(t: Table, key: string): Table {
    if key in t then t[key := t[key].(working := false)] else t
  }

  function Demoted(t: Table, keys: seq<string>): Table {
    if keys == [] then t else DemoteOne(Demoted(t, keys[..|keys| - 1]), keys[|keys| - 1])
  }

  /** Only statuses and sort orders differ. */
  ghost predicate SameHealth(a: Table, b: Table) {
    a.Keys == b.Keys && forall k | k in a :: b[k].snap == a[k].snap && b[k].identity == a[k].identity
  }

  lemma {:induction false} DemotedHealth(t: Table, keys: seq<string>)
    ensures SameHealth(t, Demoted(t, keys))
  {
    if keys != [] { DemotedHealth(t, keys[..|keys| - 1]); }
  }

  lemma DemoteOneWorking(t: Table, key: string)
    ensures Working(DemoteOne(t, key)) == Working(t) - {key}
  {
  }

  lemma {:induction false} DemotedWorking(t: Table, keys: seq<string>)
    ensures Working(Demoted(t, keys)) == Working(t) - (set k | k in keys)
  {
    if keys != [] {
      var n := |keys| - 1;
      DemotedWorking(t, keys[..n]);
      DemoteOneWorking(Demoted(t, keys[..n]), keys[n]);
      assert keys == keys[..n] + [keys[n]];
    }
  }

  /** `mtproto_trim_working`. */
  function TrimWorking(t: Table, max: int): Table {
    if max <= 0 || |WorkingList(t)| <= max then t
    else Refresh(Demoted(t, WorkingList(t)[max..]))
  }

  lemma KeptIsFirst(t: Table, max: int)
    requires 0 < max < |WorkingList(t)|
    ensures Working(Demoted(t, WorkingList(t)[max..])) == First(RankTerms(t), Working(t), max)
  {
    var all := WorkingList(t);
    DemotedWorking(t, all[max..]);
    ListingIsSorted(RankTerms(t), Working(t));
    RestMembers(all, max);
    assert (set k | k in all) == Working(t);
    FirstIsExact(RankTerms(t), Working(t), max);
  }

  lemma TrimmedWorking(t: Table, max: int)
    requires max > 0
    ensures Working(TrimWorking(t, max)) == First(RankTerms(t), Working(t), max)
  {
    if |WorkingList(t)| > max {
      KeptIsFirst(t, max);
      RefreshIsSame(Demoted(t, WorkingList(t)[max..]));
      SameWorking(Demoted(t, WorkingList(t)[max..]), TrimWorking(t, max));
    } else {
      assert WorkingList(t)[..|WorkingList(t)|] == WorkingList(t);
    }
  }

  lemma TrimmedHealth(t: Table, max: int)
    ensures SameHealth(t, TrimWorking(t, max))
  {
    if max > 0 && |WorkingList(t)| > max {
      DemotedHealth(t, WorkingList(t)[max..]);
      RefreshIsSame(Demoted(t, WorkingList(t)[max..]));
    }
  }

  /** A trim to `max` rows keeps the best-ranked working rows, that many or all if fewer, turns
      the others into failed rows and leaves every row and its health alone. */
  lemma TrimIsExact(t: Table, max: int)
    requires max > 0
    ensures Working(TrimWorking(t, max)) <= Working(t)
    ensures |Working(TrimWorking(t, max))| == Min(max, |Working(t)|)
    ensures forall a, b | a in Working(TrimWorking(t, max)) && b in Working(t) - Working(TrimWorking(t, max)) ::
      Before(RankTerms(t), a, b)
    ensures SameHealth(t, TrimWorking(t, max))
  {
    TrimmedWorking(t, max);
    TrimmedHealth(t, max);
    FirstIsExact(RankTerms(t), Working(t), max);
  }

  lemma SameTerms(a: Table, b: Table)
    requires SameHealth(a, b)
    ensures RankTerms(a) == RankTerms(b)
  {
  }

  lemma DemotedList(t: Table, max: int)
    requires 0 < max < |Working(t)|
    ensures WorkingList(Demoted(t, WorkingList(t)[max..])) == WorkingList(t)[..max]
  {
    KeptIsFirst(t, max);
    DemotedHealth(t, WorkingList(t)[max..]);
    SameTerms(t, Demoted(t, WorkingList(t)[max..]));
    ListingOfFirst(RankTerms(t), Working(t), max);
  }

  /** A trim that demotes leaves the working rows numbered 0..max-1 in their old ranking. */
  lemma TrimNumbers(t: Table, max: int, i: nat)
    requires 0 < max < |Working(t)| && i < max
    ensures WorkingList(TrimWorking(t, max)) == WorkingList(t)[..max]
    ensures var k := WorkingList(t)[i]; k in TrimWorking(t, max) && TrimWorking(t, max)[k].sortOrder == i
  {
    DemotedList(t, max);
    RefreshNumbersWorking(Demoted(t, WorkingList(t)[max..]), i);
  }

  // ---- trimming the failed rows -----------------------------------------------------------------

  function FailedProbed(t: Table): set<string> { set k | k in t && !t[k].working && t[k].snap.checks > 0 }

  function FailedUnprobed(t: Table): set<string> { set k | k in t && !t[k].working && t[k].snap.checks == 0 }

  function Excess(t: Table, maxFailed: nat): nat {
    if |Failed(t)| <= maxFailed then 0 else |Failed(t)| - maxFailed
  }

  function ProbedFirst(t: Table, n: nat): set<string> { First(ChronicTerms(t), FailedProbed(t), n) }

  function UnprobedFirst(t: Table, n: nat): set<string> { First(UnprobedTerms(t), FailedUnprobed(t), n) }

  /** Never-probed rows make up what the probed ones leave of the excess. */
  function UnprobedRest(t: Table, missing: int): set<string> {
    if missing > 0 then UnprobedFirst(t, missing) else {}
  }

  /** `_trim_failed_rows`. */
  function TrimFailed(t: Table, maxFailed: nat): Table {
    var excess := Excess(t, maxFailed);
    var probed := ProbedFirst(t, excess);
    t - (probed + UnprobedRest(t, excess - |probed|))
  }

  lemma FailedSplits(t: Table)
    ensures FailedProbed(t) !! FailedUnprobed(t)
    ensures Failed(t) == FailedProbed(t) + FailedUnprobed(t)
    ensures |Failed(t)| == |FailedProbed(t)| + |FailedUnprobed(t)|
  {
    assert Failed(t) == FailedProbed(t) + FailedUnprobed(t);
  }

  lemma ProbedCount(t: Table, n: nat)
    ensures ProbedFirst(t, n) <= FailedProbed(t) && |ProbedFirst(t, n)| == Min(n, |FailedProbed(t)|)
  {
    FirstIsExact(ChronicTerms(t), FailedProbed(t), n);
  }

  lemma UnprobedCount(t: Table, n: nat)
    ensures UnprobedFirst(t, n) <= FailedUnprobed(t) && |UnprobedFirst(t, n)| == Min(n, |FailedUnprobed(t)|)
  {
    FirstIsExact(UnprobedTerms(t), FailedUnprobed(t), n);
  }

  lemma UnprobedRestCount(t: Table, missing: int)
    requires 0 <= missing <= |FailedUnprobed(t)|
    ensures UnprobedRest(t, missing) <= FailedUnprobed(t) && |UnprobedRest(t, missing)| == missing
  {
    if missing > 0 { UnprobedCount(t, missing); }
  }

  /** The numbers of rows to delete of both kinds. */
  ghost predicate VictimsFit(t: Table, p: set<string>, u: set<string>, excess: nat) {
    && p <= FailedProbed(t) && u <= FailedUnprobed(t)
    && |p| + |u| == excess
    && (u != {} ==> p == FailedProbed(t))
  }

  lemma VictimsFitting(t: Table, p: set<string>, u: set<string>, excess: nat)
    requires p <= FailedProbed(t) && |p| == Min(excess, |FailedProbed(t)|)
    requires u <= FailedUnprobed(t) && |u| == excess - |p|
    ensures VictimsFit(t, p, u, excess)
  {
    if excess > |p| {
      SubsetCard(p, FailedProbed(t));
    } else {
      assert |u| == 0;
    }
  }

  lemma FailedCount(t: Table)
    ensures |Failed(t)| == |FailedProbed(t)| + |FailedUnprobed(t)|
  {
    FailedSplits(t);
  }

  lemma MissingFits(probed: nat, unprobed: nat, failed: nat, excess: nat, taken: nat)
    requires failed == probed + unprobed && excess <= failed && taken == Min(excess, probed)
    ensures 0 <= excess - taken <= unprobed
  {
  }

  lemma VictimCounts(t: Table, excess: nat)
    requires excess <= |Failed(t)|
    ensures VictimsFit(t, ProbedFirst(t, excess), UnprobedRest(t, excess - |ProbedFirst(t, excess)|), excess)
  {
    FailedCount(t);
    ProbedCount(t, excess);
    MissingFits(|FailedProbed(t)|, |FailedUnprobed(t)|, |Failed(t)|, excess, |ProbedFirst(t, excess)|);
    UnprobedRestCount(t, excess - |ProbedFirst(t, excess)|);
    VictimsFitting(t, ProbedFirst(t, excess), UnprobedRest(t, excess - |ProbedFirst(t, excess)|), excess);
  }

  lemma Removed(t: Table, gone: set<string>)
    ensures Working(t - gone) == Working(t) - gone && Failed(t - gone) == Failed(t) - gone
    ensures FailedProbed(t - gone) == FailedProbed(t) - gone && FailedUnprobed(t - gone) == FailedUnprobed(t) - gone
  {
  }

  lemma DisjointCard(all: set<string>, p: set<string>, u: set<string>)
    requires p !! u && p + u <= all
    ensures |all - (p + u)| == |all| - |p| - |u|
  {
    assert all == (all - (p + u)) + (p + u);
  }

  lemma RemovedCounts(t: Table, p: set<string>, u: set<string>)
    requires p <= FailedProbed(t) && u <= FailedUnprobed(t) && (u != {} ==> p == FailedProbed(t))
    ensures |Failed(t - (p + u))| == |Failed(t)| - |p| - |u|
    ensures Working(t - (p + u)) == Working(t)
    ensures FailedUnprobed(t - (p + u)) == FailedUnprobed(t) || FailedProbed(t - (p + u)) == {}
  {
    FailedSplits(t);
    Removed(t, p + u);
    DisjointCard(Failed(t), p, u);
    assert Working(t) !! Failed(t);
  }

  /** What a deletion of fitting victims leaves. */
  lemma FittingTrim(t: Table, p: set<string>, u: set<string>, maxFailed: nat)
    requires VictimsFit(t, p, u, Excess(t, maxFailed))
    ensures |Failed(t - (p + u))| == Min(|Failed(t)|, maxFailed)
    ensures Working(t - (p + u)) == Working(t)
    ensures FailedUnprobed(t - (p + u)) == FailedUnprobed(t) || FailedProbed(t - (p + u)) == {}
    ensures forall k | k in t - (p + u) :: k in t && (t - (p + u))[k] == t[k]
  {
    RemovedCounts(t, p, u);
  }

  /** The trim leaves min(old, maxFailed) failed rows and every working row as it was, and it
      deletes a never-probed row only when no probed failed row is left. */
  lemma TrimFailedIsExact(t: Table, maxFailed: nat)
    ensures |Failed(TrimFailed(t, maxFailed))| == Min(|Failed(t)|, maxFailed)
    ensures Working(TrimFailed(t, maxFailed)) == Working(t)
    ensures FailedUnprobed(TrimFailed(t, maxFailed)) == FailedUnprobed(t) || FailedProbed(TrimFailed(t, maxFailed)) == {}
    ensures forall k | k in TrimFailed(t, maxFailed) :: k in t && TrimFailed(t, maxFailed)[k] == t[k]
  {
    var excess := Excess(t, maxFailed);
    VictimCounts(t, excess);
    FittingTrim(t, ProbedFirst(t, excess), UnprobedRest(t, excess - |ProbedFirst(t, excess)|), maxFailed);
  }

  /** Within each kind the trim deletes the first of the deletion order. */
  lemma TrimFailedPicksFirst(t: Table, maxFailed: nat, a: string, b: string)
    requires a in t && a !in TrimFailed(t, maxFailed) && b in Failed(TrimFailed(t, maxFailed))
    ensures t[a].snap.checks > 0 && t[b].snap.checks > 0 ==> Before(ChronicTerms(t), a, b)
    ensures t[a].snap.checks == 0 ==> t[b].snap.checks == 0 && Before(UnprobedTerms(t), a, b)
  {
    var excess := Excess(t, maxFailed);
    VictimCounts(t, excess);
    if a in ProbedFirst(t, excess) {
      if t[b].snap.checks > 0 { ProbedBefore(t, excess, a, b); }
    } else {
      UnprobedBefore(t, excess - |ProbedFirst(t, excess)|, a, b);
    }
  }

  lemma ProbedBefore(t: Table, n: nat, a: string, b: string)
    requires a in ProbedFirst(t, n) && b in FailedProbed(t) - ProbedFirst(t, n)
    ensures Before(ChronicTerms(t), a, b)
  {
    FirstIsExact(ChronicTerms(t), FailedProbed(t), n);
  }

  lemma UnprobedBefore(t: Table, n: nat, a: string, b: string)
    requires a in UnprobedFirst(t, n) && b in FailedUnprobed(t) - UnprobedFirst(t, n)
    ensures Before(UnprobedTerms(t), a, b)
  {
    FirstIsExact(UnprobedTerms(t), FailedUnprobed(t), n);
  }
}
