/** Probing in waves (cli/ping_v2ray.py over v2ray/ping.py and v2ray/store.py): each wave tests the
    first due servers, records the results in flushes of a hundred, and the loop goes on while
    anything is due. The clock stands still over the run.  */
module ProbeWaves {
  import opened Wrappers
  import opened Ordering
  import opened Arith
  import opened Text
  import opened Spreading
  import opened Health
  import opened Catalog
  import opened ProxyStore
  import opened Inventory
  import Prober

  /** A probe result with the server's key and identity; it is ok when it has a latency. */
  datatype Result = Result(key: string, identity: string, latency: Option<real>, error: Option<string>,
                           probeType: string)

  /** Everything outside: the clock, the score, what Xray can test, the settings, and what each
      wave reports for the servers it is given. */
  datatype World = World(now: int, scoring: Scoring, testable: string -> bool, incompatible: string -> bool,
                         prune: Option<PruneSettings>, catalogMax: int,
                         report: (nat, seq<string>) -> seq<Result>)

  // ---- the "can't test" filter ----------------------------------------------------------------

  predicate FoundAt(s: string, part: string, i: int) {
    0 <= i <= |s| - |part| && s[i..i + |part|] == part
  }

  predicate Contains(s: string, part: string) {
    exists i | 0 <= i <= |s| :: FoundAt(s, part, i)
  }

  predicate CannotTest(error: string) {
    var e := Lower(error);
    || Contains(e, "unsupported scheme")
    || Contains(e, "invalid xray outbound")
    || Contains(e, "outbound swap failed")
    || Contains(e, "unavailable")
  }

  predicate Dropped(r: Result) { r.latency.None? && r.error.Some? && CannotTest(r.error.value) }

  // ---- recording ------------------------------------------------------------------------------

  function Counted(rs: seq<Result>): seq<Result> {
    if rs == [] then []
    else Counted(rs[..|rs| - 1]) + if Dropped(rs[|rs| - 1]) then [] else [rs[|rs| - 1]]
  }

  function ResultTypes(rs: seq<Result>): (r: seq<string>)
    ensures |r| == |rs|
  {
    seq(|rs|, i requires 0 <= i < |rs| => rs[i].probeType)
  }

  /** `err or None`. */
  function ErrorText(error: Option<string>): Option<string> {
    if error.Some? && error.value == "" then None else error
  }

  function WriteOf(r: Result, at: int): Write {
    Write(Entry(Outcome(r.key, r.latency.Some?, r.latency, if r.latency.Some? then None else ErrorText(r.error),
                        Some(r.identity)), r.probeType),
          if r.probeType != "tcp" then Some(true) else None, at)
  }

  /** One probe type of `apply_ping_results`. */
  function RecordType(t: Rows, rs: seq<Result>, probeType: string, w: World): Rows {
    if rs == [] then t
    else
      var before := RecordType(t, rs[..|rs| - 1], probeType, w);
      var r := rs[|rs| - 1];
      if r.probeType == probeType then Record(before, WriteOf(r, w.now), w.scoring) else before
  }

  function RecordTypes(t: Rows, rs: seq<Result>, types: seq<string>, w: World): Rows {
    if types == [] then t
    else RecordType(RecordTypes(t, rs, types[..|types| - 1], w), rs, types[|types| - 1], w)
  }

  /** `apply_ping_results`: record by probe type, prune, enforce the cap. */
  function Applied(t: Rows, rs: seq<Result>, w: World): Rows {
    var counted := Counted(rs);
    var recorded := RecordTypes(t, counted, FirstSeen(ResultTypes(counted), {}), w);
    EnforceMax(Prune(recorded, w.prune, w.now, w.incompatible), w.catalogMax)
  }

  const FLUSH := 100

  /** The table and the results not yet flushed. */
  datatype Feed = Feed(rows: Rows, pending: seq<Result>)

  /** The callback sees one more result. */
  function FeedOne(f: Feed, r: Result, w: World): Feed {
    var p := f.pending + [r];
    if |p| >= FLUSH then Feed(Applied(f.rows, p, w), []) else Feed(f.rows, p)
  }

  function Fed(t: Rows, rs: seq<Result>, w: World): Feed {
    if rs == [] then Feed(t, []) else FeedOne(Fed(t, rs[..|rs| - 1], w), rs[|rs| - 1], w)
  }

  function FlushRest(f: Feed, w: World): Rows {
    if f.pending == [] then f.rows else Applied(f.rows, f.pending, w)
  }

  function Flushed(t: Rows, rs: seq<Result>, w: World): Rows { FlushRest(Fed(t, rs, w), w) }

  // ---- what becomes of a row --------------------------------------------------------------------

  /** Keys whose result is recorded. */
  function Recorded(rs: seq<Result>): set<string> { set i | 0 <= i < |rs| && !Dropped(rs[i]) :: rs[i].key }

  /** Not due for two minutes. */
  predicate Rests(row: Catalog.Row, now: int) { row.dueAt.Some? && row.dueAt.value >= now + 120 }

  /** A recorded row rests now; any other row that is left is as it was. */
  ghost predicate Fate(a: Rows, b: Rows, recorded: set<string>, now: int) {
    forall k | k in b ::
      if k in recorded then Rests(b[k], now) else k in a && b[k] == a[k]
  }

  lemma FateChain(a: Rows, b: Rows, c: Rows, s: set<string>, u: set<string>, now: int)
    requires Fate(a, b, s, now) && Fate(b, c, u, now)
    ensures Fate(a, c, s + u, now)
  {
  }

  lemma FewerRows(a: Rows, gone: set<string>, now: int)
    ensures Fate(a, a - gone, {}, now)
  {
  }

  /** Every recorded probe puts the row to rest for at least two minutes. */
  lemma WriteRests(row: Catalog.Row, w: Write, scoring: Scoring)
    ensures Updated(row, w, scoring).dueAt.Some? && Updated(row, w, scoring).dueAt.value >= w.at + 120
  {
    var r := Updated(row, w, scoring);
    Pow2Grows(0, Min(Max(0, r.snap.failStreak - 3), 4));
  }

  lemma RecordFate(t: Rows, r: Result, w: World)
    ensures Fate(t, Record(t, WriteOf(r, w.now), w.scoring), {r.key}, w.now)
  {
    var wr := WriteOf(r, w.now);
    WriteRests(if r.key in t then t[r.key] else NewRow(r.identity), wr, w.scoring);
  }

  function KeysOfType(rs: seq<Result>, probeType: string): set<string> {
    set i | 0 <= i < |rs| && rs[i].probeType == probeType :: rs[i].key
  }

  lemma {:induction false} RecordTypeFate(t: Rows, rs: seq<Result>, probeType: string, w: World)
    ensures Fate(t, RecordType(t, rs, probeType, w), KeysOfType(rs, probeType), w.now)
  {
    if rs != [] {
      var n := |rs| - 1;
      var before := RecordType(t, rs[..n], probeType, w);
      RecordTypeFate(t, rs[..n], probeType, w);
      assert rs == rs[..n] + [rs[n]];
      if rs[n].probeType == probeType {
        RecordFate(before, rs[n], w);
        FateChain(t, before, RecordType(t, rs, probeType, w), KeysOfType(rs[..n], probeType), {rs[n].key}, w.now);
        assert KeysOfType(rs, probeType) == KeysOfType(rs[..n], probeType) + {rs[n].key};
      } else {
        assert KeysOfType(rs, probeType) == KeysOfType(rs[..n], probeType);
      }
    }
  }

  function KeysOfTypes(rs: seq<Result>, types: seq<string>): set<string> {
    set i | 0 <= i < |rs| && rs[i].probeType in types :: rs[i].key
  }

  lemma {:induction false} RecordTypesFate(t: Rows, rs: seq<Result>, types: seq<string>, w: World)
    ensures Fate(t, RecordTypes(t, rs, types, w), KeysOfTypes(rs, types), w.now)
  {
    if types != [] {
      var n := |types| - 1;
      var before := RecordTypes(t, rs, types[..n], w);
      RecordTypesFate(t, rs, types[..n], w);
      RecordTypeFate(before, rs, types[n], w);
      FateChain(t, before, RecordTypes(t, rs, types, w), KeysOfTypes(rs, types[..n]), KeysOfType(rs, types[n]), w.now);
      assert types == types[..n] + [types[n]];
      assert KeysOfTypes(rs, types) == KeysOfTypes(rs, types[..n]) + KeysOfType(rs, types[n]);
    }
  }

  lemma {:induction false} CountedKeys(rs: seq<Result>)
    ensures forall r :: r in Counted(rs) <==> r in rs && !Dropped(r)
  {
    if rs != [] { CountedKeys(rs[..|rs| - 1]); }
  }

  lemma AllTypesKeys(rs: seq<Result>)
    ensures KeysOfTypes(Counted(rs), FirstSeen(ResultTypes(Counted(rs)), {})) == Recorded(rs)
  {
    var counted := Counted(rs);
    CountedKeys(rs);
    forall i | 0 <= i < |counted| ensures counted[i].probeType in FirstSeen(ResultTypes(counted), {}) {
      FirstSeenMembers(ResultTypes(counted), {}, counted[i].probeType);
      assert ResultTypes(counted)[i] == counted[i].probeType;
    }
    forall i | 0 <= i < |rs| && !Dropped(rs[i])
      ensures rs[i].key in KeysOfTypes(counted, FirstSeen(ResultTypes(counted), {}))
    {
      assert rs[i] in counted;
    }
    forall i | 0 <= i < |counted| ensures counted[i].key in Recorded(rs) {
      assert counted[i] in rs;
    }
  }

  lemma AppliedFate(t: Rows, rs: seq<Result>, w: World)
    ensures Fate(t, Applied(t, rs, w), Recorded(rs), w.now)
  {
    var counted := Counted(rs);
    var types := FirstSeen(ResultTypes(counted), {});
    var recorded := RecordTypes(t, counted, types, w);
    var pruned := Prune(recorded, w.prune, w.now, w.incompatible);
    RecordTypesFate(t, counted, types, w);
    AllTypesKeys(rs);
    if w.prune.Some? {
      FewerRows(recorded, (set k | k in recorded && Prunable(recorded[k], w.prune.value, w.now, w.incompatible)), w.now);
    }
    FewerRows(pruned, DeadFirst(pruned, Overflow(pruned, w.catalogMax)), w.now);
  }

  lemma RecordedAppend(a: seq<Result>, b: seq<Result>)
    ensures Recorded(a + b) == Recorded(a) + Recorded(b)
  {
    var c := a + b;
    forall i | 0 <= i < |a| && !Dropped(a[i]) ensures a[i].key in Recorded(c) { assert c[i] == a[i]; }
    forall i | 0 <= i < |b| && !Dropped(b[i]) ensures b[i].key in Recorded(c) { assert c[|a| + i] == b[i]; }
  }

  /** All results but the pending ones were flushed. */
  ghost predicate FlushedSoFar(t: Rows, rs: seq<Result>, f: Feed, now: int) {
    && |f.pending| < FLUSH && |f.pending| <= |rs|
    && rs == rs[..|rs| - |f.pending|] + f.pending
    && Fate(t, f.rows, Recorded(rs[..|rs| - |f.pending|]), now)
  }

  lemma FlushAll(t: Rows, rs: seq<Result>, rows: Rows, pending: seq<Result>, flushed: seq<Result>, w: World)
    requires Fate(t, rows, Recorded(flushed), w.now) && rs == flushed + pending
    ensures Fate(t, Applied(rows, pending, w), Recorded(rs), w.now)
  {
    AppliedFate(rows, pending, w);
    FateChain(t, rows, Applied(rows, pending, w), Recorded(flushed), Recorded(pending), w.now);
    RecordedAppend(flushed, pending);
  }

  lemma FeedStep(t: Rows, before: seq<Result>, r: Result, f: Feed, w: World)
    requires FlushedSoFar(t, before, f, w.now)
    ensures FlushedSoFar(t, before + [r], FeedOne(f, r, w), w.now)
  {
    var p, flushed, rs := f.pending + [r], before[..|before| - |f.pending|], before + [r];
    assert rs == flushed + p;
    if |p| >= FLUSH {
      FlushAll(t, rs, f.rows, p, flushed, w);
      assert rs[..|rs|] == rs;
    } else {
      assert rs[..|rs| - |p|] == flushed;
    }
  }

  lemma FeedNothing(t: Rows, now: int)
    ensures FlushedSoFar(t, [], Feed(t, []), now)
  {
    var none: seq<Result> := [];
    assert none[..|none|] == none;
  }

  lemma {:induction false} FedFate(t: Rows, rs: seq<Result>, w: World)
    ensures FlushedSoFar(t, rs, Fed(t, rs, w), w.now)
  {
    if rs == [] {
      FeedNothing(t, w.now);
    } else {
      var n := |rs| - 1;
      FedFate(t, rs[..n], w);
      FeedStep(t, rs[..n], rs[n], Fed(t, rs[..n], w), w);
      assert rs == rs[..n] + [rs[n]];
    }
  }

  /** The flushes lose nothing: after the last one every recorded row rests and every other row
      that is left is untouched. */
  lemma FlushedFate(t: Rows, rs: seq<Result>, w: World)
    ensures Fate(t, Flushed(t, rs, w), Recorded(rs), w.now)
  {
    var f := Fed(t, rs, w);
    FedFate(t, rs, w);
    if f.pending == [] {
      assert rs[..|rs|] == rs;
    } else {
      FlushAll(t, rs, f.rows, f.pending, rs[..|rs| - |f.pending|], w);
    }
  }

  // ---- waves ------------------------------------------------------------------------------------

  function ResultKeys(rs: seq<Result>): (r: seq<string>)
    ensures |r| == |rs|
  {
    seq(|rs|, i requires 0 <= i < |rs| => rs[i].key)
  }

  function Wave(t: Rows, n: nat, w: World): Rows {
    var servers := DueServers(t, w.now, w.testable);
    if servers == [] then t else Flushed(t, w.report(n, servers), w)
  }

  /** The table after the first n waves. */
  function AfterWaves(t: Rows, n: nat, w: World): Rows {
    if n == 0 then t else Wave(AfterWaves(t, n - 1, w), n - 1, w)
  }

  function DueNow(t: Rows, w: World): set<string> { Due(t, w.now, w.testable) }

  function Tested(t: Rows, w: World): set<string> { set k | k in DueServers(t, w.now, w.testable) }

  /** One result per server, as the prober gives them when it is not cancelled. */
  ghost predicate Covers(rs: seq<Result>, servers: seq<string>) {
    multiset(ResultKeys(rs)) == multiset(servers)
  }

  lemma CoversKeys(rs: seq<Result>, servers: seq<string>)
    requires Covers(rs, servers)
    ensures forall i | 0 <= i < |rs| :: rs[i].key in servers
    ensures forall k | k in servers :: exists i :: 0 <= i < |rs| && rs[i].key == k
  {
    forall i | 0 <= i < |rs| ensures rs[i].key in servers {
      assert ResultKeys(rs)[i] in multiset(servers);
    }
    forall k | k in servers ensures exists i :: 0 <= i < |rs| && rs[i].key == k {
      assert k in multiset(ResultKeys(rs));
      var i :| 0 <= i < |rs| && ResultKeys(rs)[i] == k;
    }
  }

  lemma RecordedNothing()
    ensures Recorded([]) == {}
  {
  }

  /** What a wave reports. */
  function Report(t: Rows, n: nat, w: World): seq<Result> {
    var servers := DueServers(t, w.now, w.testable);
    if servers == [] then [] else w.report(n, servers)
  }

  lemma WaveFate(t: Rows, n: nat, w: World)
    ensures Fate(t, Wave(t, n, w), Recorded(Report(t, n, w)), w.now)
  {
    RecordedNothing();
    FlushedFate(t, Report(t, n, w), w);
  }

  /** No wave makes a server due. */
  lemma WaveMakesNoneDue(t: Rows, n: nat, w: World)
    ensures DueNow(Wave(t, n, w), w) <= DueNow(t, w)
  {
    WaveFate(t, n, w);
  }

  ghost predicate Reported(t: Rows, n: nat, w: World) {
    Covers(Report(t, n, w), DueServers(t, w.now, w.testable))
  }

  /** After a wave a tested server that is still in the table is due again exactly when its result
      was dropped; every other row still in the table is as it was. */
  lemma DueAgainExactly(t: Rows, n: nat, w: World, k: string)
    requires Reported(t, n, w) && k in Wave(t, n, w)
    ensures k in Tested(t, w) ==> (k in DueNow(Wave(t, n, w), w) <==> k !in Recorded(Report(t, n, w)))
    ensures k !in Tested(t, w) ==> k in t && Wave(t, n, w)[k] == t[k]
  {
    WaveFate(t, n, w);
    CoversKeys(Report(t, n, w), DueServers(t, w.now, w.testable));
    DueServersAreDue(t, w.now, w.testable);
    if k in Tested(t, w) { assert k in DueNow(t, w); }
  }

  // ---- dropped results --------------------------------------------------------------------------

  /** Exactly the results of these keys are dropped. */
  ghost predicate DropsIn(rs: seq<Result>, drops: set<string>) {
    forall i | 0 <= i < |rs| :: Dropped(rs[i]) <==> rs[i].key in drops
  }

  lemma RecordedExactly(t: Rows, n: nat, w: World, drops: set<string>)
    requires Reported(t, n, w) && DropsIn(Report(t, n, w), drops)
    ensures Recorded(Report(t, n, w)) == Tested(t, w) - drops
    ensures Tested(t, w) <= DueNow(t, w) <= t.Keys
  {
    DueServersAreDue(t, w.now, w.testable);
    CoversKeys(Report(t, n, w), DueServers(t, w.now, w.testable));
  }

  /** What a wave leaves: no tested server is due but the dropped ones, whose rows stay as they are
      or are deleted, and no row is new. */
  lemma WaveLeaves(t: Rows, n: nat, w: World, drops: set<string>)
    requires Reported(t, n, w) && DropsIn(Report(t, n, w), drops)
    ensures var after := Wave(t, n, w);
      && after.Keys <= t.Keys && DueNow(after, w) <= DueNow(t, w) - (Tested(t, w) - drops)
      && forall k | k in after && k in drops :: after[k] == t[k]
  {
    WaveFate(t, n, w);
    RecordedExactly(t, n, w, drops);
  }

  // ---- which rows a wave deletes ------------------------------------------------------------------

  predicate Prunes(row: Catalog.Row, w: World) {
    w.prune.Some? && Enabled(w.prune.value) && Prunable(row, w.prune.value, w.now, w.incompatible)
  }

  /** The cap cannot delete this row: it is not dead, or the table never exceeds the cap. */
  ghost predicate SafeFromCap(row: Catalog.Row, size: nat, w: World) {
    !Expendable(row) || w.catalogMax <= 0 || size <= w.catalogMax
  }

  ghost predicate Spared(t: Rows, k: string, all: set<string>, w: World) {
    k in t && t.Keys <= all && !Prunes(t[k], w) && SafeFromCap(t[k], |all|, w)
  }

  ghost predicate Untouched(a: Rows, b: Rows, k: string) { k in a && k in b && b[k] == a[k] }

  lemma CleanUpSpares(t: Rows, k: string, all: set<string>, w: World)
    requires Spared(t, k, all, w)
    ensures Untouched(t, EnforceMax(Prune(t, w.prune, w.now, w.incompatible), w.catalogMax), k)
  {
    var pruned := Prune(t, w.prune, w.now, w.incompatible);
    DeadFirstCount(pruned, Overflow(pruned, w.catalogMax));
    SubsetCard(pruned.Keys, all);
    assert |pruned| == |pruned.Keys|;
  }

  lemma CleanUpPrunes(t: Rows, k: string, w: World)
    requires k in t ==> Prunes(t[k], w)
    ensures k !in EnforceMax(Prune(t, w.prune, w.now, w.incompatible), w.catalogMax)
  {
  }

  function RecordedRows(t: Rows, rs: seq<Result>, w: World): Rows {
    RecordTypes(t, Counted(rs), FirstSeen(ResultTypes(Counted(rs)), {}), w)
  }

  lemma RecordedFate(t: Rows, rs: seq<Result>, w: World)
    ensures Fate(t, RecordedRows(t, rs, w), Recorded(rs), w.now)
    ensures t.Keys <= RecordedRows(t, rs, w).Keys <= t.Keys + Recorded(rs)
  {
    var types := FirstSeen(ResultTypes(Counted(rs)), {});
    RecordTypesAdds(t, Counted(rs), types, w);
    RecordTypesFate(t, Counted(rs), types, w);
    AllTypesKeys(rs);
  }

  lemma {:induction false} RecordTypeAdds(t: Rows, rs: seq<Result>, probeType: string, w: World)
    ensures t.Keys <= RecordType(t, rs, probeType, w).Keys
  {
    if rs != [] { RecordTypeAdds(t, rs[..|rs| - 1], probeType, w); }
  }

  lemma {:induction false} RecordTypesAdds(t: Rows, rs: seq<Result>, types: seq<string>, w: World)
    ensures t.Keys <= RecordTypes(t, rs, types, w).Keys
  {
    if types != [] {
      RecordTypesAdds(t, rs, types[..|types| - 1], w);
      RecordTypeAdds(RecordTypes(t, rs, types[..|types| - 1], w), rs, types[|types| - 1], w);
    }
  }

  /** A row without a recorded result, in one flush. */
  lemma AppliedSpares(t: Rows, rs: seq<Result>, k: string, all: set<string>, w: World)
    requires Spared(t, k, all, w) && k !in Recorded(rs) && Recorded(rs) <= all
    ensures Untouched(t, Applied(t, rs, w), k) && Applied(t, rs, w).Keys <= all
  {
    RecordedFate(t, rs, w);
    CleanUpSpares(RecordedRows(t, rs, w), k, all, w);
  }

  lemma AppliedPrunes(t: Rows, rs: seq<Result>, k: string, w: World)
    requires k !in Recorded(rs) && (k in t ==> Prunes(t[k], w))
    ensures k !in Applied(t, rs, w)
  {
    RecordedFate(t, rs, w);
    CleanUpPrunes(RecordedRows(t, rs, w), k, w);
  }

  lemma {:induction false} FedSpares(t: Rows, rs: seq<Result>, k: string, all: set<string>, w: World)
    requires Spared(t, k, all, w) && k !in Recorded(rs) && Recorded(rs) <= all
    ensures Untouched(t, Fed(t, rs, w).rows, k) && Fed(t, rs, w).rows.Keys <= all
    ensures k !in Recorded(Fed(t, rs, w).pending) && Recorded(Fed(t, rs, w).pending) <= all
  {
    if rs != [] {
      var n := |rs| - 1;
      RecordedAppend(rs[..n], [rs[n]]);
      assert rs == rs[..n] + [rs[n]];
      FedSpares(t, rs[..n], k, all, w);
      var f := Fed(t, rs[..n], w);
      RecordedAppend(f.pending, [rs[n]]);
      if |f.pending + [rs[n]]| >= FLUSH { AppliedSpares(f.rows, f.pending + [rs[n]], k, all, w); }
    }
  }

  lemma FlushedSpares(t: Rows, rs: seq<Result>, k: string, all: set<string>, w: World)
    requires Spared(t, k, all, w) && k !in Recorded(rs) && Recorded(rs) <= all
    ensures Untouched(t, Flushed(t, rs, w), k)
  {
    FedSpares(t, rs, k, all, w);
    var f := Fed(t, rs, w);
    if f.pending != [] { AppliedSpares(f.rows, f.pending, k, all, w); }
  }

  /** Until the first flush nothing happened, and after it the row is gone. */
  lemma {:induction false} FedPrunes(t: Rows, rs: seq<Result>, k: string, w: World)
    requires k !in Recorded(rs) && (k in t ==> Prunes(t[k], w))
    ensures var f := Fed(t, rs, w); k !in f.rows || f == Feed(t, rs)
    ensures k !in Recorded(Fed(t, rs, w).pending)
  {
    if rs != [] {
      var n := |rs| - 1;
      RecordedAppend(rs[..n], [rs[n]]);
      assert rs == rs[..n] + [rs[n]];
      FedPrunes(t, rs[..n], k, w);
      var f := Fed(t, rs[..n], w);
      RecordedAppend(f.pending, [rs[n]]);
      if |f.pending + [rs[n]]| >= FLUSH { AppliedPrunes(f.rows, f.pending + [rs[n]], k, w); }
    }
  }

  lemma FlushedPrunes(t: Rows, rs: seq<Result>, k: string, w: World)
    requires rs != [] && k !in Recorded(rs) && (k in t ==> Prunes(t[k], w))
    ensures k !in Flushed(t, rs, w)
  {
    FedPrunes(t, rs, k, w);
    var f := Fed(t, rs, w);
    if f.pending != [] { AppliedPrunes(f.rows, f.pending, k, w); }
  }

  /** A server whose result is dropped, or that is not tested yet, loses a prunable row in any wave
      that tests something. */
  lemma WavePrunes(t: Rows, n: nat, w: World, drops: set<string>, k: string)
    requires Reported(t, n, w) && DropsIn(Report(t, n, w), drops) && DueNow(t, w) != {}
    requires k in drops && (k in t ==> Prunes(t[k], w))
    ensures k !in Wave(t, n, w)
  {
    RecordedExactly(t, n, w, drops);
    SomeDueSomeServer(t, w);
    CoversKeys(Report(t, n, w), DueServers(t, w.now, w.testable));
    FlushedPrunes(t, Report(t, n, w), k, w);
  }

  /** A spared row stays through a wave that drops its result. */
  lemma WaveSpares(t: Rows, n: nat, w: World, drops: set<string>, k: string, all: set<string>)
    requires Reported(t, n, w) && DropsIn(Report(t, n, w), drops)
    requires k in drops && Spared(t, k, all, w)
    ensures Untouched(t, Wave(t, n, w), k)
  {
    RecordedExactly(t, n, w, drops);
    FlushedSpares(t, Report(t, n, w), k, all, w);
  }

  // ---- runs of waves ------------------------------------------------------------------------------

  /** Every due server whose result is dropped has a row that pruning deletes. */
  ghost predicate DropsArePruned(t: Rows, w: World, drops: set<string>) {
    forall k | k in DueNow(t, w) && k in drops :: Prunes(t[k], w)
  }

  lemma RestCount(due: set<string>, tested: set<string>, after: set<string>)
    requires tested <= due && after <= due - tested && |tested| == Min(WAVE_LIMIT, |due|)
    ensures |after| <= Max(0, |due| - WAVE_LIMIT)
  {
    SubsetCard(after, due - tested);
    assert due == (due - tested) + tested;
  }

  /** Then a wave takes everything it tests off the due servers, and everything dropped besides. */
  lemma WaveTakesItsServers(t: Rows, n: nat, w: World, drops: set<string>)
    requires Reported(t, n, w) && DropsIn(Report(t, n, w), drops) && DropsArePruned(t, w, drops)
    ensures |DueNow(Wave(t, n, w), w)| <= Max(0, |DueNow(t, w)| - WAVE_LIMIT)
  {
    var due, after := DueNow(t, w), DueNow(Wave(t, n, w), w);
    WaveLeaves(t, n, w, drops);
    DueServersAreDue(t, w.now, w.testable);
    forall k | k in after ensures k !in Tested(t, w) {
      if k in Tested(t, w) { WavePrunes(t, n, w, drops, k); }
    }
    RestCount(due, Tested(t, w), after);
  }

  ghost predicate SparesAll(a: Rows, b: Rows, w: World, drops: set<string>) {
    forall k, all | k in drops && Spared(a, k, all, w) :: Untouched(a, b, k)
  }

  /** What one wave does, as far as the length of the run depends on it. */
  ghost predicate Step(a: Rows, b: Rows, w: World, drops: set<string>) {
    && b.Keys <= a.Keys && DueNow(b, w) <= DueNow(a, w) && (forall k | k in b && k in drops :: b[k] == a[k])
    && (DropsArePruned(a, w, drops) ==> |DueNow(b, w)| <= Max(0, |DueNow(a, w)| - WAVE_LIMIT))
    && SparesAll(a, b, w, drops)
  }

  lemma WaveStep(t: Rows, n: nat, w: World, drops: set<string>)
    requires Reported(t, n, w) && DropsIn(Report(t, n, w), drops)
    ensures Step(t, Wave(t, n, w), w, drops)
  {
    WaveLeaves(t, n, w, drops);
    if DropsArePruned(t, w, drops) { WaveTakesItsServers(t, n, w, drops); }
    forall k, all | k in drops && Spared(t, k, all, w) ensures Untouched(t, Wave(t, n, w), k) {
      WaveSpares(t, n, w, drops, k, all);
    }
  }

  /** The tables between the waves of a run. */
  type Course = nat -> Rows

  ghost predicate StepAt(run: Course, n: nat, w: World, drops: set<string>) { Step(run(n), run(n + 1), w, drops) }

  ghost predicate IsRun(run: Course, w: World, drops: set<string>) { forall n: nat :: StepAt(run, n, w, drops) }

  /** Along a run rows only go, due servers only get fewer, and the rows of dropped servers are as
      they were. */
  lemma {:induction false} RunLeaves(run: Course, m: nat, n: nat, w: World, drops: set<string>)
    requires IsRun(run, w, drops) && m <= n
    ensures run(n).Keys <= run(m).Keys && DueNow(run(n), w) <= DueNow(run(m), w)
    ensures forall k | k in run(n) && k in drops :: run(n)[k] == run(m)[k]
    decreases n
  {
    if m < n {
      RunLeaves(run, m, n - 1, w, drops);
      assert StepAt(run, n - 1, w, drops);
    }
  }

  lemma StillPruned(run: Course, m: nat, n: nat, w: World, drops: set<string>)
    requires IsRun(run, w, drops) && m <= n && DropsArePruned(run(m), w, drops)
    ensures DropsArePruned(run(n), w, drops)
  {
    RunLeaves(run, m, n, w, drops);
    forall k | k in DueNow(run(n), w) && k in drops ensures Prunes(run(n)[k], w) {
      assert k in DueNow(run(m), w);
    }
  }

  lemma OneMoreWave(all: int, before: int, after: int, n: nat)
    requires n > 0 && before <= Max(0, all - WAVE_LIMIT * (n - 1)) && after <= Max(0, before - WAVE_LIMIT)
    ensures after <= Max(0, all - WAVE_LIMIT * n)
  {
  }

  /** From where the dropped rows go by pruning, each wave takes fifteen hundred off the due ones. */
  lemma {:induction false} RunShrinks(run: Course, start: nat, n: nat, w: World, drops: set<string>)
    requires IsRun(run, w, drops) && DropsArePruned(run(start), w, drops)
    ensures |DueNow(run(start + n), w)| <= Max(0, |DueNow(run(start), w)| - WAVE_LIMIT * n)
  {
    if n > 0 {
      RunShrinks(run, start, n - 1, w, drops);
      StillPruned(run, start, start + n - 1, w, drops);
      assert StepAt(run, start + n - 1, w, drops);
      OneMoreWave(|DueNow(run(start), w)|, |DueNow(run(start + n - 1), w)|, |DueNow(run(start + n), w)|, n);
    }
  }

  /** The waves needed for n due servers. */
  function WavesFor(n: nat): nat { (n + WAVE_LIMIT - 1) / WAVE_LIMIT }

  lemma RunEmpties(run: Course, start: nat, n: nat, w: World, drops: set<string>)
    requires IsRun(run, w, drops) && DropsArePruned(run(start), w, drops)
    requires n >= WavesFor(|DueNow(run(start), w)|)
    ensures DueNow(run(start + n), w) == {}
  {
    RunShrinks(run, start, n, w, drops);
  }

  /** A wave after which all of these rows are gone. */
  lemma {:induction false} AllGoneAt(run: Course, w: World, drops: set<string>, gone: set<string>) returns (n: nat)
    requires IsRun(run, w, drops) && forall k | k in gone :: exists m: nat :: k !in run(m)
    ensures forall k | k in gone :: k !in run(n)
    decreases |gone|
  {
    n := 0;
    if gone != {} {
      var k :| k in gone;
      var m: nat :| k !in run(m);
      var r := AllGoneAt(run, w, drops, gone - {k});
      n := if m > r then m else r;
      RunLeaves(run, m, n, w, drops);
      RunLeaves(run, r, n, w, drops);
    }
  }

  lemma RunEnds(run: Course, w: World, drops: set<string>) returns (n: nat)
    requires IsRun(run, w, drops) && forall k | k in DueNow(run(0), w) * drops :: exists m: nat :: k !in run(m)
    ensures DueNow(run(n), w) == {}
  {
    var start := AllGoneAt(run, w, drops, DueNow(run(0), w) * drops);
    RunLeaves(run, 0, start, w, drops);
    n := start + WavesFor(|DueNow(run(start), w)|);
    RunEmpties(run, start, n - start, w, drops);
  }

  lemma {:induction false} RunSpares(run: Course, n: nat, w: World, drops: set<string>, k: string)
    requires IsRun(run, w, drops) && k in drops && Spared(run(0), k, run(0).Keys, w)
    ensures Untouched(run(0), run(n), k)
  {
    if n > 0 {
      RunSpares(run, n - 1, w, drops, k);
      RunLeaves(run, 0, n - 1, w, drops);
      assert StepAt(run, n - 1, w, drops);
      assert Spared(run(n - 1), k, run(0).Keys, w);
    }
  }

  // ---- when the loop ends -----------------------------------------------------------------------

  /** Every wave of the run reports each server it tests once. */
  ghost predicate Complete(t: Rows, w: World) {
    forall n: nat :: Reported(AfterWaves(t, n, w), n, w)
  }

  /** In every wave of the run exactly the results of these keys are dropped. */
  ghost predicate Drops(t: Rows, w: World, drops: set<string>) {
    forall n: nat :: DropsIn(Report(AfterWaves(t, n, w), n, w), drops)
  }

  ghost function CourseOf(t: Rows, w: World): Course { (n: nat) => AfterWaves(t, n, w) }

  lemma NextWave(t: Rows, n: nat, w: World)
    ensures AfterWaves(t, n + 1, w) == Wave(AfterWaves(t, n, w), n, w)
  {
  }

  lemma WavesAreRun(t: Rows, w: World, drops: set<string>)
    requires Complete(t, w) && Drops(t, w, drops)
    ensures IsRun(CourseOf(t, w), w, drops)
  {
    forall n: nat ensures StepAt(CourseOf(t, w), n, w, drops) {
      assert Reported(AfterWaves(t, n, w), n, w) && DropsIn(Report(AfterWaves(t, n, w), n, w), drops);
      WaveStep(AfterWaves(t, n, w), n, w, drops);
      NextWave(t, n, w);
    }
  }

  /** When pruning deletes every due server whose result is dropped, above all when there is none,
      each wave takes fifteen hundred servers off the due ones, so that ceil(n / 1500) waves are
      enough for n. */
  lemma WavesFinish(t: Rows, n: nat, w: World, drops: set<string>)
    requires Complete(t, w) && Drops(t, w, drops) && DropsArePruned(t, w, drops)
    ensures |DueNow(AfterWaves(t, n, w), w)| <= Max(0, |DueNow(t, w)| - WAVE_LIMIT * n)
    ensures n >= WavesFor(|DueNow(t, w)|) ==> DueNow(AfterWaves(t, n, w), w) == {}
  {
    var run := CourseOf(t, w);
    WavesAreRun(t, w, drops);
    assert run(0) == t;
    RunShrinks(run, 0, n, w, drops);
    if n >= WavesFor(|DueNow(t, w)|) { RunEmpties(run, 0, n, w, drops); }
  }

  /** A dropped server stays due exactly as long as it has its row. */
  lemma DroppedStaysDue(t: Rows, n: nat, w: World, drops: set<string>, k: string)
    requires Complete(t, w) && Drops(t, w, drops) && k in DueNow(t, w) && k in drops
    ensures k in DueNow(AfterWaves(t, n, w), w) <==> k in AfterWaves(t, n, w)
  {
    var run := CourseOf(t, w);
    WavesAreRun(t, w, drops);
    assert run(0) == t;
    RunLeaves(run, 0, n, w, drops);
  }

  ghost predicate Ends(t: Rows, w: World) { exists n: nat :: DueNow(AfterWaves(t, n, w), w) == {} }

  /** Some wave of the run deletes the row. */
  ghost predicate GoesAway(t: Rows, w: World, k: string) { exists n: nat :: k !in AfterWaves(t, n, w) }

  lemma EndsWhenGone(t: Rows, w: World, drops: set<string>)
    requires Complete(t, w) && Drops(t, w, drops)
    requires forall k | k in DueNow(t, w) && k in drops :: GoesAway(t, w, k)
    ensures Ends(t, w)
  {
    var run := CourseOf(t, w);
    WavesAreRun(t, w, drops);
    assert run(0) == t;
    forall k | k in DueNow(t, w) * drops ensures exists m: nat :: k !in run(m) {
      var m: nat :| k !in AfterWaves(t, m, w);
      assert k !in run(m);
    }
    var n := RunEnds(run, w, drops);
    assert run(n) == AfterWaves(t, n, w);
  }

  /** The wave loop ends exactly when every due server whose result is dropped loses its row to
      some wave. */
  lemma WavesEndIff(t: Rows, w: World, drops: set<string>)
    requires Complete(t, w) && Drops(t, w, drops)
    ensures Ends(t, w) <==> forall k | k in DueNow(t, w) && k in drops :: GoesAway(t, w, k)
  {
    if Ends(t, w) {
      var n: nat :| DueNow(AfterWaves(t, n, w), w) == {};
      forall k | k in DueNow(t, w) && k in drops ensures GoesAway(t, w, k) {
        DroppedStaysDue(t, n, w, drops, k);
      }
    }
    if forall k | k in DueNow(t, w) && k in drops :: GoesAway(t, w, k) { EndsWhenGone(t, w, drops); }
  }

  /** This server keeps the loop going: due, dropped, and in a row that nothing deletes. */
  ghost predicate Stuck(t: Rows, w: World, drops: set<string>, k: string) {
    k in DueNow(t, w) && k in drops && Spared(t, k, t.Keys, w)
  }

  lemma StuckStays(t: Rows, n: nat, w: World, drops: set<string>, k: string)
    requires Complete(t, w) && Drops(t, w, drops) && Stuck(t, w, drops, k)
    ensures k in DueNow(AfterWaves(t, n, w), w)
  {
    var run := CourseOf(t, w);
    WavesAreRun(t, w, drops);
    assert run(0) == t;
    RunSpares(run, n, w, drops, k);
  }

  lemma SomeDueSomeServer(t: Rows, w: World)
    ensures DueServers(t, w.now, w.testable) == [] <==> DueNow(t, w) == {}
  {
    DueServersAreDue(t, w.now, w.testable);
  }

  /** The same, decided before the first wave, where the cap cannot delete the row of a due server
      whose result is dropped (it is not dead, or the table is not over its cap): the loop ends
      exactly when pruning deletes all those rows, and then within ceil(n / 1500) waves. With no
      such server it ends; with one in a healthy row it does not. */
  lemma WavesEndIffPruned(t: Rows, w: World, drops: set<string>)
    requires Complete(t, w) && Drops(t, w, drops)
    requires forall k | k in DueNow(t, w) && k in drops :: Prunes(t[k], w) || SafeFromCap(t[k], |t|, w)
    ensures Ends(t, w) <==> DropsArePruned(t, w, drops)
    ensures Ends(t, w) <==> DueNow(AfterWaves(t, WavesFor(|DueNow(t, w)|), w), w) == {}
  {
    assert |t| == |t.Keys|;
    if DropsArePruned(t, w, drops) {
      WavesFinish(t, WavesFor(|DueNow(t, w)|), w, drops);
    } else {
      var k :| k in DueNow(t, w) && k in drops && !Prunes(t[k], w);
      forall n: nat ensures DueNow(AfterWaves(t, n, w), w) != {} {
        StuckStays(t, n, w, drops, k);
      }
    }
  }

  // ---- the loops --------------------------------------------------------------------------------

  lemma CountedStep(rs: seq<Result>, i: nat)
    requires i < |rs|
    ensures Counted(rs[..i + 1]) == Counted(rs[..i]) + if Dropped(rs[i]) then [] else [rs[i]]
    ensures FirstSeen(ResultTypes(rs[..i + 1]), {})
         == (var r := FirstSeen(ResultTypes(rs[..i]), {}); if rs[i].probeType in r then r else r + [rs[i].probeType])
  {
    assert rs[..i + 1][..i] == rs[..i];
    assert ResultTypes(rs[..i + 1])[..i] == ResultTypes(rs[..i]);
  }

  /** `apply_ping_results`. */
  method ApplyPingResults(t0: Rows, rs: seq<Result>, w: World) returns (t: Rows, ok: nat, failed: nat)
    ensures t == Applied(t0, rs, w) && ok + failed == |Counted(rs)|
  {
    var counted := [];
    ok, failed := 0, 0;
    for i := 0 to |rs|
      invariant counted == Counted(rs[..i]) && ok + failed == |counted|
    {
      CountedStep(rs, i);
      if !Dropped(rs[i]) {
        counted := counted + [rs[i]];
        if rs[i].latency.Some? { ok := ok + 1; } else { failed := failed + 1; }
      }
    }
    assert rs[..|rs|] == rs;
    t := RecordByType(t0, counted, w);
    t := Prune(t, w.prune, w.now, w.incompatible);
    t := EnforceMax(t, w.catalogMax);
  }

  method RecordByType(t0: Rows, counted: seq<Result>, w: World) returns (t: Rows)
    ensures t == RecordTypes(t0, counted, FirstSeen(ResultTypes(counted), {}), w)
  {
    var types := [];
    for i := 0 to |counted|
      invariant types == FirstSeen(ResultTypes(counted[..i]), {})
    {
      CountedStep(counted, i);
      if counted[i].probeType !in types { types := types + [counted[i].probeType]; }
    }
    assert counted[..|counted|] == counted;
    t := t0;
    for i := 0 to |types|
      invariant t == RecordTypes(t0, counted, types[..i], w)
    {
      assert types[..i + 1][..i] == types[..i];
      t := RecordOneType(t, counted, types[i], w);
    }
    assert types[..|types|] == types;
  }

  method RecordOneType(t0: Rows, rs: seq<Result>, probeType: string, w: World) returns (t: Rows)
    ensures t == RecordType(t0, rs, probeType, w)
  {
    t := t0;
    for i := 0 to |rs|
      invariant t == RecordType(t0, rs[..i], probeType, w)
    {
      assert rs[..i + 1][..i] == rs[..i];
      if rs[i].probeType == probeType { t := Record(t, WriteOf(rs[i], w.now), w.scoring); }
    }
    assert rs[..|rs|] == rs;
  }

  /** `check_and_reorganize_v2ray` over the reported results. */
  method CheckWave(t0: Rows, results: seq<Result>, w: World) returns (t: Rows)
    ensures t == Flushed(t0, results, w)
  {
    t := t0;
    var pending, ok, failed := [], 0, 0;
    for i := 0 to |results|
      invariant Feed(t, pending) == Fed(t0, results[..i], w)
    {
      assert results[..i + 1][..i] == results[..i];
      pending := pending + [results[i]];
      if |pending| >= FLUSH {
        t, ok, failed := ApplyPingResults(t, pending, w);
        pending := [];
      }
    }
    assert results[..|results|] == results;
    if pending != [] { t, ok, failed := ApplyPingResults(t, pending, w); }
  }

  lemma EmptyReport(t: Rows, n: nat, w: World)
    requires DueServers(t, w.now, w.testable) != [] && Report(t, n, w) == []
    ensures !Reported(t, n, w)
  {
    var servers := DueServers(t, w.now, w.testable);
    assert servers[0] in multiset(servers);
    assert servers[0] !in multiset(ResultKeys([]));
  }

  method OneWave(t0: Rows, n: nat, w: World, servers: seq<string>) returns (t: Rows, empty: bool)
    requires servers == DueServers(t0, w.now, w.testable) && servers != []
    ensures t == Wave(t0, n, w)
    ensures empty ==> !Reported(t0, n, w)
  {
    var results := w.report(n, servers);
    t := CheckWave(t0, results, w);
    empty := results == [];
    if empty { EmptyReport(t0, n, w); }
  }

  /** If every wave reports its servers, the run stopped because nothing was due. */
  ghost predicate AllDone(t0: Rows, t: Rows, w: World) { Complete(t0, w) ==> DueNow(t, w) == {} }

  /** If pruning deletes every due server whose result is dropped, so above all if there is none,
      there are no more than ceil(n / 1500) waves for n due servers. */
  ghost predicate FewWaves(t0: Rows, waves: nat, w: World) {
    forall drops: set<string> | Drops(t0, w, drops) && DropsArePruned(t0, w, drops) && Complete(t0, w) ::
      waves <= WavesFor(|DueNow(t0, w)|)
  }

  /** Where the loop stands after some waves. */
  ghost predicate Standing(t0: Rows, t: Rows, waves: nat, stopped: bool, w: World) {
    t == AfterWaves(t0, waves, w) && FewWaves(t0, waves, w) && (stopped ==> AllDone(t0, t, w))
  }

  lemma StandAtStart(t0: Rows, w: World)
    ensures Standing(t0, t0, 0, false, w)
  {
  }

  lemma StopsHere(t0: Rows, t: Rows, waves: nat, w: World)
    requires Standing(t0, t, waves, false, w) && DueServers(t, w.now, w.testable) == []
    ensures Standing(t0, t, waves, true, w)
  {
    SomeDueSomeServer(t, w);
  }

  lemma OneWaveStands(t0: Rows, t: Rows, waves: nat, t': Rows, stopped: bool, w: World)
    requires Standing(t0, t, waves, false, w) && DueServers(t, w.now, w.testable) != []
    requires t' == Wave(t, waves, w) && (stopped ==> !Reported(t, waves, w))
    ensures Standing(t0, t', waves + 1, stopped, w)
  {
    SomeDueSomeServer(t, w);
    forall drops: set<string> | Drops(t0, w, drops) && DropsArePruned(t0, w, drops) && Complete(t0, w)
      ensures waves + 1 <= WavesFor(|DueNow(t0, w)|)
    {
      WavesFinish(t0, waves, w, drops);
    }
    if stopped { assert !Reported(AfterWaves(t0, waves, w), waves, w); }
  }

  /** What a run of waves ends with. If every wave reports its servers, an uncancelled run stops
      only with nothing due; it stops within ceil(n / 1500) waves if pruning deletes every due
      server whose result is dropped, and does not stop if one of them is stuck. */
  ghost predicate Finished(t0: Rows, t: Rows, waves: nat, w: World, cancelAfter: nat) {
    && t == AfterWaves(t0, waves, w) && waves <= cancelAfter
    && (waves < cancelAfter ==> AllDone(t0, t, w))
    && FewWaves(t0, waves, w)
    && forall drops: set<string> | Drops(t0, w, drops) && Complete(t0, w) ::
         && (DropsArePruned(t0, w, drops) && cancelAfter >= WavesFor(|DueNow(t0, w)|) ==> DueNow(t, w) == {})
         && ((exists k :: Stuck(t0, w, drops, k)) ==> waves == cancelAfter)
  }

  lemma Finishes(t0: Rows, t: Rows, waves: nat, stopped: bool, w: World, cancelAfter: nat)
    requires Standing(t0, t, waves, stopped, w) && waves <= cancelAfter && (waves < cancelAfter ==> stopped)
    ensures Finished(t0, t, waves, w, cancelAfter)
  {
    forall drops: set<string> | Drops(t0, w, drops) && Complete(t0, w)
      ensures DropsArePruned(t0, w, drops) && cancelAfter >= WavesFor(|DueNow(t0, w)|) ==> DueNow(t, w) == {}
      ensures (exists k :: Stuck(t0, w, drops, k)) ==> waves == cancelAfter
    {
      if DropsArePruned(t0, w, drops) { WavesFinish(t0, waves, w, drops); }
      if k :| Stuck(t0, w, drops, k) { StuckStays(t0, waves, w, drops, k); }
    }
  }

  /** One turn of the loop: stop, or one wave more. */
  method Turn(ghost t0: Rows, t: Rows, waves: nat, w: World) returns (next: Rows, waves': nat, stopped: bool)
    requires Standing(t0, t, waves, false, w)
    ensures Standing(t0, next, waves', stopped, w)
    ensures waves' == waves + 1 || (waves' == waves && stopped)
  {
    var servers := DueServers(t, w.now, w.testable);
    if servers == [] {
      StopsHere(t0, t, waves, w);
      return t, waves, true;
    }
    next, stopped := OneWave(t, waves, w, servers);
    OneWaveStands(t0, t, waves, next, stopped, w);
    waves' := waves + 1;
  }

  /** The wave loop, cancelled at the latest after `cancelAfter` waves. */
  method RunWaves(t0: Rows, w: World, cancelAfter: nat) returns (t: Rows, waves: nat)
    ensures Finished(t0, t, waves, w, cancelAfter)
  {
    t, waves := t0, 0;
    var stopped := false;
    StandAtStart(t0, w);
    while waves < cancelAfter && !stopped
      invariant Standing(t0, t, waves, stopped, w) && waves <= cancelAfter
      decreases cancelAfter - waves, !stopped
    {
      t, waves, stopped := Turn(t0, t, waves, w);
    }
    Finishes(t0, t, waves, stopped, w, cancelAfter);
  }

  // ---- texts that the filter drops --------------------------------------------------------------

  /** A server that answers 503 is never recorded. */
  lemma UnavailableIsDropped(key: string, identity: string)
    ensures Dropped(Result(key, identity, None, Some("HTTP HTTP/1.1 503 Service Unavailable"), "xray"))
  {
    var e := Lower("HTTP HTTP/1.1 503 Service Unavailable");
    assert e[26..37] == "unavailable";
    assert FoundAt(e, "unavailable", 26);
  }

  /** While Xray does not start, nothing that passes the TCP stage is recorded. */
  lemma NotStartedIsDropped(key: string, identity: string)
    ensures Dropped(Result(key, identity, None, Some(Prober.NOT_STARTED), "xray"))
    ensures Dropped(Result(key, identity, None, Some(Prober.NOT_RESTARTED), "xray"))
  {
    var part := "outbound swap failed";
    assert Prober.SWAP_FAILED[..20] == part;
    forall text | text in {Prober.NOT_STARTED, Prober.NOT_RESTARTED} ensures FoundAt(Lower(text), part, 0) {
      assert Prober.SWAP_FAILED <= text;
      assert forall i | 0 <= i < 20 :: text[i] == part[i] && LowerChar(part[i]) == part[i];
      assert Lower(text)[0..20] == part;
    }
  }
}
