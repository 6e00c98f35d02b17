/** What the calls of the MTProto catalog do to one key: its status, its health and whether it stays,
    read off the call and the row before it.  */
module ProxyLaws {
  import opened Wrappers
  import opened Arith
  import opened Health
  import opened Catalog
  import opened ProxySpec
  import opened ProxyStore
  import opened RowOrders

  // ---- recorded pings ------------------------------------------------------------------------------

  /** The outcomes of a key that are recorded, in their order: all, or for a key without a row all
      from the first that says who it is. */
  function Landing(known: bool, outcomes: seq<Outcome>, key: string): seq<Outcome> {
    if outcomes == [] then []
    else
      var o := outcomes[|outcomes| - 1];
      var before := Landing(known, outcomes[..|outcomes| - 1], key);
      if o.key == key && (known || before != [] || o.identity.Some?) then before + [o] else before
  }

  function OutcomeProbes(outcomes: seq<Outcome>, at: int): (r: seq<Probe>)
    ensures |r| == |outcomes|
  {
    seq(|outcomes|, i requires 0 <= i < |outcomes| =>
      Probe(if Won(outcomes[i]) then outcomes[i].latency else None, outcomes[i].error, at))
  }

  /** The health after some probes. */
  function AfterProbes(snap: Snapshot, probes: seq<Probe>, scoring: Scoring): Snapshot
    decreases |probes|
  {
    if probes == [] then snap
    else Apply(AfterProbes(snap, probes[..|probes| - 1], scoring), probes[|probes| - 1], scoring)
  }

  lemma {:induction false} AfterFreshProbes(probes: seq<Probe>, scoring: Scoring)
    ensures AfterProbes(FRESH, probes, scoring) == After(probes, scoring)
    decreases |probes|
  {
    if probes != [] { AfterFreshProbes(probes[..|probes| - 1], scoring); }
  }

  function SnapIn(t: Proxies, key: string): Snapshot { if key in t then t[key].snap else FRESH }

  /** A row with recorded outcomes is working exactly when the last of them was answered, and its
      health is the old one after them as probes; any other row is as before. */
  ghost predicate PingsFiled(t: Proxies, r: Proxies, outcomes: seq<Outcome>, at: int, scoring: Scoring, key: string) {
    var own := Landing(key in t, outcomes, key);
    && (key in r <==> key in t || own != [])
    && (key in t && own == [] ==> r[key] == t[key])
    && (own != [] ==>
          && (r[key].working <==> own[|own| - 1].ok && own[|own| - 1].latency.Some?)
          && r[key].snap == AfterProbes(SnapIn(t, key), OutcomeProbes(own, at), scoring)
          && Some(r[key].identity) == if key in t then Some(t[key].identity) else own[0].identity)
  }

  lemma ProbesSnoc(outcomes: seq<Outcome>, o: Outcome, at: int)
    ensures OutcomeProbes(outcomes + [o], at)
         == OutcomeProbes(outcomes, at) + [Probe(if Won(o) then o.latency else None, o.error, at)]
  {
  }

  lemma OneMoreProbe(snap: Snapshot, own: seq<Outcome>, o: Outcome, at: int, scoring: Scoring)
    ensures AfterProbes(snap, OutcomeProbes(own + [o], at), scoring)
         == (var before := AfterProbes(snap, OutcomeProbes(own, at), scoring);
             if o.ok && o.latency.Some? then ApplySuccess(before, o.latency.value, scoring, at)
             else ApplyFailure(before, o.error, scoring, at))
  {
    ProbesSnoc(own, o, at);
    var p := OutcomeProbes(own + [o], at);
    assert p[..|p| - 1] == OutcomeProbes(own, at);
  }

  lemma LandingSnoc(known: bool, outcomes: seq<Outcome>, o: Outcome, key: string)
    ensures var before := Landing(known, outcomes, key);
      Landing(known, outcomes + [o], key)
        == if o.key == key && (known || before != [] || o.identity.Some?) then before + [o] else before
  {
    assert (outcomes + [o])[..|outcomes|] == outcomes;
  }

  /** What is written for one outcome of a key. */
  lemma RecordedOne(r: Proxies, o: Outcome, at: int, scoring: Scoring)
    requires o.key in r || o.identity.Some?
    ensures var q, before := Recorded(r, o, at, scoring), SnapIn(r, o.key);
      && o.key in q && (q[o.key].working <==> o.ok && o.latency.Some?)
      && q[o.key].identity == (if o.key in r then r[o.key].identity else o.identity.value)
      && q[o.key].snap == if o.ok && o.latency.Some? then ApplySuccess(before, o.latency.value, scoring, at)
                          else ApplyFailure(before, o.error, scoring, at)
  {
  }

  lemma RecordedOther(r: Proxies, o: Outcome, at: int, scoring: Scoring, key: string)
    requires o.key != key || (key !in r && o.identity.None?)
    ensures var q := Recorded(r, o, at, scoring); (key in q <==> key in r) && (key in r ==> q[key] == r[key])
  {
  }

  lemma OnePingFiled(t: Proxies, r: Proxies, outcomes: seq<Outcome>, o: Outcome, at: int, scoring: Scoring, key: string)
    requires PingsFiled(t, r, outcomes, at, scoring, key)
    ensures PingsFiled(t, Recorded(r, o, at, scoring), outcomes + [o], at, scoring, key)
  {
    var own := Landing(key in t, outcomes, key);
    LandingSnoc(key in t, outcomes, o, key);
    if o.key == key && (key in t || own != [] || o.identity.Some?) {
      RecordedOne(r, o, at, scoring);
      OneMoreProbe(SnapIn(t, key), own, o, at, scoring);
      NoProbes(own, at);
    } else {
      RecordedOther(r, o, at, scoring, key);
    }
  }

  lemma NoProbes(own: seq<Outcome>, at: int)
    ensures own == [] ==> OutcomeProbes(own, at) == []
  {
  }

  lemma {:induction false} RecordedFiles(t: Proxies, outcomes: seq<Outcome>, at: int, scoring: Scoring, key: string)
    ensures PingsFiled(t, RecordedAll(t, outcomes, at, scoring), outcomes, at, scoring, key)
  {
    if outcomes != [] {
      var n := |outcomes| - 1;
      RecordedFiles(t, outcomes[..n], at, scoring, key);
      assert outcomes == outcomes[..n] + [outcomes[n]];
      OnePingFiled(t, RecordedAll(t, outcomes[..n], at, scoring), outcomes[..n], outcomes[n], at, scoring, key);
    }
  }

  /** The table after recording, before the cap and the pruning act. */
  function Plain(c: Config): Config { c.(cap := None, prune := None) }

  /** Like `PingsFiled`, but for the sort orders, which are made anew. */
  ghost predicate PingsFiledAnew(t: Proxies, r: Proxies, outcomes: seq<Outcome>, at: int, scoring: Scoring, key: string) {
    var own := Landing(key in t, outcomes, key);
    && (key in r <==> key in t || own != [])
    && (key in t && own == [] ==>
          r[key].working == t[key].working && r[key].snap == t[key].snap && r[key].identity == t[key].identity)
    && (own != [] ==>
          && (r[key].working <==> own[|own| - 1].ok && own[|own| - 1].latency.Some?)
          && r[key].snap == AfterProbes(SnapIn(t, key), OutcomeProbes(own, at), scoring)
          && Some(r[key].identity) == if key in t then Some(t[key].identity) else own[0].identity)
  }

  /** A batch of pings without cap and pruning: for every key, status and health are what the last of
      its outcomes and all of them say. */
  lemma PingFiles(t: Proxies, outcomes: seq<Outcome>, at: int, c: Config, key: string)
    ensures PingsFiledAnew(t, Next(t, Ping(outcomes, at), Plain(c)), outcomes, at, c.scoring, key)
  {
    var r := RecordedAll(t, outcomes, at, c.scoring);
    RecordedFiles(t, outcomes, at, c.scoring, key);
    RefreshIsSame(r);
  }

  /** How many of the outcomes succeeded. */
  function WonCount(outcomes: seq<Outcome>): nat {
    if outcomes == [] then 0
    else WonCount(outcomes[..|outcomes| - 1]) + if Won(outcomes[|outcomes| - 1]) then 1 else 0
  }

  lemma {:induction false} ProbesCount(snap: Snapshot, own: seq<Outcome>, at: int, scoring: Scoring)
    ensures var r := AfterProbes(snap, OutcomeProbes(own, at), scoring);
      && r.checks == snap.checks + |own|
      && r.successes == snap.successes + WonCount(own)
      && r.failures + WonCount(own) == snap.failures + |own|
  {
    if own == [] {
      assert OutcomeProbes(own, at) == [];
    } else {
      var before, o := own[..|own| - 1], own[|own| - 1];
      ProbesCount(snap, before, at, scoring);
      OneMoreProbe(snap, before, o, at, scoring);
      assert own == before + [o];
    }
  }

  /** The totals of a key after a batch: one check for each of its outcomes, a success for each that
      won. */
  lemma PingCounts(t: Proxies, outcomes: seq<Outcome>, at: int, c: Config, key: string)
    requires Landing(key in t, outcomes, key) != []
    ensures var own, r := Landing(key in t, outcomes, key), Next(t, Ping(outcomes, at), Plain(c));
      && key in r
      && r[key].snap.checks == SnapIn(t, key).checks + |own|
      && r[key].snap.successes == SnapIn(t, key).successes + WonCount(own)
      && r[key].snap.failures + WonCount(own) == SnapIn(t, key).failures + |own|
  {
    PingFiles(t, outcomes, at, c, key);
    ProbesCount(SnapIn(t, key), Landing(key in t, outcomes, key), at, c.scoring);
  }

  /** A row first seen through its pings has the health of that probe history. */
  lemma NewProxyIsItsHistory(t: Proxies, outcomes: seq<Outcome>, at: int, c: Config, key: string)
    requires key !in t && Landing(false, outcomes, key) != []
    ensures var r := Next(t, Ping(outcomes, at), Plain(c));
      key in r && r[key].snap == After(OutcomeProbes(Landing(false, outcomes, key), at), c.scoring)
  {
    PingFiles(t, outcomes, at, c, key);
    AfterFreshProbes(OutcomeProbes(Landing(false, outcomes, key), at), c.scoring);
  }

  // ---- what cap and pruning do to it -----------------------------------------------------------------

  /** A failed row that pruning deletes for itself: often and only failed, or failed and long not
      checked. */
  ghost predicate Hopeless(row: ProxySpec.Row, s: PruneSettings, now: int) {
    && !row.working
    && (|| (s.afterFailures > 0 && s.minChecks > 0 && row.snap.failStreak >= s.afterFailures
            && row.snap.checks >= s.minChecks && row.snap.successes == 0)
        || (s.staleDays > 0 && row.snap.failStreak >= 3 && row.snap.checkedAt.Some?
            && now - row.snap.checkedAt.value > s.staleDays * 86400))
  }

  /** The table without its hopeless rows. */
  ghost function Hopeful(t: Proxies, s: PruneSettings, now: int): Proxies {
    t - set k | k in t && Hopeless(t[k], s, now)
  }

  lemma DropsAreHopeless(t: Proxies, s: PruneSettings, now: int)
    ensures DropStale(DropChronic(t, s), s, now) == Hopeful(t, s, now)
  {
    var a := DropChronic(t, s);
    var b := DropStale(a, s, now);
    assert b.Keys == Hopeful(t, s, now).Keys;
  }

  /** Whether any pruning is set. */
  ghost predicate PruneSet(s: PruneSettings) {
    (s.afterFailures > 0 && s.minChecks > 0) || s.staleDays > 0 || s.maxFailed > 0 || s.incompatible
  }

  lemma HopefulRows(t: Proxies, s: PruneSettings, now: int)
    ensures var h := Hopeful(t, s, now);
      Working(h) == Working(t) && h.Keys <= t.Keys && forall k | k in h :: h[k] == t[k]
  {
  }

  lemma ExcessRows(h: Proxies, s: PruneSettings)
    ensures var d := DropExcess(h, s);
      && Working(d) == Working(h) && d.Keys <= h.Keys && (forall k | k in d :: d[k] == h[k])
      && |Failed(d)| == (if s.maxFailed > 0 then Min(|Failed(h)|, s.maxFailed) else |Failed(h)|)
      && (s.maxFailed <= 0 ==> d == h)
  {
    if s.maxFailed > 0 { TrimFailedIsExact(h, s.maxFailed); }
  }

  lemma PrunedRows(t: Proxies, s: PruneSettings, now: int)
    requires PruneSet(s)
    ensures var d, r := DropExcess(Hopeful(t, s, now), s), PrunedIfSet(t, Some(s), now);
      SameButOrder(d, r) && Working(r) == Working(d) && Failed(r) == Failed(d)
  {
    var d := DropExcess(Hopeful(t, s, now), s);
    DropsAreHopeless(t, s, now);
    RefreshIsSame(d);
    SameWorking(d, Refresh(d));
    SameFailed(d, Refresh(d));
  }

  /** Pruning deletes the hopeless rows and then, where a bound is set, as many of the other failed
      rows as exceed it; what is left keeps status and health. */
  lemma PruneIsExact(t: Proxies, s: PruneSettings, now: int)
    requires PruneSet(s)
    ensures var h, r := Hopeful(t, s, now), PrunedIfSet(t, Some(s), now);
      && Working(r) == Working(t)
      && |Failed(r)| == (if s.maxFailed > 0 then Min(|Failed(h)|, s.maxFailed) else |Failed(h)|)
      && (s.maxFailed <= 0 ==> r.Keys == h.Keys)
      && r.Keys <= h.Keys
      && forall k | k in r :: k in t && r[k] == t[k].(sortOrder := r[k].sortOrder)
  {
    HopefulRows(t, s, now);
    ExcessRows(Hopeful(t, s, now), s);
    PrunedRows(t, s, now);
  }

  lemma NoPruneKeeps(t: Proxies, s: Option<PruneSettings>, now: int)
    requires s.None? || !PruneSet(s.value)
    ensures PrunedIfSet(t, s, now) == t
  {
  }

  /** What the cap makes of a table: rows and health stay, the status only goes from working to
      failed, only over the cap, and only where every row that stays working is better. */
  ghost predicate CapDemotes(p: Proxies, r: Proxies, cap: Option<int>) {
    && r.Keys == p.Keys
    && (cap.Some? && cap.value > 0 ==> |Working(r)| == Min(cap.value, |Working(p)|))
    && (forall k | k in p :: r[k].snap == p[k].snap && r[k].identity == p[k].identity)
    && (forall k | k in p && r[k].working :: p[k].working)
    && (forall k | k in p && p[k].working && !r[k].working ::
          && cap.Some? && cap.value > 0 && |Working(p)| > cap.value && |Working(r)| == cap.value
          && forall a | a in p && r[a].working :: Better(a, p[a], k, p[k]))
  }

  lemma EnforcedDemotes(p: Proxies, c: Config)
    ensures CapDemotes(p, Enforced(p, c), c.cap)
  {
    var r := Enforced(p, c);
    if c.cap.Some? && c.cap.value > 0 {
      TrimIsExact(p, c.cap.value);
      forall k | k in p && r[k].working ensures p[k].working { assert k in Working(r); }
      forall k | k in p && p[k].working && !r[k].working
        ensures |Working(p)| > c.cap.value
        ensures forall a | a in p && r[a].working :: Better(a, p[a], k, p[k])
      {
        assert k in Working(p) - Working(r);
        if |Working(p)| <= c.cap.value { SameSize(Working(r), Working(p)); }
        forall a | a in p && r[a].working ensures Better(a, p[a], k, p[k]) {
          TrimKeepsBetter(p, c.cap.value, a, k);
        }
      }
    }
  }

  lemma SameSize(a: set<string>, b: set<string>)
    requires a <= b && |a| == |b|
    ensures a == b
  {
    assert b == a + (b - a);
  }

  /** A batch of pings with cap and pruning: first the rows are filed as without them, then the cap
      demotes, then pruning deletes; the middle table says which rows were demoted. */
  lemma PingIsThreeSteps(t: Proxies, outcomes: seq<Outcome>, at: int, c: Config) returns (p: Proxies, q: Proxies)
    ensures p == Next(t, Ping(outcomes, at), Plain(c))
    ensures CapDemotes(p, q, c.cap)
    ensures Next(t, Ping(outcomes, at), c) == PrunedIfSet(q, c.prune, at)
  {
    p := Next(t, Ping(outcomes, at), Plain(c));
    q := Enforced(p, c);
    EnforcedDemotes(p, c);
  }

  // ---- additions ----------------------------------------------------------------------------------

  /** An item that is working stays as it is; any other becomes working at place 0, with the given
      identity, keeping its health but for the score of a never-checked row. */
  ghost predicate AddFiled(t: Proxies, r: Proxies, items: seq<Item>, key: string) {
    && (key !in KeysOf(items) ==> (key in r <==> key in t) && (key in t ==> r[key] == t[key]))
    && (key in KeysOf(items) ==>
          && key in r && r[key].working
          && (key in t && t[key].working ==> r[key] == t[key])
          && (key in t && !t[key].working ==>
                && r[key].sortOrder == 0
                && r[key].snap == if t[key].snap.checks == 0 then t[key].snap.(score := 1000.0) else t[key].snap)
          && (key !in t ==> r[key].sortOrder == 0 && r[key].snap == FRESH)
          && (!(key in t && t[key].working) ==>
                exists i | 0 <= i < |items| :: items[i] == Item(key, r[key].identity)
                  && forall j | 0 <= j < i :: items[j].key != key))
  }

  lemma KeysOfSnoc(items: seq<Item>, item: Item)
    ensures KeysOf(items + [item]) == KeysOf(items) + {item.key}
  {
    var all := items + [item];
    assert forall i | 0 <= i < |items| :: all[i] == items[i];
    assert all[|items|] == item;
  }

  lemma FirstItemStays(items: seq<Item>, item: Item, key: string, identity: string)
    requires exists i | 0 <= i < |items| :: items[i] == Item(key, identity) && forall j | 0 <= j < i :: items[j].key != key
    ensures exists i | 0 <= i < |items + [item]| ::
      (items + [item])[i] == Item(key, identity) && forall j | 0 <= j < i :: (items + [item])[j].key != key
  {
    var i :| 0 <= i < |items| && items[i] == Item(key, identity) && forall j | 0 <= j < i :: items[j].key != key;
    assert (items + [item])[i] == items[i];
  }

  lemma FirstItemNew(items: seq<Item>, item: Item)
    requires item.key !in KeysOf(items)
    ensures exists i | 0 <= i < |items + [item]| ::
      (items + [item])[i] == item && forall j | 0 <= j < i :: (items + [item])[j].key != item.key
  {
    var n := |items|;
    forall j | 0 <= j < n ensures items[j].key != item.key { assert items[j].key in KeysOf(items); }
    assert (items + [item])[n] == item;
  }

  lemma OneAddFiled(t: Proxies, r: Proxies, items: seq<Item>, item: Item, key: string)
    requires AddFiled(t, r, items, key)
    ensures AddFiled(t, Upserted(r, item), items + [item], key)
  {
    KeysOfSnoc(items, item);
    if !(key in t && t[key].working) {
      if key in KeysOf(items) {
        FirstItemStays(items, item, key, r[key].identity);
      } else if item.key == key {
        FirstItemNew(items, item);
      }
    }
  }

  lemma {:induction false} UpsertsFile(t: Proxies, items: seq<Item>, key: string)
    ensures AddFiled(t, UpsertAll(t, items), items, key)
  {
    if items != [] {
      var n := |items| - 1;
      UpsertsFile(t, items[..n], key);
      assert items == items[..n] + [items[n]];
      OneAddFiled(t, UpsertAll(t, items[..n]), items[..n], items[n], key);
    }
  }

  lemma UpsertedGrows(t: Proxies, item: Item)
    ensures |Working(Upserted(t, item))| == |Working(t)| + if IsNew(t, item) then 1 else 0
  {
    if IsNew(t, item) { assert Working(Upserted(t, item)) == Working(t) + {item.key}; }
  }

  /** The number returned by an addition is how many working rows it made. */
  lemma {:induction false} AddedIsGrowth(t: Proxies, items: seq<Item>)
    ensures |Working(UpsertAll(t, items))| == |Working(t)| + AddedCount(t, items)
  {
    if items != [] {
      AddedIsGrowth(t, items[..|items| - 1]);
      UpsertedGrows(UpsertAll(t, items[..|items| - 1]), items[|items| - 1]);
    }
  }

  /** An addition files its items, and then the cap demotes if any row became working. */
  lemma AddIsTwoSteps(t: Proxies, items: seq<Item>, c: Config, key: string) returns (p: Proxies)
    ensures AddFiled(t, p, items, key) && |Working(p)| >= |Working(t)|
    ensures |Working(p)| > |Working(t)| ==> CapDemotes(p, Next(t, Add(items), c), c.cap)
    ensures |Working(p)| == |Working(t)| ==> Next(t, Add(items), c) == p
  {
    p := UpsertAll(t, items);
    UpsertsFile(t, items, key);
    AddedIsGrowth(t, items);
    if AddedCount(t, items) > 0 { EnforcedDemotes(p, c); }
  }

  // ---- reorganization --------------------------------------------------------------------------------

  /** A listed key has a row with its status and keeps its health; rows of other keys are as before. */
  ghost predicate ListFiled(t: Proxies, r: Proxies, items: seq<Item>, working: bool, key: string) {
    && (key !in KeysOf(items) ==> (key in r <==> key in t) && (key in t ==> r[key] == t[key]))
    && (key in KeysOf(items) ==>
          && key in r && r[key].working == working
          && r[key].snap == (if key in t then t[key].snap else FRESH.(score := if working then 1000.0 else 100.0)))
  }

  lemma {:induction false} FiledFile(t: Proxies, items: seq<Item>, working: bool, key: string)
    ensures ListFiled(t, FiledAll(t, items, working), items, working, key)
  {
    if items != [] {
      var n := |items| - 1;
      FiledFile(t, items[..n], working, key);
      KeysOfSnoc(items[..n], items[n]);
      assert items == items[..n] + [items[n]];
    }
  }

  /** After a reorganization without a cap: a key listed as failed is failed, a key listed only as ok is
      working, and both keep their health if they had a row; any other is gone, unless nothing is
      listed at all. */
  ghost predicate ReorganizeFiled(t: Proxies, r: Proxies, ok: seq<Item>, failed: seq<Item>, key: string) {
    var listed := KeysOf(ok) + KeysOf(failed);
    && (key in r <==> key in listed || (listed == {} && key in t))
    && (key in listed ==>
          && (r[key].working <==> key !in KeysOf(failed))
          && r[key].snap == (if key in t then t[key].snap
                             else FRESH.(score := if key in KeysOf(ok) then 1000.0 else 100.0)))
    && (listed == {} && key in t ==> r[key].working == t[key].working && r[key].snap == t[key].snap)
  }

  lemma ReorganizeFiles(t: Proxies, ok: seq<Item>, failed: seq<Item>, c: Config, key: string)
    ensures ReorganizeFiled(t, Next(t, Reorganize(ok, failed), Plain(c)), ok, failed, key)
  {
    var a := FiledAll(t, ok, true);
    var b := FiledAll(a, failed, false);
    FiledFile(t, ok, true, key);
    FiledFile(a, failed, false, key);
    RefreshIsSame(OnlySeen(b, KeysOf(ok) + KeysOf(failed)));
    KeysFound(ok, key);
    KeysFound(failed, key);
  }

  lemma KeysFound(items: seq<Item>, key: string)
    ensures key in KeysOf(items) <==> exists i | 0 <= i < |items| :: items[i].key == key
  {
  }

  lemma ReorganizeIsTwoSteps(t: Proxies, ok: seq<Item>, failed: seq<Item>, c: Config) returns (p: Proxies)
    ensures p == Next(t, Reorganize(ok, failed), Plain(c))
    ensures CapDemotes(p, Next(t, Reorganize(ok, failed), c), c.cap)
  {
    p := Next(t, Reorganize(ok, failed), Plain(c));
    EnforcedDemotes(p, c);
  }

  // ---- statuses over runs ------------------------------------------------------------------------------

  /** The status of a key: none, failed or working. */
  function StatusOf(t: Proxies, key: string): Option<bool> { if key in t then Some(t[key].working) else None }

  /** What a call makes of the status of a key, from the call alone. */
  function StatusAfter(before: Option<bool>, call: Call, key: string): Option<bool> {
    match call
    case Add(items) => if key in KeysOf(items) then Some(true) else before
    case Ping(outcomes, _) =>
      var own := Landing(before.Some?, outcomes, key);
      if own == [] then before else Some(own[|own| - 1].ok && own[|own| - 1].latency.Some?)
    case Reorganize(ok, failed) =>
      if key in KeysOf(failed) then Some(false)
      else if key in KeysOf(ok) then Some(true)
      else if KeysOf(ok) + KeysOf(failed) == {} then before else None
  }

  function StatusRun(before: Option<bool>, calls: seq<Call>, key: string): Option<bool> {
    if calls == [] then before
    else StatusAfter(StatusRun(before, calls[..|calls| - 1], key), calls[|calls| - 1], key)
  }

  lemma NextStatus(t: Proxies, call: Call, c: Config, key: string)
    ensures StatusOf(Next(t, call, Plain(c)), key) == StatusAfter(StatusOf(t, key), call, key)
  {
    match call
    case Add(items) => UpsertsFile(t, items, key);
    case Ping(outcomes, at) => PingFiles(t, outcomes, at, c, key);
    case Reorganize(ok, failed) => ReorganizeFiles(t, ok, failed, c, key);
  }

  /** Over every run without cap and pruning the status of every key is what the calls say: the last
      one that concerns it decides. */
  lemma {:induction false} RunStatus(t: Proxies, calls: seq<Call>, c: Config, key: string)
    ensures StatusOf(ProxyStore.Run(t, calls, Plain(c)), key) == StatusRun(StatusOf(t, key), calls, key)
  {
    if calls != [] {
      var n := |calls| - 1;
      RunStatus(t, calls[..n], c, key);
      NextStatus(ProxyStore.Run(t, calls[..n], Plain(c)), calls[n], c, key);
    }
  }
}
