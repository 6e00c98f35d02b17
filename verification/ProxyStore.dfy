/** The MTProto catalog (mtproto/store.py) over its table (db.py): the calls that change the
    table, the cap on working rows over every run of calls, and the class that runs them.  */
module ProxyStore {
  import opened Wrappers
  import opened Health
  import opened Catalog
  import opened ProxySpec

  type Proxies = ProxySpec.Table

  datatype Item = Item(key: string, identity: string)

  // ---- upsert -------------------------------------------------------------------------------

  predicate IsNew(t: Proxies, item: Item) { !(item.key in t && t[item.key].working) }

  /** One row of `mtproto_upsert_working`. */
  function Upserted(t: Proxies, item: Item): Proxies {
    if !IsNew(t, item) then t
    else if item.key in t then
      var row := t[item.key];
      var snap := if row.snap.checks == 0 then row.snap.(score := 1000.0) else row.snap;
      t[item.key := ProxySpec.Row(item.identity, snap, true, 0)]
    else t[item.key := ProxySpec.Row(item.identity, FRESH, true, 0)]
  }

  function UpsertAll(t: Proxies, items: seq<Item>): Proxies {
    if items == [] then t else Upserted(UpsertAll(t, items[..|items| - 1]), items[|items| - 1])
  }

  function AddedCount(t: Proxies, items: seq<Item>): nat {
    if items == [] then 0
    else
      var n := |items| - 1;
      AddedCount(t, items[..n]) + if IsNew(UpsertAll(t, items[..n]), items[n]) then 1 else 0
  }

  // ---- record -------------------------------------------------------------------------------

  /** One outcome of `mtproto_record_results`. */
  function Recorded(t: Proxies, o: Outcome, at: int, scoring: Scoring): Proxies {
    if o.key !in t && o.identity.None? then t
    else
      var row := if o.key in t then t[o.key] else ProxySpec.Row(o.identity.value, FRESH, false, 0);
      var snap := if Won(o) then ApplySuccess(row.snap, o.latency.value, scoring, at)
                  else ApplyFailure(row.snap, o.error, scoring, at);
      t[o.key := row.(snap := snap, working := Won(o))]
  }

  function RecordedAll(t: Proxies, outcomes: seq<Outcome>, at: int, scoring: Scoring): Proxies {
    if outcomes == [] then t
    else Recorded(RecordedAll(t, outcomes[..|outcomes| - 1], at, scoring), outcomes[|outcomes| - 1], at, scoring)
  }

  // ---- reorganize ---------------------------------------------------------------------------

  function Filed(t: Proxies, item: Item, working: bool, place: int): Proxies {
    if item.key in t then t[item.key := t[item.key].(identity := item.identity, working := working, sortOrder := place)]
    else t[item.key := ProxySpec.Row(item.identity, FRESH.(score := if working then 1000.0 else 100.0), working, place)]
  }

  function FiledAll(t: Proxies, items: seq<Item>, working: bool): Proxies {
    if items == [] then t
    else Filed(FiledAll(t, items[..|items| - 1], working), items[|items| - 1], working, |items| - 1)
  }

  function KeysOf(items: seq<Item>): set<string> { set i | 0 <= i < |items| :: items[i].key }

  /** Rows outside the two lists are deleted, unless both are empty. */
  function OnlySeen(t: Proxies, seen: set<string>): Proxies {
    if seen == {} then t else t - (t.Keys - seen)
  }

  function Reorganized(t: Proxies, ok: seq<Item>, failed: seq<Item>): Proxies {
    Refresh(OnlySeen(FiledAll(FiledAll(t, ok, true), failed, false), KeysOf(ok) + KeysOf(failed)))
  }

  // ---- prune --------------------------------------------------------------------------------

  datatype PruneSettings = PruneSettings(afterFailures: int, minChecks: int, staleDays: int, maxFailed: int,
                                         incompatible: bool)

  predicate Enabled(s: PruneSettings) {
    (s.afterFailures > 0 && s.minChecks > 0) || s.staleDays > 0 || s.maxFailed > 0 || s.incompatible
  }

  predicate Chronic(row: ProxySpec.Row, s: PruneSettings) {
    !row.working && row.snap.failStreak >= s.afterFailures && row.snap.checks >= s.minChecks && row.snap.successes == 0
  }

  predicate Stale(row: ProxySpec.Row, s: PruneSettings, now: int) {
    !row.working && row.snap.failStreak >= 3
    && row.snap.checkedAt.Some? && row.snap.checkedAt.value < now - s.staleDays * 86400
  }

  function DropChronic(t: Proxies, s: PruneSettings): Proxies {
    if s.afterFailures > 0 && s.minChecks > 0 then t - (set k | k in t && Chronic(t[k], s)) else t
  }

  function DropStale(t: Proxies, s: PruneSettings, now: int): Proxies {
    if s.staleDays > 0 then t - (set k | k in t && Stale(t[k], s, now)) else t
  }

  function DropExcess(t: Proxies, s: PruneSettings): Proxies {
    if s.maxFailed > 0 then TrimFailed(t, s.maxFailed) else t
  }

  /** `mtproto_prune`. */
  function Pruned(t: Proxies, s: PruneSettings, now: int): Proxies {
    var r := DropExcess(DropStale(DropChronic(t, s), s, now), s);
    if r.Keys != t.Keys then Refresh(r) else r
  }

  function PrunedIfSet(t: Proxies, s: Option<PruneSettings>, now: int): Proxies {
    if s.Some? && Enabled(s.value) then Pruned(t, s.value, now) else t
  }

  // ---- runs ---------------------------------------------------------------------------------

  datatype Call = Add(items: seq<Item>) | Ping(outcomes: seq<Outcome>, at: int)
                | Reorganize(ok: seq<Item>, failed: seq<Item>)

  datatype Config = Config(cap: Option<int>, prune: Option<PruneSettings>, scoring: Scoring)

  function Enforced(t: Proxies, c: Config): Proxies {
    if c.cap.None? then t else TrimWorking(t, c.cap.value)
  }

  function Next(t: Proxies, call: Call, c: Config): Proxies {
    match call
    case Add(items) => if AddedCount(t, items) > 0 then Enforced(UpsertAll(t, items), c) else UpsertAll(t, items)
    case Ping(outcomes, at) =>
      PrunedIfSet(Enforced(Refresh(RecordedAll(t, outcomes, at, c.scoring)), c), c.prune, at)
    case Reorganize(ok, failed) => Enforced(Reorganized(t, ok, failed), c)
  }

  function Run(t: Proxies, calls: seq<Call>, c: Config): Proxies {
    if calls == [] then Enforced(t, c) else Next(Run(t, calls[..|calls| - 1], c), calls[|calls| - 1], c)
  }

  /** A cap of zero or less means no cap. */
  predicate Capped(t: Proxies, c: Config) {
    c.cap.Some? && c.cap.value > 0 ==> |Working(t)| <= c.cap.value
  }

  lemma EnforcedIsCapped(t: Proxies, c: Config)
    ensures Capped(Enforced(t, c), c)
  {
    if c.cap.Some? && c.cap.value > 0 { TrimIsExact(t, c.cap.value); }
  }

  lemma {:induction false} NothingAdded(t: Proxies, items: seq<Item>)
    requires AddedCount(t, items) == 0
    ensures UpsertAll(t, items) == t
  {
    if items != [] { NothingAdded(t, items[..|items| - 1]); }
  }

  /** Every working row stays, with its health. */
  ghost predicate Spares(t: Proxies, r: Proxies) {
    && Working(r) == Working(t)
    && forall k | k in Working(t) :: k in r && r[k].snap == t[k].snap
  }

  lemma DropFailed(t: Proxies, gone: set<string>)
    requires gone <= Failed(t)
    ensures Spares(t, t - gone)
  {
    Removed(t, gone);
    assert Working(t) !! Failed(t);
  }

  lemma ChronicSpares(t: Proxies, s: PruneSettings)
    ensures Spares(t, DropChronic(t, s))
  {
    DropFailed(t, (set k | k in t && Chronic(t[k], s)));
  }

  lemma StaleSpares(t: Proxies, s: PruneSettings, now: int)
    ensures Spares(t, DropStale(t, s, now))
  {
    DropFailed(t, (set k | k in t && Stale(t[k], s, now)));
  }

  lemma ExcessSpares(t: Proxies, s: PruneSettings)
    ensures Spares(t, DropExcess(t, s))
  {
    if s.maxFailed > 0 {
      TrimFailedIsExact(t, s.maxFailed);
      forall k | k in Working(t) ensures k in TrimFailed(t, s.maxFailed) {
        assert k in Working(TrimFailed(t, s.maxFailed));
      }
    }
  }

  lemma RefreshSpares(t: Proxies)
    ensures Spares(t, Refresh(t))
  {
    RefreshIsSame(t);
    SameWorking(t, Refresh(t));
  }

  lemma SparesChain(a: Proxies, b: Proxies, c: Proxies)
    requires Spares(a, b) && Spares(b, c)
    ensures Spares(a, c)
  {
  }

  /** Pruning deletes failed rows only. */
  lemma PruneSparesWorking(t: Proxies, s: Option<PruneSettings>, now: int)
    ensures Spares(t, PrunedIfSet(t, s, now))
  {
    if s.Some? {
      var a := DropChronic(t, s.value);
      var b := DropStale(a, s.value, now);
      var r := DropExcess(b, s.value);
      ChronicSpares(t, s.value);
      StaleSpares(a, s.value, now);
      ExcessSpares(b, s.value);
      RefreshSpares(r);
      SparesChain(t, a, b);
      SparesChain(t, b, r);
      SparesChain(t, r, Refresh(r));
    }
  }

  lemma NextIsCapped(t: Proxies, call: Call, c: Config)
    requires Capped(t, c)
    ensures Capped(Next(t, call, c), c)
  {
    match call
    case Add(items) =>
      if AddedCount(t, items) > 0 { EnforcedIsCapped(UpsertAll(t, items), c); } else { NothingAdded(t, items); }
    case Ping(outcomes, at) =>
      var r := Refresh(RecordedAll(t, outcomes, at, c.scoring));
      EnforcedIsCapped(r, c);
      PruneSparesWorking(Enforced(r, c), c.prune, at);
    case Reorganize(ok, failed) =>
      EnforcedIsCapped(Reorganized(t, ok, failed), c);
  }

  /** Between any two calls of any run the working rows fit under the cap, whatever the table
      held at the start. */
  lemma {:induction false} CapHolds(t: Proxies, calls: seq<Call>, c: Config)
    ensures Capped(Run(t, calls, c), c)
  {
    if calls == [] {
      EnforcedIsCapped(t, c);
    } else {
      CapHolds(t, calls[..|calls| - 1], c);
      NextIsCapped(Run(t, calls[..|calls| - 1], c), calls[|calls| - 1], c);
    }
  }

  // ---- sort orders over runs ------------------------------------------------------------------

  /** The working rows are numbered 0, 1, ... in their ranking. */
  ghost predicate Ranked(t: Proxies) {
    forall i | 0 <= i < |WorkingList(t)| ::
      WorkingList(t)[i] in t && t[WorkingList(t)[i]].sortOrder == i
  }

  lemma RefreshRanks(t: Proxies)
    ensures Ranked(Refresh(t))
  {
    RefreshIsSame(t);
    SameWorking(t, Refresh(t));
    forall i | 0 <= i < |WorkingList(Refresh(t))|
      ensures WorkingList(Refresh(t))[i] in Refresh(t) && Refresh(t)[WorkingList(Refresh(t))[i]].sortOrder == i
    {
      RefreshNumbersWorking(t, i);
    }
  }

  lemma EnforceKeepsRanks(t: Proxies, c: Config)
    requires Ranked(t)
    ensures Ranked(Enforced(t, c))
  {
    if c.cap.Some? && c.cap.value > 0 && |WorkingList(t)| > c.cap.value {
      RefreshRanks(Demoted(t, WorkingList(t)[c.cap.value..]));
    }
  }

  lemma DropsShrink(t: Proxies, s: PruneSettings, now: int)
    ensures DropChronic(t, s).Keys <= t.Keys && DropStale(t, s, now).Keys <= t.Keys && DropExcess(t, s).Keys <= t.Keys
    ensures DropChronic(t, s).Keys == t.Keys ==> DropChronic(t, s) == t
    ensures DropStale(t, s, now).Keys == t.Keys ==> DropStale(t, s, now) == t
  {
  }

  lemma ExcessShrinks(t: Proxies, s: PruneSettings)
    requires DropExcess(t, s).Keys == t.Keys
    ensures DropExcess(t, s) == t
  {
    if s.maxFailed > 0 { TrimFailedIsExact(t, s.maxFailed); }
  }

  lemma SameKeysNothingDropped(t: Proxies, s: PruneSettings, now: int)
    requires DropExcess(DropStale(DropChronic(t, s), s, now), s).Keys == t.Keys
    ensures DropExcess(DropStale(DropChronic(t, s), s, now), s) == t
  {
    var a := DropChronic(t, s);
    var b := DropStale(a, s, now);
    DropsShrink(t, s, now);
    DropsShrink(a, s, now);
    DropsShrink(b, s, now);
    assert b.Keys == t.Keys && a.Keys == t.Keys;
    ExcessShrinks(b, s);
  }

  lemma PruneKeepsRanks(t: Proxies, s: Option<PruneSettings>, now: int)
    requires Ranked(t)
    ensures Ranked(PrunedIfSet(t, s, now))
  {
    if s.Some? && Enabled(s.value) {
      var r := DropExcess(DropStale(DropChronic(t, s.value), s.value, now), s.value);
      if r.Keys != t.Keys { RefreshRanks(r); } else { SameKeysNothingDropped(t, s.value, now); }
    }
  }

  /** After every recorded batch of pings and every reorganization the working rows are numbered
      0..k-1 in their ranking, whether or not the cap demoted a row. */
  lemma PingsAndReorganizationsRank(t: Proxies, calls: seq<Call>, c: Config)
    requires calls != [] && !calls[|calls| - 1].Add?
    ensures Ranked(Run(t, calls, c))
  {
    var before := Run(t, calls[..|calls| - 1], c);
    match calls[|calls| - 1]
    case Ping(outcomes, at) =>
      var r := RecordedAll(before, outcomes, at, c.scoring);
      RefreshRanks(r);
      EnforceKeepsRanks(Refresh(r), c);
      PruneKeepsRanks(Enforced(Refresh(r), c), c.prune, at);
    case Reorganize(ok, failed) =>
      RefreshRanks(OnlySeen(FiledAll(FiledAll(before, ok, true), failed, false), KeysOf(ok) + KeysOf(failed)));
      EnforceKeepsRanks(Reorganized(before, ok, failed), c);
  }

  lemma AddTwo(a: Item, b: Item, c: Config)
    requires a.key != b.key && c.cap == None
    ensures var t := Next(map[], Add([a, b]), c);
      && Working(t) == {a.key, b.key} && t[a.key].sortOrder == 0 && t[b.key].sortOrder == 0
  {
    var none: Proxies := map[];
    assert [a, b][..1] == [a] && [a][..0] == [];
    assert UpsertAll(none, [a]) == none[a.key := ProxySpec.Row(a.identity, FRESH, true, 0)];
    assert UpsertAll(none, [a, b]) == UpsertAll(none, [a])[b.key := ProxySpec.Row(b.identity, FRESH, true, 0)];
  }

  lemma TwoAtZero(t: Proxies, a: string, b: string)
    requires a != b && Working(t) == {a, b} && t[a].sortOrder == 0 && t[b].sortOrder == 0
    ensures !Ranked(t)
  {
    var list := WorkingList(t);
    assert |list| == |Working(t)| == 2;
    assert list[1] in list;
    assert list[1] in Working(t);
  }

  /** After an addition this need not hold: two rows added without a demotion are both at place 0. */
  lemma AddLeavesTies(a: Item, b: Item, c: Config)
    requires a.key != b.key && c.cap == None
    ensures !Ranked(Run(map[], [Add([a, b])], c))
  {
    var calls := [Add([a, b])];
    assert calls[..0] == [];
    AddTwo(a, b, c);
    TwoAtZero(Next(map[], Add([a, b]), c), a.key, b.key);
  }
}
