/** Which nodes a refresh and a rotation choose and load (`select_hot_set` as called by
    v2ray/proxy_pool.py), said of the catalog rows, the leases and the slots. */
module PoolRings {
  import opened Wrappers
  import opened Arith
  import opened Ordering
  import opened Spreading
  import opened PoolPorts
  import opened HotSet
  import opened PoolModel

  /** An eligible row of the key. */
  predicate Eligible(rows: seq<CatalogRow>, key: string) { exists r | r in rows :: r.eligible && r.key == key }

  lemma {:induction false} EligibleKeysMeans(rows: seq<CatalogRow>, key: string)
    ensures key in EligibleKeys(rows) <==> Eligible(rows, key)
  {
    if rows != [] {
      var before, last := rows[..|rows| - 1], rows[|rows| - 1];
      EligibleKeysMeans(before, key);
      assert rows == before + [last];
    }
  }

  lemma ServersAreEligible(rows: seq<CatalogRow>, key: string)
    ensures key in Servers(rows) <==> Eligible(rows, key)
  {
    FirstSeenMembers(EligibleKeys(rows), {}, key);
    EligibleKeysMeans(rows, key);
  }

  /** The score of a row in a refresh: its own, 200 less for an eligible node leased less than the
      reuse time ago, 10 more for a node a slot holds. */
  function RefreshScore(p: Pool, w: World, s: Settings, row: CatalogRow): real {
    var cools := Eligible(w.rows, row.key) && row.key in p.leases && w.ringTime - p.leases[row.key].usedAt < s.minReuse;
    var held := exists i | 0 <= i < |p.slots| :: p.slots[i].server == Some(row.key);
    row.score - (if cools then 200.0 else 0.0) + (if held then 10.0 else 0.0)
  }

  function RefreshScores(p: Pool, w: World, s: Settings): (r: seq<real>)
    ensures |r| == |w.rows|
  {
    seq(|w.rows|, i requires 0 <= i < |w.rows| => RefreshScore(p, w, s, w.rows[i]))
  }

  function OwnScores(rows: seq<CatalogRow>): (r: seq<real>)
    ensures |r| == |rows|
  {
    seq(|rows|, i requires 0 <= i < |rows| => rows[i].score)
  }

  /** Some row of `k` scores at least as high as every row of `l`. */
  ghost predicate AsGood(rows: seq<CatalogRow>, scores: seq<real>, k: string, l: string)
    requires |scores| == |rows|
  {
    exists i | 0 <= i < |rows| :: rows[i].key == k
      && forall j | 0 <= j < |rows| && rows[j].key == l :: scores[i] >= scores[j]
  }

  function RowKeys(rows: seq<CatalogRow>): set<string> { set r | r in rows :: r.key }

  ghost predicate InScoreOrder(rows: seq<CatalogRow>, scores: seq<real>, keys: seq<string>)
    requires |scores| == |rows|
  {
    forall i, j | 0 <= i < j < |keys| :: AsGood(rows, scores, keys[i], keys[j])
  }

  /** No other key of the rows is better than one of these. */
  ghost predicate BeatsOthers(rows: seq<CatalogRow>, scores: seq<real>, keys: seq<string>)
    requires |scores| == |rows|
  {
    forall k, l | k in keys && l in RowKeys(rows) && l !in keys :: AsGood(rows, scores, k, l)
  }

  /** The tiers take the best keys of the rows in turn, each as many as it has room for. */
  ghost predicate BestRing(rows: seq<CatalogRow>, scores: seq<real>, r: Ring, active: nat, s: Settings)
    requires |scores| == |rows|
  {
    var n, a, b, c := |RowKeys(rows)|, active, Max(0, s.standby), Max(0, s.reserve);
    && |r.active| == Min(n, a) && |r.active + r.standby| == Min(n, a + b) && |r.All()| == Min(n, a + b + c)
    && Distinct(r.All()) && (forall k | k in r.All() :: k in RowKeys(rows))
    && InScoreOrder(rows, scores, r.All()) && BeatsOthers(rows, scores, r.All())
  }

  lemma {:induction false} ScoredRows(rows: seq<HotRow>, inUse: set<string>, cooling: set<string>)
    requires forall i | 0 <= i < |rows| :: rows[i].key.Some?
    ensures var s := ScoreRows(rows, inUse, cooling);
      |s| == |rows| && forall i | 0 <= i < |s| ::
        s[i] == Scored(rows[i].score - (if rows[i].key.value in cooling then 200.0 else 0.0)
                       + (if rows[i].key.value in inUse then 10.0 else 0.0), rows[i].key.value)
  {
    if rows != [] {
      ScoredRows(rows[..|rows| - 1], inUse, cooling);
    }
  }

  /** The scores are those of the rows. */
  ghost predicate Scores(rows: seq<CatalogRow>, scores: seq<real>, s: seq<Scored>)
    requires |scores| == |rows|
  {
    |s| == |rows| && forall i | 0 <= i < |s| :: s[i] == Scored(scores[i], rows[i].key)
  }

  lemma BeforeIsAsGood(rows: seq<CatalogRow>, scores: seq<real>, s: seq<Scored>, k: string, l: string)
    requires |scores| == |rows| && Scores(rows, scores, s) && KeyBefore(s, k, l)
    ensures AsGood(rows, scores, k, l)
  {
    var i, j :| IsChampion(s, k, i) && IsChampion(s, l, j) && Before(s, i, j);
    assert rows[i].key == k;
    forall m | 0 <= m < |rows| && rows[m].key == l ensures scores[i] >= scores[m] {
      assert s[m].key == l;
      assert m == j || Before(s, j, m);
    }
  }

  lemma RankedMember(rows: seq<CatalogRow>, scores: seq<real>, s: seq<Scored>, k: string)
    requires |scores| == |rows| && Scores(rows, scores, s)
    ensures k in RankedKeys(s) <==> k in RowKeys(rows)
  {
    RankedKeysAreRowKeys(s, k);
    if i :| 0 <= i < |s| && s[i].key == k { assert rows[i] in rows; }
    if r :| r in rows && r.key == k {
      var i :| 0 <= i < |rows| && rows[i] == r;
      assert s[i].key == k;
    }
  }

  lemma RankedCount(rows: seq<CatalogRow>, scores: seq<real>, s: seq<Scored>)
    requires |scores| == |rows| && Scores(rows, scores, s)
    ensures |RankedKeys(s)| == |RowKeys(rows)|
  {
    var keys := RankedKeys(s);
    FirstSeenDistinct(KeysAt(s, SortedPositions(s)), {});
    DistinctCard(keys);
    assert (set x | x in keys) == RowKeys(rows) by {
      forall k ensures k in keys <==> k in RowKeys(rows) { RankedMember(rows, scores, s, k); }
    }
  }

  lemma TierSizes(keys: seq<string>, a: nat, b: nat, c: nat)
    ensures var r := Tiers(keys, a, b, c);
      && |r.active| == Min(|keys|, a) && |r.active + r.standby| == Min(|keys|, a + b)
      && r.All() == keys[..Min(|keys|, a + b + c)]
  {
    TiersJoin(keys, a, b, c);
  }

  lemma PrefixInOrder(rows: seq<CatalogRow>, scores: seq<real>, s: seq<Scored>, n: nat)
    requires |scores| == |rows| && Scores(rows, scores, s) && n <= |RankedKeys(s)|
    ensures InScoreOrder(rows, scores, RankedKeys(s)[..n])
  {
    var keys := RankedKeys(s);
    RankedKeysSorted(s);
    forall i, j | 0 <= i < j < n ensures AsGood(rows, scores, keys[i], keys[j]) {
      BeforeIsAsGood(rows, scores, s, keys[i], keys[j]);
    }
  }

  lemma PrefixBeatsOthers(rows: seq<CatalogRow>, scores: seq<real>, s: seq<Scored>, n: nat)
    requires |scores| == |rows| && Scores(rows, scores, s) && n <= |RankedKeys(s)|
    ensures BeatsOthers(rows, scores, RankedKeys(s)[..n])
  {
    var keys := RankedKeys(s);
    RankedKeysSorted(s);
    forall k, l | k in keys[..n] && l in RowKeys(rows) && l !in keys[..n] ensures AsGood(rows, scores, k, l) {
      RankedMember(rows, scores, s, l);
      PrefixComesFirst(s, keys, keys[..n], k, l);
      BeforeIsAsGood(rows, scores, s, k, l);
    }
  }

  lemma PrefixFromRows(rows: seq<CatalogRow>, scores: seq<real>, s: seq<Scored>, n: nat)
    requires |scores| == |rows| && Scores(rows, scores, s) && n <= |RankedKeys(s)|
    ensures forall k | k in RankedKeys(s)[..n] :: k in RowKeys(rows)
  {
    forall k | k in RankedKeys(s)[..n] ensures k in RowKeys(rows) { RankedMember(rows, scores, s, k); }
  }

  lemma PrefixIsBest(rows: seq<CatalogRow>, scores: seq<real>, s: seq<Scored>, r: Ring, active: nat, t: Settings)
    requires |scores| == |rows| && Scores(rows, scores, s) && Distinct(r.All())
    requires var keys, b, c := RankedKeys(s), Max(0, t.standby), Max(0, t.reserve);
      && |r.active| == Min(|keys|, active) && |r.active + r.standby| == Min(|keys|, active + b)
      && r.All() == keys[..Min(|keys|, active + b + c)]
    ensures BestRing(rows, scores, r, active, t)
  {
    var n := |r.All()|;
    RankedCount(rows, scores, s);
    PrefixFromRows(rows, scores, s, n);
    PrefixInOrder(rows, scores, s, n);
    PrefixBeatsOthers(rows, scores, s, n);
  }

  lemma RingIsBest(rows: seq<CatalogRow>, scores: seq<real>, s: seq<Scored>, active: nat, t: Settings)
    requires |scores| == |rows| && Scores(rows, scores, s)
    ensures BestRing(rows, scores, HotRing(s, active, t.standby, t.reserve), active, t)
  {
    TierSizes(RankedKeys(s), Clip(active), Clip(t.standby), Clip(t.reserve));
    RingIsDistinct(s, active, t.standby, t.reserve);
    PrefixIsBest(rows, scores, s, HotRing(s, active, t.standby, t.reserve), active, t);
  }

  /** A refresh chooses the best keys by their scores less the penalty of a short lease and with the
      bonus of a slot. */
  lemma RefreshRingIsBest(p: Pool, w: World, s: Settings)
    ensures BestRing(w.rows, RefreshScores(p, w, s), RefreshRing(p, w, s), |p.slots|, s)
  {
    var servers := Servers(w.rows);
    var held, cooling := Holding(p.slots), CoolingKeys(p, servers, w.ringTime, s.minReuse);
    var scored := ScoreRows(HotRows(w.rows), held, cooling);
    ScoredRows(HotRows(w.rows), held, cooling);
    forall i | 0 <= i < |scored| ensures scored[i] == Scored(RefreshScores(p, w, s)[i], w.rows[i].key) {
      ServersAreEligible(w.rows, w.rows[i].key);
    }
    RingIsBest(w.rows, RefreshScores(p, w, s), scored, |p.slots|, s);
  }

  /** A rotation by their own scores. */
  lemma RotateRingIsBest(p: Pool, w: World, s: Settings)
    ensures BestRing(w.rows, OwnScores(w.rows), RotateRing(p, w, s), |p.slots|, s)
  {
    ScoredRows(HotRows(w.rows), {}, {});
    RingIsBest(w.rows, OwnScores(w.rows), ScoreRows(HotRows(w.rows), {}, {}), |p.slots|, s);
  }

  /** No call fails. */
  predicate Smooth(w: World) { w.faults == NO_FAULTS }

  /** A sync without failed calls leaves loaded, besides the fallback, the wanted tags but those Xray
      holds without the controller's knowledge. */
  lemma SyncLoads(p: Pool, wanted: map<string, string>, tag: string)
    requires p.connected && p.xray.Up? && tag != FALLBACK_TAG
    ensures tag in Sync(p, wanted, NO_FAULTS).loaded
       <==> tag in wanted && (tag in p.loaded || tag !in p.xray.outbounds)
  {
  }

  /** So a refresh loads the eligible nodes of its ring. */
  lemma RefreshLoads(p: Pool, initial: bool, w: World, s: Settings, key: string)
    requires p.connected && p.xray.Up? && Smooth(w) && Servers(w.rows) != []
    ensures NodeTag(key) in Refresh(p, initial, w, s).loaded
       <==> && key in RefreshRing(p, w, s).All() && Eligible(w.rows, key)
            && (NodeTag(key) in p.loaded || NodeTag(key) !in p.xray.outbounds)
  {
    ServersAreEligible(w.rows, key);
    var keys := Among(RefreshRing(p, w, s).All(), Servers(w.rows));
    assert NodeTag(key)[0] == 'n' && FALLBACK_TAG[0] == 'f';
    SyncLoads(p, Wanted(keys), NodeTag(key));
  }

  lemma RotateLoads(p: Pool, w: World, s: Settings, key: string)
    requires p.connected && p.xray.Up? && Smooth(w) && Servers(w.rows) != []
    ensures NodeTag(key) in Rotate(p, w, s).loaded
       <==> && key in RotateRing(p, w, s).All() && Eligible(w.rows, key)
            && (NodeTag(key) in p.loaded || NodeTag(key) !in p.xray.outbounds)
  {
    ServersAreEligible(w.rows, key);
    var keys := Among(RotateRing(p, w, s).All(), Servers(w.rows));
    assert NodeTag(key)[0] == 'n' && FALLBACK_TAG[0] == 'f';
    SyncLoads(p.(leases := map[]), Wanted(keys), NodeTag(key));
  }

  lemma {:induction false} PlannedFromStandby(slots: seq<Slot>, servers: seq<string>, unique: seq<string>, i: nat, j: nat)
    requires j < i <= |slots| && unique != []
    ensures var given := PlanUpTo(slots, servers, unique, i).given;
      given[j] == None <==> Live(slots[j], servers)
    ensures var given := PlanUpTo(slots, servers, unique, i).given;
      given[j].Some? ==> given[j].value in unique
  {
    if j < i - 1 {
      PlannedFromStandby(slots, servers, unique, i - 1, j);
    }
  }

  /** The slot keeps its eligible node, or gets an eligible one of these. */
  predicate FilledFrom(before: Slot, after: Slot, rows: seq<CatalogRow>, standby: seq<string>) {
    if before.server.Some? && Eligible(rows, before.server.value) then after == before
    else after.server.Some? && after.server.value in standby && Eligible(rows, after.server.value)
  }

  lemma PlanFills(slots: seq<Slot>, rows: seq<CatalogRow>, standby: seq<string>, k: string, i: nat)
    requires i < |slots| && k in standby && Eligible(rows, k)
    ensures var given := RepairPlan(slots, Servers(rows), Among(standby, Servers(rows)));
      && (given[i].None? <==> slots[i].server.Some? && Eligible(rows, slots[i].server.value))
      && (given[i].Some? ==> given[i].value in standby && Eligible(rows, given[i].value))
  {
    var servers := Servers(rows);
    var unique := Among(Among(standby, servers), servers);
    ServersAreEligible(rows, k);
    assert k in unique;
    PlannedFromStandby(slots, servers, unique, |slots|, i);
    var given := RepairPlan(slots, servers, Among(standby, servers));
    if given[i].Some? {
      ServersAreEligible(rows, given[i].value);
    }
    if slots[i].server.Some? {
      ServersAreEligible(rows, slots[i].server.value);
    }
  }

  lemma RepairFills(p: Pool, rows: seq<CatalogRow>, standby: seq<string>, now: int, f: Faults, k: string, i: nat)
    requires i < |p.slots| && k in standby && Eligible(rows, k)
    ensures var q := Repair(p, Servers(rows), Among(standby, Servers(rows)), now, f);
      |q.slots| == |p.slots| && FilledFrom(p.slots[i], q.slots[i], rows, standby)
  {
    PlanFills(p.slots, rows, standby, k, i);
  }

  /** A repairing refresh keeps every slot with an eligible node and fills the others from the standby
      tier alone, as long as that has an eligible node. */
  lemma ReplacementIsStandby(p: Pool, w: World, s: Settings, k: string, i: nat)
    requires i < |p.slots| && Holding(p.slots) != {} && k in RefreshRing(p, w, s).standby && Eligible(w.rows, k)
    ensures var q := Refresh(p, false, w, s);
      |q.slots| == |p.slots| && FilledFrom(p.slots[i], q.slots[i], w.rows, RefreshRing(p, w, s).standby)
  {
    ServersAreEligible(w.rows, k);
    var ring := RefreshRing(p, w, s);
    var synced := Sync(p, Wanted(Among(ring.All(), Servers(w.rows))), w.faults);
    RepairFills(synced, w.rows, ring.standby, w.assignTime, w.faults, k, i);
  }
}
