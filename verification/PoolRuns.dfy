/** Agreement along runs of the pool, and the runs on which it is lost.  */
module PoolRuns {
  import opened Ordering
  import opened PoolPorts
  import opened Spreading
  import opened HotSet
  import opened PoolModel
  import opened PoolProofs
  import opened PoolAgreement
  import opened PoolRepair

  /** All candidate rows fit into the ring of a pool with `n` slots. */
  ghost predicate FitsRing(rows: seq<CatalogRow>, n: nat, s: Settings) {
    |set r | r in rows :: r.key| <= n + Clip(s.standby) + Clip(s.reserve)
  }

  lemma {:induction false} ScoredKey(rows: seq<CatalogRow>, inUse: set<string>, cooling: set<string>)
    ensures var s := ScoreRows(HotRows(rows), inUse, cooling);
      |s| == |rows| && forall i | 0 <= i < |s| :: s[i].key == rows[i].key
  {
    if rows != [] {
      var n := |rows| - 1;
      ScoredKey(rows[..n], inUse, cooling);
      assert HotRows(rows)[..n] == HotRows(rows[..n]);
    }
  }

  lemma RankedHasRowKeys(rows: seq<CatalogRow>, inUse: set<string>, cooling: set<string>, k: string)
    ensures k in RankedKeys(ScoreRows(HotRows(rows), inUse, cooling)) <==> k in (set r | r in rows :: r.key)
  {
    var s := ScoreRows(HotRows(rows), inUse, cooling);
    ScoredKey(rows, inUse, cooling);
    RankedKeysAreRowKeys(s, k);
    if k in (set r | r in rows :: r.key) {
      var i :| 0 <= i < |rows| && rows[i].key == k;
      assert s[i].key == k;
    }
  }

  lemma SameMembersCount(keys: seq<string>, members: set<string>)
    requires Distinct(keys) && forall k :: k in keys <==> k in members
    ensures |keys| == |members|
  {
    DistinctCard(keys);
    assert (set k | k in keys) == members;
  }

  lemma RankedCount(rows: seq<CatalogRow>, inUse: set<string>, cooling: set<string>)
    ensures |RankedKeys(ScoreRows(HotRows(rows), inUse, cooling))| == |set r | r in rows :: r.key|
  {
    var s := ScoreRows(HotRows(rows), inUse, cooling);
    FirstSeenDistinct(KeysAt(s, SortedPositions(s)), {});
    forall k ensures k in RankedKeys(s) <==> k in (set r | r in rows :: r.key) {
      RankedHasRowKeys(rows, inUse, cooling, k);
    }
    SameMembersCount(RankedKeys(s), (set r | r in rows :: r.key));
  }

  lemma RingHoldsServers(rows: seq<CatalogRow>, n: nat, s: Settings, inUse: set<string>, cooling: set<string>, k: string)
    requires FitsRing(rows, n, s) && k in Servers(rows)
    ensures k in RingFor(rows, n, s, inUse, cooling).All()
  {
    var scored := ScoreRows(HotRows(rows), inUse, cooling);
    RankedCount(rows, inUse, cooling);
    RingIsPrefix(scored, n, s.standby, s.reserve);
    assert RingFor(rows, n, s, inUse, cooling).All() == RankedKeys(scored);
    FirstSeenMembers(EligibleKeys(rows), {}, k);
    EligibleFromRows(rows, k);
    var i :| 0 <= i < |rows| && rows[i].eligible && rows[i].key == k;
    assert rows[i] in rows;
    RankedHasRowKeys(rows, inUse, cooling, k);
  }

  lemma WillServeWhenFitting(p: Pool, w: World, s: Settings, i: nat)
    requires FitsRing(w.rows, |p.slots|, s) && Servers(w.rows) != [] && i < |p.slots|
    ensures KeyAfter(p.slots, RefreshPlan(p, w, s), i).Some?
    ensures WillServe(p, w, s, i)
       <==> && (Live(p.slots[i], Servers(w.rows)) ==> OverrideRight(p, i))
            && NodeTag(KeyAfter(p.slots, RefreshPlan(p, w, s), i).value) !in Leaked(p)
  {
    var servers := Servers(w.rows);
    var standby := Among(RefreshRing(p, w, s).standby, servers);
    var given := RefreshPlan(p, w, s);
    PlanReplaces(p.slots, servers, Among(standby, servers), |p.slots|, i);
    var key := KeyAfter(p.slots, given, i).value;
    RingHoldsServers(w.rows, |p.slots|, s, Holding(p.slots),
                     CoolingKeys(p, servers, w.ringTime, s.minReuse), key);
  }

  /** No slot is left with a leaked node. */
  ghost predicate NoneHeldLeaked(p: Pool, given: Slots)
    requires |given| == |p.slots|
  {
    forall i | 0 <= i < |given| && KeyAfter(p.slots, given, i).Some? ::
      NodeTag(KeyAfter(p.slots, given, i).value) !in Leaked(p)
  }

  /** When all candidate rows fit into the ring, a repairing refresh without failed calls ends in
      agreement exactly when every live slot already has its override and no node kept or put in
      is leaked. */
  lemma FittingRepairAgreesIff(p: Pool, w: World, s: Settings)
    requires Ready(p) && w.faults == NO_FAULTS && Servers(w.rows) != [] && Holding(p.slots) != {}
    requires FitsRing(w.rows, |p.slots|, s)
    ensures Agrees(Refresh(p, false, w, s))
       <==> && (forall i | 0 <= i < |p.slots| && Live(p.slots[i], Servers(w.rows)) :: OverrideRight(p, i))
            && NoneHeldLeaked(p, RefreshPlan(p, w, s))
  {
    RepairingRefreshAgreesIff(p, w, s);
    var given := RefreshPlan(p, w, s);
    forall i | 0 <= i < |p.slots|
      ensures KeyAfter(p.slots, given, i).Some?
      ensures WillServe(p, w, s, i)
         <==> && (Live(p.slots[i], Servers(w.rows)) ==> OverrideRight(p, i))
              && NodeTag(KeyAfter(p.slots, given, i).value) !in Leaked(p)
    {
      WillServeWhenFitting(p, w, s, i);
    }
  }

  // ---- agreement along runs --------------------------------------------------------------------

  /** The pool runs and every slot is served by its node. */
  ghost predicate Settled(p: Pool) { Ready(p) && Agrees(p) && |p.slots| > 0 }

  /** No failed call and no crash; rows that fit the ring (refresh) or a ring that holds an
      eligible node (rotation). */
  ghost predicate Calm(p: Pool, e: Event, s: Settings) {
    match e
    case Launched(_) => false
    case Crashed => false
    case Reconnected(ok) => ok
    case Refreshed(_, w) => w.faults == NO_FAULTS && FitsRing(w.rows, |p.slots|, s)
    case Rotated(w) =>
      && w.faults == NO_FAULTS
      && (Servers(w.rows) == [] || exists k :: k in RotateRing(p, w, s).All() && k in Servers(w.rows))
  }

  /** The nodes an event gives out. */
  function GivenOut(p: Pool, e: Event, s: Settings): Slots {
    match e
    case Refreshed(initial, w) =>
      if Servers(w.rows) == [] then []
      else if initial || Holding(p.slots) == {} then RefreshDeal(p, w, s)
      else RefreshPlan(p, w, s)
    case Rotated(w) => if Servers(w.rows) == [] then [] else RotateDeal(p, w, s)
    case _ => []
  }

  /** An event that cannot unsettle the pool: calm, and giving out no leaked node. */
  ghost predicate Smooth(p: Pool, e: Event, s: Settings) {
    Calm(p, e, s) && NoneLeaked(GivenOut(p, e, s), Leaked(p))
  }

  lemma FittingInitialRefresh(p: Pool, initial: bool, w: World, s: Settings)
    requires Ready(p) && |p.slots| > 0 && w.faults == NO_FAULTS && Servers(w.rows) != []
    requires FitsRing(w.rows, |p.slots|, s) && (initial || Holding(p.slots) == {})
    ensures Settled(Refresh(p, initial, w, s)) <==> NoneLeaked(RefreshDeal(p, w, s), Leaked(p))
  {
    var servers := Servers(w.rows);
    InitialRefreshAgreesIff(p, initial, w, s);
    assert servers[0] in servers;
    RingHoldsServers(w.rows, |p.slots|, s, Holding(p.slots),
                     CoolingKeys(p, servers, w.ringTime, s.minReuse), servers[0]);
    NextKeepsBooks(p, Refreshed(initial, w), s);
  }

  /** A settled pool serves every slot, so its nodes are not leaked and its overrides are right. */
  lemma SettledSlots(p: Pool, given: Slots)
    requires Settled(p) && |given| == |p.slots|
    ensures forall i | 0 <= i < |p.slots| :: OverrideRight(p, i)
    ensures NoneHeldLeaked(p, given) <==> NoneLeaked(given, Leaked(p))
  {
    forall i | 0 <= i < |p.slots|
      ensures OverrideRight(p, i) && NodeTag(p.slots[i].server.value) !in Leaked(p)
      ensures given[i].Some? ==> KeyAfter(p.slots, given, i) == given[i]
    {
      assert Serves(p, i);
    }
  }

  lemma SettledRefresh(p: Pool, initial: bool, w: World, s: Settings)
    requires Settled(p) && w.faults == NO_FAULTS && FitsRing(w.rows, |p.slots|, s) && Servers(w.rows) != []
    ensures var q := Refresh(p, initial, w, s);
      && Leaked(q) == Leaked(p)
      && (Settled(q) <==> NoneLeaked(GivenOut(p, Refreshed(initial, w), s), Leaked(p)))
  {
    if initial || Holding(p.slots) == {} {
      InitialRefreshAgreesIff(p, initial, w, s);
      FittingInitialRefresh(p, initial, w, s);
    } else {
      SettledSlots(p, RefreshPlan(p, w, s));
      RepairingRefreshAgreesIff(p, w, s);
      FittingRepairAgreesIff(p, w, s);
    }
  }

  /** A calm event leaves a settled pool settled exactly when it gives out no leaked node, and it
      leaks nothing. */
  lemma SettledNext(p: Pool, e: Event, s: Settings)
    requires Settled(p) && Calm(p, e, s)
    ensures Settled(Next(p, e, s)) <==> Smooth(p, e, s)
    ensures Leaked(Next(p, e, s)) == Leaked(p)
  {
    match e
    case Reconnected(_) =>
    case Refreshed(initial, w) =>
      if Servers(w.rows) != [] { SettledRefresh(p, initial, w, s); }
    case Rotated(w) =>
      NextKeepsBooks(p, e, s);
      if Servers(w.rows) != [] { RotateAgreesIff(p, w, s); }
  }

  lemma RunSnoc(p: Pool, events: seq<Event>, e: Event, s: Settings)
    ensures Run(p, events + [e], s) == Next(Run(p, events, s), e, s)
  {
    assert (events + [e])[..|events|] == events;
  }

  lemma {:induction false} RunAppend(p: Pool, a: seq<Event>, b: seq<Event>, s: Settings)
    ensures Run(p, a + b, s) == Run(Run(p, a, s), b, s)
  {
    if b == [] {
      assert a + b == a;
    } else {
      var front, e := b[..|b| - 1], b[|b| - 1];
      RunAppend(p, a, front, s);
      RunSnoc(p, a + front, e, s);
      RunSnoc(Run(p, a, s), front, e, s);
      assert a + b == (a + front) + [e] && b == front + [e];
    }
  }

  ghost predicate SmoothRun(p: Pool, events: seq<Event>, s: Settings) {
    events == [] ||
    var n := |events| - 1;
    SmoothRun(p, events[..n], s) && Smooth(Run(p, events[..n], s), events[n], s)
  }

  lemma {:induction false} SettledRun(p: Pool, events: seq<Event>, s: Settings)
    requires Settled(p) && SmoothRun(p, events, s)
    ensures Settled(Run(p, events, s)) && Leaked(Run(p, events, s)) == Leaked(p)
  {
    if events != [] {
      SettledRun(p, events[..|events| - 1], s);
      SettledNext(Run(p, events[..|events| - 1], s), events[|events| - 1], s);
    }
  }

  ghost predicate CalmRun(p: Pool, events: seq<Event>, s: Settings) {
    events == [] ||
    var n := |events| - 1;
    CalmRun(p, events[..n], s) && Calm(Run(p, events[..n], s), events[n], s)
  }

  /** Where nothing is leaked, calm is enough. */
  lemma {:induction false} CalmIsSmooth(p: Pool, events: seq<Event>, s: Settings)
    requires Settled(p) && Leaked(p) == {} && CalmRun(p, events, s)
    ensures SmoothRun(p, events, s)
  {
    if events != [] {
      CalmIsSmooth(p, events[..|events| - 1], s);
      SettledRun(p, events[..|events| - 1], s);
    }
  }

  /** Launch and first refresh, after whatever happened before. */
  function Recovery(w: World): seq<Event> { [Launched(true)] + [Refreshed(true, w)] }

  lemma RunOne(p: Pool, e: Event, s: Settings)
    ensures Run(p, [e], s) == Next(p, e, s)
  {
    assert [e][..0] == [];
  }

  lemma RunRecovery(p: Pool, w: World, s: Settings)
    ensures Run(p, Recovery(w), s) == Refresh(Launch(p, true), true, w, s)
  {
    RunOne(p, Launched(true), s);
    RunSnoc(p, [Launched(true)], Refreshed(true, w), s);
  }

  lemma LaunchedReady(p: Pool)
    requires Bookkeeping(p)
    ensures Ready(Launch(p, true)) && Leaked(Launch(p, true)) == {} && |Launch(p, true).slots| == |p.slots|
  {
  }

  lemma FirstRefreshSettles(p: Pool, w: World, s: Settings)
    requires Ready(p) && Leaked(p) == {} && |p.slots| > 0
    requires w.faults == NO_FAULTS && Servers(w.rows) != [] && FitsRing(w.rows, |p.slots|, s)
    ensures Settled(Refresh(p, true, w, s)) && Leaked(Refresh(p, true, w, s)) == {}
  {
    FittingInitialRefresh(p, true, w, s);
    InitialRefreshAgreesIff(p, true, w, s);
  }

  lemma RecoverySettles(p: Pool, w: World, s: Settings)
    requires Bookkeeping(p) && |p.slots| > 0
    requires w.faults == NO_FAULTS && Servers(w.rows) != [] && FitsRing(w.rows, |p.slots|, s)
    ensures Settled(Run(p, Recovery(w), s)) && Leaked(Run(p, Recovery(w), s)) == {}
  {
    RunRecovery(p, w, s);
    LaunchedReady(p);
    FirstRefreshSettles(Launch(p, true), w, s);
  }

  /** Whatever happened before: once Xray has been launched and the first refresh finds eligible
      nodes that fit the ring, every slot is served by its node, and stays so through every
      calm continuation. */
  lemma SettledAfterRecovery(n: nat, before: seq<Event>, w: World, after: seq<Event>, s: Settings)
    requires n > 0 && w.faults == NO_FAULTS && Servers(w.rows) != [] && FitsRing(w.rows, n, s)
    requires CalmRun(Run(Start(n), before + Recovery(w), s), after, s)
    ensures Settled(Run(Start(n), before + Recovery(w) + after, s))
  {
    var p := Run(Start(n), before + Recovery(w), s);
    RunKeepsBooks(n, before, s);
    RunAppend(Start(n), before, Recovery(w), s);
    RecoverySettles(Run(Start(n), before, s), w, s);
    RunAppend(Start(n), before + Recovery(w), after, s);
    CalmIsSmooth(p, after, s);
    SettledRun(p, after, s);
  }

  // ---- where agreement is lost -----------------------------------------------------------------

  /** A refresh after the first one sends a live slot no override: without one it stays without. */
  lemma RepairNeverResends(p: Pool, w: World, s: Settings, i: nat)
    requires Ready(p) && w.faults == NO_FAULTS && i < |p.slots| && Live(p.slots[i], Servers(w.rows))
    requires !OverrideRight(p, i)
    ensures var q := Refresh(p, false, w, s);
      q.xray.Up? && !Agrees(q) && i < |q.slots| && q.slots[i] == p.slots[i]
  {
    assert p.slots[i].server.value in Holding(p.slots);
    RepairingRefreshAgreesIff(p, w, s);
    var servers := Servers(w.rows);
    var standby := Among(RefreshRing(p, w, s).standby, servers);
    PlanReplaces(p.slots, servers, Among(standby, servers), |p.slots|, i);
    assert !WillServe(p, w, s, i);
  }

  /** Respawn into an empty catalog: the refresh right after the launch finds no eligible node
      and returns; the next refresh is not the first any more, takes every slot whose old node
      is eligible for live, and sends it no override. Xray has none, so the slot is not served
      although its record is unchanged. */
  lemma RespawnIntoEmptyCatalog(p: Pool, empty: World, w: World, s: Settings, i: nat)
    requires Bookkeeping(p) && i < |p.slots|
    requires Servers(empty.rows) == [] && w.faults == NO_FAULTS
    requires Live(p.slots[i], Servers(w.rows))
    ensures var q := Run(p, Recovery(empty) + [Refreshed(false, w)], s);
      q.xray.Up? && !Agrees(q) && i < |q.slots| && q.slots[i] == p.slots[i]
  {
    RunRecovery(p, empty, s);
    RunSnoc(p, Recovery(empty), Refreshed(false, w), s);
    RepairNeverResends(Launch(p, true), w, s, i);
  }

  /** A live slot whose node fell out of the ring keeps its record while the refresh removes
      its outbound. */
  lemma LiveNodeOutsideRing(p: Pool, w: World, s: Settings, i: nat)
    requires Ready(p) && w.faults == NO_FAULTS && i < |p.slots| && Live(p.slots[i], Servers(w.rows))
    requires p.slots[i].server.value !in RefreshRing(p, w, s).All()
    ensures var q := Refresh(p, false, w, s);
      && !Agrees(q) && |q.slots| == |p.slots| && q.slots[i] == p.slots[i]
      && p.slots[i].tag.value !in q.loaded
      && (p.slots[i].tag.value in q.xray.outbounds <==> p.slots[i].tag.value in Leaked(p))
  {
    assert p.slots[i].server.value in Holding(p.slots);
    RepairingRefreshAgreesIff(p, w, s);
    var servers := Servers(w.rows);
    var ring := RefreshRing(p, w, s);
    PlanReplaces(p.slots, servers, Among(Among(ring.standby, servers), servers), |p.slots|, i);
    assert !WillServe(p, w, s, i);
    ReadySync(p, Among(ring.All(), servers));
  }

  /** The ring is chosen before eligibility is checked: here its only place goes to a node that
      cannot be used, and a rotation leaves the slot without agreement although an eligible node
      exists. */
  lemma RotationIntoUnusableRing(p: Pool, w: World, s: Settings)
    requires Ready(p) && |p.slots| == 1 && s.standby == 0 && s.reserve == 0 && w.faults == NO_FAULTS
    requires w.rows == [CatalogRow("b", 500.0, false), CatalogRow("a", 100.0, true)]
    ensures Servers(w.rows) == ["a"] && !Agrees(Rotate(p, w, s))
  {
    TwoRows(w.rows);
    var scored := ScoreRows(HotRows(w.rows), {}, {});
    OnlyPlaceTaken(scored);
    assert RotateRing(p, w, s) == HotRing(scored, 1, 0, 0);
    RotateAgreesIff(p, w, s);
  }

  lemma OnlyPlaceTaken(scored: seq<Scored>)
    requires scored == [Scored(500.0, "b"), Scored(100.0, "a")]
    ensures "a" !in HotRing(scored, 1, 0, 0).All()
  {
    var ring := HotRing(scored, 1, 0, 0).All();
    RingIsPrefix(scored, 1, 0, 0);
    if "a" in ring {
      assert ring == ["a"];
      OutsideNeverOutscoresInside(scored, 1, 0, 0, "a", 0);
    }
  }

  lemma TwoRows(rows: seq<CatalogRow>)
    requires rows == [CatalogRow("b", 500.0, false), CatalogRow("a", 100.0, true)]
    ensures Servers(rows) == ["a"]
    ensures ScoreRows(HotRows(rows), {}, {}) == [Scored(500.0, "b"), Scored(100.0, "a")]
  {
    var first := rows[..1];
    assert first[..0] == [] && rows[..2] == rows;
    assert EligibleKeys(first) == [];
    assert EligibleKeys(rows) == ["a"];
    assert FirstSeen(["a"][..0], {}) == [];
    var hot := HotRows(rows);
    assert hot[..1][..0] == [] && hot[..2] == hot;
    assert ScoreRows(hot[..0], {}, {}) == [];
    assert ScoreRows(hot[..1], {}, {}) == [Scored(500.0, "b")];
  }
}
