/** When the balancers of the running Xray agree with the slots: exact conditions for each
    operation, and agreement along whole runs.  */
module PoolAgreement {
  import opened Wrappers
  import opened PoolPorts
  import opened Spreading
  import opened PoolModel
  import opened PoolProofs

  /** Balancer `i` is overridden to the outbound tag of the node in slot `i`. */
  ghost predicate OverrideRight(p: Pool, i: nat)
    requires i < |p.slots|
  {
    && p.xray.Up? && p.slots[i].server.Some?
    && BalancerTag(i) in p.xray.overrides
    && p.xray.overrides[BalancerTag(i)] == NodeTag(p.slots[i].server.value)
  }

  /** Traffic of slot `i` leaves through the node the slot record names. */
  ghost predicate Serves(p: Pool, i: nat)
    requires i < |p.slots|
  {
    && OverrideRight(p, i)
    && p.slots[i].tag == Some(NodeTag(p.slots[i].server.value))
    && NodeTag(p.slots[i].server.value) in p.xray.outbounds
    && NodeTag(p.slots[i].server.value) in p.loaded
    && p.xray.outbounds[NodeTag(p.slots[i].server.value)] == p.slots[i].server.value
  }

  ghost predicate Agrees(p: Pool) {
    p.xray.Up? && forall i | 0 <= i < |p.slots| :: Serves(p, i)
  }

  /** Xray and the control channel are up, whatever failed before. */
  ghost predicate Ready(p: Pool) { Bookkeeping(p) && p.xray.Up? && p.connected }

  /** The outbounds that Xray holds and the controller does not know of. */
  function Leaked(p: Pool): set<string> {
    if p.xray.Up? then p.xray.outbounds.Keys - p.loaded else {}
  }

  lemma LoadedNeverFallback(p: Pool)
    requires Bookkeeping(p) && p.xray.Up?
    ensures FALLBACK_TAG !in p.loaded
  {
    forall t | t in p.loaded ensures t != FALLBACK_TAG {
      assert t == NodeTag(p.xray.outbounds[t]) && t[0] == 'n';
    }
  }

  lemma LeakSets(outs: set<string>, loaded: set<string>, wanted: set<string>, failed: set<string>, lost: set<string>)
    requires loaded <= outs
    ensures var stale, added := loaded - wanted, wanted - loaded - (outs - loaded) - failed;
      outs - (stale - failed) + added - (loaded - stale + (added - lost))
        == outs - loaded + (stale * failed) + (added * lost)
  {
  }

  /** A tag leaks when its removal fails, for the controller forgets it all the same, and when the
      news of its addition is lost. Nothing but a launch takes a leak back. */
  lemma SyncLeaksExactly(p: Pool, keys: seq<string>, f: Faults)
    requires Ready(p)
    ensures var wanted := Wanted(keys);
      Leaked(Sync(p, wanted, f))
        == Leaked(p) + ((p.loaded - wanted.Keys) * f.failed)
           + ((wanted.Keys - p.loaded - Leaked(p) - f.failed) * f.lost)
  {
    LoadedNeverFallback(p);
    var wanted := Wanted(keys);
    var stale, missing := Stale(p.loaded, wanted), wanted.Keys - p.loaded;
    assert stale == p.loaded - wanted.Keys;
    var x := RemoveAll(p.xray, stale, f);
    assert x.outbounds.Keys == p.xray.outbounds.Keys - (stale - f.failed);
    assert Added(x, missing, f) == missing - Leaked(p) - f.failed;
    var q := Sync(p, wanted, f);
    assert q.xray.outbounds.Keys == x.outbounds.Keys + Added(x, missing, f);
    LeakSets(p.xray.outbounds.Keys, p.loaded, wanted.Keys, f.failed, f.lost);
  }

  /** The loaded outbounds are those of `keys`, but for the leaked ones. */
  ghost predicate LoadedFor(p: Pool, keys: seq<string>) {
    forall k :: NodeTag(k) in p.loaded <==> k in keys && NodeTag(k) !in Leaked(p)
  }

  /** Without failed calls a sync loads every wanted node that is not leaked: Xray refuses to add
      a tag it has. */
  lemma ReadySync(p: Pool, keys: seq<string>)
    requires Ready(p)
    ensures var q := Sync(p, Wanted(keys), NO_FAULTS);
      && Ready(q) && LoadedFor(q, keys) && Leaked(q) == Leaked(p) && q.slots == p.slots
      && q.leases == p.leases && q.xray.overrides == p.xray.overrides
  {
    var wanted := Wanted(keys);
    SyncKeepsBooks(p, keys, NO_FAULTS);
    SyncLeaksExactly(p, keys, NO_FAULTS);
    LoadedNeverFallback(p);
    var stale, missing := Stale(p.loaded, wanted), wanted.Keys - p.loaded;
    assert p.loaded - stale == p.loaded * wanted.Keys;
    var q := Sync(p, wanted, NO_FAULTS);
    assert Added(RemoveAll(p.xray, stale, NO_FAULTS), missing, NO_FAULTS) == missing - Leaked(p);
    assert q.loaded == wanted.Keys - Leaked(p);
  }

  /** After such a sync a slot serves its node exactly when the node was wanted and is not leaked,
      and the override is right. */
  lemma ServesIff(q: Pool, keys: seq<string>, i: nat)
    requires Ready(q) && LoadedFor(q, keys) && i < |q.slots|
    ensures Serves(q, i)
       <==> && OverrideRight(q, i) && q.slots[i].server.value in keys
            && NodeTag(q.slots[i].server.value) !in Leaked(q)
  {
    if q.slots[i].server.Some? {
      var k := q.slots[i].server.value;
      if NodeTag(k) in q.xray.outbounds {
        NodeTagInjective(k, q.xray.outbounds[NodeTag(k)]);
      }
    }
  }

  lemma AssignServes(q: Pool, keys: seq<string>, given: Slots, now: int)
    requires Ready(q) && LoadedFor(q, keys) && |given| == |q.slots|
    ensures var r := Assign(q, given, now, NO_FAULTS);
      && Ready(r) && Leaked(r) == Leaked(q)
      && forall i | 0 <= i < |given| ::
           Serves(r, i) <==> given[i].Some? && given[i].value in keys && NodeTag(given[i].value) !in Leaked(q)
  {
    var r := Assign(q, given, now, NO_FAULTS);
    AssignKeepsBooks(q, given, now, NO_FAULTS);
    assert Leaked(r) == Leaked(q) && LoadedFor(r, keys);
    forall i | 0 <= i < |given|
      ensures Serves(r, i) <==> given[i].Some? && given[i].value in keys && NodeTag(given[i].value) !in Leaked(q)
    {
      RequestAt(given, i);
      ServesIff(r, keys, i);
    }
  }

  lemma ServerKeysNotEmpty(rows: seq<CatalogRow>)
    ensures "" !in Servers(rows)
  {
    EligibleFromRows(rows, "");
    FirstSeenMembers(EligibleKeys(rows), {}, "");
  }

  lemma {:induction false} EligibleFromRows(rows: seq<CatalogRow>, k: string)
    ensures k in EligibleKeys(rows) <==> exists i | 0 <= i < |rows| :: rows[i].eligible && rows[i].key == k
  {
    if rows != [] {
      EligibleFromRows(rows[..|rows| - 1], k);
    }
  }

  /** No slot is given a leaked node. */
  ghost predicate NoneLeaked(given: Slots, leaked: set<string>) {
    forall i | 0 <= i < |given| && given[i].Some? :: NodeTag(given[i].value) !in leaked
  }

  lemma AssignAllAgrees(q: Pool, keys: seq<string>, shuffled: seq<string>, now: int, s: Settings)
    requires Ready(q) && LoadedFor(q, keys) && |q.slots| > 0 && "" !in keys
    ensures var r := AssignAll(q, keys, shuffled, now, s, NO_FAULTS);
      && Ready(r) && Leaked(r) == Leaked(q) && |r.slots| == |q.slots|
      && (Agrees(r) <==>
            keys != [] && NoneLeaked(Dealt(q, Shuffle(keys, shuffled), now, s.minReuse), Leaked(q)))
  {
    var given := Dealt(q, Shuffle(keys, shuffled), now, s.minReuse);
    DealtAmong(q, keys, shuffled, now, s.minReuse);
    AssignServes(q, keys, given, now);
  }

  lemma DealtAmong(q: Pool, keys: seq<string>, shuffled: seq<string>, now: int, minReuse: int)
    requires "" !in keys
    ensures var given := Dealt(q, Shuffle(keys, shuffled), now, minReuse);
      forall i | 0 <= i < |given| ::
        if keys == [] then given[i] == None else given[i].Some? && given[i].value in keys
  {
    var ordered := Shuffle(keys, shuffled);
    forall k ensures k in ordered <==> k in keys { ShuffleMembers(keys, shuffled, k); }
    assert |ordered| == |keys| by {
      assert |multiset(ordered)| == |ordered| && |multiset(keys)| == |keys|;
    }
    DealtNodes(q, ordered, now, minReuse);
  }

  lemma {:induction false} FreshOfLeases(p: Pool, q: Pool, ordered: seq<string>, now: int, minReuse: int, rested: bool)
    requires p.leases == q.leases
    ensures Fresh(p, ordered, now, minReuse, rested) == Fresh(q, ordered, now, minReuse, rested)
  {
    if ordered != [] { FreshOfLeases(p, q, ordered[..|ordered| - 1], now, minReuse, rested); }
  }

  /** What is dealt depends on the number of slots and the leases only. */
  lemma DealtOfLeases(p: Pool, q: Pool, ordered: seq<string>, now: int, minReuse: int)
    requires p.leases == q.leases && |p.slots| == |q.slots|
    ensures Dealt(p, ordered, now, minReuse) == Dealt(q, ordered, now, minReuse)
  {
    FreshOfLeases(p, q, ordered, now, minReuse, true);
    FreshOfLeases(p, q, ordered, now, minReuse, false);
  }

  lemma AmongNonEmpty(keys: seq<string>, servers: seq<string>)
    ensures Among(keys, servers) != [] <==> exists k :: k in keys && k in servers
  {
    var r := Among(keys, servers);
    if r != [] { assert r[0] in r; }
  }

  /** The eligible nodes of the ring of a rotation, and what its shuffle deals from them. */
  function RotateKeys(p: Pool, w: World, s: Settings): seq<string> {
    Among(RotateRing(p, w, s).All(), Servers(w.rows))
  }

  function RotateDeal(p: Pool, w: World, s: Settings): Slots {
    Dealt(p.(leases := map[]), Shuffle(RotateKeys(p, w, s), w.shuffled), w.assignTime, s.minReuse)
  }

  /** Whatever failed before: a rotation without failed calls ends in agreement exactly when the
      ring holds an eligible node and no node it deals is leaked. The ring is chosen from all
      candidate rows, so it may hold none although eligible nodes exist. */
  lemma RotateAgreesIff(p: Pool, w: World, s: Settings)
    requires Ready(p) && |p.slots| > 0 && w.faults == NO_FAULTS && Servers(w.rows) != []
    ensures Ready(Rotate(p, w, s)) && Leaked(Rotate(p, w, s)) == Leaked(p)
    ensures Agrees(Rotate(p, w, s))
       <==> && (exists k :: k in RotateRing(p, w, s).All() && k in Servers(w.rows))
            && NoneLeaked(RotateDeal(p, w, s), Leaked(p))
  {
    var keys := RotateKeys(p, w, s);
    var q := p.(leases := map[]);
    assert Leaked(q) == Leaked(p);
    ReadySync(q, keys);
    ServerKeysNotEmpty(w.rows);
    var synced := Sync(q, Wanted(keys), NO_FAULTS);
    DealtOfLeases(q, synced, Shuffle(keys, w.shuffled), w.assignTime, s.minReuse);
    AssignAllAgrees(synced, keys, w.shuffled, w.assignTime, s);
    AmongNonEmpty(RotateRing(p, w, s).All(), Servers(w.rows));
  }

  function RefreshKeys(p: Pool, w: World, s: Settings): seq<string> {
    Among(RefreshRing(p, w, s).All(), Servers(w.rows))
  }

  function RefreshDeal(p: Pool, w: World, s: Settings): Slots {
    Dealt(p, Shuffle(RefreshKeys(p, w, s), w.shuffled), w.assignTime, s.minReuse)
  }

  /** The same for a refresh that gives all slots anew. */
  lemma InitialRefreshAgreesIff(p: Pool, initial: bool, w: World, s: Settings)
    requires Ready(p) && |p.slots| > 0 && w.faults == NO_FAULTS && Servers(w.rows) != []
    requires initial || Holding(p.slots) == {}
    ensures Ready(Refresh(p, initial, w, s)) && Leaked(Refresh(p, initial, w, s)) == Leaked(p)
    ensures Agrees(Refresh(p, initial, w, s))
       <==> && (exists k :: k in RefreshRing(p, w, s).All() && k in Servers(w.rows))
            && NoneLeaked(RefreshDeal(p, w, s), Leaked(p))
  {
    var keys := RefreshKeys(p, w, s);
    ReadySync(p, keys);
    ServerKeysNotEmpty(w.rows);
    var synced := Sync(p, Wanted(keys), NO_FAULTS);
    DealtOfLeases(p, synced, Shuffle(keys, w.shuffled), w.assignTime, s.minReuse);
    AssignAllAgrees(synced, keys, w.shuffled, w.assignTime, s);
    AmongNonEmpty(RefreshRing(p, w, s).All(), Servers(w.rows));
  }

  /** Without a control channel such a refresh or a rotation makes no call and leaves slots and
      Xray alone. */
  lemma WithoutControl(p: Pool, initial: bool, w: World, s: Settings)
    requires !p.connected
    ensures initial || Holding(p.slots) == {} ==> Refresh(p, initial, w, s) == p
    ensures Rotate(p, w, s) == if Servers(w.rows) == [] then p else p.(leases := map[])
    ensures Agrees(Rotate(p, w, s)) <==> Agrees(p)
  {
    var q := p.(leases := map[]);
    forall i | 0 <= i < |p.slots| ensures Serves(q, i) <==> Serves(p, i) {
    }
  }

  // ---- repair ----------------------------------------------------------------------------------

  /** The node of slot `i` after a repair: the replacement, or what the slot held. */
  function KeyAfter(slots: seq<Slot>, given: Slots, i: nat): Option<string>
    requires i < |slots| == |given|
  {
    if given[i].Some? then given[i] else slots[i].server
  }

  lemma RepairServes(q: Pool, servers: seq<string>, standby: seq<string>, keys: seq<string>, now: int, i: nat)
    requires Ready(q) && LoadedFor(q, keys) && i < |q.slots|
    ensures var r, given := Repair(q, servers, standby, now, NO_FAULTS), RepairPlan(q.slots, servers, standby);
            var key := KeyAfter(q.slots, given, i);
      && |r.slots| == |q.slots|
      && (Serves(r, i) <==>
            && key.Some? && key.value in keys && NodeTag(key.value) !in Leaked(q)
            && (given[i].None? ==> OverrideRight(q, i)))
  {
    var given := RepairPlan(q.slots, servers, standby);
    var r := Repair(q, servers, standby, now, NO_FAULTS);
    RepairStaysReady(q, servers, standby, now);
    RequestAt(given, i);
    ServesIff(r, keys, i);
  }

  /** The replacements a repairing refresh makes. */
  function RefreshPlan(p: Pool, w: World, s: Settings): Slots {
    RepairPlan(p.slots, Servers(w.rows), Among(RefreshRing(p, w, s).standby, Servers(w.rows)))
  }

  /** Slot `i` will agree after a repairing refresh: its node, kept or new, is in the ring and
      not leaked, and a kept node already has its override, which a repair never sends again. */
  ghost predicate WillServe(p: Pool, w: World, s: Settings, i: nat)
    requires i < |p.slots|
  {
    var given := RefreshPlan(p, w, s);
    var key := KeyAfter(p.slots, given, i);
    && key.Some? && key.value in RefreshRing(p, w, s).All() && key.value in Servers(w.rows)
    && NodeTag(key.value) !in Leaked(p)
    && (given[i].None? ==> OverrideRight(p, i))
  }

  /** Whatever failed before: a repairing refresh without failed calls ends in agreement exactly
      when every slot will agree; all of this can be checked before the call. */
  lemma RepairingRefreshAgreesIff(p: Pool, w: World, s: Settings)
    requires Ready(p) && w.faults == NO_FAULTS && Servers(w.rows) != [] && Holding(p.slots) != {}
    ensures var r := Refresh(p, false, w, s); Ready(r) && Leaked(r) == Leaked(p) && |r.slots| == |p.slots|
    ensures Agrees(Refresh(p, false, w, s)) <==> forall i | 0 <= i < |p.slots| :: WillServe(p, w, s, i)
  {
    var servers := Servers(w.rows);
    var ring, keys := RefreshRing(p, w, s), RefreshKeys(p, w, s);
    ReadySync(p, keys);
    var q := Sync(p, Wanted(keys), NO_FAULTS);
    var r := Refresh(p, false, w, s);
    assert r == Repair(q, servers, Among(ring.standby, servers), w.assignTime, NO_FAULTS);
    RepairStaysReady(q, servers, Among(ring.standby, servers), w.assignTime);
    forall i | 0 <= i < |p.slots| ensures Serves(r, i) <==> WillServe(p, w, s, i) {
      RepairServes(q, servers, Among(ring.standby, servers), keys, w.assignTime, i);
    }
  }

  lemma RepairStaysReady(q: Pool, servers: seq<string>, standby: seq<string>, now: int)
    requires Ready(q)
    ensures var r := Repair(q, servers, standby, now, NO_FAULTS);
      Ready(r) && Leaked(r) == Leaked(q) && r.loaded == q.loaded && |r.slots| == |q.slots|
  {
    RepairKeepsBooks(q, servers, standby, now, NO_FAULTS);
  }
}
