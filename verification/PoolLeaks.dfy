/** Outbounds that Xray holds and the controller does not know of: how they arise, that they last
    until the process ends, and what they do to agreement.  */
module PoolLeaks {
  import opened Wrappers
  import opened PoolPorts
  import opened Spreading
  import opened PoolModel
  import opened PoolProofs
  import opened PoolAgreement
  import opened PoolRuns

  // ---- leaks last ------------------------------------------------------------------------------

  lemma SyncKeepsLeaks(p: Pool, keys: seq<string>, f: Faults)
    requires Bookkeeping(p) && p.xray.Up?
    ensures var q := Sync(p, Wanted(keys), f);
      && q.xray.Up? && Leaked(p) <= Leaked(q) && (f == NO_FAULTS ==> Leaked(q) == Leaked(p))
  {
    if p.connected { SyncLeaksExactly(p, keys, f); }
  }

  lemma AssignKeepsLeaks(p: Pool, keys: seq<string>, shuffled: seq<string>, now: int, s: Settings, f: Faults)
    requires p.xray.Up?
    ensures var q := AssignAll(p, keys, shuffled, now, s, f); q.xray.Up? && Leaked(q) == Leaked(p)
  {
  }

  lemma RepairKeepsLeaks(p: Pool, servers: seq<string>, standby: seq<string>, now: int, f: Faults)
    requires p.xray.Up?
    ensures var q := Repair(p, servers, standby, now, f); q.xray.Up? && Leaked(q) == Leaked(p)
  {
  }

  /** Neither a launch nor a crash. */
  predicate Stays(e: Event) { !e.Launched? && !e.Crashed? }

  /** No call of this event fails. */
  predicate Faultless(e: Event) {
    match e
    case Refreshed(_, w) => w.faults == NO_FAULTS
    case Rotated(w) => w.faults == NO_FAULTS
    case _ => true
  }

  lemma RefreshKeepsLeaks(p: Pool, initial: bool, w: World, s: Settings)
    requires Bookkeeping(p) && p.xray.Up?
    ensures var q := Refresh(p, initial, w, s);
      && q.xray.Up? && Leaked(p) <= Leaked(q) && (w.faults == NO_FAULTS ==> Leaked(q) == Leaked(p))
  {
    var servers := Servers(w.rows);
    if servers != [] {
      var ring, keys := RefreshRing(p, w, s), RefreshKeys(p, w, s);
      var synced := Sync(p, Wanted(keys), w.faults);
      SyncKeepsLeaks(p, keys, w.faults);
      AssignKeepsLeaks(synced, keys, w.shuffled, w.assignTime, s, w.faults);
      RepairKeepsLeaks(synced, servers, Among(ring.standby, servers), w.assignTime, w.faults);
    }
  }

  lemma RotateKeepsLeaks(p: Pool, w: World, s: Settings)
    requires Bookkeeping(p) && p.xray.Up?
    ensures var q := Rotate(p, w, s);
      && q.xray.Up? && Leaked(p) <= Leaked(q) && (w.faults == NO_FAULTS ==> Leaked(q) == Leaked(p))
  {
    var keys, q := RotateKeys(p, w, s), p.(leases := map[]);
    assert Bookkeeping(q) && Leaked(q) == Leaked(p);
    SyncKeepsLeaks(q, keys, w.faults);
    AssignKeepsLeaks(Sync(q, Wanted(keys), w.faults), keys, w.shuffled, w.assignTime, s, w.faults);
  }

  lemma NextKeepsLeaks(p: Pool, e: Event, s: Settings)
    requires Bookkeeping(p) && p.xray.Up? && Stays(e)
    ensures var q := Next(p, e, s);
      && Bookkeeping(q) && q.xray.Up? && Leaked(p) <= Leaked(q) && (Faultless(e) ==> Leaked(q) == Leaked(p))
  {
    NextKeepsBooks(p, e, s);
    match e
    case Reconnected(_) =>
    case Refreshed(initial, w) => RefreshKeepsLeaks(p, initial, w, s);
    case Rotated(w) => RotateKeepsLeaks(p, w, s);
  }

  /** A leak lasts as long as the process, whatever fails; and while nothing fails there is no new
      one. */
  lemma {:induction false} LeaksLast(p: Pool, events: seq<Event>, s: Settings)
    requires Bookkeeping(p) && p.xray.Up? && forall e | e in events :: Stays(e)
    ensures var q := Run(p, events, s);
      && Bookkeeping(q) && q.xray.Up? && Leaked(p) <= Leaked(q)
      && ((forall e | e in events :: Faultless(e)) ==> Leaked(q) == Leaked(p))
  {
    if events != [] {
      var n := |events| - 1;
      LeaksLast(p, events[..n], s);
      assert events[n] in events;
      NextKeepsLeaks(Run(p, events[..n], s), events[n], s);
    }
  }

  /** So no slot with a leaked node is served as its record says again, through every run without a
      launch: Xray refuses to add the outbound it has, and the tag never counts as loaded. */
  lemma LeakedNeverServes(p: Pool, events: seq<Event>, s: Settings, i: nat)
    requires Bookkeeping(p) && p.xray.Up? && forall e | e in events :: Stays(e)
    requires i < |Run(p, events, s).slots| && Run(p, events, s).slots[i].server.Some?
    requires NodeTag(Run(p, events, s).slots[i].server.value) in Leaked(p)
    ensures !Serves(Run(p, events, s), i) && !Agrees(Run(p, events, s))
  {
    LeaksLast(p, events, s);
    assert !Serves(Run(p, events, s), i);
  }

  // ---- for every shuffle -------------------------------------------------------------------------

  lemma {:induction false} FirstStaysFirst(keys: seq<string>, skip: set<string>)
    requires keys != [] && keys[0] !in skip
    ensures FirstSeen(keys, skip) != [] && FirstSeen(keys, skip)[0] == keys[0]
  {
    if |keys| > 1 {
      FirstStaysFirst(keys[..|keys| - 1], skip);
    } else {
      assert keys[..0] == [] && FirstSeen(keys[..0], skip) == [];
    }
  }

  lemma {:induction false} AllRested(p: Pool, ordered: seq<string>, now: int, minReuse: int, rested: bool)
    requires p.leases == map[]
    ensures Fresh(p, ordered, now, minReuse, rested) == if rested then ordered else []
  {
    if ordered != [] {
      var n := |ordered| - 1;
      AllRested(p, ordered[..n], now, minReuse, rested);
      assert !IsCooling(p.leases, ordered[n], now, minReuse);
      assert ordered == ordered[..n] + [ordered[n]];
    }
  }

  /** With no leases the first slot gets the first node of the shuffle. */
  lemma FirstDealt(p: Pool, ordered: seq<string>, now: int, minReuse: int)
    requires p.leases == map[] && |p.slots| > 0 && ordered != [] && ordered[0] != ""
    ensures Dealt(p, ordered, now, minReuse)[0] == Some(ordered[0])
  {
    AllRested(p, ordered, now, minReuse, true);
    AllRested(p, ordered, now, minReuse, false);
    assert Preferred(p, ordered, now, minReuse) == ordered;
    UsableIsDistinct(ordered);
    FirstStaysFirst(ordered, {""});
    DealtInTurn(|p.slots|, Usable(ordered), Blank(|p.slots|));
  }

  /** An order that deals a given node first. */
  lemma ToFront(keys: seq<string>, k: string) returns (order: seq<string>)
    requires k in keys
    ensures order != [] && order[0] == k && Shuffle(keys, order) == order
  {
    var j :| 0 <= j < |keys| && keys[j] == k;
    order := [k] + (keys[..j] + keys[j + 1..]);
    assert keys == keys[..j] + [k] + keys[j + 1..];
  }

  lemma RotateKeysFixed(p: Pool, w: World, s: Settings, order: seq<string>)
    ensures RotateKeys(p, w.(shuffled := order), s) == RotateKeys(p, w, s)
    ensures RotateRing(p, w.(shuffled := order), s) == RotateRing(p, w, s)
  {
  }

  /** The order under which a rotation does not agree: it deals a leaked node first. */
  lemma LeakedFirst(p: Pool, w: World, s: Settings, k: string) returns (order: seq<string>)
    requires Ready(p) && |p.slots| > 0 && w.faults == NO_FAULTS && Servers(w.rows) != []
    requires k in RotateKeys(p, w, s) && NodeTag(k) in Leaked(p)
    ensures !Agrees(Rotate(p, w.(shuffled := order), s))
  {
    order := ToFront(RotateKeys(p, w, s), k);
    var w' := w.(shuffled := order);
    RotateKeysFixed(p, w, s, order);
    ServerKeysNotEmpty(w.rows);
    FirstDealt(p.(leases := map[]), order, w.assignTime, s.minReuse);
    assert RotateDeal(p, w', s)[0] == Some(k);
    RotateAgreesIff(p, w', s);
  }

  lemma DealsFromRing(p: Pool, w: World, s: Settings)
    requires forall k | k in RotateKeys(p, w, s) :: NodeTag(k) !in Leaked(p)
    ensures NoneLeaked(RotateDeal(p, w, s), Leaked(p))
  {
    ServerKeysNotEmpty(w.rows);
    DealtAmong(p.(leases := map[]), RotateKeys(p, w, s), w.shuffled, w.assignTime, s.minReuse);
  }

  /** A rotation without failed calls agrees under every shuffle exactly when the ring holds an
      eligible node and none of its eligible nodes is leaked. */
  lemma RotateAlwaysAgreesIff(p: Pool, w: World, s: Settings)
    requires Ready(p) && |p.slots| > 0 && w.faults == NO_FAULTS && Servers(w.rows) != []
    ensures (forall order: seq<string> :: Agrees(Rotate(p, w.(shuffled := order), s)))
       <==> && RotateKeys(p, w, s) != []
            && forall k | k in RotateKeys(p, w, s) :: NodeTag(k) !in Leaked(p)
  {
    var keys := RotateKeys(p, w, s);
    AmongNonEmpty(RotateRing(p, w, s).All(), Servers(w.rows));
    if k :| k in keys && NodeTag(k) in Leaked(p) {
      var order := LeakedFirst(p, w, s, k);
    } else {
      forall order: seq<string> ensures Agrees(Rotate(p, w.(shuffled := order), s)) <==> keys != [] {
        RotateKeysFixed(p, w, s, order);
        DealsFromRing(p, w.(shuffled := order), s);
        RotateAgreesIff(p, w.(shuffled := order), s);
      }
    }
  }

  // ---- a run that leaks --------------------------------------------------------------------------

  /** A catalog of one eligible node. */
  function One(key: NodeKey, faults: Faults): World { World([CatalogRow(key, 0.0, true)], 0, 0, [], faults) }

  lemma OneEligible(row: CatalogRow)
    requires row.eligible
    ensures EligibleKeys([row]) == [row.key]
  {
    var rows := [row];
    assert rows[..0] == [] && EligibleKeys(rows[..0]) == [];
  }

  lemma OneSeen(k: string)
    ensures FirstSeen([k], {}) == [k]
  {
    var keys := [k];
    assert keys[..0] == [] && FirstSeen(keys[..0], {}) == [];
  }

  lemma OneServer(key: NodeKey, faults: Faults)
    ensures Servers(One(key, faults).rows) == [key]
  {
    OneEligible(CatalogRow(key, 0.0, true));
    OneSeen(key);
  }

  lemma OneFits(key: NodeKey, faults: Faults, n: nat, s: Settings)
    requires n > 0
    ensures FitsRing(One(key, faults).rows, n, s)
  {
    var rows := One(key, faults).rows;
    assert rows[0] in rows && rows[0].key == key;
    assert (set r | r in rows :: r.key) == {key};
  }

  /** The ring of a rotation then is that node. */
  lemma OneInRing(p: Pool, key: NodeKey, faults: Faults, s: Settings)
    requires |p.slots| > 0
    ensures var keys := RotateKeys(p, One(key, faults), s); key in keys && forall k | k in keys :: k == key
  {
    OneServer(key, faults);
    OneFits(key, faults, |p.slots|, s);
    RingHoldsServers(One(key, faults).rows, |p.slots|, s, {}, {}, key);
  }

  /** Rotating away from a node whose removal fails leaks it. */
  lemma FailedRemovalLeaks(p: Pool, a: NodeKey, b: NodeKey, s: Settings)
    requires Ready(p) && |p.slots| > 0 && a != b && NodeTag(a) in p.loaded
    ensures var q := Rotate(p, One(b, Faults({NodeTag(a)}, {})), s);
      Ready(q) && |q.slots| == |p.slots| && NodeTag(a) in Leaked(q)
  {
    var w := One(b, Faults({NodeTag(a)}, {}));
    var keys, q := RotateKeys(p, w, s), p.(leases := map[]);
    OneServer(b, w.faults);
    OneInRing(p, b, w.faults, s);
    NextKeepsBooks(p, Rotated(w), s);
    SyncLeaksExactly(q, keys, w.faults);
    AssignKeepsLeaks(Sync(q, Wanted(keys), w.faults), keys, w.shuffled, w.assignTime, s, w.faults);
  }

  lemma AssignedSlot(q: Pool, given: Slots, now: int, f: Faults, i: nat, k: string)
    requires Ready(q) && i < |given| == |q.slots| && given[i] == Some(k) && f == NO_FAULTS
    ensures var r := Assign(q, given, now, f); r.slots[i].server == Some(k) && OverrideRight(r, i)
  {
    RequestAt(given, i);
  }

  /** What a rotation without failed calls leaves in a slot it deals a node. */
  lemma RotatedSlot(p: Pool, w: World, s: Settings, i: nat, k: string)
    requires Ready(p) && w.faults == NO_FAULTS && Servers(w.rows) != []
    requires i < |p.slots| && RotateDeal(p, w, s)[i] == Some(k)
    ensures var r := Rotate(p, w, s);
      |r.slots| == |p.slots| && r.slots[i].server == Some(k) && OverrideRight(r, i)
  {
    var keys, q := RotateKeys(p, w, s), p.(leases := map[]);
    assert Ready(q);
    ReadySync(q, keys);
    var synced := Sync(q, Wanted(keys), NO_FAULTS);
    DealtOfLeases(q, synced, Shuffle(keys, w.shuffled), w.assignTime, s.minReuse);
    AssignedSlot(synced, RotateDeal(p, w, s), w.assignTime, NO_FAULTS, i, k);
  }

  lemma OneDealt(p: Pool, a: NodeKey, s: Settings, i: nat)
    requires i < |p.slots|
    ensures RotateDeal(p, One(a, NO_FAULTS), s)[i] == Some(a)
  {
    var w := One(a, NO_FAULTS);
    OneInRing(p, a, NO_FAULTS, s);
    ServerKeysNotEmpty(w.rows);
    DealtAmong(p.(leases := map[]), RotateKeys(p, w, s), w.shuffled, w.assignTime, s.minReuse);
  }

  /** Rotating back to it without any failed call gives every slot the node, and none agrees. */
  lemma LeakedReturns(p: Pool, a: NodeKey, s: Settings, i: nat)
    requires Ready(p) && i < |p.slots| && NodeTag(a) in Leaked(p)
    ensures var q := Rotate(p, One(a, NO_FAULTS), s);
      && q.xray.Up? && |q.slots| == |p.slots| && q.slots[i].server == Some(a)
      && OverrideRight(q, i) && NodeTag(a) in q.xray.outbounds && NodeTag(a) !in q.loaded && !Agrees(q)
  {
    var w := One(a, NO_FAULTS);
    OneServer(a, NO_FAULTS);
    OneDealt(p, a, s, i);
    RotatedSlot(p, w, s, i, a);
    RotateAgreesIff(p, w, s);
  }

  function LeakingEvents(a: NodeKey, b: NodeKey): seq<Event> {
    Recovery(One(a, NO_FAULTS)) + [Rotated(One(b, Faults({NodeTag(a)}, {})))]
  }

  /** From the start, with any settings and any number of slots: launch, refresh onto one node,
      rotate to another while the removal of the first fails, rotate back. The last call fails at
      nothing and finds an eligible node, and yet no slot agrees. */
  lemma LeakingRun(n: nat, a: NodeKey, b: NodeKey, s: Settings, i: nat)
    requires i < n && a != b
    ensures var q := Run(Start(n), LeakingEvents(a, b) + [Rotated(One(a, NO_FAULTS))], s);
      && q.xray.Up? && |q.slots| == n && q.slots[i].server == Some(a)
      && OverrideRight(q, i) && NodeTag(a) in q.xray.outbounds && NodeTag(a) !in q.loaded && !Agrees(q)
  {
    var w, w' := One(a, NO_FAULTS), One(b, Faults({NodeTag(a)}, {}));
    RunKeepsBooks(n, [], s);
    OneServer(a, NO_FAULTS);
    OneFits(a, NO_FAULTS, n, s);
    RecoverySettles(Start(n), w, s);
    var p := Run(Start(n), Recovery(w), s);
    OnlyNodeLoaded(p, n, a, s);
    FailedRemovalLeaks(p, a, b, s);
    RunSnoc(Start(n), Recovery(w), Rotated(w'), s);
    LeakedReturns(Run(Start(n), LeakingEvents(a, b), s), a, s, i);
    RunSnoc(Start(n), LeakingEvents(a, b), Rotated(w), s);
  }

  /** A first refresh without failed calls loads what its ring holds. */
  lemma OneLoaded(p: Pool, a: NodeKey, s: Settings)
    requires Ready(p) && Leaked(p) == {} && |p.slots| > 0
    ensures NodeTag(a) in Refresh(p, true, One(a, NO_FAULTS), s).loaded
  {
    var w := One(a, NO_FAULTS);
    OneServer(a, NO_FAULTS);
    OneFits(a, NO_FAULTS, |p.slots|, s);
    RingHoldsServers(w.rows, |p.slots|, s, Holding(p.slots), CoolingKeys(p, [a], w.ringTime, s.minReuse), a);
    ReadySync(p, RefreshKeys(p, w, s));
  }

  lemma OnlyNodeLoaded(p: Pool, n: nat, a: NodeKey, s: Settings)
    requires n > 0 && p == Run(Start(n), Recovery(One(a, NO_FAULTS)), s)
    ensures |p.slots| == n && NodeTag(a) in p.loaded
  {
    var q := Launch(Start(n), true);
    RunRecovery(Start(n), One(a, NO_FAULTS), s);
    LaunchedReady(Start(n));
    RefreshKeepsBooks(q, true, One(a, NO_FAULTS), s);
    OneLoaded(q, a, s);
  }
}
