/** Which nodes an operation of the pool leases, and what the leases do to later ones.  */
module PoolLeases {
  import opened Wrappers
  import opened Spreading
  import opened PoolModel
  import opened PoolProofs
  import opened PoolAgreement
  import opened PoolRepair

  /** What the slots hold. */
  function Held(slots: seq<Slot>): (r: Slots)
    ensures |r| == |slots| && forall i | 0 <= i < |r| :: r[i] == slots[i].server
  {
    seq(|slots|, i requires 0 <= i < |slots| => slots[i].server)
  }

  /** Exactly the nodes given out have a lease of this moment, for the last slot that got them;
      every other lease is as before. */
  ghost predicate LeasedNow(before: map<string, Lease>, after: map<string, Lease>, given: Slots, now: int) {
    forall k :: LeaseRight(before, after, given, now, k)
  }

  ghost predicate LeaseRight(before: map<string, Lease>, after: map<string, Lease>, given: Slots, now: int, k: string) {
    if Some(k) in given then
      && k in after && after[k].usedAt == now && after[k].slot < |given| && given[after[k].slot] == Some(k)
      && forall j | after[k].slot < j < |given| :: given[j] != Some(k)
    else (k in after <==> k in before) && (k in after ==> after[k] == before[k])
  }

  lemma StampLeases(leases: map<string, Lease>, given: Slots, now: int)
    ensures LeasedNow(leases, Stamp(leases, given, now), given, now)
  {
    forall k ensures LeaseRight(leases, Stamp(leases, given, now), given, now, k) {
      StampIsExact(leases, given, now, k);
    }
  }

  /** An assignment puts the nodes into the slots and leases exactly them. */
  lemma AssignLeases(p: Pool, given: Slots, now: int, f: Faults)
    requires p.connected && |given| == |p.slots|
    ensures var q := Assign(p, given, now, f); Held(q.slots) == given && LeasedNow(p.leases, q.leases, given, now)
  {
    StampLeases(p.leases, given, now);
  }

  lemma AssignAllLeases(p: Pool, keys: seq<string>, shuffled: seq<string>, now: int, s: Settings, f: Faults)
    requires p.connected
    ensures var q := AssignAll(p, keys, shuffled, now, s, f);
      |q.slots| == |p.slots| && LeasedNow(p.leases, q.leases, Held(q.slots), now)
  {
    AssignLeases(p, Dealt(p, Shuffle(keys, shuffled), now, s.minReuse), now, f);
  }

  /** What the slots that were not live hold afterwards. */
  function Replaced(before: seq<Slot>, after: seq<Slot>, servers: seq<string>): (r: Slots)
    ensures |r| == |after|
    ensures forall i | 0 <= i < |r| ::
      r[i] == if i < |before| && Live(before[i], servers) then None else after[i].server
  {
    seq(|after|, i requires 0 <= i < |after| =>
      if i < |before| && Live(before[i], servers) then None else after[i].server)
  }

  /** A repair leases exactly its replacements, whether or not a call fails. */
  lemma RepairLeases(p: Pool, servers: seq<string>, standby: seq<string>, now: int, f: Faults)
    requires servers != []
    ensures var q := Repair(p, servers, standby, now, f);
      |q.slots| == |p.slots| && LeasedNow(p.leases, q.leases, Replaced(p.slots, q.slots, servers), now)
  {
    var given, q := RepairPlan(p.slots, servers, standby), Repair(p, servers, standby, now, f);
    StampLeases(p.leases, given, now);
    forall i | 0 <= i < |p.slots| ensures Replaced(p.slots, q.slots, servers)[i] == given[i] {
      PlanReplaces(p.slots, servers, Among(standby, servers), |p.slots|, i);
    }
    assert Replaced(p.slots, q.slots, servers) == given;
  }

  // ---- refresh and rotation ----------------------------------------------------------------------

  /** The refresh gives all slots anew. */
  predicate Anew(p: Pool, initial: bool) { initial || Holding(p.slots) == {} }

  /** The nodes an event gives to slots, as the slots show it. */
  function GivenBy(p: Pool, e: Event, s: Settings): Slots {
    var q := Next(p, e, s);
    match e
    case Refreshed(initial, w) =>
      if Servers(w.rows) == [] || (Anew(p, initial) && !p.connected) then []
      else if Anew(p, initial) then Held(q.slots)
      else Replaced(p.slots, q.slots, Servers(w.rows))
    case Rotated(w) => if Servers(w.rows) == [] || !p.connected then [] else Held(q.slots)
    case _ => []
  }

  /** The leases an event starts from: a rotation that finds an eligible server clears them. */
  function LeasesFrom(p: Pool, e: Event): map<string, Lease> {
    if e.Rotated? && Servers(e.world.rows) != [] then map[] else p.leases
  }

  function TimeOf(e: Event): int { if e.Refreshed? || e.Rotated? then e.world.assignTime else 0 }

  lemma NothingLeased(leases: map<string, Lease>, now: int)
    ensures LeasedNow(leases, leases, [], now)
  {
  }

  lemma RefreshLeases(p: Pool, initial: bool, w: World, s: Settings)
    ensures var e := Refreshed(initial, w);
      LeasedNow(p.leases, Refresh(p, initial, w, s).leases, GivenBy(p, e, s), w.assignTime)
  {
    var servers := Servers(w.rows);
    NothingLeased(p.leases, w.assignTime);
    if servers != [] {
      var ring, keys := RefreshRing(p, w, s), RefreshKeys(p, w, s);
      var synced := Sync(p, Wanted(keys), w.faults);
      if !Anew(p, initial) {
        RepairLeases(synced, servers, Among(ring.standby, servers), w.assignTime, w.faults);
      } else if p.connected {
        AssignAllLeases(synced, keys, w.shuffled, w.assignTime, s, w.faults);
      }
    }
  }

  lemma RotateLeases(p: Pool, w: World, s: Settings)
    ensures LeasedNow(LeasesFrom(p, Rotated(w)), Rotate(p, w, s).leases, GivenBy(p, Rotated(w), s), w.assignTime)
  {
    NothingLeased(LeasesFrom(p, Rotated(w)), w.assignTime);
    if Servers(w.rows) != [] && p.connected {
      var keys := RotateKeys(p, w, s);
      var synced := Sync(p.(leases := map[]), Wanted(keys), w.faults);
      AssignAllLeases(synced, keys, w.shuffled, w.assignTime, s, w.faults);
    }
  }

  /** Every event leases exactly the nodes it gives to slots, at its time; a rotation first forgets
      all leases, nothing else does. */
  lemma NextLeases(p: Pool, e: Event, s: Settings)
    ensures LeasedNow(LeasesFrom(p, e), Next(p, e, s).leases, GivenBy(p, e, s), TimeOf(e))
  {
    match e
    case Refreshed(initial, w) => RefreshLeases(p, initial, w, s);
    case Rotated(w) => RotateLeases(p, w, s);
    case _ => NothingLeased(p.leases, 0);
  }

  /** The event finds a server and gives all slots anew over an open control channel. */
  predicate DealsAnew(p: Pool, e: Event) {
    && p.connected
    && match e
       case Refreshed(initial, w) => Servers(w.rows) != [] && Anew(p, initial)
       case Rotated(w) => Servers(w.rows) != []
       case _ => false
  }

  /** The generation counts these events; a repair does not change it. */
  lemma NextGeneration(p: Pool, e: Event, s: Settings)
    ensures Next(p, e, s).generation == p.generation + if DealsAnew(p, e) then 1 else 0
  {
  }

  // ---- leases over runs ----------------------------------------------------------------------------

  ghost predicate LeasedSince(p: Pool, k: string, t: int) { k in p.leases && p.leases[k].usedAt >= t }

  /** No rotation, and no refresh before time t. */
  predicate Keeps(e: Event, t: int) { !e.Rotated? && (e.Refreshed? ==> e.world.assignTime >= t) }

  lemma LeaseKept(p: Pool, e: Event, s: Settings, k: string, t: int)
    requires LeasedSince(p, k, t) && Keeps(e, t)
    ensures LeasedSince(Next(p, e, s), k, t)
  {
    NextLeases(p, e, s);
    assert LeaseRight(LeasesFrom(p, e), Next(p, e, s).leases, GivenBy(p, e, s), TimeOf(e), k);
    if e.Launched? || e.Crashed? || e.Reconnected? { assert GivenBy(p, e, s) == []; }
  }

  lemma {:induction false} LeasesKept(p: Pool, events: seq<Event>, s: Settings, k: string, t: int)
    requires LeasedSince(p, k, t) && forall e | e in events :: Keeps(e, t)
    ensures LeasedSince(Run(p, events, s), k, t)
  {
    if events != [] {
      var n := |events| - 1;
      LeasesKept(p, events[..n], s, k, t);
      assert events[n] in events;
      LeaseKept(Run(p, events[..n], s), events[n], s, k, t);
    }
  }

  lemma GivenIsLeased(p: Pool, e: Event, s: Settings, k: string)
    requires Some(k) in GivenBy(p, e, s)
    ensures LeasedSince(Next(p, e, s), k, TimeOf(e))
  {
    NextLeases(p, e, s);
    assert LeaseRight(LeasesFrom(p, e), Next(p, e, s).leases, GivenBy(p, e, s), TimeOf(e), k);
  }

  /** A refresh that gives all slots anew gives one to a cooling node only if every rested node of
      its ring has one. */
  lemma RestedFirst(p: Pool, initial: bool, w: World, s: Settings, cooling: string, rested: string)
    requires p.connected && Anew(p, initial) && Servers(w.rows) != []
    requires Some(cooling) in Held(Refresh(p, initial, w, s).slots)
    requires cooling in p.leases && w.assignTime - p.leases[cooling].usedAt < s.minReuse
    requires rested in RefreshRing(p, w, s).All() && rested in Servers(w.rows)
    requires rested in p.leases ==> w.assignTime - p.leases[rested].usedAt >= s.minReuse
    ensures Some(rested) in Held(Refresh(p, initial, w, s).slots)
  {
    var keys := RefreshKeys(p, w, s);
    var synced := Sync(p, Wanted(keys), w.faults);
    var ordered := Shuffle(keys, w.shuffled);
    ServerKeysNotEmpty(w.rows);
    AssignLeases(synced, Dealt(synced, ordered, w.assignTime, s.minReuse), w.assignTime, w.faults);
    assert Held(Refresh(p, initial, w, s).slots) == Dealt(synced, ordered, w.assignTime, s.minReuse);
    DealtAmong(synced, keys, w.shuffled, w.assignTime, s.minReuse);
    ShuffleMembers(keys, w.shuffled, cooling);
    ShuffleMembers(keys, w.shuffled, rested);
    CoolingOnlyAfterRested(synced, ordered, w.assignTime, s.minReuse, cooling, rested);
  }

  /** Over runs: a node that an event gives to a slot is dealt again within the reuse time, with no
      rotation between, only if every rested node of the ring gets a slot too. */
  lemma DealtAgainAfterRested(p: Pool, e: Event, between: seq<Event>, initial: bool, w: World, s: Settings,
                              k: string, rested: string)
    requires Some(k) in GivenBy(p, e, s)
    requires forall x | x in between :: Keeps(x, TimeOf(e))
    requires var q := Run(Next(p, e, s), between, s);
      && q.connected && Anew(q, initial) && Servers(w.rows) != []
      && Some(k) in Held(Refresh(q, initial, w, s).slots)
      && rested in RefreshRing(q, w, s).All() && rested in Servers(w.rows)
      && (rested in q.leases ==> w.assignTime - q.leases[rested].usedAt >= s.minReuse)
    requires w.assignTime < TimeOf(e) + s.minReuse
    ensures Some(rested) in Held(Refresh(Run(Next(p, e, s), between, s), initial, w, s).slots)
  {
    var q := Run(Next(p, e, s), between, s);
    GivenIsLeased(p, e, s, k);
    LeasesKept(Next(p, e, s), between, s, k, TimeOf(e));
    RestedFirst(q, initial, w, s, k, rested);
  }
}
