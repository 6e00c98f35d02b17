/** The proxy pool controller of v2ray/proxy_pool.py as a state machine.

    The state holds the controller's own records (slots, leases, loaded tags, generation,
    whether the control channel is open) and the Xray process it steers (its node outbounds
    and its balancer overrides, both empty after a launch). Each step takes what the outside
    world decides: the catalog rows, the clock, the shuffle, and which calls fail.  */
module PoolModel {
  import opened Wrappers
  import opened PoolPorts
  import opened Spreading
  import opened HotSet

  datatype Slot = Slot(server: Option<string>, tag: Option<string>, error: Option<string>)

  datatype Lease = Lease(slot: nat, usedAt: int)

  /** A running Xray: outbound tag to node key, balancer tag to overriding outbound tag. */
  datatype Xray = Down | Up(outbounds: map<string, string>, overrides: map<string, string>)

  datatype Pool = Pool(slots: seq<Slot>, leases: map<string, Lease>, loaded: set<string>,
                       generation: nat, connected: bool, xray: Xray)

  /** Calls about the tags in `failed` have no effect and report an error; calls about the
      tags in `lost` take effect but report an error all the same. */
  datatype Faults = Faults(failed: set<string>, lost: set<string>)

  const NO_FAULTS := Faults({}, {})

  /** A candidate row: whether the node can be turned into an outbound is decided per row. */
  datatype CatalogRow = CatalogRow(key: NodeKey, score: real, eligible: bool)

  /** A server's key joins seven fields with '|', so it is never empty. */
  type NodeKey = k: string | k != "" witness "||||||"

  datatype Settings = Settings(standby: int, reserve: int, minReuse: int)

  // ---- the remote calls ------------------------------------------------------------------

  function RemoveAll(x: Xray, tags: set<string>, f: Faults): Xray {
    if x.Down? then x else x.(outbounds := x.outbounds - (tags - f.failed))
  }

  /** The tags whose AddOutbound takes effect: Xray refuses a tag it already has. */
  function Added(x: Xray, tags: set<string>, f: Faults): set<string> {
    if x.Down? then {} else set t | t in tags && t !in f.failed && t !in x.outbounds
  }

  function AddAll(x: Xray, wanted: map<string, string>, tags: set<string>, f: Faults): Xray
    requires tags <= wanted.Keys
  {
    if x.Down? then x
    else x.(outbounds := x.outbounds + map t | t in Added(x, tags, f) :: wanted[t])
  }

  function OverrideAll(x: Xray, requests: map<string, string>, f: Faults): Xray {
    if x.Down? then x
    else x.(overrides := x.overrides + map b | b in requests && b !in f.failed :: requests[b])
  }

  // ---- catalog rows ------------------------------------------------------------------------

  function EligibleKeys(rows: seq<CatalogRow>): seq<string> {
    if rows == [] then []
    else
      var n := |rows| - 1;
      EligibleKeys(rows[..n]) + (if rows[n].eligible then [rows[n].key] else [])
  }

  /** The keys of the `servers` dictionary, in insertion order. */
  function Servers(rows: seq<CatalogRow>): seq<string> {
    FirstSeen(EligibleKeys(rows), {})
  }

  function HotRows(rows: seq<CatalogRow>): (r: seq<HotRow>)
    ensures |r| == |rows|
    ensures forall i | 0 <= i < |r| :: r[i] == HotRow(Some(rows[i].key), rows[i].score)
  {
    seq(|rows|, i requires 0 <= i < |rows| => HotRow(Some(rows[i].key), rows[i].score))
  }

  predicate IsCooling(leases: map<string, Lease>, key: string, now: int, minReuse: int) {
    key in leases && now - leases[key].usedAt < minReuse
  }

  function Holding(slots: seq<Slot>): set<string> {
    set i | 0 <= i < |slots| && slots[i].server.Some? :: slots[i].server.value
  }

  function CoolingKeys(p: Pool, servers: seq<string>, now: int, minReuse: int): set<string> {
    set k | k in servers && IsCooling(p.leases, k, now, minReuse)
  }

  function RingFor(rows: seq<CatalogRow>, slots: nat, s: Settings, inUse: set<string>, cooling: set<string>): Ring {
    HotRing(ScoreRows(HotRows(rows), inUse, cooling), slots, s.standby, s.reserve)
  }

  function Among(keys: seq<string>, servers: seq<string>): (r: seq<string>)
    ensures forall k :: k in r <==> k in keys && k in servers
  {
    if keys == [] then []
    else
      var n := |keys| - 1;
      Among(keys[..n], servers) + (if keys[n] in servers then [keys[n]] else [])
  }

  // ---- _sync_loaded_outbounds --------------------------------------------------------------

  /** Tag to key for the wanted nodes. */
  function Wanted(keys: seq<string>): (w: map<string, string>)
    ensures forall k :: NodeTag(k) in w <==> k in keys
    ensures forall t | t in w :: t == NodeTag(w[t]) && w[t] in keys
  {
    if keys == [] then map[]
    else
      var n := |keys| - 1;
      var w := Wanted(keys[..n]);
      forall k ensures NodeTag(k) in w[NodeTag(keys[n]) := keys[n]] <==> k in keys {
        if NodeTag(k) == NodeTag(keys[n]) { NodeTagInjective(k, keys[n]); }
      }
      w[NodeTag(keys[n]) := keys[n]]
  }

  function Stale(loaded: set<string>, wanted: map<string, string>): set<string> {
    set t | t in loaded && t !in wanted && t != FALLBACK_TAG
  }

  function Sync(p: Pool, wanted: map<string, string>, f: Faults): Pool {
    if !p.connected then p
    else
      var stale := Stale(p.loaded, wanted);
      var x := RemoveAll(p.xray, stale, f);
      var missing := wanted.Keys - p.loaded;
      p.(loaded := (p.loaded - stale) + (Added(x, missing, f) - f.lost),
         xray := AddAll(x, wanted, missing, f))
  }

  // ---- _assign_keys ------------------------------------------------------------------------

  /** One override request per slot that was given a node. */
  function Requests(given: Slots): map<string, string> {
    if given == [] then map[]
    else
      var n := |given| - 1;
      var r := Requests(given[..n]);
      if given[n].Some? then r[BalancerTag(n) := NodeTag(given[n].value)] else r
  }

  function Stamp(leases: map<string, Lease>, given: Slots, now: int): map<string, Lease> {
    if given == [] then leases
    else
      var n := |given| - 1;
      var l := Stamp(leases, given[..n], now);
      if given[n].Some? then l[given[n].value := Lease(n, now)] else l
  }

  function SlotFor(key: Option<string>): Slot {
    match key
    case Some(k) => Slot(Some(k), Some(NodeTag(k)), None)
    case None => Slot(None, None, Some("no working upstream found"))
  }

  function Fresh(p: Pool, ordered: seq<string>, now: int, minReuse: int, rested: bool): (r: seq<string>)
    ensures forall k :: k in r <==> k in ordered && (IsCooling(p.leases, k, now, minReuse) <==> !rested)
  {
    if ordered == [] then []
    else
      var n := |ordered| - 1;
      Fresh(p, ordered[..n], now, minReuse, rested)
      + (if IsCooling(p.leases, ordered[n], now, minReuse) != rested then [ordered[n]] else [])
  }

  /** Rested nodes first, cooling nodes after them, each group in the shuffled order. */
  function Preferred(p: Pool, ordered: seq<string>, now: int, minReuse: int): seq<string> {
    Fresh(p, ordered, now, minReuse, true) + Fresh(p, ordered, now, minReuse, false)
  }

  /** The node of every slot when all slots are given anew. */
  function Dealt(p: Pool, ordered: seq<string>, now: int, minReuse: int): (r: Slots)
    ensures |r| == |p.slots|
  {
    Spread(|p.slots|, Usable(Preferred(p, ordered, now, minReuse)), Blank(|p.slots|)).0
  }

  function Assign(p: Pool, given: Slots, now: int, f: Faults): Pool
    requires |given| == |p.slots|
  {
    if !p.connected then p
    else
      p.(slots := seq(|given|, i requires 0 <= i < |given| => SlotFor(given[i])),
         leases := Stamp(p.leases, given, now),
         generation := p.generation + 1,
         xray := OverrideAll(p.xray, Requests(given), f))
  }

  /** `random.shuffle` may return any rearrangement of its argument. */
  function Shuffle(keys: seq<string>, shuffled: seq<string>): (r: seq<string>)
    ensures multiset(r) == multiset(keys)
  {
    if multiset(shuffled) == multiset(keys) then shuffled else keys
  }

  function AssignAll(p: Pool, keys: seq<string>, shuffled: seq<string>, now: int, s: Settings, f: Faults): Pool {
    Assign(p, Dealt(p, Shuffle(keys, shuffled), now, s.minReuse), now, f)
  }

  // ---- _repair_slots -----------------------------------------------------------------------

  predicate Live(slot: Slot, servers: seq<string>) {
    slot.server.Some? && slot.server.value in servers
  }

  datatype Plan = Plan(given: Slots, held: set<string>, reused: nat)

  /** One slot of the repair: an unheld standby node, else reuse in turn. */
  function Pick(slot: Slot, servers: seq<string>, unique: seq<string>, r: Plan): (q: Plan)
    ensures |q.given| == |r.given| + 1 && q.given[..|r.given|] == r.given
  {
    var reuse := if unique != [] then unique else servers;
    var free := NextFree(unique, r.held, 0);
    if Live(slot, servers) then r.(given := r.given + [None])
    else if free < |unique| then Plan(r.given + [Some(unique[free])], r.held + {unique[free]}, r.reused)
    else if reuse == [] then r.(given := r.given + [None])
    else Plan(r.given + [Some(reuse[r.reused % |reuse|])], r.held, r.reused + 1)
  }

  /** Replacements for the first `i` slots. */
  function PlanUpTo(slots: seq<Slot>, servers: seq<string>, unique: seq<string>, i: nat): (r: Plan)
    requires i <= |slots|
    ensures |r.given| == i
  {
    if i == 0 then Plan([], Holding(slots), 0)
    else Pick(slots[i - 1], servers, unique, PlanUpTo(slots, servers, unique, i - 1))
  }

  function RepairPlan(slots: seq<Slot>, servers: seq<string>, standby: seq<string>): (r: Slots)
    ensures |r| == |slots|
  {
    PlanUpTo(slots, servers, Among(standby, servers), |slots|).given
  }

  function Repaired(slots: seq<Slot>, given: Slots): seq<Slot>
    requires |given| <= |slots|
  {
    seq(|slots|, i requires 0 <= i < |slots| =>
      if i < |given| && given[i].Some? then SlotFor(given[i]) else slots[i])
  }

  function Repair(p: Pool, servers: seq<string>, standby: seq<string>, now: int, f: Faults): Pool {
    var given := RepairPlan(p.slots, servers, standby);
    p.(slots := Repaired(p.slots, given),
       leases := Stamp(p.leases, given, now),
       xray := if p.connected then OverrideAll(p.xray, Requests(given), f) else p.xray)
  }

  // ---- _refresh_hot_and_assign and _rotate_all ------------------------------------------------

  /** What the outside world decides in one refresh or rotation. The clock is read twice: when
      the ring is chosen and when slots are given out. */
  datatype World = World(rows: seq<CatalogRow>, ringTime: int, assignTime: int,
                         shuffled: seq<string>, faults: Faults)

  function RefreshRing(p: Pool, w: World, s: Settings): Ring {
    RingFor(w.rows, |p.slots|, s, Holding(p.slots), CoolingKeys(p, Servers(w.rows), w.ringTime, s.minReuse))
  }

  function Refresh(p: Pool, initial: bool, w: World, s: Settings): Pool {
    var servers := Servers(w.rows);
    if servers == [] then p
    else
      var ring := RefreshRing(p, w, s);
      var keys := Among(ring.All(), servers);
      var synced := Sync(p, Wanted(keys), w.faults);
      if initial || Holding(p.slots) == {} then AssignAll(synced, keys, w.shuffled, w.assignTime, s, w.faults)
      else Repair(synced, servers, Among(ring.standby, servers), w.assignTime, w.faults)
  }

  function RotateRing(p: Pool, w: World, s: Settings): Ring {
    RingFor(w.rows, |p.slots|, s, {}, {})
  }

  function Rotate(p: Pool, w: World, s: Settings): Pool {
    var servers := Servers(w.rows);
    if servers == [] then p
    else
      var keys := Among(RotateRing(p, w, s).All(), servers);
      var synced := Sync(p.(leases := map[]), Wanted(keys), w.faults);
      AssignAll(synced, keys, w.shuffled, w.assignTime, s, w.faults)
  }

  /** `_launch_xray`: everything loaded is forgotten, then the new process is up and the
      control channel open, or the start failed and nothing runs. */
  function Launch(p: Pool, started: bool): Pool {
    p.(loaded := {}, connected := started, xray := if started then Up(map[], map[]) else Down)
  }

  // ---- runs --------------------------------------------------------------------------------

  datatype Event =
    | Launched(started: bool)
    | Refreshed(initial: bool, world: World)
    | Rotated(world: World)
    | Crashed
    | Reconnected(ok: bool)

  function Next(p: Pool, e: Event, s: Settings): Pool {
    match e
    case Launched(started) => Launch(p, started)
    case Refreshed(initial, w) => Refresh(p, initial, w, s)
    case Rotated(w) => Rotate(p, w, s)
    case Crashed => p.(xray := Down)
    case Reconnected(ok) => if p.xray.Up? then p.(connected := ok) else p
  }

  function Run(p: Pool, events: seq<Event>, s: Settings): Pool {
    if events == [] then p else Next(Run(p, events[..|events| - 1], s), events[|events| - 1], s)
  }

  /** The pool before the first launch. */
  function Start(slots: nat): Pool {
    Pool(seq(slots, _ => Slot(None, None, None)), map[], {}, 0, false, Down)
  }
}
