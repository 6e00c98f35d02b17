/** The controller object of v2ray/proxy_pool.py, method by method. Every method is proved to
    take the object's state where the state machine of `PoolModel` says.

    `_ProxySlot` records are values of a sequence field; the Xray process is a field that only
    the three remote calls, a launch and a crash change.  */
module PoolController {
  import opened Wrappers
  import opened PoolPorts
  import opened Spreading
  import opened HotSet
  import opened PoolModel
  import opened PoolLoop

  lemma RequestsSnoc(given: Slots, k: Option<string>)
    ensures Requests(given + [k])
         == if k.Some? then Requests(given)[BalancerTag(|given|) := NodeTag(k.value)] else Requests(given)
  {
    assert (given + [k])[..|given|] == given;
  }

  lemma StampSnoc(leases: map<string, Lease>, given: Slots, k: Option<string>, now: int)
    ensures Stamp(leases, given + [k], now)
         == if k.Some? then Stamp(leases, given, now)[k.value := Lease(|given|, now)] else Stamp(leases, given, now)
  {
    assert (given + [k])[..|given|] == given;
  }

  lemma RepairedSnoc(slots: seq<Slot>, given: Slots, k: Option<string>)
    requires |given| < |slots|
    ensures Repaired(slots, given + [k])
         == if k.Some? then Repaired(slots, given)[|given| := SlotFor(k)] else Repaired(slots, given)
    ensures Repaired(slots, given)[|given|] == slots[|given|]
  {
  }

  lemma PickExtends(slot: Slot, servers: seq<string>, unique: seq<string>, given: Slots, held: set<string>, rr: nat)
    ensures var one, r := Pick(slot, servers, unique, Plan([], held, rr)), Pick(slot, servers, unique, Plan(given, held, rr));
      r == Plan(given + [one.given[0]], one.held, one.reused)
  {
  }

  lemma RemoveOneMore(x: Xray, tags: set<string>, t: string, f: Faults)
    ensures RemoveAll(RemoveAll(x, tags, f), {t}, f) == RemoveAll(x, tags + {t}, f)
  {
    if x.Up? {
      assert x.outbounds - (tags - f.failed) - ({t} - f.failed) == x.outbounds - (tags + {t} - f.failed);
    }
  }

  lemma AddedTwice(x: Xray, wanted: map<string, string>, tags: set<string>, t: string, f: Faults)
    requires tags <= wanted.Keys && t in wanted && t !in tags
    ensures Added(AddAll(x, wanted, tags, f), {t}, f) == Added(x, {t}, f)
    ensures Added(x, tags + {t}, f) == Added(x, tags, f) + Added(x, {t}, f)
  {
  }

  lemma MapsJoin(wanted: map<string, string>, a: set<string>, b: set<string>)
    requires a + b <= wanted.Keys
    ensures (map t | t in a :: wanted[t]) + (map t | t in b :: wanted[t]) == map t | t in a + b :: wanted[t]
  {
  }

  lemma MapsAssoc(o: map<string, string>, a: map<string, string>, b: map<string, string>)
    ensures (o + a) + b == o + (a + b)
  {
  }

  lemma AddOneMore(x: Xray, wanted: map<string, string>, tags: set<string>, t: string, f: Faults)
    requires tags <= wanted.Keys && t in wanted && t !in tags
    ensures Added(AddAll(x, wanted, tags, f), {t}, f) == Added(x, {t}, f)
    ensures Added(x, tags + {t}, f) == Added(x, tags, f) + Added(x, {t}, f)
    ensures AddAll(AddAll(x, wanted, tags, f), wanted, {t}, f) == AddAll(x, wanted, tags + {t}, f)
  {
    AddedTwice(x, wanted, tags, t, f);
    if x.Up? {
      var a, b := Added(x, tags, f), Added(x, {t}, f);
      MapsJoin(wanted, a, b);
      MapsAssoc(x.outbounds, map u | u in a :: wanted[u], map u | u in b :: wanted[u]);
    }
  }

  /** The records after replacements for the first slots. */
  function RepairedUpTo(p: Pool, given: Slots, now: int): Pool
    requires |given| <= |p.slots|
  {
    p.(slots := Repaired(p.slots, given), leases := Stamp(p.leases, given, now))
  }

  lemma RepairedOneMore(p: Pool, given: Slots, key: Option<string>, now: int)
    requires |given| < |p.slots|
    ensures var q := RepairedUpTo(p, given, now); |q.slots| == |p.slots| && q.slots[|given|] == p.slots[|given|]
    ensures var q := RepairedUpTo(p, given, now);
      RepairedUpTo(p, given + [key], now)
        == if key.Some?
           then q.(slots := q.slots[|given| := SlotFor(key)], leases := q.leases[key.value := Lease(|given|, now)])
           else q
  {
    StampSnoc(p.leases, given, key, now);
    RepairedSnoc(p.slots, given, key);
  }

  class ProxyPoolRunner {
    const settings: Settings
    const timing: Timing
    var slots: seq<Slot>
    var leases: map<string, Lease>
    var loaded: set<string>
    var generation: nat
    var connected: bool
    var xray: Xray
    var running: bool
    var startedAt: int
    var attempt: nat
    var lastHot: Option<int>
    var lastRotation: int
    var controlFails: nat

    ghost function View(): Pool
      reads this
    {
      Pool(slots, leases, loaded, generation, connected, xray)
    }

    ghost function LoopView(): Loop
      reads this
    {
      Loop(View(), running, startedAt, attempt, lastHot, lastRotation, controlFails)
    }

    constructor (count: nat, settings: Settings, timing: Timing)
      ensures View() == Start(count) && this.settings == settings && this.timing == timing && !running
    {
      this.settings, this.timing := settings, timing;
      slots := seq(count, _ => Slot(None, None, None));
      leases, loaded, generation, connected, xray := map[], {}, 0, false, Down;
      running, startedAt, attempt, lastHot, lastRotation, controlFails := false, 0, 0, None, 0, 0;
    }

    // ---- remote calls ----------------------------------------------------------------------

    method RemoveOutbound(tag: string, f: Faults)
      modifies this`xray
      ensures xray == RemoveAll(old(xray), {tag}, f)
    {
      if xray.Up? && tag !in f.failed {
        xray := xray.(outbounds := xray.outbounds - {tag});
      }
    }

    /** Xray refuses a tag it already has. */
    method AddOutbound(tag: string, key: string, f: Faults) returns (ok: bool)
      modifies this`xray
      ensures xray == AddAll(old(xray), map[tag := key], {tag}, f)
      ensures ok <==> tag in Added(old(xray), {tag}, f) && tag !in f.lost
    {
      ok := false;
      if xray.Up? && tag !in f.failed && tag !in xray.outbounds {
        xray := xray.(outbounds := xray.outbounds[tag := key]);
        ok := tag !in f.lost;
      }
    }

    method OverrideMany(requests: map<string, string>, f: Faults)
      modifies this`xray
      ensures xray == OverrideAll(old(xray), requests, f)
    {
      if xray.Up? {
        xray := xray.(overrides := xray.overrides + map b | b in requests && b !in f.failed :: requests[b]);
      }
    }

    // ---- _sync_loaded_outbounds ---------------------------------------------------------------

    method DropStale(wanted: map<string, string>, f: Faults)
      modifies this`xray, this`loaded
      ensures loaded == old(loaded) - Stale(old(loaded), wanted)
      ensures xray == RemoveAll(old(xray), Stale(old(loaded), wanted), f)
    {
      ghost var x0 := xray;
      var todo := loaded;
      ghost var gone: set<string> := {};
      while todo != {}
        invariant todo <= old(loaded) && gone == Stale(old(loaded) - todo, wanted)
        invariant loaded == old(loaded) - gone && xray == RemoveAll(x0, gone, f)
        decreases todo
      {
        var tag :| tag in todo;
        todo := todo - {tag};
        if tag !in wanted && tag != FALLBACK_TAG {
          RemoveOutbound(tag, f);
          RemoveOneMore(x0, gone, tag, f);
          loaded := loaded - {tag};
          gone := gone + {tag};
        }
        assert gone == Stale(old(loaded) - todo, wanted);
      }
      assert gone == Stale(old(loaded), wanted);
    }

    method AddMissing(wanted: map<string, string>, f: Faults)
      modifies this`xray, this`loaded
      ensures var missing := wanted.Keys - old(loaded);
        && loaded == old(loaded) + (Added(old(xray), missing, f) - f.lost)
        && xray == AddAll(old(xray), wanted, missing, f)
    {
      ghost var x0 := xray;
      var todo := wanted.Keys;
      ghost var tried: set<string> := {};
      while todo != {}
        invariant todo <= wanted.Keys && tried == (wanted.Keys - todo) - old(loaded)
        invariant loaded == old(loaded) + (Added(x0, tried, f) - f.lost)
        invariant xray == AddAll(x0, wanted, tried, f)
        decreases todo
      {
        var tag :| tag in todo;
        if tag !in loaded {
          AddOneMore(x0, wanted, tried, tag, f);
          ghost var x := xray;
          var ok := AddOutbound(tag, wanted[tag], f);
          assert xray == AddAll(x, wanted, {tag}, f);
          if ok { loaded := loaded + {tag}; }
          tried := tried + {tag};
        }
        todo := todo - {tag};
        assert tried == (wanted.Keys - todo) - old(loaded);
      }
      assert tried == wanted.Keys - old(loaded);
    }

    method SyncLoadedOutbounds(keys: seq<string>, f: Faults)
      modifies this`xray, this`loaded
      ensures View() == Sync(old(View()), Wanted(keys), f)
    {
      if !connected { return; }
      var wanted := Wanted(keys);
      DropStale(wanted, f);
      assert wanted.Keys - loaded == wanted.Keys - old(loaded);
      AddMissing(wanted, f);
    }

    // ---- _assign_keys ---------------------------------------------------------------------------

    /** Both callers give all slots anew. */
    method AssignKeys(keys: seq<string>, shuffled: seq<string>, now: int, f: Faults)
      modifies this`slots, this`leases, this`generation, this`xray
      ensures View() == AssignAll(old(View()), keys, shuffled, now, settings, f)
    {
      if !connected { return; }
      var ordered := Shuffle(keys, shuffled);
      var preferred := Rested(ordered, now);
      var given, extra := SpreadKeys(|slots|, preferred, Some(Blank(|slots|)));
      GiveOut(given, now, f);
    }

    method Rested(ordered: seq<string>, now: int) returns (preferred: seq<string>)
      ensures preferred == Preferred(View(), ordered, now, settings.minReuse)
    {
      var rested, cooling := [], [];
      for i := 0 to |ordered|
        invariant rested == Fresh(View(), ordered[..i], now, settings.minReuse, true)
        invariant cooling == Fresh(View(), ordered[..i], now, settings.minReuse, false)
      {
        assert ordered[..i + 1][..i] == ordered[..i];
        if IsCooling(leases, ordered[i], now, settings.minReuse) {
          cooling := cooling + [ordered[i]];
        } else {
          rested := rested + [ordered[i]];
        }
      }
      assert ordered[..|ordered|] == ordered;
      preferred := rested + cooling;
    }

    method GiveOut(given: Slots, now: int, f: Faults)
      requires |given| == |slots| && connected
      modifies this`slots, this`leases, this`generation, this`xray
      ensures View() == Assign(old(View()), given, now, f)
    {
      var requests: map<string, string> := map[];
      var servers := [];
      for i := 0 to |given|
        invariant requests == Requests(given[..i]) && leases == Stamp(old(leases), given[..i], now)
        invariant servers == given[..i]
        invariant unchanged(this`slots) && unchanged(this`xray) && unchanged(this`generation)
      {
        assert given[..i + 1] == given[..i] + [given[i]];
        RequestsSnoc(given[..i], given[i]);
        StampSnoc(old(leases), given[..i], given[i], now);
        if given[i].Some? {
          requests := requests[BalancerTag(i) := NodeTag(given[i].value)];
          leases := leases[given[i].value := Lease(i, now)];
        }
        servers := servers + [given[i]];
      }
      assert given[..|given|] == given;
      OverrideMany(requests, f);
      slots := seq(|given|, i requires 0 <= i < |given| => SlotFor(given[i]));
      generation := generation + 1;
    }

    // ---- _repair_slots ---------------------------------------------------------------------------

    method PickReplacement(slot: Slot, servers: seq<string>, unique: seq<string>, held: set<string>, rr: nat)
      returns (key: Option<string>, held': set<string>, rr': nat)
      ensures Pick(slot, servers, unique, Plan([], held, rr)) == Plan([key], held', rr')
    {
      key, held', rr' := None, held, rr;
      if Live(slot, servers) { return; }
      var reuse := if unique != [] then unique else servers;
      var free := NextFree(unique, held, 0);
      if free < |unique| {
        key := Some(unique[free]);
        held' := held + {unique[free]};
      } else if reuse != [] {
        key := Some(reuse[rr % |reuse|]);
        rr' := rr + 1;
      }
    }

    /** What the repair loop has done for the first slots. */
    ghost predicate Repairing(p0: Pool, given: Slots, servers: seq<string>, unique: seq<string>, held: set<string>,
                              rr: nat, replacements: map<string, string>, now: int)
      reads this
    {
      && |given| <= |p0.slots|
      && Plan(given, held, rr) == PlanUpTo(p0.slots, servers, unique, |given|)
      && replacements == Requests(given)
      && View() == RepairedUpTo(p0, given, now)
    }

    method GiveSlot(i: nat, key: Option<string>, now: int, replacements: map<string, string>)
      returns (requests: map<string, string>)
      requires i < |slots|
      modifies this`slots, this`leases
      ensures slots == if key.Some? then old(slots)[i := SlotFor(key)] else old(slots)
      ensures leases == if key.Some? then old(leases)[key.value := Lease(i, now)] else old(leases)
      ensures requests == if key.Some? then replacements[BalancerTag(i) := NodeTag(key.value)] else replacements
    {
      requests := replacements;
      if key.Some? {
        requests := requests[BalancerTag(i) := NodeTag(key.value)];
        slots := slots[i := SlotFor(key)];
        leases := leases[key.value := Lease(i, now)];
      }
    }

    method RepairOne(i: nat, servers: seq<string>, unique: seq<string>, held: set<string>, rr: nat,
                     replacements: map<string, string>, now: int, ghost p0: Pool, ghost given: Slots)
      returns (held': set<string>, rr': nat, requests: map<string, string>, ghost given': Slots)
      requires i == |given| < |p0.slots| && Repairing(p0, given, servers, unique, held, rr, replacements, now)
      modifies this`slots, this`leases
      ensures |given'| == i + 1 && Repairing(p0, given', servers, unique, held', rr', requests, now)
    {
      RepairedOneMore(p0, given, None, now);
      var key;
      key, held', rr' := PickReplacement(slots[i], servers, unique, held, rr);
      PickExtends(p0.slots[i], servers, unique, given, held, rr);
      RequestsSnoc(given, key);
      RepairedOneMore(p0, given, key, now);
      requests := GiveSlot(i, key, now, replacements);
      given' := given + [key];
    }

    method RepairSlots(servers: seq<string>, standby: seq<string>, now: int, f: Faults)
      modifies this`slots, this`leases, this`xray
      ensures View() == Repair(old(View()), servers, standby, now, f)
    {
      var unique := Among(standby, servers);
      var held, rr := Holding(slots), 0;
      var replacements: map<string, string> := map[];
      ghost var p0 := View();
      ghost var given: Slots := [];
      for i := 0 to |slots|
        invariant |slots| == |p0.slots| && |given| == i
        invariant Repairing(p0, given, servers, unique, held, rr, replacements, now)
      {
        held, rr, replacements, given := RepairOne(i, servers, unique, held, rr, replacements, now, p0, given);
      }
      if connected { OverrideMany(replacements, f); }
    }

    // ---- refresh, rotation, launch ------------------------------------------------------------------

    method RefreshHotAndAssign(initial: bool, w: World)
      modifies this`slots, this`leases, this`loaded, this`generation, this`xray
      ensures View() == Refresh(old(View()), initial, w, settings)
    {
      var servers := Servers(w.rows);
      if servers == [] { return; }
      var cooling := set k | k in servers && IsCooling(leases, k, w.ringTime, settings.minReuse);
      var inUse := Holding(slots);
      var ring := SelectHotSet(HotRows(w.rows), |slots|, settings.standby, settings.reserve, inUse, cooling);
      var keys := Among(ring.All(), servers);
      SyncLoadedOutbounds(keys, w.faults);
      if initial || inUse == {} {
        AssignKeys(keys, w.shuffled, w.assignTime, w.faults);
      } else {
        RepairSlots(servers, Among(ring.standby, servers), w.assignTime, w.faults);
      }
    }

    method RotateAll(w: World)
      modifies this`slots, this`leases, this`loaded, this`generation, this`xray
      ensures View() == Rotate(old(View()), w, settings)
    {
      var servers := Servers(w.rows);
      if servers == [] { return; }
      leases := map[];
      var ring := SelectHotSet(HotRows(w.rows), |slots|, settings.standby, settings.reserve, {}, {});
      var keys := Among(ring.All(), servers);
      SyncLoadedOutbounds(keys, w.faults);
      AssignKeys(keys, w.shuffled, w.assignTime, w.faults);
    }

    method TeardownXray()
      modifies this`connected, this`loaded, this`xray
      ensures !connected && loaded == {} && xray == Down
    {
      connected := false;
      loaded := {};
      xray := Down;
    }

    /** `started` says whether the process came up, its API port opened and the control channel
        connected. */
    method LaunchXray(started: bool) returns (ok: bool)
      modifies this`connected, this`loaded, this`xray
      ensures ok == started && View() == Launch(old(View()), started)
    {
      TeardownXray();
      if !started { return false; }
      xray := Up(map[], map[]);
      connected := true;
      ok := true;
    }

    // ---- the control loop -------------------------------------------------------------------------

    /** A launch, and the refresh after it, which counts as a first one. */
    method Respawn(launched: bool, w: World) returns (ok: bool)
      modifies this`slots, this`leases, this`loaded, this`generation, this`connected, this`xray
      ensures ok == launched
      ensures View() == if launched then Refresh(Launch(old(View()), true), true, w, settings)
                        else Launch(old(View()), false)
    {
      ok := LaunchXray(launched);
      if ok { RefreshHotAndAssign(true, w); }
    }

    /** Respawn after a crash, with the number of the attempt, which decides how long to wait first.
        A stop during the wait ends the loop. */
    method RecoverXray(t: Turn) returns (goOn: bool)
      modifies this`slots, this`leases, this`loaded, this`generation, this`connected, this`xray
      modifies this`attempt, this`startedAt
      ensures attempt == Attempt(old(LoopView()), t.now) + 1 && goOn == !t.stopped
      ensures startedAt == if !t.stopped && t.launched then t.later else old(startedAt)
      ensures View() == if t.stopped then old(View())
                        else if t.launched then Refresh(Launch(old(View()), true), true, t.respawn, settings)
                        else Launch(old(View()), false)
    {
      if t.now - startedAt >= STABLE_UPTIME { attempt := 0; }
      attempt := attempt + 1;
      if t.stopped { return false; }
      goOn := true;
      var ok := Respawn(t.launched, t.respawn);
      if ok { startedAt := t.later; }
    }

    method HotRefresh(t: Turn)
      modifies this`slots, this`leases, this`loaded, this`generation, this`xray, this`lastHot
      ensures LoopView() == RefreshStep(old(LoopView()), t, settings, timing)
    {
      if lastHot.None? || t.now - lastHot.value >= timing.refreshEvery {
        RefreshHotAndAssign(lastHot.None?, t.refresh);
        lastHot := Some(t.now);
      }
    }

    method AskedRotation(t: Turn)
      modifies this`slots, this`leases, this`loaded, this`generation, this`xray, this`lastRotation
      ensures View() == AskedStep(old(LoopView()), t, settings).pool
      ensures lastRotation == AskedStep(old(LoopView()), t, settings).lastRotation
    {
      if t.rotateAsked {
        RotateAll(t.rotation);
        lastRotation := t.later;
      }
    }

    method TimedRotation(t: Turn)
      modifies this`slots, this`leases, this`loaded, this`generation, this`xray, this`lastRotation
      ensures LoopView() == TimedStep(old(LoopView()), t, settings, timing)
    {
      if timing.rotateEvery > 0 && t.now - lastRotation >= timing.rotateEvery {
        RotateAll(t.timed);
        lastRotation := t.later;
      }
    }

    /** The refresh and the rotations of a turn. */
    method KeepUp(t: Turn)
      modifies this
      ensures LoopView() == Upkeep(old(LoopView()), t, settings, timing)
    {
      if t.now - startedAt >= STABLE_UPTIME { attempt := 0; }
      HotRefresh(t);
      AskedRotation(t);
      TimedRotation(t);
    }

    method ReconnectControl(ok: bool) returns (open: bool)
      modifies this`connected
      ensures open == (xray.Up? && ok)
      ensures connected == if xray.Up? then ok else old(connected)
    {
      if xray.Down? { return false; }
      connected := ok;
      open := ok;
    }

    /** The traffic query; a control channel that stays lost costs Xray its life. */
    method WatchControl(t: Turn)
      modifies this
      ensures LoopView() == Watch(old(LoopView()), t)
    {
      if t.diesLate { xray := Down; }
      if connected && xray.Up? && t.traffic {
        controlFails := 0;
      } else {
        var alive := xray.Up?;
        var open := ReconnectControl(t.reconnects);
        controlFails := if alive && !open then controlFails + 1 else 0;
        if controlFails >= MAX_CONTROL_FAILS {
          xray := Down;
          controlFails := 0;
        }
      }
    }

    /** One turn of the loop. */
    method ControlTurn(t: Turn)
      requires running
      modifies this
      ensures LoopView() == AfterTurn(old(LoopView()), t, settings, timing)
    {
      if t.dead { xray := Down; }
      if xray.Down? {
        running := RecoverXray(t);
        if running { lastHot, lastRotation, controlFails := Some(t.later), t.later, 0; }
      } else {
        KeepUp(t);
        WatchControl(t);
      }
    }

    /** `_async_run`: the first launch, and the loop until it is stopped. */
    method AsyncRun(started: bool, at: int, turns: seq<Turn>)
      requires View() == Start(|slots|)
      modifies this
      ensures !started ==> View() == Launch(old(View()), false)
      ensures started ==> LoopView() == LoopRun(Begin(old(|slots|), at), turns, settings, timing)
    {
      ghost var n := |slots|;
      var ok := LaunchXray(started);
      if !ok { return; }
      running, startedAt, attempt, lastHot, lastRotation, controlFails := true, at, 0, None, at, 0;
      for i := 0 to |turns|
        invariant LoopView() == LoopRun(Begin(n, at), turns[..i], settings, timing)
      {
        assert turns[..i + 1] == turns[..i] + [turns[i]];
        RunTurn(Begin(n, at), turns[..i], turns[i], settings, timing);
        if running { ControlTurn(turns[i]); }
      }
      assert turns[..|turns|] == turns;
    }
  }
}
