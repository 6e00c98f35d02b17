/** The control loop of the proxy pool (`_async_run` and `_recover_xray` of v2ray/proxy_pool.py):
    which launches, refreshes, rotations and reconnects it makes, and when.  */
module PoolLoop {
  import opened Wrappers
  import opened Arith
  import opened PoolModel
  import opened PoolProofs
  import opened PoolAgreement
  import opened PoolRuns

  const STABLE_UPTIME := 60
  const BACKOFF := 2
  const MAX_BACKOFF := 30
  const MAX_CONTROL_FAILS := 3

  datatype Timing = Timing(refreshEvery: int, rotateEvery: int)

  /** The pool with the loop's own records; `startedAt` is the last start that succeeded. */
  datatype Loop = Loop(pool: Pool, running: bool, startedAt: int, attempt: nat, lastHot: Option<int>,
                       lastRotation: int, controlFails: nat)

  /** What the outside world decides in one turn: the time at its start and after its calls;
      whether Xray is found dead or dies after the calls; for a recovery, whether a stop interrupts
      the wait and whether the launch succeeds; the worlds of the calls; whether a rotation was
      asked for; whether the traffic query and the reconnection work. */
  datatype Turn = Turn(now: int, later: int, dead: bool, diesLate: bool, stopped: bool, launched: bool,
                       respawn: World, refresh: World, rotateAsked: bool, rotation: World, timed: World,
                       traffic: bool, reconnects: bool)

  function RestartDelay(attempt: nat): int { Min(MAX_BACKOFF, BACKOFF * Pow2(attempt)) }

  predicate Stable(l: Loop, now: int) { now - l.startedAt >= STABLE_UPTIME }

  function Attempt(l: Loop, now: int): nat { if Stable(l, now) then 0 else l.attempt }

  /** The seconds `_recover_xray` waits. */
  function Delay(l: Loop, now: int): int { RestartDelay(Attempt(l, now)) }

  /** `_recover_xray` and what the loop notes after it. */
  function Recover(l: Loop, t: Turn, s: Settings): Loop {
    var counted := l.(attempt := Attempt(l, t.now) + 1);
    if t.stopped then counted.(running := false)
    else if t.launched then
      counted.(pool := Refresh(Launch(l.pool, true), true, t.respawn, s), startedAt := t.later,
               lastHot := Some(t.later), lastRotation := t.later, controlFails := 0)
    else
      counted.(pool := Launch(l.pool, false), lastHot := Some(t.later), lastRotation := t.later, controlFails := 0)
  }

  predicate RefreshDue(l: Loop, t: Turn, c: Timing) {
    l.lastHot.None? || t.now - l.lastHot.value >= c.refreshEvery
  }

  predicate RotationDue(l: Loop, t: Turn, c: Timing) {
    c.rotateEvery > 0 && t.now - l.lastRotation >= c.rotateEvery
  }

  function RefreshStep(l: Loop, t: Turn, s: Settings, c: Timing): Loop {
    if RefreshDue(l, t, c)
    then l.(pool := Refresh(l.pool, l.lastHot.None?, t.refresh, s), lastHot := Some(t.now))
    else l
  }

  function AskedStep(l: Loop, t: Turn, s: Settings): Loop {
    if t.rotateAsked then l.(pool := Rotate(l.pool, t.rotation, s), lastRotation := t.later) else l
  }

  function TimedStep(l: Loop, t: Turn, s: Settings, c: Timing): Loop {
    if RotationDue(l, t, c) then l.(pool := Rotate(l.pool, t.timed, s), lastRotation := t.later) else l
  }

  /** The refresh and the rotations of a turn. */
  function Upkeep(l: Loop, t: Turn, s: Settings, c: Timing): Loop {
    TimedStep(AskedStep(RefreshStep(l.(attempt := Attempt(l, t.now)), t, s, c), t, s), t, s, c)
  }

  predicate TrafficRead(p: Pool, t: Turn) { p.connected && p.xray.Up? && t.traffic }

  /** The control channel of a living Xray is lost and cannot be opened again. */
  predicate ControlLost(p: Pool, t: Turn) { p.xray.Up? && !TrafficRead(p, t) && !t.reconnects }

  /** The traffic query, the reconnection, and the end of an Xray that cannot be controlled. */
  function Watch(l: Loop, t: Turn): Loop {
    var p := if t.diesLate then l.pool.(xray := Down) else l.pool;
    if ControlLost(p, t) then
      var lost := p.(connected := false);
      if l.controlFails + 1 >= MAX_CONTROL_FAILS then l.(pool := lost.(xray := Down), controlFails := 0)
      else l.(pool := lost, controlFails := l.controlFails + 1)
    else if p.xray.Up? && !TrafficRead(p, t) then l.(pool := p.(connected := true), controlFails := 0)
    else l.(pool := p, controlFails := 0)
  }

  function Found(l: Loop, t: Turn): Loop { if t.dead then l.(pool := l.pool.(xray := Down)) else l }

  /** One turn of the loop. */
  function AfterTurn(l: Loop, t: Turn, s: Settings, c: Timing): Loop {
    if !l.running then l
    else if Found(l, t).pool.xray.Down? then Recover(Found(l, t), t, s)
    else Watch(Upkeep(l, t, s, c), t)
  }

  function LoopRun(l: Loop, turns: seq<Turn>, s: Settings, c: Timing): Loop {
    if turns == [] then l
    else AfterTurn(LoopRun(l, turns[..|turns| - 1], s, c), turns[|turns| - 1], s, c)
  }

  /** The loop when the first launch has succeeded. */
  function Begin(slots: nat, at: int): Loop { Loop(Launch(Start(slots), true), true, at, 0, None, at, 0) }

  // ---- a run of the loop is a run of the pool --------------------------------------------------

  function Maybe(b: bool, e: Event): seq<Event> { if b then [e] else [] }

  function UpkeepEvents(l: Loop, t: Turn, s: Settings, c: Timing): seq<Event> {
    var a := RefreshStep(l.(attempt := Attempt(l, t.now)), t, s, c);
    Maybe(RefreshDue(l, t, c), Refreshed(l.lastHot.None?, t.refresh)) + Maybe(t.rotateAsked, Rotated(t.rotation))
    + Maybe(RotationDue(AskedStep(a, t, s), t, c), Rotated(t.timed))
  }

  function WatchEvents(l: Loop, t: Turn): seq<Event> {
    var p := if t.diesLate then l.pool.(xray := Down) else l.pool;
    Maybe(t.diesLate, Crashed) + Maybe(p.xray.Up? && !TrafficRead(p, t), Reconnected(t.reconnects))
    + Maybe(ControlLost(p, t) && l.controlFails + 1 >= MAX_CONTROL_FAILS, Crashed)
  }

  function RecoverEvents(t: Turn): seq<Event> {
    Maybe(!t.stopped, Launched(t.launched)) + Maybe(!t.stopped && t.launched, Refreshed(true, t.respawn))
  }

  function TurnEvents(l: Loop, t: Turn, s: Settings, c: Timing): seq<Event> {
    if !l.running then []
    else if Found(l, t).pool.xray.Down? then Maybe(t.dead, Crashed) + RecoverEvents(t)
    else UpkeepEvents(l, t, s, c) + WatchEvents(Upkeep(l, t, s, c), t)
  }

  lemma RunMaybe(p: Pool, events: seq<Event>, b: bool, e: Event, s: Settings)
    ensures Run(p, events + Maybe(b, e), s) == if b then Next(Run(p, events, s), e, s) else Run(p, events, s)
  {
    if b { RunSnoc(p, events, e, s); } else { assert events + [] == events; }
  }

  lemma RunOneMaybe(p: Pool, b: bool, e: Event, s: Settings)
    ensures Run(p, Maybe(b, e), s) == if b then Next(p, e, s) else p
  {
    if b { RunOne(p, e, s); }
  }

  lemma UpkeepIsRun(l: Loop, t: Turn, s: Settings, c: Timing)
    ensures Upkeep(l, t, s, c).pool == Run(l.pool, UpkeepEvents(l, t, s, c), s)
  {
    var first, asked := Refreshed(l.lastHot.None?, t.refresh), Rotated(t.rotation);
    var a := RefreshStep(l.(attempt := Attempt(l, t.now)), t, s, c);
    RunOneMaybe(l.pool, RefreshDue(l, t, c), first, s);
    RunMaybe(l.pool, Maybe(RefreshDue(l, t, c), first), t.rotateAsked, asked, s);
    RunMaybe(l.pool, Maybe(RefreshDue(l, t, c), first) + Maybe(t.rotateAsked, asked),
             RotationDue(AskedStep(a, t, s), t, c), Rotated(t.timed), s);
  }

  lemma WatchIsRun(l: Loop, t: Turn, s: Settings)
    ensures Watch(l, t).pool == Run(l.pool, WatchEvents(l, t), s)
  {
    var p := if t.diesLate then l.pool.(xray := Down) else l.pool;
    var late, again := Maybe(t.diesLate, Crashed), Reconnected(t.reconnects);
    RunOneMaybe(l.pool, t.diesLate, Crashed, s);
    RunMaybe(l.pool, late, p.xray.Up? && !TrafficRead(p, t), again, s);
    RunMaybe(l.pool, late + Maybe(p.xray.Up? && !TrafficRead(p, t), again),
             ControlLost(p, t) && l.controlFails + 1 >= MAX_CONTROL_FAILS, Crashed, s);
  }

  lemma RecoverIsRun(l: Loop, t: Turn, s: Settings)
    ensures Recover(l, t, s).pool == Run(l.pool, RecoverEvents(t), s)
  {
    RunOneMaybe(l.pool, !t.stopped, Launched(t.launched), s);
    RunMaybe(l.pool, Maybe(!t.stopped, Launched(t.launched)), !t.stopped && t.launched, Refreshed(true, t.respawn), s);
  }

  lemma TurnIsRun(l: Loop, t: Turn, s: Settings, c: Timing)
    ensures AfterTurn(l, t, s, c).pool == Run(l.pool, TurnEvents(l, t, s, c), s)
  {
    if l.running {
      if Found(l, t).pool.xray.Down? {
        RunOneMaybe(l.pool, t.dead, Crashed, s);
        RecoverIsRun(Found(l, t), t, s);
        RunAppend(l.pool, Maybe(t.dead, Crashed), RecoverEvents(t), s);
      } else {
        UpkeepIsRun(l, t, s, c);
        WatchIsRun(Upkeep(l, t, s, c), t, s);
        RunAppend(l.pool, UpkeepEvents(l, t, s, c), WatchEvents(Upkeep(l, t, s, c), t), s);
      }
    }
  }

  /** Whatever happens turn by turn, the pool goes through a run of the state machine, so everything
      proved of its runs holds in the loop. */
  lemma {:induction false} LoopIsRun(slots: nat, at: int, turns: seq<Turn>, s: Settings, c: Timing)
    returns (events: seq<Event>)
    ensures LoopRun(Begin(slots, at), turns, s, c).pool == Run(Start(slots), events, s)
  {
    if turns == [] {
      events := [Launched(true)];
      RunOne(Start(slots), Launched(true), s);
    } else {
      var n := |turns| - 1;
      var l := LoopRun(Begin(slots, at), turns[..n], s, c);
      var before := LoopIsRun(slots, at, turns[..n], s, c);
      TurnIsRun(l, turns[n], s, c);
      events := before + TurnEvents(l, turns[n], s, c);
      RunAppend(Start(slots), before, TurnEvents(l, turns[n], s, c), s);
    }
  }

  lemma LoopKeepsBooks(slots: nat, at: int, turns: seq<Turn>, s: Settings, c: Timing)
    ensures var p := LoopRun(Begin(slots, at), turns, s, c).pool; Bookkeeping(p) && |p.slots| == slots
  {
    var events := LoopIsRun(slots, at, turns, s, c);
    RunKeepsBooks(slots, events, s);
  }

  // ---- which calls a turn makes ------------------------------------------------------------------

  lemma UpkeepCalls(l: Loop, t: Turn, s: Settings, c: Timing)
    ensures var refresh := l.lastHot.None? || t.now - l.lastHot.value >= c.refreshEvery;
            var last := if t.rotateAsked then t.later else l.lastRotation;
            var timed := c.rotateEvery > 0 && t.now - last >= c.rotateEvery;
            var u := Upkeep(l, t, s, c);
      && UpkeepEvents(l, t, s, c)
           == Maybe(refresh, Refreshed(l.lastHot.None?, t.refresh)) + Maybe(t.rotateAsked, Rotated(t.rotation))
              + Maybe(timed, Rotated(t.timed))
      && u.lastHot == (if refresh then Some(t.now) else l.lastHot)
      && u.lastRotation == if timed then t.later else last
  {
  }

  lemma WatchOnlyWatches(l: Loop, t: Turn)
    ensures forall e | e in WatchEvents(l, t) :: e.Crashed? || e.Reconnected?
    ensures Watch(l, t).lastHot == l.lastHot && Watch(l, t).lastRotation == l.lastRotation
  {
  }

  /** A turn that finds Xray alive makes these calls in this order, and notes when: a refresh if and
      only if none was made yet or the last is at least its interval old; an asked rotation if and only
      if it was asked for; a timed rotation if and only if there is an interval and the last rotation,
      an asked one of this turn included, is at least that old. What follows only watches Xray. */
  lemma LiveTurnCalls(l: Loop, t: Turn, s: Settings, c: Timing) returns (watch: seq<Event>)
    requires l.running && l.pool.xray.Up? && !t.dead
    ensures var refresh := l.lastHot.None? || t.now - l.lastHot.value >= c.refreshEvery;
            var last := if t.rotateAsked then t.later else l.lastRotation;
            var timed := c.rotateEvery > 0 && t.now - last >= c.rotateEvery;
            var after := AfterTurn(l, t, s, c);
      && after.pool == Run(l.pool, Maybe(refresh, Refreshed(l.lastHot.None?, t.refresh))
                                   + Maybe(t.rotateAsked, Rotated(t.rotation))
                                   + Maybe(timed, Rotated(t.timed)) + watch, s)
      && after.lastHot == (if refresh then Some(t.now) else l.lastHot)
      && after.lastRotation == if timed then t.later else last
    ensures forall e | e in watch :: e.Crashed? || e.Reconnected?
  {
    watch := WatchEvents(Upkeep(l, t, s, c), t);
    TurnIsRun(l, t, s, c);
    UpkeepCalls(l, t, s, c);
    WatchOnlyWatches(Upkeep(l, t, s, c), t);
  }

  /** The timers are kept: no refresh and no rotation is overdue. */
  ghost predicate OnTime(l: Loop, now: int, c: Timing) {
    && l.lastHot.Some? && (c.refreshEvery > 0 ==> now - l.lastHot.value < c.refreshEvery)
    && (c.rotateEvery > 0 ==> now - l.lastRotation < c.rotateEvery)
  }

  /** After every turn of every run, a recovery included, the last refresh and the last rotation are
      less than their intervals old. */
  lemma TimersAreKept(l: Loop, turns: seq<Turn>, t: Turn, s: Settings, c: Timing)
    requires t.later >= t.now && AfterTurn(LoopRun(l, turns, s, c), t, s, c).running
    ensures OnTime(AfterTurn(LoopRun(l, turns, s, c), t, s, c), t.now, c)
  {
    var before := LoopRun(l, turns, s, c);
    if !Found(before, t).pool.xray.Down? {
      UpkeepCalls(before, t, s, c);
      WatchOnlyWatches(Upkeep(before, t, s, c), t);
    }
  }

  // ---- the first refresh -----------------------------------------------------------------------

  lemma RunTurn(l: Loop, turns: seq<Turn>, t: Turn, s: Settings, c: Timing)
    ensures LoopRun(l, turns + [t], s, c) == AfterTurn(LoopRun(l, turns, s, c), t, s, c)
  {
    assert (turns + [t])[..|turns|] == turns;
  }

  lemma TurnRefreshes(l: Loop, t: Turn, s: Settings, c: Timing)
    requires AfterTurn(l, t, s, c).running
    ensures l.running && AfterTurn(l, t, s, c).lastHot.Some?
  {
  }

  /** Outside of recoveries only the first turn makes a refresh that gives all slots anew because it
      is the first; every later refresh repairs. */
  lemma OneFirstRefresh(l: Loop, turns: seq<Turn>, s: Settings, c: Timing)
    requires turns != [] && LoopRun(l, turns, s, c).running
    ensures LoopRun(l, turns, s, c).lastHot.Some?
  {
    var n := |turns| - 1;
    TurnRefreshes(LoopRun(l, turns[..n], s, c), turns[n], s, c);
  }

  // ---- recovery ----------------------------------------------------------------------------------

  /** The turn that finds Xray dead and can launch it again puts every slot back into service, when
      its refresh finds eligible nodes that fit the ring and no call fails; nothing is leaked. */
  lemma RecoveringTurnSettles(l: Loop, t: Turn, s: Settings, c: Timing)
    requires l.running && Found(l, t).pool.xray.Down? && !t.stopped && t.launched
    requires Bookkeeping(l.pool) && |l.pool.slots| > 0
    requires t.respawn.faults == NO_FAULTS && Servers(t.respawn.rows) != []
    requires FitsRing(t.respawn.rows, |l.pool.slots|, s)
    ensures var after := AfterTurn(l, t, s, c);
      after.running && after.controlFails == 0 && Settled(after.pool) && Leaked(after.pool) == {}
  {
    LaunchedReady(Found(l, t).pool);
    FirstRefreshSettles(Launch(Found(l, t).pool, true), t.respawn, s);
  }

  /** In this turn Xray lives, and the control channel is gone. */
  predicate Unreachable(t: Turn) { !t.dead && !t.diesLate && !t.traffic && !t.reconnects }

  lemma RefreshStaysUp(p: Pool, initial: bool, w: World, s: Settings)
    ensures Refresh(p, initial, w, s).xray.Up? == p.xray.Up?
  {
  }

  lemma RotateStaysUp(p: Pool, w: World, s: Settings)
    ensures Rotate(p, w, s).xray.Up? == p.xray.Up?
  {
  }

  lemma UpkeepStaysUp(l: Loop, t: Turn, s: Settings, c: Timing)
    ensures var u := Upkeep(l, t, s, c);
      u.pool.xray.Up? == l.pool.xray.Up? && u.running == l.running && u.controlFails == l.controlFails
  {
    var a := RefreshStep(l.(attempt := Attempt(l, t.now)), t, s, c);
    var b := AskedStep(a, t, s);
    RefreshStaysUp(l.pool, l.lastHot.None?, t.refresh, s);
    RotateStaysUp(a.pool, t.rotation, s);
    RotateStaysUp(b.pool, t.timed, s);
  }

  lemma UnreachableTurn(l: Loop, t: Turn, s: Settings, c: Timing)
    requires l.running && l.pool.xray.Up? && Unreachable(t)
    ensures var after := AfterTurn(l, t, s, c);
      && after.running
      && if l.controlFails + 1 >= MAX_CONTROL_FAILS then after.pool.xray.Down?
         else after.pool.xray.Up? && after.controlFails == l.controlFails + 1
  {
    UpkeepStaysUp(l, t, s, c);
  }

  /** Three such turns in a row end Xray, so that the next one recovers. */
  lemma {:induction false} LostControlEndsXray(l: Loop, turns: seq<Turn>, s: Settings, c: Timing)
    requires l.running && l.pool.xray.Up? && l.controlFails + |turns| <= MAX_CONTROL_FAILS
    requires l.controlFails < MAX_CONTROL_FAILS && forall t | t in turns :: Unreachable(t)
    ensures var after := LoopRun(l, turns, s, c);
      && after.running
      && if l.controlFails + |turns| == MAX_CONTROL_FAILS then after.pool.xray.Down?
         else after.pool.xray.Up? && after.controlFails == l.controlFails + |turns|
  {
    if turns != [] {
      var n := |turns| - 1;
      assert turns[n] in turns;
      LostControlEndsXray(l, turns[..n], s, c);
      UnreachableTurn(LoopRun(l, turns[..n], s, c), turns[n], s, c);
    }
  }

  /** So in every run: if the control channel stays lost for three turns, the fourth puts every slot
      back into service. */
  lemma LostControlIsRepaired(slots: nat, at: int, before: seq<Turn>, lost: seq<Turn>, t: Turn, s: Settings, c: Timing)
    requires slots > 0 && |lost| == MAX_CONTROL_FAILS && forall u | u in lost :: Unreachable(u)
    requires var l := LoopRun(Begin(slots, at), before, s, c); l.running && l.pool.xray.Up? && l.controlFails == 0
    requires !t.stopped && t.launched && t.respawn.faults == NO_FAULTS
    requires Servers(t.respawn.rows) != [] && FitsRing(t.respawn.rows, slots, s)
    ensures Settled(LoopRun(LoopRun(Begin(slots, at), before, s, c), lost + [t], s, c).pool)
  {
    var l := LoopRun(Begin(slots, at), before, s, c);
    LostControlEndsXray(l, lost, s, c);
    LoopAppend(Begin(slots, at), before, lost, s, c);
    LoopKeepsBooks(slots, at, before + lost, s, c);
    RunTurn(l, lost, t, s, c);
    RecoveringTurnSettles(LoopRun(l, lost, s, c), t, s, c);
  }

  lemma {:induction false} LoopAppend(l: Loop, a: seq<Turn>, b: seq<Turn>, s: Settings, c: Timing)
    ensures LoopRun(l, a + b, s, c) == LoopRun(LoopRun(l, a, s, c), b, s, c)
  {
    if b == [] {
      assert a + b == a;
    } else {
      var front, t := b[..|b| - 1], b[|b| - 1];
      LoopAppend(l, a, front, s, c);
      RunTurn(l, a + front, t, s, c);
      RunTurn(LoopRun(l, a, s, c), front, t, s, c);
      assert a + b == (a + front) + [t] && b == front + [t];
    }
  }

  /** The loop itself makes the run of `RespawnIntoEmptyCatalog`: a recovery that finds no eligible
      node, and a refresh after it that takes the old nodes for live. */
  lemma LoopLosesOverrides(l: Loop, t: Turn, u: Turn, s: Settings, c: Timing, i: nat)
    requires l.running && Bookkeeping(l.pool) && i < |l.pool.slots|
    requires Found(l, t).pool.xray.Down? && !t.stopped && t.launched && Servers(t.respawn.rows) == []
    requires !u.dead && !u.rotateAsked && c.rotateEvery <= 0 && u.now - t.later >= c.refreshEvery
    requires u.refresh.faults == NO_FAULTS && Live(l.pool.slots[i], Servers(u.refresh.rows))
    ensures var q := AfterTurn(AfterTurn(l, t, s, c), u, s, c).pool;
      !Agrees(q) && i < |q.slots| && q.slots[i] == l.pool.slots[i]
  {
    var p := Found(l, t).pool;
    var again := AfterTurn(l, t, s, c);
    assert again.pool == Launch(p, true);
    LaunchedReady(p);
    RepairNeverResends(again.pool, u.refresh, s, i);
    WatchAgrees(Upkeep(again, u, s, c), u);
  }

  lemma WatchAgrees(l: Loop, t: Turn)
    requires !Agrees(l.pool)
    ensures !Agrees(Watch(l, t).pool) && Watch(l, t).pool.slots == l.pool.slots
  {
    var p, q := l.pool, Watch(l, t).pool;
    if q.xray.Up? && p.xray.Up? {
      forall i | 0 <= i < |p.slots| ensures Serves(q, i) <==> Serves(p, i) {
      }
    }
  }

  lemma UpkeepKeepsControl(l: Loop, t: Turn, s: Settings, c: Timing)
    ensures Upkeep(l, t, s, c).pool.connected == l.pool.connected
  {
    var a := RefreshStep(l.(attempt := Attempt(l, t.now)), t, s, c);
    var b := AskedStep(a, t, s);
    RefreshKeepsControl(l.pool, l.lastHot.None?, t.refresh, s);
    RotateKeepsControl(a.pool, t.rotation, s);
    RotateKeepsControl(b.pool, t.timed, s);
  }

  lemma RefreshKeepsControl(p: Pool, initial: bool, w: World, s: Settings)
    ensures Refresh(p, initial, w, s).connected == p.connected
  {
  }

  lemma RotateKeepsControl(p: Pool, w: World, s: Settings)
    ensures Rotate(p, w, s).connected == p.connected
  {
  }

  /** The loop counts the turns in a row in which a living Xray could be neither read nor reached
      again: any other turn starts the count anew, and the third such turn ends Xray. A channel that
      cannot be read is opened again in the same turn if it can be. */
  lemma LostTurnsAreCounted(l: Loop, t: Turn, s: Settings, c: Timing)
    requires l.running && l.pool.xray.Up? && !t.dead
    ensures var read := l.pool.connected && t.traffic;
            var lost := !t.diesLate && !read && !t.reconnects;
            var after := AfterTurn(l, t, s, c);
      && after.running
      && after.controlFails == (if lost && l.controlFails + 1 < 3 then l.controlFails + 1 else 0)
      && (after.pool.xray.Down? <==> t.diesLate || (lost && l.controlFails + 1 >= 3))
      && (!t.diesLate ==> (after.pool.connected <==> read || t.reconnects))
  {
    UpkeepStaysUp(l, t, s, c);
    UpkeepKeepsControl(l, t, s, c);
  }

  /** What a turn does that finds Xray dead: the attempt is counted, anew when the last start that
      succeeded is a minute ago; unless a stop interrupts the wait Xray is launched, and with it a
      first refresh is made; both timers start anew. */
  lemma DeadTurnCalls(l: Loop, t: Turn, s: Settings, c: Timing)
    requires l.running && (l.pool.xray.Down? || t.dead)
    ensures var after := AfterTurn(l, t, s, c);
      && after.pool == Run(l.pool, Maybe(t.dead, Crashed) + (Maybe(!t.stopped, Launched(t.launched))
                                   + Maybe(!t.stopped && t.launched, Refreshed(true, t.respawn))), s)
      && after.running == !t.stopped
      && after.attempt == (if t.now - l.startedAt >= 60 then 0 else l.attempt) + 1
      && after.startedAt == (if !t.stopped && t.launched then t.later else l.startedAt)
      && (!t.stopped ==> after.lastHot == Some(t.later) && after.lastRotation == t.later && after.controlFails == 0)
  {
    TurnIsRun(l, t, s, c);
  }

  /** The loop starts with no refresh made, no attempt and no lost turn counted, and both clocks at its
      start: its first turn on a living Xray gives all slots anew and makes no timed rotation before
      its interval; the first recovery waits two seconds. */
  lemma LoopStarts(slots: nat, at: int, t: Turn, s: Settings, c: Timing)
    ensures var l := Begin(slots, at);
      && l.running && l.pool.xray.Up? && l.pool.connected
      && RestartDelay(Attempt(l, t.now)) == 2
      && (!t.dead && t.now - at < c.rotateEvery && !t.rotateAsked ==>
            && AfterTurn(l, t, s, c).lastHot == Some(t.now) && AfterTurn(l, t, s, c).lastRotation == at
            && Upkeep(l, t, s, c).pool == Refresh(l.pool, true, t.refresh, s))
      && (Unreachable(t) ==> AfterTurn(l, t, s, c).controlFails == 1)
  {
    var l := Begin(slots, at);
    UpkeepCalls(l, t, s, c);
    WatchOnlyWatches(Upkeep(l, t, s, c), t);
    if Unreachable(t) { LostTurnsAreCounted(l, t, s, c); }
    assert RestartDelay(0) == 2;
  }

  // ---- the wait before a launch ------------------------------------------------------------------

  lemma DelayDoubles(attempt: nat)
    ensures RestartDelay(attempt + 1) == Min(MAX_BACKOFF, 2 * RestartDelay(attempt))
    ensures BACKOFF <= RestartDelay(attempt) <= MAX_BACKOFF
  {
    Pow2AtLeastOne(attempt);
  }

  lemma {:induction false} Pow2AtLeastOne(n: nat)
    ensures Pow2(n) >= 1
  {
    if n > 0 { Pow2AtLeastOne(n - 1); }
  }

  /** The wait is meant to double from one failed launch to the next. It does exactly while the last
      start that succeeded is less than a minute ago; from then on every wait is the shortest one,
      because that start, however long Xray has been dead since, still counts as a stable one. */
  lemma BackoffDoublesIff(l: Loop, t: Turn, now: int, s: Settings, c: Timing)
    requires l.running && Found(l, t).pool.xray.Down? && !t.stopped && !t.launched && t.now <= now
    ensures var after := AfterTurn(l, t, s, c);
      && (Delay(after, now) == Min(MAX_BACKOFF, 2 * Delay(l, t.now)) <==> now - l.startedAt < STABLE_UPTIME)
      && (now - l.startedAt >= STABLE_UPTIME ==> Delay(after, now) == BACKOFF)
  {
    DelayDoubles(Attempt(l, t.now));
    assert RestartDelay(0) == BACKOFF;
  }
}
