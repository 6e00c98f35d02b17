# fetch_mtproto: verified model

fetch_mtproto collects MTProto and V2Ray proxies, tests them, keeps their health in a catalog and
serves a pool of local proxy ports through one Xray process. This project models its decision
logic in Dafny and proves properties of it. Every file is one component:

- **Proxy pool.** `Spreading` (giving nodes to slots), `HotSet` (choosing the ring), `PoolModel`
  (controller and remote Xray as a state machine), `PoolProofs` (what every run keeps),
  `PoolAgreement` (when balancers and slot records agree, exactly), `PoolRepair` (replacing dead
  slots), `PoolRuns` (agreement over runs, and the runs that lose it), `PoolLeaks` (outbounds the
  controller lost track of), `PoolLeases` (what every event does to the leases, and reuse over runs),
  `PoolRings` (which nodes a refresh and a rotation choose and load),
  `PoolLoop` (the control loop over the state machine), `PoolController` (the class with the source's
  loops, each method proved equal to its step of the model).
- **Probing.** `Prober` (TCP stage, batches through one Xray, crash isolation), `WorkingCap` (the
  bounded-concurrency pinger with its cap), `ProbeWaves` (the wave loop over due servers),
  `ProbeRuns` (that loop over what the prober may report), `ProbeRecords` (what it leaves in a row).
- **Catalog and health.** `Health`, `Catalog` and `WriteBuffer` (V2Ray rows, history and the
  grouped write buffer), `Inventory` (catalog cap, pruning and due rows), `ProxySpec`, `ProxyStore`
  and `ProxyCatalog` (the MTProto table with its working-set cap), `ProxyLaws` (what each call makes
  of a row), `SqlOrder` (ORDER BY and LIMIT), `RowOrders` (what the orders mean on the columns).
- **Codecs, editors, builders.** `CtrDecrypt` and `Whitebox` (the stream decryptor), `ConfigLines`,
  `ConfigEditor` and `ConfigFile` (editing values of a YAML file by lines), `Base64` and
  `ShareLink` (Shadowsocks links), `PoolPorts` and `XrayConfig` (ports and routing).
- `Wrappers`, `Ordering`, `Arith` and `Text` hold what several of them share.

What the outside world decides is a parameter of a step: which remote calls fail, or take effect
and still report an error; what a server answers; when Xray dies; the shuffle; the clock; the score
of a row. A theorem about runs holds for all of these.

## Results that differ from what one would expect

Eleven properties do not hold of the code as one might state them. For each the exact condition is
proved, and the failing runs or inputs are given.

1. A rotation that finds an eligible server need not put the slots into service. The ring is chosen
   from all candidate rows before it is checked which of them build an outbound; if it holds no
   eligible one, every slot is cleared. Whatever failed before, agreement holds exactly when the ring
   holds an eligible node and no node that is dealt is leaked (`PoolAgreement.RotateAgreesIff`; for
   every shuffle at once, `PoolLeaks.RotateAlwaysAgreesIff`; a run in
   `PoolRuns.RotationIntoUnusableRing`).
2. A removal of an outbound that fails is swallowed and the tag forgotten, and an addition whose
   answer is lost is never noted: Xray then holds an outbound the controller does not know of
   (`PoolAgreement.SyncLeaksExactly`). When that node returns to the ring, Xray refuses to add it, on
   this and every later call, so it never counts as loaded until the process ends
   (`PoolLeaks.LeaksLast`, `PoolLeaks.LeakedNeverServes`; a run in `PoolLeaks.LeakingRun`).
3. A repairing refresh never sends a live slot its override again. After a respawn whose first
   refresh finds nothing eligible the overrides are gone, and slots whose nodes come back stay
   without one (`PoolAgreement.RepairingRefreshAgreesIff`, `PoolRuns.RespawnIntoEmptyCatalog`; the
   control loop makes this run, `PoolLoop.LoopLosesOverrides`).
4. A refresh removes the outbound of a live slot whose node left the ring and keeps the slot record
   (`PoolRuns.LiveNodeOutsideRing`). With all candidate rows inside the ring this cannot happen
   (`PoolRuns.FittingRepairAgreesIff`).
5. The wait before Xray is launched again doubles from one failed launch to the next only during the
   first minute after the last start that succeeded; after that every wait is the shortest one,
   because the time since that start counts as uptime although Xray is dead
   (`PoolLoop.BackoffDoublesIff`).
6. The probe shell's API port 45520 collides with a probe port exactly when it lies in
   base..base+concurrency-1; with the default base, for more than 519 slots
   (`PoolPorts.ProbePortsDistinct`, `PoolPorts.DefaultBaseLimit`).
7. The wave loop need not end. A server whose result is dropped by the "can't test" filter stays due
   as long as it has its row. The loop ends exactly when every due server whose result is dropped
   loses its row to some wave (`ProbeWaves.WavesEndIff`), and, where the cap cannot delete those rows,
   exactly when pruning deletes them, within ceil(n/1500) waves (`ProbeWaves.WavesEndIffPruned`). The
   filter matches text: a server that answers `503 Service Unavailable` is dropped, and so is every
   survivor of the TCP stage while Xray does not start (`ProbeWaves.UnavailableIsDropped`,
   `ProbeWaves.NotStartedIsDropped`). Over the prober the dropped servers are those whose lone result
   the filter drops (`ProbeRuns.ProbedRunEndsIff`).
8. The write buffer can write the outcomes of a key in another order than they came, because a flush
   writes type by type, and then the row, even its state, can differ (`WriteBuffer.MixedTypesReorder`).
   It keeps the order exactly when the key's outcomes stand in the order of their groups each time the
   queue is written (`WriteBuffer.WriteOrderIff`), as they do when those that wait together share one
   type, and then the whole row is equal (`WriteBuffer.BufferKeepsRow`, `WriteBuffer.OneTypeKeepsRow`).
   Lifetime totals always agree (`WriteBuffer.BufferKeepsTotals`).
9. Setting a configuration value twice is not always setting it once: a comment is lost if the
   scalar before it has an odd number of quotes, and a scalar with a `#` after an even number of
   quotes grows the line (`ConfigEditor.SecondRunIff`, `ConfigLines.Stable`).
10. A line that the editor adds after an unterminated last line is glued to it. The written text reads
    back exactly when that last line is itself the first of an updated key, or when every update
    without a line belongs to a section of the file other than its last
    (`ConfigFile.OpenLastLineIff`).
11. A Shadowsocks outbound whose host holds a colon, such as an IPv6 address, is built into a link
    that does not parse (`ShareLink.ShadowsocksRoundTrip`).

Where code and documentation disagree, the model follows the code. README.md of the repository
gives dead servers 10m / 30m / 1h / 3h and the hot ring about 750 outbounds; the code rests dead
servers 5 to 45 minutes, and the defaults load 300 + 300 + 100. The comment of
`next_probe_due_iso` says healthy servers rest 5 to 15 minutes; the code says 10 or 15. The comment
of `backoff_seconds` is right about its first steps. `derive_v2ray_state` takes a bound of 3000 ms
that can never decide, because 2000 ms is tested before it.

## Model

| member | source | states |
|---|---|---|
| Spreading.ReuseIsExact | fetch_mtproto/v2ray/hot_set.py:137-181 | with U distinct non-empty keys and n slots, extra reuse is max(0, n - U), and 0 with all slots empty when there is no key, whatever `keep` asks for |
| Spreading.EnoughKeysNoReuse | fetch_mtproto/v2ray/hot_set.py:137-181 | slots are pairwise distinct when U >= n |
| Spreading.TooFewKeysSharedEvenly | fetch_mtproto/v2ray/hot_set.py:170-181 | with fewer keys than slots, key j is used exactly 1 + its even share of the reuse |
| Spreading.SharesDifferByAtMostOne | fetch_mtproto/v2ray/hot_set.py:170-181 | then every key is used and use counts differ by at most one |
| Spreading.KeptStays | fetch_mtproto/v2ray/hot_set.py:151-160 | each first valid `keep` entry stays in its slot |
| Spreading.EarlierKeysFirst | fetch_mtproto/v2ray/hot_set.py:161-170 | a key not kept is used only if every earlier key is used |
| Spreading.DealtInTurn | fetch_mtproto/v2ray/hot_set.py:137-181 | with nothing kept, slot i gets key i modulo the number of keys |
| Spreading.SpreadKeys | fetch_mtproto/v2ray/hot_set.py:137-181 | the four loops compute the allocation the lemmas above are about, for any slot count |
| HotSet.RankedKeysAreRowKeys | fetch_mtproto/v2ray/hot_set.py:104-124 | the ranking lists each key of the rows once |
| HotSet.RankedKeysSorted | fetch_mtproto/v2ray/hot_set.py:113-124 | the ranking is by best score, earlier row first among equals |
| HotSet.RingIsPrefix | fetch_mtproto/v2ray/hot_set.py:119-134 | the three tiers concatenate to the first min(distinct keys, active + standby + reserve) keys of the ranking |
| HotSet.RingIsDistinct | fetch_mtproto/v2ray/hot_set.py:119-134 | no key is in the ring twice |
| HotSet.TiersAreDisjoint | fetch_mtproto/v2ray/hot_set.py:119-134 | no key is in two tiers |
| HotSet.OutsideNeverOutscoresInside | fetch_mtproto/v2ray/hot_set.py:104-134 | no key outside the ring outscores one inside |
| HotSet.CoolingNeverReordersOthers | fetch_mtproto/v2ray/hot_set.py:104-118 | putting one key into cooling leaves the order of all others alone |
| HotSet.CoolingNeverRaisesRank | fetch_mtproto/v2ray/hot_set.py:104-118 | and never moves that key up |
| HotSet.UseNeverReordersOthers | fetch_mtproto/v2ray/hot_set.py:104-118 | putting one key into use leaves the order of all others alone |
| HotSet.UseNeverLowersRank | fetch_mtproto/v2ray/hot_set.py:104-118 | and never moves that key down |
| HotSet.ScoreMeans | fetch_mtproto/v2ray/hot_set.py:104-118 | a scored row has its own score, 200 less when cooling and 10 more when in use |
| HotSet.SelectHotSet | fetch_mtproto/v2ray/hot_set.py:92-134 | scoring loop, sort and deduplication give the ring of the specification |
| PoolProofs.NextKeepsBooks | fetch_mtproto/v2ray/proxy_pool.py:418-797 | launch, refresh, rotation, crash and reconnect, with any calls failing, keep the loaded tags a subset of Xray's outbounds while it is alive, every outbound under its node's tag, and slot tags matching slot nodes |
| PoolProofs.RunKeepsBooks | fetch_mtproto/v2ray/proxy_pool.py:282-797 | so does every run from the start |
| PoolProofs.AssignAgreesByIndex | fetch_mtproto/v2ray/proxy_pool.py:690-737 | slot records, override requests and the mapping agree index by index |
| PoolProofs.StampIsExact | fetch_mtproto/v2ray/proxy_pool.py:690-723 | the leases recorded are exactly those of the nodes given out; of assignments, repairs and whole events this is said by the rows of PoolLeases |
| PoolProofs.CoolingOnlyAfterRested | fetch_mtproto/v2ray/proxy_pool.py:668-690 | for every shuffle a slot gets a cooling node only if every rested node has a slot |
| PoolProofs.DealtNodes | fetch_mtproto/v2ray/proxy_pool.py:668-690 | an assignment over at least one node fills every slot with one of them |
| PoolLeases.AssignLeases | fetch_mtproto/v2ray/proxy_pool.py:690-737 | after an assignment the slots hold the nodes given, every node given out has a lease of this moment for the last slot that got it, and every other lease is as before, whatever calls fail |
| PoolLeases.AssignAllLeases | fetch_mtproto/v2ray/proxy_pool.py:668-737 | the same of an assignment that deals over rested and cooling nodes |
| PoolLeases.RepairLeases | fetch_mtproto/v2ray/proxy_pool.py:739-780 | the same of a repair for the slots that were not live |
| PoolLeases.NextLeases | fetch_mtproto/v2ray/proxy_pool.py:418-797 | every event of the state machine leases exactly the nodes it gives to slots, at its time; a rotation that finds a server first forgets all leases, nothing else does |
| PoolLeases.LeasesKept | fetch_mtproto/v2ray/proxy_pool.py:418-797 | without a rotation and with no refresh of an earlier time a lease never gets older, over every run |
| PoolLeases.RestedFirst | fetch_mtproto/v2ray/proxy_pool.py:604-690 | a refresh that gives all slots anew gives one to a cooling node only if every rested node of its ring has one |
| PoolLeases.DealtAgainAfterRested | fetch_mtproto/v2ray/proxy_pool.py:604-797 | over runs: a node given to a slot is dealt again within the reuse time, with no rotation between, only if every rested node of the ring gets a slot too |
| PoolRings.RefreshRingIsBest | fetch_mtproto/v2ray/proxy_pool.py:604-627 | the ring of a refresh holds the best keys of the rows in order, its tiers as many as each has room for, by their scores less 200 for an eligible node leased less than the reuse time ago and 10 more for one a slot holds |
| PoolRings.RotateRingIsBest | fetch_mtproto/v2ray/proxy_pool.py:782-793 | that of a rotation the best by their own scores |
| PoolRings.RefreshLoads | fetch_mtproto/v2ray/proxy_pool.py:604-666 | a refresh without failed calls leaves loaded just the eligible nodes of that ring but those leaked |
| PoolRings.RotateLoads | fetch_mtproto/v2ray/proxy_pool.py:641-666 | and so does a rotation |
| PoolRings.ReplacementIsStandby | fetch_mtproto/v2ray/proxy_pool.py:636-639 | a repairing refresh keeps every slot with an eligible node and fills the others from the standby tier alone, as long as that has an eligible node |
| PoolAgreement.SyncLeaksExactly | fetch_mtproto/v2ray/proxy_pool.py:641-666 | exactly which tags a sync leaves in Xray without the controller's knowledge: those already so, removals that failed, additions whose answer was lost |
| PoolAgreement.RotateAgreesIff | fetch_mtproto/v2ray/proxy_pool.py:782-797 | whatever failed before, after a rotation without failed calls each slot's override equals its outbound tag and that outbound is loaded, if and only if the ring holds an eligible node and no node dealt is leaked |
| PoolAgreement.InitialRefreshAgreesIff | fetch_mtproto/v2ray/proxy_pool.py:604-639 | the same for a refresh that gives all slots anew |
| PoolAgreement.WithoutControl | fetch_mtproto/v2ray/proxy_pool.py:641-677 | without a control channel such a refresh or a rotation makes no call and changes neither slots nor Xray |
| PoolAgreement.RepairingRefreshAgreesIff | fetch_mtproto/v2ray/proxy_pool.py:604-639 | whatever failed before, a repairing refresh ends in agreement if and only if every live slot has its override and its node in the ring, every replacement is in the ring, and none of them is leaked, all decided by the state before the call |
| PoolRepair.PlanReplaces | fetch_mtproto/v2ray/proxy_pool.py:739-780 | live slots get no replacement, every other slot gets an eligible node |
| PoolRepair.ReusedExactly | fetch_mtproto/v2ray/proxy_pool.py:752-774 | reuse happens exactly max(0, needed - unheld standby) times |
| PoolRepair.ReplacementsDiffer | fetch_mtproto/v2ray/proxy_pool.py:752-774 | until standby is exhausted replacements are standby nodes, distinct from each other and from every held node |
| PoolRepair.RepairEndsEligible | fetch_mtproto/v2ray/proxy_pool.py:739-780 | with any eligible server every slot ends on one, and live slots are untouched, whatever calls fail |
| PoolRuns.FittingRepairAgreesIff | fetch_mtproto/v2ray/proxy_pool.py:604-666 | with all rows inside the ring a repairing refresh agrees if and only if every live slot already has its override and no slot ends with a leaked node |
| PoolRuns.SettledNext | fetch_mtproto/v2ray/proxy_pool.py:604-797 | a further refresh or rotation without failed calls whose rows fit the ring keeps agreement if and only if it gives out no leaked node, and it leaks nothing |
| PoolRuns.SettledRun | fetch_mtproto/v2ray/proxy_pool.py:282-379 | so agreement lasts over every run of such events |
| PoolRuns.SettledAfterRecovery | fetch_mtproto/v2ray/proxy_pool.py:418-491 | whatever happened before, a launch followed by a refresh with eligible rows that fit restores agreement, and it lasts over every continuation without failed calls whose rows fit |
| PoolRuns.RepairNeverResends | fetch_mtproto/v2ray/proxy_pool.py:739-780 | a live slot without its override stays without it through a refresh |
| PoolRuns.RespawnIntoEmptyCatalog | fetch_mtproto/v2ray/proxy_pool.py:604-639 | the run that leads there: launch, first refresh finds nothing eligible, nodes come back |
| PoolRuns.LiveNodeOutsideRing | fetch_mtproto/v2ray/proxy_pool.py:641-666 | a live slot whose node left the ring keeps its record and loses its outbound, unless that is leaked |
| PoolRuns.RotationIntoUnusableRing | fetch_mtproto/v2ray/proxy_pool.py:782-797 | a concrete rotation with an eligible server that clears its slot |
| PoolLeaks.LeaksLast | fetch_mtproto/v2ray/proxy_pool.py:641-666 | whatever fails, a leak lasts until Xray is launched again or dies; while nothing fails there is no new one |
| PoolLeaks.LeakedNeverServes | fetch_mtproto/v2ray/proxy_pool.py:655-666 | a slot that gets a leaked node never agrees again in any run without a launch or crash |
| PoolLeaks.RotateAlwaysAgreesIff | fetch_mtproto/v2ray/proxy_pool.py:782-797 | a rotation without failed calls agrees under every shuffle if and only if its ring has eligible nodes and none of them is leaked |
| PoolLeaks.LeakingRun | fetch_mtproto/v2ray/proxy_pool.py:641-666 | a run from the start, for any settings and number of slots, that leaks a node and rotates back to it |
| PoolLoop.LoopIsRun | fetch_mtproto/v2ray/proxy_pool.py:282-379 | every run of the control loop is a run of the state machine |
| PoolLoop.LoopStarts | fetch_mtproto/v2ray/proxy_pool.py:282-325 | the loop starts with both clocks at its start: the first turn on a living Xray gives all slots anew, makes no timed rotation before its interval, and the first recovery waits two seconds |
| PoolLoop.LiveTurnCalls | fetch_mtproto/v2ray/proxy_pool.py:334-366 | in a turn that finds Xray alive a refresh is made if and only if none was made yet or the last is at least its interval old, an asked rotation if and only if asked for, a timed one if and only if there is an interval and the last rotation, an asked one of this turn included, is at least that old; in that order, with the times noted, and nothing else but the watch |
| PoolLoop.TimersAreKept | fetch_mtproto/v2ray/proxy_pool.py:325-366 | after every turn of every run neither the refresh nor the timed rotation is overdue |
| PoolLoop.LostTurnsAreCounted | fetch_mtproto/v2ray/proxy_pool.py:352-366 | the turns in a row in which a living Xray is neither read nor reached again are counted, any other turn starts the count anew, and the third ends Xray |
| PoolLoop.DeadTurnCalls | fetch_mtproto/v2ray/proxy_pool.py:326-333 | the calls of a turn that finds Xray dead, the attempt it counts, and both timers started anew |
| PoolLoop.OneFirstRefresh | fetch_mtproto/v2ray/proxy_pool.py:331-341 | outside recoveries only the first refresh of the loop gives all slots anew because it is the first |
| PoolLoop.RecoveringTurnSettles | fetch_mtproto/v2ray/proxy_pool.py:326-333 | the turn that finds Xray dead and can launch it puts every slot back into service, with nothing leaked |
| PoolLoop.LostControlEndsXray | fetch_mtproto/v2ray/proxy_pool.py:352-364 | while the control channel stays lost Xray lives for two turns and is ended by the third |
| PoolLoop.LostControlIsRepaired | fetch_mtproto/v2ray/proxy_pool.py:352-364 | so after three such turns the fourth puts every slot back into service |
| PoolLoop.LoopLosesOverrides | fetch_mtproto/v2ray/proxy_pool.py:326-341 | two turns of the loop that leave a slot without its override |
| PoolLoop.BackoffDoublesIff | fetch_mtproto/v2ray/proxy_pool.py:428-440 | from one failed launch to the next the wait doubles, up to its bound, if and only if the last successful start is less than a minute ago; otherwise it is two seconds |
| PoolController.ProxyPoolRunner.SyncLoadedOutbounds | fetch_mtproto/v2ray/proxy_pool.py:641-666 | the loops that remove stale and add missing outbounds make the sync step of the model, whatever calls fail |
| PoolController.ProxyPoolRunner.AssignKeys | fetch_mtproto/v2ray/proxy_pool.py:668-737 | assigning makes the assign step of the model, the leases of PoolLeases.AssignAllLeases included |
| PoolController.ProxyPoolRunner.RepairSlots | fetch_mtproto/v2ray/proxy_pool.py:739-780 | the repair loop makes the repair step of the model |
| PoolController.ProxyPoolRunner.RefreshHotAndAssign | fetch_mtproto/v2ray/proxy_pool.py:604-639 | the whole state after a refresh is that of the model |
| PoolController.ProxyPoolRunner.RotateAll | fetch_mtproto/v2ray/proxy_pool.py:782-797 | the whole state after a rotation is that of the model |
| PoolController.ProxyPoolRunner.LaunchXray | fetch_mtproto/v2ray/proxy_pool.py:450-491 | a launch forgets what was loaded and starts empty, or leaves nothing running |
| PoolController.ProxyPoolRunner.RecoverXray | fetch_mtproto/v2ray/proxy_pool.py:418-448 | a recovery counts its attempt, anew after a stable minute, stops when asked to during the wait, and otherwise is a teardown, a launch and a first refresh |
| PoolController.ProxyPoolRunner.KeepUp | fetch_mtproto/v2ray/proxy_pool.py:334-351 | the refresh and the rotations that PoolLoop.LiveTurnCalls says are due or asked for, with the records of when they were made |
| PoolController.ProxyPoolRunner.WatchControl | fetch_mtproto/v2ray/proxy_pool.py:352-366 | the traffic query, the reconnection and the count of lost turns |
| PoolController.ProxyPoolRunner.ControlTurn | fetch_mtproto/v2ray/proxy_pool.py:325-366 | one turn of the loop is the turn of the model |
| PoolController.ProxyPoolRunner.AsyncRun | fetch_mtproto/v2ray/proxy_pool.py:282-379 | the first launch and the loop make the run of the model, so all theorems about runs hold of the class |
| PoolPorts.NodeTagInjective | fetch_mtproto/v2ray/pool_ports.py:71-75 | different nodes have different outbound tags |
| PoolPorts.BalancerTagInjective | fetch_mtproto/v2ray/pool_ports.py:55-56 | different slots have different balancer tags, beyond three digits too |
| PoolPorts.InboundTagsDiffer | fetch_mtproto/v2ray/pool_ports.py:59-64 | inbound tags differ between slots and between SOCKS and HTTP |
| PoolPorts.PoolListenPorts | fetch_mtproto/v2ray/pool_ports.py:90-114 | the port list, and exactly when it is refused |
| PoolPorts.PoolPortsDistinct | fetch_mtproto/v2ray/pool_ports.py:90-114 | the ports are distinct if and only if the ranges are disjoint and the API port is outside both |
| PoolPorts.CleanupPoolPorts | fetch_mtproto/v2ray/port_cleanup.py:49-61 | the cleanup set with its defaults, and exactly when it is refused |
| PoolPorts.CleanupCoversPool | fetch_mtproto/v2ray/port_cleanup.py:49-61 | for distinct pool ports the cleanup set equals the ports of the pool if and only if both start ports are at least 1024 and the API port is not zero |
| PoolPorts.ProbePortsDistinct | fetch_mtproto/v2ray/xray_session.py:36-70 | probe shell ports are distinct if and only if 45520 is outside base..base+concurrency-1 |
| PoolPorts.ProbeCleanupCoversShell | fetch_mtproto/v2ray/port_cleanup.py:37-42 | the probe cleanup set equals the ports of the probe shell if and only if 45520 is outside and the base is at least 1024 |
| PoolPorts.DefaultBaseLimit | fetch_mtproto/v2ray/pool_ports.py:78-87 | with the default base that is up to 519 probe slots |
| XrayConfig.AcceptedIff | fetch_mtproto/v2ray/xray.py:413-470 | the builder accepts exactly entries with non-blank, pairwise different tags and a port each |
| XrayConfig.BuildRoutedConfig | fetch_mtproto/v2ray/xray.py:413-525 | the builder's loop yields the configuration the routing lemmas are about, or the error of the first bad entry |
| XrayConfig.EntryReachesOwnOutbound | fetch_mtproto/v2ray/xray.py:413-525 | under first match every inbound of an entry reaches that entry's outbound and no other, for any number of entries |
| XrayConfig.ListensExactly | fetch_mtproto/v2ray/xray.py:413-525 | Xray listens on the ports of the entries and the API port, each for the inbound of its own, and on no other |
| XrayConfig.OutboundTagsDistinct | fetch_mtproto/v2ray/xray.py:413-525 | outbound tags are distinct if and only if no entry takes api, direct or block |
| XrayConfig.ProbeSlotReachesOwnOutbound | fetch_mtproto/v2ray/xray_session.py:36-63 | probe slot i reaches outbound i |
| XrayConfig.BuildSlotConfig | fetch_mtproto/v2ray/xray.py:606-746 | the slot and balancer builder, refused exactly without slots |
| XrayConfig.HotIsExact | fetch_mtproto/v2ray/xray.py:606-746 | of the hot outbounds just the first to ask for each usable tag is kept, with its own node |
| XrayConfig.SlotListensExactly | fetch_mtproto/v2ray/xray.py:606-746 | the two inbounds of slot i listen on the i-th port of either range, and there is no other but the API |
| XrayConfig.SlotReachesOwnBalancer | fetch_mtproto/v2ray/xray.py:606-746 | both inbounds of slot i reach balancer i and no other |
| XrayConfig.BalancersFallBack | fetch_mtproto/v2ray/xray.py:606-746 | one balancer per slot, distinct tags, each falling back to `fallback` |
| XrayConfig.SlotFallsBack | fetch_mtproto/v2ray/xray.py:606-746 | while its balancer has no node to choose, traffic of slot i leaves through the outbound given as the fallback: its inbounds reach a balancer, there is just one with that tag, and the fallback tag names that outbound even if a hot outbound took the tag |
| XrayConfig.SlotInboundPorts | fetch_mtproto/v2ray/xray.py:606-746 | the slot inbounds listen on the ports of the port list |
| Prober.Session.ProbeBatch | fetch_mtproto/v2ray/ping.py:175-267 | one result per server of the batch in order; if Xray survives, each is the server's lone result, and it dies only of a killer |
| Prober.TameTellsRight | fetch_mtproto/v2ray/ping.py:104-267 | every result left for a server that kills nothing, when Xray starts and nothing is cancelled, is the error of the first step that fails (TCP, build, swap, request) or the latency and bytes of the request that was answered, the GET where HEAD was refused; it has a latency if and only if some such request was answered |
| Prober.Prober.RetryCrashedBatch | fetch_mtproto/v2ray/ping.py:433-462 | after a crash every server of the batch is tested alone, each ending with an allowed result |
| Prober.Prober.PingServers | fetch_mtproto/v2ray/ping.py:333-540 | the callback sees 1..n once each with its result; no server is reported twice; without cancellation every server is reported exactly once; each result is the lone one unless the server is a killer, Xray did not start, or the run was cancelled; when Xray starts and nothing is cancelled each result of a server that kills nothing tells what the server answered |
| Prober.Prober.FailWithoutXray | fetch_mtproto/v2ray/ping.py:350-363 | without a binary every server fails once, in order |
| Prober.BatchedIsLone | fetch_mtproto/v2ray/ping.py:333-540 | if Xray starts always succeed, every server that kills nothing ends with exactly its lone results, as often as it was given, whatever killers share its batches |
| WorkingCap.PermitsConserved | fetch_mtproto/mtproto/ping.py:249-291 | in every interleaving free and held permits add up, so at most `concurrency` pings fly |
| WorkingCap.ReachStaysUnderCap | fetch_mtproto/mtproto/ping.py:256-288 | in every interleaving working keys together with keys in flight never exceed max(initial, cap - 1 + concurrency) |
| WorkingCap.WorkingStaysUnderCap | fetch_mtproto/mtproto/ping.py:256-288 | so neither does the working set |
| WorkingCap.CapOvershootIsReached | fetch_mtproto/mtproto/ping.py:256-291 | for every cap and concurrency the bound is reached by a run that begins all its tasks first, as gather does |
| WorkingCap.EachTaskReportedOnce | fetch_mtproto/mtproto/ping.py:279-288 | a task is reported exactly when it was pinged, and once |
| WorkingCap.WorkingIsReplay | fetch_mtproto/mtproto/ping.py:279-288 | the working set is what the recorded results say, last word per key |
| WorkingCap.EveryTaskReported | fetch_mtproto/mtproto/ping.py:236-291 | without cap and cancellation a finished run reported every proxy once |
| WorkingCap.CanGoOn | fetch_mtproto/mtproto/ping.py:249-291 | with a permit an unfinished run can always go on with less work left: no deadlock |
| WorkingCap.FourMovesPerTask | fetch_mtproto/mtproto/ping.py:249-291 | in every run at most four events per task move anything, so it ends |
| Health.CountsAreExact | fetch_mtproto/health.py:166-240 | for every probe history check = success + failure = length, and the streaks are the lengths of the last runs of outcomes |
| Health.StateIsExact | fetch_mtproto/health.py:254-282 | dead exactly after three failures in a row, healthy exactly after a success within 2000 ms, otherwise degraded, never unknown; failed exactly when dead |
| Health.AverageStaysBetween | fetch_mtproto/health.py:38-41 | the average exists exactly after a success and lies between any bounds on the successful samples |
| Health.AverageMoves | fetch_mtproto/health.py:38-41 | the average moves by 0.35 towards each success and not on failures |
| Health.ProbedRowRests | fetch_mtproto/health.py:285-315 | after any history the next probe is due 2 to 45 minutes later |
| Health.RestIsExact | fetch_mtproto/health.py:285-315 | the rest after any history, exactly, from its last outcomes and its rate of successes |
| Health.DeadDelayGrows | fetch_mtproto/health.py:308-313 | more failures never bring a dead row back sooner |
| Health.BackoffGrows | fetch_mtproto/health.py:44-52 | backoff grows with failures and is at most 12 hours |
| Health.BackoffDoubles | fetch_mtproto/health.py:44-52 | two failures in a row cost a quarter of an hour, each further one doubles that up to the bound |
| Health.HeldBackExactly | fetch_mtproto/health.py:55-59 | a row is held back exactly after two failures in a row, by the backoff since the last |
| Catalog.RowSeesOwnWrites | fetch_mtproto/db.py:978-1110 | a row depends only on the writes to its key, in their order |
| Catalog.TotalsAreSums | fetch_mtproto/db.py:987-1022 | the totals of a known key are its old totals plus its outcomes, in any order of writes |
| Catalog.NewRowIsItsHistory | fetch_mtproto/db.py:1016-1090 | a row first seen through its writes carries exactly the snapshot, state, status and due time of that probe history |
| Catalog.NewRowRests | fetch_mtproto/db.py:1016-1090 | and is due after the rest that history asks for |
| Catalog.UpdatedMeans | fetch_mtproto/db.py:1016-1090 | what a write leaves in the other columns: state, TCP flag, verified, times of the last success, failure and sight |
| Catalog.AllLand | fetch_mtproto/db.py:987-991 | a write is skipped only for an unknown key without identity |
| WriteBuffer.GroupedPermutes | fetch_mtproto/db.py:961-976 | grouping by probe type loses and repeats no queued outcome |
| WriteBuffer.NothingLostOrRepeated | fetch_mtproto/db.py:941-976 | after every call of a run fewer than 100 outcomes are queued, and written and queued ones are exactly those handed in |
| WriteBuffer.BufferKeepsTotals | fetch_mtproto/db.py:941-1022 | over every run and any clock the buffer leaves a known key the lifetime totals of immediate writing |
| WriteBuffer.GroupedKeepsKeyIff | fetch_mtproto/db.py:961-976 | a flush writes the outcomes of a key in the order they came if and only if they stand in the order of their groups |
| WriteBuffer.WriteOrderIff | fetch_mtproto/db.py:941-976 | so does a whole run at one clock if and only if they do each time the queue is written |
| WriteBuffer.BufferKeepsRow | fetch_mtproto/db.py:941-1093 | then the whole row is as immediate writing leaves it |
| WriteBuffer.OneTypeKeepsRow | fetch_mtproto/db.py:941-1093 | as when the key's outcomes that wait together share one probe type, whatever other flushes hold |
| WriteBuffer.MixedTypesReorder | fetch_mtproto/db.py:965-976 | three outcomes of two types that leave a healthy row degraded |
| WriteBuffer.FlushKeepsHistory | fetch_mtproto/db.py:1093-1114 | a flush adds one history row per outcome and drops only those older than 30 days |
| Catalog.RecentCounts | fetch_mtproto/db.py:1093-1114 | the clean-up keeps the rows of the last thirty days, each as often as it was |
| WriteBuffer.CatalogWriter.RecordLocked | fetch_mtproto/db.py:978-1114 | the record loop writes rows and history as specified |
| WriteBuffer.CatalogWriter.FlushPending | fetch_mtproto/db.py:961-976 | the flush empties the queue and leaves the rows of the grouped writes |
| WriteBuffer.CatalogWriter.Enqueue | fetch_mtproto/db.py:941-955 | the queue stays under 100 and what is written is what the run model says |
| SqlOrder.FirstIsExact | fetch_mtproto/db.py:747-774 | ORDER BY with LIMIT n takes exactly min(n, rows) keys and none that comes after one it leaves |
| RowOrders.TextLessMeans | fetch_mtproto/db.py:268-282 | keys are compared at their first difference, a shorter text before its continuation |
| Inventory.EnforceMaxIsExact | fetch_mtproto/db.py:1222-1250 | only dead and quarantined rows are deleted, only over the cap, and then max(cap, live rows) rows are left |
| Inventory.EnforceMaxPicksFirst | fetch_mtproto/db.py:1230-1240 | the deleted rows are the first of the deletion order |
| RowOrders.EnforceMaxOrder | fetch_mtproto/db.py:1222-1250 | on the columns: a dead row is deleted before another only if its score is lower, or equal and it was checked longer ago, or that is equal and its key is smaller |
| Inventory.PrunedIff | fetch_mtproto/db.py:782-846 | for a row made by its probes: pruning deletes it if and only if it is incompatible, or at least three and as many as both limits ask for were made and all failed, or the last three failed, the last longer ago than the limit |
| Inventory.DueServersAreDue | fetch_mtproto/v2ray/store.py:522-529 | the due servers are due and as many as the limit allows |
| RowOrders.DueServersOrder | fetch_mtproto/db.py:1252-1271 | they are taken by state (unknown, degraded, healthy, others), then never due first, then due longest, then the higher score, then the smaller key, and none that should come before one taken is left out |
| ProxySpec.TrimIsExact | fetch_mtproto/db.py:583-603 | a trim keeps as many working rows as the cap allows, demotes the others and leaves every row's health alone; that none it demotes is better than one it keeps is RowOrders.TrimKeepsBetter |
| RowOrders.TrimKeepsBetter | fetch_mtproto/db.py:268-282 | of a kept and a demoted row the kept one is measured and the other is not, or it is faster, or as fast (or both unmeasured) with the higher score, or equal in that too with the smaller key |
| ProxySpec.TrimNumbers | fetch_mtproto/db.py:553-603 | a demoting trim leaves sort orders 0..k-1 in that ranking |
| ProxySpec.RefreshNumbersWorking | fetch_mtproto/db.py:553-581 | a refresh numbers the working rows in their ranking |
| RowOrders.SortOrderIsRank | fetch_mtproto/db.py:553-581 | after a refresh the smaller of two sort orders is that of the better working row, on the same columns |
| ProxySpec.RefreshNumbersFailed | fetch_mtproto/db.py:553-581 | and the failed rows in theirs |
| RowOrders.SortOrderIsPriority | fetch_mtproto/db.py:553-581 | and that of the failed row with the higher score |
| ProxySpec.TrimFailedIsExact | fetch_mtproto/db.py:737-780 | min(old, max_failed) failed rows are left, working rows are untouched, and a never-probed row goes only if no probed failed row is left |
| ProxySpec.TrimFailedPicksFirst | fetch_mtproto/db.py:747-774 | within each kind the first of the deletion order go |
| RowOrders.TrimFailedOrder | fetch_mtproto/db.py:737-780 | on the columns: a probed failed row is deleted before another only if its score is lower, then if it was checked longer ago, then by key; a never-probed one only beside never-probed ones of higher score |
| ProxyStore.CapHolds | fetch_mtproto/mtproto/store.py:213-319 | for every sequence of add, ping-result and reorganize calls the working rows fit under the cap between calls |
| ProxyStore.PingsAndReorganizationsRank | fetch_mtproto/mtproto/store.py:279-319 | after each ping batch or reorganization working rows are numbered 0..k-1 in their ranking, demotion or not |
| ProxyStore.AddLeavesTies | fetch_mtproto/db.py:375-409 | after an addition they need not be: two added rows are both at place 0 |
| ProxyStore.PruneSparesWorking | fetch_mtproto/db.py:329-373 | pruning leaves every working row and its health |
| ProxyLaws.PingFiles | fetch_mtproto/mtproto/store.py:279-308 | after a batch of pings, before cap and pruning, a key is working if and only if the last of its outcomes is ok with a latency, its health is the old one after all of them as probes, and rows without outcomes keep status and health |
| ProxyLaws.PingCounts | fetch_mtproto/mtproto/store.py:279-308 | its totals are the old ones plus one check for each outcome and a success for each that won |
| ProxyLaws.NewProxyIsItsHistory | fetch_mtproto/db.py:411-500 | a row first seen through its pings has the health of that probe history |
| ProxyLaws.PingIsThreeSteps | fetch_mtproto/mtproto/store.py:279-308 | with cap and pruning: the rows are filed like that, then the cap demotes rows than which every one it keeps is better, then pruning deletes |
| ProxyLaws.PruneIsExact | fetch_mtproto/db.py:329-373 | pruning deletes the rows that failed too often and never worked or failed and are long unchecked, then as many of the other failed rows as exceed the bound |
| ProxyLaws.UpsertsFile | fetch_mtproto/db.py:375-409 | an addition makes each item working, keeps rows that were and the health of those that were not, and files new ones fresh |
| ProxyLaws.AddIsTwoSteps | fetch_mtproto/mtproto/store.py:271-277 | with the cap after it, which demotes only if a row became working |
| ProxyLaws.ReorganizeFiles | fetch_mtproto/mtproto/store.py:310-319 | a key listed as failed is failed, one listed only as ok is working, both keep their health, any other is gone, unless nothing is listed |
| ProxyLaws.ReorganizeIsTwoSteps | fetch_mtproto/mtproto/store.py:310-319 | and then the cap demotes |
| ProxyLaws.RunStatus | fetch_mtproto/mtproto/store.py:271-319 | over every run without cap and pruning the status of a key is what the last call that concerns it says |
| ProxyCatalogs.ProxyCatalog.TrimToBest | fetch_mtproto/db.py:583-603 | the demoting loop makes the trim, which keeps the better rows in the sense of RowOrders.TrimKeepsBetter, and returns how many it demoted |
| ProxyCatalogs.ProxyCatalog.Prune | fetch_mtproto/db.py:329-373 | the three deletions and the refresh, with the number deleted |
| ProxyCatalogs.ProxyCatalog.Add | fetch_mtproto/mtproto/store.py:271-277 | an addition is the step of the run model and keeps the cap |
| ProxyCatalogs.ProxyCatalog.ApplyPingResults | fetch_mtproto/mtproto/store.py:279-308 | recording pings is the step of the run model, of which ProxyLaws.PingFiles and ProxyLaws.PingIsThreeSteps say what it makes of every row; it keeps the cap and counts successes and failures |
| ProxyCatalogs.ResultsFile | fetch_mtproto/mtproto/store.py:279-308 | read off the ping results as they come: working if and only if the last is ok with a latency, with the health of all |
| ProxyCatalogs.ProxyCatalog.ReorganizeRows | fetch_mtproto/mtproto/store.py:310-319 | reorganizing is the step of the run model and keeps the cap |
| ProbeWaves.FlushedFate | fetch_mtproto/v2ray/ping.py:583-611 | flushing by hundreds loses nothing: every recorded row is due at least two minutes later, every other row left is untouched |
| ProbeRecords.FlushedRow | fetch_mtproto/v2ray/store.py:584-624 | a server with one result that is not set aside has the row that result makes: totals, state, TCP flag, verified and times; flush boundaries, grouping by type, pruning and cap change nothing in it |
| ProbeWaves.DueAgainExactly | fetch_mtproto/v2ray/store.py:584-624 | after a wave a tested server still in the table is due again if and only if its result was dropped |
| ProbeWaves.WavesEndIff | fetch_mtproto/cli/ping_v2ray.py:121-153 | with complete reports that drop exactly some keys the wave loop ends if and only if every due server among them loses its row to some wave |
| ProbeWaves.WavesEndIffPruned | fetch_mtproto/cli/ping_v2ray.py:121-153 | decided before the first wave, where the cap cannot delete such a row: it ends if and only if pruning deletes them all, and then within ceil(n/1500) waves |
| ProbeWaves.WavesFinish | fetch_mtproto/cli/ping_v2ray.py:121-153 | then n waves leave at most max(0, due - 1500 n) due servers |
| ProbeWaves.DroppedStaysDue | fetch_mtproto/v2ray/store.py:594-602 | a due server whose results are dropped is due after n waves if and only if it still has its row |
| ProbeWaves.RunWaves | fetch_mtproto/cli/ping_v2ray.py:121-153 | the loop stops only cancelled or with nothing due; ceil(n/1500) waves are enough when pruning deletes every due server whose result is dropped, and it never stops while one is in a row that nothing deletes |
| ProbeWaves.ApplyPingResults | fetch_mtproto/v2ray/store.py:584-624 | filter, grouping, recording, pruning and cap, with the numbers recorded |
| ProbeWaves.CheckWave | fetch_mtproto/v2ray/ping.py:583-611 | the buffered callback and the last flush |
| ProbeWaves.UnavailableIsDropped | fetch_mtproto/v2ray/store.py:594-602 | a 503 answer is dropped by its text |
| ProbeWaves.NotStartedIsDropped | fetch_mtproto/v2ray/store.py:594-602 | so is the result of a server whose Xray did not start |
| ProbeRuns.ProbedRunEndsIff | fetch_mtproto/cli/ping_v2ray.py:121-153 | over the results the prober allows, with Xray starting and no due server bringing it down, the loop ends if and only if every due server whose lone result is dropped loses its row to some wave |
| ProbeRuns.ProbedRunFinishes | fetch_mtproto/cli/ping_v2ray.py:121-153 | and with no such server within ceil(n/1500) waves |
| CtrDecrypt.IncrementIsPlusOne | fetch_mtproto/v2ray/npv_decrypt.py:56-58 | the carry loop is exactly +1 modulo 256 to the length on the big-endian counter |
| CtrDecrypt.SixteenBytes | fetch_mtproto/v2ray/npv_decrypt.py:49 | which is 2^128 for the sixteen bytes used |
| CtrDecrypt.AdvancedIsCounterBlock | fetch_mtproto/v2ray/npv_decrypt.py:53-58 | the counter of block i is iv + i modulo 2^128, as sixteen bytes |
| CtrDecrypt.CounterModeTwice | fetch_mtproto/v2ray/npv_decrypt.py:46-62 | applying the transform twice with one iv returns the input |
| CtrDecrypt.CountersDiffer | fetch_mtproto/v2ray/npv_decrypt.py:53-58 | no two of 2^128 consecutive blocks are enciphered from the same counter |
| CtrDecrypt.IncrementInPlace | fetch_mtproto/v2ray/npv_decrypt.py:56-58 | the loop over the array with its early exit is that increment |
| CtrDecrypt.CounterModeAt | fetch_mtproto/v2ray/npv_decrypt.py:53-61 | byte j of the output is ciphertext[j] xor byte j mod 16 of E(iv + j/16 mod 2^128) |
| CtrDecrypt.DecryptLogic | fetch_mtproto/v2ray/npv_decrypt.py:46-62 | the loop over the text, with its counter array changed in place, computes counter mode for the initial counter it is given; inputs of at most sixteen bytes give no text |
| Whitebox.EncryptBlock | fetch_mtproto/v2ray/npv_decrypt.py:9-44 | the table loops over two rounds compute permute, mix, mix, permute, substitute |
| Whitebox.EncryptAt | fetch_mtproto/v2ray/npv_decrypt.py:9-44 | byte i is the last table over byte 5 i modulo 16 of the twice mixed block, with the tables of round zero |
| Whitebox.MixedMeans | fetch_mtproto/v2ray/npv_decrypt.py:12-38 | a mixed byte is two nibbles, each three table lookups over the nibbles of the four words of its column |
| Whitebox.OutputSeesFourBytes | fetch_mtproto/v2ray/npv_decrypt.py:9-44 | each output byte depends on only four input bytes, those the permutation brings into its column |
| ConfigLines.KeyRoundTrip | fetch_mtproto/config_loader.py:97-98 | indentation, name and colon are recognised as written |
| ConfigLines.RewrittenReads | fetch_mtproto/config_loader.py:257-272 | a rewritten line reads as the new scalar and the kept comment |
| ConfigLines.RewriteTwice | fetch_mtproto/config_loader.py:257-272 | rewriting a line twice with one scalar changes nothing if and only if scalar and comment are stable |
| ConfigLines.RewriteInserted | fetch_mtproto/config_loader.py:235-241 | the same for an inserted line |
| ConfigEditor.EditIsMapUpdate | fetch_mtproto/config_loader.py:211-291 | for unique sections, each updated (section, key) has its line replaced or one added, and every other keeps its lines |
| ConfigEditor.UpdatedReads | fetch_mtproto/config_loader.py:235-272 | the first line of each updated (section, key) then reads as the new scalar, with the comment and line end of the line it replaced |
| ConfigEditor.EditKeepsUnique | fetch_mtproto/config_loader.py:211-291 | sections stay unique, and so does every key that was |
| ConfigEditor.EditHeaders | fetch_mtproto/config_loader.py:281-288 | sections are added only at the end and only for updates without one |
| ConfigEditor.OthersStay | fetch_mtproto/config_loader.py:243-279 | lines without an updated key keep their text and order; besides, only empty lines and section lines are added, at the end |
| ConfigEditor.EditInPlace | fetch_mtproto/config_loader.py:243-279 | when the file has every updated key, nothing is added |
| ConfigEditor.SecondRunIff | fetch_mtproto/config_loader.py:211-291 | a second run changes nothing if and only if every scalar is stable with the comment of its line |
| ConfigEditor.PlainIsStable | fetch_mtproto/config_loader.py:198-208 | scalars without quotes and `#` always are |
| ConfigEditor.OpenQuoteDropsComment | fetch_mtproto/config_loader.py:257-265 | a family of files on which two runs differ |
| ConfigEditor.SecondRunCanDiffer | fetch_mtproto/config_loader.py:257-265 | and one of them: a text with an apostrophe over a commented line |
| ConfigFile.ReadsBackIff | fetch_mtproto/config_loader.py:227-290 | joined lines read back as they were if and only if no line but the last lacks its end |
| ConfigFile.EditReadsBack | fetch_mtproto/config_loader.py:211-291 | for files whose lines are all ended the written text reads back as the edited lines |
| ConfigFile.OpenLastLineIff | fetch_mtproto/config_loader.py:227-290 | with an open last line the written text reads back if and only if that line is the first of an updated key, or no update adds a line at the end |
| ConfigFile.UpdateLines | fetch_mtproto/config_loader.py:227-288 | the loops make the edit the laws are about |
| ConfigFile.UpdateConfigValues | fetch_mtproto/config_loader.py:211-291 | the text written is the join of the edited lines, and unchanged without updates |
| Base64.TextRoundTrip | fetch_mtproto/v2ray/napsternet.py:291 | UTF-8 encoding loses nothing |
| Base64.SextetsAreBits | fetch_mtproto/v2ray/napsternet.py:291 | the six-bit groups are the bytes as one number, filled up with zero bits |
| Base64.BytesRoundTrip | fetch_mtproto/v2ray/store.py:76-79 | URL-safe base64 without padding is undone by `_b64decode` |
| Base64.EncodeIsSafe | fetch_mtproto/v2ray/napsternet.py:291 | it uses no character that delimits parts of a link |
| ShareLink.TrimKeeps | fetch_mtproto/v2ray/store.py:144-145 | trimming a built link eats at most its tag |
| ShareLink.ReadAuthority | fetch_mtproto/v2ray/store.py:213-239 | reading the authority of a built link gives user, host and port, or fails exactly for a host with a colon |
| ShareLink.UserInfoRoundTrip | fetch_mtproto/v2ray/xray.py:299-310 | the user information gives method and password back, colons in the password included |
| ShareLink.ShadowsocksRoundTrip | fetch_mtproto/v2ray/napsternet.py:279-294 | outbound to link to outbound is the identity on lower-cased host, port, lower-cased method and password, for supported methods and non-empty passwords, if and only if the host has no colon |

## Left out

- The graphical interface, themes, settings panel, subscription server, QR codes, LAN discovery and
  logging: input and output without a hard invariant.
- Telethon, FakeTLS, sockets, gRPC, subprocesses, port killing and netsh: foreign calls that succeed
  or fail; here they are parameters of a step.
- SQLite itself, transactions, migrations, column defaults and text dates: tables are maps, times
  are whole seconds, and statements are filter, order, limit, update and delete.
- `compute_priority_score` and `hot_score`: unknown functions of a row; only their order and the
  cooling penalty matter. Rounding of floating point is not modelled, latencies are reals.
- Traffic counters of the pool, its port check before the start, and exceptions inside a turn of the
  control loop, after which the loop goes on with the next turn.
- The `replace_all=False` branch of `_assign_keys`, which nothing calls.
- `v2ray_reorganize`, `v2ray_upsert_working`, `v2ray_insert_new`, subscription ranking and MTProto
  probe queues: easy members beside those proved.
- Links other than Shadowsocks, the legacy Shadowsocks form, Napsternet files, regular expressions
  over text, JSON and percent escapes.
- `update_config_lists`, reading the configuration with a YAML parser and `_yaml_scalar` itself: the
  scalar of an update is its rendered text.
- The embedded white-box tables: they are parameters; whether they compute a known cipher is not
  part of this model.
- PoolPorts.NodeTagInjective: the source tags a node with sixteen hexadecimal digits of SHA-1 of its
  key; the model uses an injective tag, so a collision of digests is not modelled.
- PoolController.ProxyPoolRunner.RepairSlots: slots are values in a sequence, so sharing of slot
  objects is not modelled; the source first lists the slots that need a node and then fills them,
  which here is one loop.
- Prober.Prober.PingServers: probes of one chunk or batch run one after the other; the source
  gathers them in the order of its input. Exceptions raised by the callback are not modelled.
- WorkingCap.ReachStaysUnderCap: an exception inside the callback, which would end the gather, is
  not modelled.
- WriteBuffer.BufferKeepsRow: the clock stands still over the calls compared; the source reads it
  per outcome.
- PoolLoop.LoopIsRun: Xray dies between turns or after the calls of a turn; calls that a death in
  between makes fail are failed calls. A turn reads one time before and one after its calls.
- ProbeWaves.WavesEndIffPruned: dead rows of a table over its cap, where the deletion order decides,
  are covered by ProbeWaves.WavesEndIff only.
- ProbeWaves.RunWaves: the clock stands still over the run; with a running clock a row may become
  due again after two minutes. Lower-casing in the filter is that of ASCII.
- ConfigEditor.EditIsMapUpdate: updates carry identifiers and one-line scalars, as the callers give
  them; lines end at line feeds only, and word characters are those of ASCII.
- ShareLink.ShadowsocksRoundTrip: hosts are printable ASCII; lower-casing is that of ASCII.
- Base64.BytesRoundTrip: the decoder of the source also skips characters outside the alphabet and
  accepts padding; here such input is an error.
