/** What every step and every run of the proxy pool keeps.  */
module PoolProofs {
  import opened Wrappers
  import opened PoolPorts
  import opened Spreading
  import opened PoolModel

  // ---- bookkeeping: holds in every run, whatever fails -------------------------------------

  ghost predicate LoadedInside(p: Pool) {
    p.xray.Up? ==> p.loaded <= p.xray.outbounds.Keys
  }

  ghost predicate WellTagged(x: Xray) {
    x.Up? ==> forall t | t in x.outbounds :: t == NodeTag(x.outbounds[t])
  }

  ghost predicate SlotsTagged(slots: seq<Slot>) {
    forall i | 0 <= i < |slots| ::
      slots[i].tag == if slots[i].server.Some? then Some(NodeTag(slots[i].server.value)) else None
  }

  ghost predicate Bookkeeping(p: Pool) {
    LoadedInside(p) && WellTagged(p.xray) && SlotsTagged(p.slots)
  }

  lemma SyncKeepsBooks(p: Pool, keys: seq<string>, f: Faults)
    requires Bookkeeping(p)
    ensures Bookkeeping(Sync(p, Wanted(keys), f))
    ensures Sync(p, Wanted(keys), f).slots == p.slots
  {
    var wanted := Wanted(keys);
    var stale := Stale(p.loaded, wanted);
    var x := RemoveAll(p.xray, stale, f);
    var missing := wanted.Keys - p.loaded;
    if p.connected && p.xray.Up? {
      assert forall t | t in x.outbounds :: t in p.xray.outbounds && x.outbounds[t] == p.xray.outbounds[t];
      assert forall t | t in p.loaded - stale :: t in x.outbounds;
    }
  }

  lemma AssignKeepsBooks(p: Pool, given: Slots, now: int, f: Faults)
    requires Bookkeeping(p) && |given| == |p.slots|
    ensures Bookkeeping(Assign(p, given, now, f)) && |Assign(p, given, now, f).slots| == |p.slots|
  {
  }

  lemma RepairKeepsBooks(p: Pool, servers: seq<string>, standby: seq<string>, now: int, f: Faults)
    requires Bookkeeping(p)
    ensures Bookkeeping(Repair(p, servers, standby, now, f))
    ensures |Repair(p, servers, standby, now, f).slots| == |p.slots|
  {
  }

  lemma AssignAllKeepsBooks(p: Pool, keys: seq<string>, shuffled: seq<string>, now: int, s: Settings, f: Faults)
    requires Bookkeeping(p)
    ensures Bookkeeping(AssignAll(p, keys, shuffled, now, s, f))
    ensures |AssignAll(p, keys, shuffled, now, s, f).slots| == |p.slots|
  {
    AssignKeepsBooks(p, Dealt(p, Shuffle(keys, shuffled), now, s.minReuse), now, f);
  }

  lemma RefreshKeepsBooks(p: Pool, initial: bool, w: World, s: Settings)
    requires Bookkeeping(p)
    ensures Bookkeeping(Refresh(p, initial, w, s)) && |Refresh(p, initial, w, s).slots| == |p.slots|
  {
    var servers := Servers(w.rows);
    if servers != [] {
      var ring := RefreshRing(p, w, s);
      var keys := Among(ring.All(), servers);
      SyncKeepsBooks(p, keys, w.faults);
      var synced := Sync(p, Wanted(keys), w.faults);
      AssignAllKeepsBooks(synced, keys, w.shuffled, w.assignTime, s, w.faults);
      RepairKeepsBooks(synced, servers, Among(ring.standby, servers), w.assignTime, w.faults);
    }
  }

  lemma RotateKeepsBooks(p: Pool, w: World, s: Settings)
    requires Bookkeeping(p)
    ensures Bookkeeping(Rotate(p, w, s)) && |Rotate(p, w, s).slots| == |p.slots|
  {
    var servers := Servers(w.rows);
    if servers != [] {
      var keys := Among(RotateRing(p, w, s).All(), servers);
      var q := p.(leases := map[]);
      SyncKeepsBooks(q, keys, w.faults);
      AssignAllKeepsBooks(Sync(q, Wanted(keys), w.faults), keys, w.shuffled, w.assignTime, s, w.faults);
    }
  }

  lemma NextKeepsBooks(p: Pool, e: Event, s: Settings)
    requires Bookkeeping(p)
    ensures Bookkeeping(Next(p, e, s)) && |Next(p, e, s).slots| == |p.slots|
  {
    match e
    case Launched(_) =>
    case Crashed =>
    case Reconnected(_) =>
    case Refreshed(initial, w) => RefreshKeepsBooks(p, initial, w, s);
    case Rotated(w) => RotateKeepsBooks(p, w, s);
  }

  /** In every run, whatever calls fail or get lost and whenever Xray dies: while Xray runs,
      every tag believed to be loaded is one of its outbounds, every outbound stands for the
      node its tag names, and slot records name the tag of their node. */
  lemma {:induction false} RunKeepsBooks(n: nat, events: seq<Event>, s: Settings)
    ensures Bookkeeping(Run(Start(n), events, s)) && |Run(Start(n), events, s).slots| == n
  {
    if events != [] {
      RunKeepsBooks(n, events[..|events| - 1], s);
      NextKeepsBooks(Run(Start(n), events[..|events| - 1], s), events[|events| - 1], s);
    }
  }

  // ---- override requests and leases ---------------------------------------------------------

  lemma {:induction false} RequestAt(given: Slots, i: nat)
    ensures BalancerTag(i) in Requests(given) <==> i < |given| && given[i].Some?
    ensures i < |given| && given[i].Some? ==> Requests(given)[BalancerTag(i)] == NodeTag(given[i].value)
  {
    if given != [] {
      var n := |given| - 1;
      RequestAt(given[..n], i);
      if BalancerTag(i) == BalancerTag(n) { BalancerTagInjective(i, n); }
    }
  }

  /** Slot records, override requests and the mapping agree index by index. */
  lemma AssignAgreesByIndex(p: Pool, given: Slots, now: int, f: Faults, i: nat)
    requires p.connected && i < |given| == |p.slots|
    ensures var q := Assign(p, given, now, f);
      && q.slots[i].server == given[i]
      && (BalancerTag(i) in Requests(given) <==> q.slots[i].server.Some?)
      && (q.slots[i].server.Some? ==> q.slots[i].tag == Some(Requests(given)[BalancerTag(i)]))
  {
    RequestAt(given, i);
  }

  /** Exactly the nodes given out are stamped now, each with the last slot that got it; all
      other leases stay as they were. */
  lemma {:induction false} StampIsExact(leases: map<string, Lease>, given: Slots, now: int, k: string)
    ensures var l := Stamp(leases, given, now);
      if Some(k) in given then
        && k in l && l[k].usedAt == now && l[k].slot < |given| && given[l[k].slot] == Some(k)
        && forall j | l[k].slot < j < |given| :: given[j] != Some(k)
      else (k in l <==> k in leases) && (k in l ==> l[k] == leases[k])
  {
    if given != [] {
      StampIsExact(leases, given[..|given| - 1], now, k);
    }
  }

  // ---- rested nodes come first ----------------------------------------------------------------

  lemma {:induction false} FirstSeenExtends(a: seq<string>, b: seq<string>, skip: set<string>)
    ensures FirstSeen(a, skip) <= FirstSeen(a + b, skip)
  {
    if b == [] {
      assert a + b == a;
    } else {
      var n := |b| - 1;
      FirstSeenExtends(a, b[..n], skip);
      assert (a + b)[..|a| + n] == a + b[..n];
    }
  }

  lemma BlankKeepsNothing(unique: seq<string>, n: nat, key: string)
    ensures !IsKept(unique, Blank(n), n, key)
  {
  }

  /** For every shuffle: a slot gets a cooling node only if every rested node has a slot. */
  lemma CoolingOnlyAfterRested(p: Pool, ordered: seq<string>, now: int, minReuse: int, cooling: string, rested: string)
    requires Some(cooling) in Dealt(p, ordered, now, minReuse)
    requires cooling in ordered && IsCooling(p.leases, cooling, now, minReuse)
    requires rested in ordered && rested != "" && !IsCooling(p.leases, rested, now, minReuse)
    requires cooling != ""
    ensures Some(rested) in Dealt(p, ordered, now, minReuse)
  {
    var a, b := Fresh(p, ordered, now, minReuse, true), Fresh(p, ordered, now, minReuse, false);
    var unique, head := Usable(a + b), Usable(a);
    FirstSeenExtends(a, b, {""});
    FirstSeenMembers(a, {""}, rested);
    FirstSeenMembers(a, {""}, cooling);
    FirstSeenMembers(a + b, {""}, cooling);
    UsableIsDistinct(a + b);
    var i :| 0 <= i < |head| && head[i] == rested;
    var j :| 0 <= j < |unique| && unique[j] == cooling;
    assert forall m | 0 <= m < |head| :: unique[m] == head[m] && head[m] in head;
    BlankKeepsNothing(unique, |p.slots|, cooling);
    EarlierKeysFirst(|p.slots|, unique, Blank(|p.slots|), i, j);
  }

  lemma ShuffleMembers(keys: seq<string>, shuffled: seq<string>, k: string)
    ensures k in Shuffle(keys, shuffled) <==> k in keys
  {
    assert k in Shuffle(keys, shuffled) <==> k in multiset(Shuffle(keys, shuffled));
    assert k in keys <==> k in multiset(keys);
  }

  /** Dealing over any nodes gives every slot one of them; over no nodes it gives none. */
  lemma DealtNodes(p: Pool, ordered: seq<string>, now: int, minReuse: int)
    requires "" !in ordered
    ensures var given := Dealt(p, ordered, now, minReuse);
      forall i | 0 <= i < |given| ::
        if ordered == [] then given[i] == None else given[i].Some? && given[i].value in ordered
  {
    var keys := Preferred(p, ordered, now, minReuse);
    var unique := Usable(keys);
    UsableIsDistinct(keys);
    ReuseIsExact(|p.slots|, unique, Blank(|p.slots|));
    forall k ensures k in unique <==> k in ordered {
      FirstSeenMembers(keys, {""}, k);
    }
    if ordered == [] {
      assert keys == [];
    } else {
      assert ordered[0] in unique;
    }
  }
}
