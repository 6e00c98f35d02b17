/** `_repair_slots`: which slots change and which nodes they get.  */
module PoolRepair {
  import opened Spreading
  import opened PoolModel

  function NeededUpTo(slots: seq<Slot>, servers: seq<string>, i: nat): (n: nat)
    requires i <= |slots|
    ensures n <= i
  {
    if i == 0 then 0
    else NeededUpTo(slots, servers, i - 1) + (if Live(slots[i - 1], servers) then 0 else 1)
  }

  /** Standby nodes that no slot holds. */
  function Unheld(slots: seq<Slot>, unique: seq<string>): set<string> {
    (set k | k in unique) - Holding(slots)
  }

  /** Live slots are left alone; every other slot gets an eligible node. */
  lemma {:induction false} PlanReplaces(slots: seq<Slot>, servers: seq<string>, unique: seq<string>, i: nat, j: nat)
    requires j < i <= |slots| && servers != [] && forall k | k in unique :: k in servers
    ensures var given := PlanUpTo(slots, servers, unique, i).given;
      && (given[j].None? <==> Live(slots[j], servers))
      && (given[j].Some? ==> given[j].value in servers)
  {
    if j < i - 1 {
      PlanReplaces(slots, servers, unique, i - 1, j);
    }
  }

  lemma {:induction false} PlanHolds(slots: seq<Slot>, servers: seq<string>, unique: seq<string>, i: nat)
    requires i <= |slots| && servers != []
    ensures var r := PlanUpTo(slots, servers, unique, i);
      && Holding(slots) <= r.held
      && (r.reused > 0 ==> forall k | k in unique :: k in r.held)
  {
    if i > 0 {
      PlanHolds(slots, servers, unique, i - 1);
    }
  }

  lemma TakeOne(u: set<string>, held: set<string>, k: string)
    requires k in u && k !in held
    ensures |u - (held + {k})| == |u - held| - 1
  {
    assert u - (held + {k}) == (u - held) - {k};
  }

  /** Each dead slot so far used up one free node or one reuse. */
  ghost predicate Balanced(free: set<string>, r: Plan, needed: nat) {
    r.reused <= needed && |free - r.held| + (needed - r.reused) == |free|
  }

  lemma PickBalances(slot: Slot, servers: seq<string>, unique: seq<string>, free: set<string>, r: Plan, needed: nat)
    requires servers != [] && Balanced(free, r, needed)
    requires forall k | k in unique && k !in r.held :: k in free
    ensures Balanced(free, Pick(slot, servers, unique, r), needed + if Live(slot, servers) then 0 else 1)
  {
    var next := NextFree(unique, r.held, 0);
    if !Live(slot, servers) && next < |unique| {
      assert unique[next] in unique;
      TakeOne(free, r.held, unique[next]);
    }
  }

  lemma {:induction false} PlanCounts(slots: seq<Slot>, servers: seq<string>, unique: seq<string>, i: nat)
    requires i <= |slots| && servers != []
    ensures Balanced(Unheld(slots, unique), PlanUpTo(slots, servers, unique, i), NeededUpTo(slots, servers, i))
  {
    if i == 0 {
      assert Unheld(slots, unique) - Holding(slots) == Unheld(slots, unique);
    } else {
      PlanCounts(slots, servers, unique, i - 1);
      PlanHolds(slots, servers, unique, i - 1);
      PickBalances(slots[i - 1], servers, unique, Unheld(slots, unique), PlanUpTo(slots, servers, unique, i - 1),
                   NeededUpTo(slots, servers, i - 1));
    }
  }

  /** Reuse happens exactly as often as dead slots outnumber the unheld standby nodes. */
  lemma ReusedExactly(slots: seq<Slot>, servers: seq<string>, unique: seq<string>)
    requires servers != []
    ensures var r := PlanUpTo(slots, servers, unique, |slots|);
      var needed, free := NeededUpTo(slots, servers, |slots|), |Unheld(slots, unique)|;
      r.reused == if needed <= free then 0 else needed - free
  {
    PlanHolds(slots, servers, unique, |slots|);
    PlanCounts(slots, servers, unique, |slots|);
    var r := PlanUpTo(slots, servers, unique, |slots|);
    if r.reused > 0 {
      assert Unheld(slots, unique) - r.held == {};
    }
  }

  /** Until standby is exhausted, a replacement is a standby node no slot holds and no other
      slot has just been given. */
  lemma {:induction false} ReplacementsDiffer(slots: seq<Slot>, servers: seq<string>, unique: seq<string>, i: nat, j: nat)
    requires i < |slots| && servers != [] && PlanUpTo(slots, servers, unique, i + 1).reused == 0
    requires PlanUpTo(slots, servers, unique, i + 1).given[i].Some?
    ensures var given := PlanUpTo(slots, servers, unique, i + 1).given;
      && given[i].value in unique && given[i].value !in Holding(slots)
      && (j < i ==> given[j] != given[i])
  {
    PlanHolds(slots, servers, unique, i);
    var r := PlanUpTo(slots, servers, unique, i);
    if j < i && r.given[j].Some? {
      GivenAreHeld(slots, servers, unique, i, j);
    }
  }

  lemma {:induction false} GivenAreHeld(slots: seq<Slot>, servers: seq<string>, unique: seq<string>, i: nat, j: nat)
    requires j < i <= |slots| && PlanUpTo(slots, servers, unique, i).reused == 0
    requires PlanUpTo(slots, servers, unique, i).given[j].Some?
    ensures PlanUpTo(slots, servers, unique, i).given[j].value in PlanUpTo(slots, servers, unique, i).held
  {
    if j < i - 1 {
      GivenAreHeld(slots, servers, unique, i - 1, j);
    }
  }

  /** After a repair with an eligible node every slot is on an eligible node, and a slot that
      was on one is unchanged. */
  lemma RepairEndsEligible(p: Pool, servers: seq<string>, standby: seq<string>, now: int, f: Faults, i: nat)
    requires servers != [] && i < |p.slots|
    ensures var q := Repair(p, servers, standby, now, f);
      && Live(q.slots[i], servers)
      && (Live(p.slots[i], servers) ==> q.slots[i] == p.slots[i])
  {
    PlanReplaces(p.slots, servers, Among(standby, servers), |p.slots|, i);
  }
}
