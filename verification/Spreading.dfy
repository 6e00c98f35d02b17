/** `spread_keys` of v2ray/hot_set.py: slots are given nodes, each node once before any
    node is used again.

    The method at the end runs the source's four loops; each loop equals a function of the
    slots handled so far, and the lemmas about those functions give the promise.  */
module Spreading {
  import opened Wrappers
  import opened Ordering
  import opened Arith

  type Slots = seq<Option<string>>

  /** The distinct keys of a list in order of first appearance, leaving out those in `skip`. */
  function FirstSeen(keys: seq<string>, skip: set<string>): seq<string> {
    if keys == [] then []
    else
      var n := |keys| - 1;
      var r := FirstSeen(keys[..n], skip);
      if keys[n] in skip || keys[n] in r then r else r + [keys[n]]
  }

  lemma {:induction false} FirstSeenMembers(keys: seq<string>, skip: set<string>, x: string)
    ensures x in FirstSeen(keys, skip) <==> x in keys && x !in skip
  {
    if keys != [] {
      FirstSeenMembers(keys[..|keys| - 1], skip, x);
    }
  }

  lemma {:induction false} FirstSeenDistinct(keys: seq<string>, skip: set<string>)
    ensures Distinct(FirstSeen(keys, skip))
  {
    if keys != [] {
      FirstSeenDistinct(keys[..|keys| - 1], skip);
    }
  }

  lemma FirstSeenStep(keys: seq<string>, skip: set<string>, m: nat)
    requires m < |keys|
    ensures var r := FirstSeen(keys[..m], skip);
      FirstSeen(keys[..m + 1], skip) == if keys[m] in skip || keys[m] in r then r else r + [keys[m]]
  {
    assert keys[..m + 1][..m] == keys[..m];
  }

  /** The keys a slot may be given: distinct and not empty. */
  function Usable(keys: seq<string>): seq<string> {
    FirstSeen(keys, {""})
  }

  function Blank(n: nat): (r: Slots)
    ensures |r| == n && forall i | 0 <= i < n :: r[i] == None
  {
    seq(n, _ => None)
  }

  /** The keys held by some slot. */
  function Given(r: Slots): set<string> {
    set i | 0 <= i < |r| && r[i].Some? :: r[i].value
  }

  lemma GivenIff(r: Slots, k: string)
    ensures k in Given(r) <==> Some(k) in r
  {
    if Some(k) in r {
      var i :| 0 <= i < |r| && r[i] == Some(k);
      assert r[i].value in Given(r);
    }
  }

  // ---- first loop: slots that keep what they hold -------------------------------------

  function KeepUpTo(n: nat, unique: seq<string>, keep: Slots, i: nat): (r: Slots)
    requires i <= n && i <= |keep|
    ensures |r| == n
  {
    if i == 0 then Blank(n)
    else
      var r := KeepUpTo(n, unique, keep, i - 1);
      var key := keep[i - 1];
      if key.Some? && key.value in unique && key.value !in Given(r) then r[i - 1 := key] else r
  }

  /** Slot `i` asks to keep a usable key that no earlier slot asked for. */
  predicate KeepsFirst(unique: seq<string>, keep: Slots, i: nat) {
    && i < |keep| && keep[i].Some? && keep[i].value in unique
    && forall j | 0 <= j < i :: keep[j] != keep[i]
  }

  lemma FirstAsker(unique: seq<string>, keep: Slots, j: nat) returns (i: nat)
    requires j < |keep| && keep[j].Some? && keep[j].value in unique
    ensures i <= j && KeepsFirst(unique, keep, i) && keep[i] == keep[j]
  {
    if KeepsFirst(unique, keep, j) {
      i := j;
    } else {
      var k: nat :| k < j && keep[k] == keep[j];
      i := FirstAsker(unique, keep, k);
    }
  }

  lemma {:induction false} KeptSlots(n: nat, unique: seq<string>, keep: Slots, i: nat)
    requires i <= n && i <= |keep|
    ensures forall k | 0 <= k < n ::
      KeepUpTo(n, unique, keep, i)[k] == if k < i && KeepsFirst(unique, keep, k) then keep[k] else None
  {
    if i > 0 {
      KeptSlots(n, unique, keep, i - 1);
      var r, key := KeepUpTo(n, unique, keep, i - 1), keep[i - 1];
      if key.Some? && key.value in unique {
        GivenIff(r, key.value);
        var f := FirstAsker(unique, keep, i - 1);
        if f < i - 1 { assert r[f] == key; }
        if key.value in Given(r) {
          var k :| 0 <= k < n && r[k] == key;
          assert keep[k] == keep[i - 1];
        }
      }
    }
  }

  // ---- second loop: free slots take unused keys in order ------------------------------

  function NextFree(unique: seq<string>, used: set<string>, j: nat): (f: nat)
    requires j <= |unique|
    ensures j <= f <= |unique|
    ensures forall a | j <= a < f :: unique[a] in used
    ensures f < |unique| ==> unique[f] !in used
    decreases |unique| - j
  {
    if j == |unique| || unique[j] !in used then j else NextFree(unique, used, j + 1)
  }

  function FillUpTo(unique: seq<string>, r0: Slots, i: nat): (r: Slots)
    requires i <= |r0|
    ensures |r| == |r0|
  {
    if i == 0 then r0
    else
      var r := FillUpTo(unique, r0, i - 1);
      var f := NextFree(unique, Given(r), 0);
      if r[i - 1] == None && f < |unique| then r[i - 1 := Some(unique[f])] else r
  }

  ghost predicate Once(r: Slots) {
    forall i, j | 0 <= i < j < |r| :: r[i].Some? ==> r[i] != r[j]
  }

  lemma GivenUpdate(r: Slots, i: nat, k: string)
    requires i < |r| && r[i] == None
    ensures Given(r[i := Some(k)]) == Given(r) + {k}
  {
    var r' := r[i := Some(k)];
    forall x ensures x in Given(r') <==> x in Given(r) + {k} {
      GivenIff(r', x);
      GivenIff(r, x);
      if x == k { assert r'[i] == Some(k); }
      if Some(x) in r {
        var m :| 0 <= m < |r| && r[m] == Some(x);
        assert r'[m] == Some(x);
      }
    }
  }

  lemma {:induction false} FillKeepsSlots(unique: seq<string>, r0: Slots, i: nat)
    requires i <= |r0| && Once(r0)
    ensures var r := FillUpTo(unique, r0, i);
      && Once(r)
      && (forall k | 0 <= k < |r0| :: r0[k].Some? || i <= k ==> r[k] == r0[k])
      && (forall k | 0 <= k < |r0| :: r[k].Some? ==> r[k] == r0[k] || r[k].value in unique)
      && Given(r0) <= Given(r)
  {
    if i > 0 {
      FillKeepsSlots(unique, r0, i - 1);
      var r := FillUpTo(unique, r0, i - 1);
      var f := NextFree(unique, Given(r), 0);
      if r[i - 1] == None && f < |unique| {
        GivenIff(r, unique[f]);
        GivenUpdate(r, i - 1, unique[f]);
      }
    }
  }

  /** A slot is left blank only when every key is in use. */
  lemma {:induction false} BlankMeansExhausted(unique: seq<string>, r0: Slots, i: nat)
    requires i <= |r0| && Once(r0)
    ensures var r := FillUpTo(unique, r0, i);
      forall k, x | 0 <= k < i && r[k] == None && x in unique :: x in Given(r)
  {
    if i > 0 {
      BlankMeansExhausted(unique, r0, i - 1);
      FillKeepsSlots(unique, r0, i - 1);
      var r := FillUpTo(unique, r0, i - 1);
      var f := NextFree(unique, Given(r), 0);
      if r[i - 1] == None && f < |unique| {
        GivenUpdate(r, i - 1, unique[f]);
      }
    }
  }

  /** A key that was not kept is taken only after every key ranked before it. */
  lemma {:induction false} TakenInOrder(unique: seq<string>, r0: Slots, i: nat)
    requires i <= |r0| && Once(r0) && Distinct(unique)
    ensures var r := FillUpTo(unique, r0, i);
      forall a, b | 0 <= a < b < |unique| ::
        unique[b] in Given(r) && unique[b] !in Given(r0) ==> unique[a] in Given(r)
  {
    if i > 0 {
      TakenInOrder(unique, r0, i - 1);
      FillKeepsSlots(unique, r0, i - 1);
      var r := FillUpTo(unique, r0, i - 1);
      var f := NextFree(unique, Given(r), 0);
      if r[i - 1] == None && f < |unique| {
        GivenUpdate(r, i - 1, unique[f]);
      }
    }
  }

  lemma {:induction false} FillBlank(unique: seq<string>, n: nat, i: nat)
    requires i <= n && Distinct(unique)
    ensures forall k | 0 <= k < n ::
      FillUpTo(unique, Blank(n), i)[k] == if k < i && k < |unique| then Some(unique[k]) else None
  {
    if i > 0 {
      FillBlank(unique, n, i - 1);
      var r := FillUpTo(unique, Blank(n), i - 1);
      var f := NextFree(unique, Given(r), 0);
      forall a | 0 <= a < |unique| ensures unique[a] in Given(r) <==> a < i - 1 {
        GivenIff(r, unique[a]);
        if a < i - 1 { assert r[a] == Some(unique[a]); }
      }
    }
  }

  // ---- third loop: the remaining slots reuse keys in turn -----------------------------

  function ReuseUpTo(unique: seq<string>, r0: Slots, i: nat): (p: (Slots, nat))
    requires i <= |r0| && unique != []
    ensures |p.0| == |r0|
  {
    if i == 0 then (r0, 0)
    else
      var (r, e) := ReuseUpTo(unique, r0, i - 1);
      if r[i - 1] == None then (r[i - 1 := Some(unique[e % |unique|])], e + 1) else (r, e)
  }

  lemma {:induction false} ReuseFills(unique: seq<string>, r0: Slots, i: nat)
    requires i <= |r0| && unique != []
    ensures var (r, e) := ReuseUpTo(unique, r0, i);
      && (forall k | 0 <= k < |r0| :: r0[k].Some? || i <= k ==> r[k] == r0[k])
      && (forall k | 0 <= k < i :: r[k].Some? && (r[k] == r0[k] || r[k].value in unique))
      && multiset(r)[None] + e == multiset(r0)[None]
  {
    if i > 0 {
      ReuseFills(unique, r0, i - 1);
    }
  }

  /** How often key `j` of `m` keys has been dealt after `e` deals in turn. */
  function Share(e: nat, m: nat, j: nat): nat
    requires j < m
  {
    e / m + (if j < e % m then 1 else 0)
  }

  lemma ShareStep(e: nat, m: nat, j: nat)
    requires j < m
    ensures Share(e + 1, m, j) == Share(e, m, j) + (if j == e % m then 1 else 0)
  {
    DivStep(e, m);
  }

  lemma DealIndex(i: nat, m: nat)
    requires 0 < m <= i
    ensures i % m == (i - m) % m
  {
    var e := i - m;
    MulDiff(e / m + 1, e / m, m);
    DivUnique(i, m, e / m + 1, e % m);
  }

  lemma CountUpdate(r: Slots, i: nat, new': Option<string>, x: Option<string>)
    requires i < |r| && r[i] == None && x.Some?
    ensures multiset(r[i := new'])[x] == multiset(r)[x] + if new' == x then 1 else 0
  {
    assert r == r[..i] + [r[i]] + r[i + 1..];
    assert r[i := new'] == r[..i] + [new'] + r[i + 1..];
  }

  lemma ReuseStep(unique: seq<string>, r0: Slots, i: nat)
    requires 0 < i <= |r0| && unique != []
    ensures var p := ReuseUpTo(unique, r0, i - 1);
      ReuseUpTo(unique, r0, i)
        == if p.0[i - 1] == None then (p.0[i - 1 := Some(unique[p.1 % |unique|])], p.1 + 1) else p
  {
  }

  /** Key `j` has been dealt its share of the reuses so far. */
  ghost predicate Even(unique: seq<string>, r0: Slots, r: Slots, e: nat, j: nat)
    requires j < |unique|
  {
    multiset(r)[Some(unique[j])] == multiset(r0)[Some(unique[j])] + Share(e, |unique|, j)
  }

  lemma EvenStart(unique: seq<string>, r0: Slots, j: nat)
    requires j < |unique|
    ensures Even(unique, r0, r0, 0, j)
  {
    DivUnique(0, |unique|, 0, 0);
  }

  lemma EvenStep(unique: seq<string>, r0: Slots, r: Slots, e: nat, i: nat, j: nat)
    requires Distinct(unique) && j < |unique| && i < |r| && r[i] == None && Even(unique, r0, r, e, j)
    ensures Even(unique, r0, r[i := Some(unique[e % |unique|])], e + 1, j)
  {
    ShareStep(e, |unique|, j);
    CountUpdate(r, i, Some(unique[e % |unique|]), Some(unique[j]));
  }

  /** After `e` reuses the first `e % m` keys have been reused once more than the others. */
  lemma {:induction false} ReuseIsEven(unique: seq<string>, r0: Slots, i: nat, j: nat)
    requires i <= |r0| && Distinct(unique) && j < |unique|
    ensures Even(unique, r0, ReuseUpTo(unique, r0, i).0, ReuseUpTo(unique, r0, i).1, j)
  {
    if i == 0 {
      EvenStart(unique, r0, j);
    } else {
      var p := ReuseUpTo(unique, r0, i - 1);
      ReuseIsEven(unique, r0, i - 1, j);
      ReuseStep(unique, r0, i);
      if p.0[i - 1] == None { EvenStep(unique, r0, p.0, p.1, i - 1, j); }
    }
  }

  ghost predicate DealtOnce(unique: seq<string>, r0: Slots) {
    forall k | 0 <= k < |r0| :: r0[k] == if k < |unique| then Some(unique[k]) else None
  }

  lemma {:induction false} ReuseStart(unique: seq<string>, r0: Slots, i: nat)
    requires i <= |r0| && unique != [] && DealtOnce(unique, r0)
    ensures ReuseUpTo(unique, r0, i).1 == if i <= |unique| then 0 else i - |unique|
  {
    if i > 0 {
      ReuseStart(unique, r0, i - 1);
      ReuseFills(unique, r0, i - 1);
    }
  }

  lemma {:induction false} ReuseDeals(unique: seq<string>, r0: Slots, i: nat, k: nat)
    requires k < i <= |r0| && unique != [] && DealtOnce(unique, r0)
    ensures ReuseUpTo(unique, r0, i).0[k] == Some(unique[k % |unique|])
  {
    ReuseFills(unique, r0, i - 1);
    if k < i - 1 {
      ReuseDeals(unique, r0, i - 1, k);
    } else if k < |unique| {
      DivUnique(k, |unique|, 0, k);
    } else {
      ReuseStart(unique, r0, k);
      DealIndex(k, |unique|);
    }
  }

  // ---- counting -----------------------------------------------------------------------

  lemma {:induction false} OnceCount(r: Slots)
    requires Once(r)
    ensures |Given(r)| + multiset(r)[None] == |r|
  {
    if r != [] {
      var n := |r| - 1;
      OnceCount(r[..n]);
      assert r == r[..n] + [r[n]];
      GivenSnoc(r[..n], r[n]);
      NoneSnoc(r[..n], r[n]);
      if r[n].Some? { GivenIff(r[..n], r[n].value); }
    }
  }

  lemma GivenSnoc(r: Slots, x: Option<string>)
    ensures Given(r + [x]) == Given(r) + if x.Some? then {x.value} else {}
  {
    var all := r + [x];
    forall k ensures k in Given(all) <==> k in Given(r) || x == Some(k) {
      GivenIff(all, k);
      GivenIff(r, k);
      if x == Some(k) { assert all[|r|] == x; }
    }
  }

  lemma NoneSnoc(r: Slots, x: Option<string>)
    ensures multiset(r + [x])[None] == multiset(r)[None] + if x == None then 1 else 0
  {
  }

  lemma {:induction false} OccursOnce(r: Slots, k: string)
    requires Once(r) && k in Given(r)
    ensures multiset(r)[Some(k)] == 1
  {
    var n := |r| - 1;
    assert r == r[..n] + [r[n]];
    GivenIff(r[..n], k);
    if r[n] != Some(k) {
      GivenIff(r, k);
      OccursOnce(r[..n], k);
    } else {
      assert multiset(r[..n])[Some(k)] == 0;
    }
  }

  /** Blanks left by the second loop: as many as slots outnumber keys. */
  lemma BlanksLeft(unique: seq<string>, r: Slots)
    requires Distinct(unique) && Once(r) && Given(r) <= (set x | x in unique)
    requires None in r ==> forall x | x in unique :: x in Given(r)
    ensures multiset(r)[None] == if |unique| >= |r| then 0 else |r| - |unique|
    ensures None in r ==> |unique| < |r|
  {
    OnceCount(r);
    DistinctCard(unique);
    SubsetCard(Given(r), set x | x in unique);
    if None in r {
      assert Given(r) == set x | x in unique;
      assert multiset(r)[None] > 0;
    }
  }

  // ---- the whole allocation -----------------------------------------------------------

  function Filled(n: nat, unique: seq<string>, keep: Slots): (r: Slots)
    ensures |r| == n
  {
    FillUpTo(unique, KeepUpTo(n, unique, keep, Min(n, |keep|)), n)
  }

  /** The slots and the number of slots that had to reuse a key. */
  function Spread(n: nat, unique: seq<string>, keep: Slots): (p: (Slots, nat))
    ensures |p.0| == n
  {
    var filled := Filled(n, unique, keep);
    if unique == [] then (filled, 0) else ReuseUpTo(unique, filled, n)
  }

  ghost predicate IsKept(unique: seq<string>, keep: Slots, n: nat, key: string) {
    exists i | 0 <= i < n :: KeepsFirst(unique, keep, i) && keep[i] == Some(key)
  }

  lemma FilledFacts(n: nat, unique: seq<string>, keep: Slots)
    requires Distinct(unique)
    ensures var r := Filled(n, unique, keep);
      && Once(r)
      && Given(r) <= (set x | x in unique)
      && (None in r ==> forall x | x in unique :: x in Given(r))
      && (forall i | 0 <= i < n :: KeepsFirst(unique, keep, i) ==> r[i] == keep[i])
      && (forall a, b | 0 <= a < b < |unique| ::
            unique[b] in Given(r) && !IsKept(unique, keep, n, unique[b]) ==> unique[a] in Given(r))
  {
    var m := Min(n, |keep|);
    var kept := KeepUpTo(n, unique, keep, m);
    KeptSlots(n, unique, keep, m);
    assert Once(kept);
    FillKeepsSlots(unique, kept, n);
    BlankMeansExhausted(unique, kept, n);
    TakenInOrder(unique, kept, n);
    forall b | 0 <= b < |unique| && unique[b] in Given(kept) ensures IsKept(unique, keep, n, unique[b]) {
      GivenIff(kept, unique[b]);
      var i :| 0 <= i < n && kept[i] == Some(unique[b]);
      assert KeepsFirst(unique, keep, i);
    }
  }

  lemma UsableIsDistinct(keys: seq<string>)
    ensures Distinct(Usable(keys)) && "" !in Usable(keys)
  {
    FirstSeenDistinct(keys, {""});
    FirstSeenMembers(keys, {""}, "");
  }

  /** Reuse happens exactly as often as slots outnumber keys, and never without keys. */
  lemma ReuseIsExact(n: nat, unique: seq<string>, keep: Slots)
    requires Distinct(unique)
    ensures var (r, extra) := Spread(n, unique, keep);
      && (unique == [] ==> extra == 0 && forall i | 0 <= i < n :: r[i] == None)
      && (unique != [] ==>
            && extra == (if |unique| >= n then 0 else n - |unique|)
            && forall i | 0 <= i < n :: r[i].Some? && r[i].value in unique)
  {
    FilledFacts(n, unique, keep);
    var filled := Filled(n, unique, keep);
    BlanksLeft(unique, filled);
    if unique == [] {
      assert forall i | 0 <= i < n && filled[i].Some? :: filled[i].value in Given(filled);
    } else {
      ReuseFills(unique, filled, n);
      var r := ReuseUpTo(unique, filled, n).0;
      assert forall i | 0 <= i < n && filled[i].Some? :: filled[i].value in Given(filled);
      assert None !in r;
    }
  }

  /** With enough keys no key is used twice. */
  lemma EnoughKeysNoReuse(n: nat, unique: seq<string>, keep: Slots)
    requires Distinct(unique) && |unique| >= n
    ensures Distinct(Spread(n, unique, keep).0)
  {
    FilledFacts(n, unique, keep);
    var filled := Filled(n, unique, keep);
    BlanksLeft(unique, filled);
    if unique != [] {
      ReuseFills(unique, filled, n);
      assert ReuseUpTo(unique, filled, n).0 == filled;
    }
  }

  /** With too few keys every key is used, in shares that are as even as possible. */
  lemma TooFewKeysSharedEvenly(n: nat, unique: seq<string>, keep: Slots, j: nat)
    requires Distinct(unique) && |unique| < n && j < |unique|
    ensures var (r, extra) := Spread(n, unique, keep);
      multiset(r)[Some(unique[j])] == 1 + Share(extra, |unique|, j)
  {
    FilledFacts(n, unique, keep);
    var filled := Filled(n, unique, keep);
    BlanksLeft(unique, filled);
    OccursOnce(filled, unique[j]);
    ReuseIsEven(unique, filled, n, j);
  }

  /** With too few keys no key is used twice more often than another one is. */
  lemma SharesDifferByAtMostOne(n: nat, unique: seq<string>, keep: Slots, i: nat, j: nat)
    requires Distinct(unique) && |unique| < n && i < |unique| && j < |unique|
    ensures var r := multiset(Spread(n, unique, keep).0);
      1 <= r[Some(unique[i])] <= r[Some(unique[j])] + 1
  {
    TooFewKeysSharedEvenly(n, unique, keep, i);
    TooFewKeysSharedEvenly(n, unique, keep, j);
  }

  /** Every first valid `keep` entry stays in its slot. */
  lemma KeptStays(n: nat, unique: seq<string>, keep: Slots, i: nat)
    requires Distinct(unique) && i < n && KeepsFirst(unique, keep, i)
    ensures Spread(n, unique, keep).0[i] == keep[i]
  {
    FilledFacts(n, unique, keep);
    if unique != [] { ReuseFills(unique, Filled(n, unique, keep), n); }
  }

  /** A key nobody asked to keep is used only if every key ranked before it is used. */
  lemma EarlierKeysFirst(n: nat, unique: seq<string>, keep: Slots, a: nat, b: nat)
    requires Distinct(unique) && a < b < |unique|
    requires Some(unique[b]) in Spread(n, unique, keep).0 && !IsKept(unique, keep, n, unique[b])
    ensures Some(unique[a]) in Spread(n, unique, keep).0
  {
    FilledFacts(n, unique, keep);
    var filled := Filled(n, unique, keep);
    BlanksLeft(unique, filled);
    ReuseFills(unique, filled, n);
    var r := Spread(n, unique, keep).0;
    if None !in filled {
      assert r == filled;
      GivenIff(filled, unique[b]);
    }
    GivenIff(filled, unique[a]);
    var i :| 0 <= i < n && filled[i] == Some(unique[a]);
    assert r[i] == Some(unique[a]);
  }

  /** With nothing to keep, slot `i` is dealt key `i` modulo the number of keys. */
  lemma DealtInTurn(n: nat, unique: seq<string>, keep: Slots)
    requires Distinct(unique) && unique != [] && forall i | 0 <= i < |keep| :: keep[i] == None
    ensures forall i | 0 <= i < n :: Spread(n, unique, keep).0[i] == Some(unique[i % |unique|])
  {
    var m := Min(n, |keep|);
    KeptSlots(n, unique, keep, m);
    assert KeepUpTo(n, unique, keep, m) == Blank(n);
    FillBlank(unique, n, n);
    forall i | 0 <= i < n ensures Spread(n, unique, keep).0[i] == Some(unique[i % |unique|]) {
      ReuseDeals(unique, Filled(n, unique, keep), n, i);
    }
  }

  // ---- the source's loops -------------------------------------------------------------

  method DistinctKeys(keys: seq<string>) returns (unique: seq<string>, seen: set<string>)
    ensures unique == Usable(keys) && forall x :: x in seen <==> x in unique
  {
    unique, seen := [], {};
    for i := 0 to |keys|
      invariant unique == Usable(keys[..i])
      invariant forall x :: x in seen <==> x in unique
    {
      var key := keys[i];
      FirstSeenStep(keys, {""}, i);
      if key == "" || key in seen { continue; }
      seen := seen + {key};
      unique := unique + [key];
    }
    assert keys[..|keys|] == keys;
  }

  method KeepSlots(n: nat, unique: seq<string>, seen: set<string>, keep: Slots)
    returns (result: Slots, used: set<string>)
    requires Distinct(unique) && "" !in unique && forall x :: x in seen <==> x in unique
    ensures result == KeepUpTo(n, unique, keep, Min(n, |keep|)) && used == Given(result)
  {
    result, used := Blank(n), {};
    for i := 0 to Min(n, |keep|)
      invariant result == KeepUpTo(n, unique, keep, i) && used == Given(result)
    {
      var key := keep[i];
      if key.Some? && key.value != "" && key.value in seen && key.value !in used {
        KeptSlots(n, unique, keep, i);
        GivenUpdate(result, i, key.value);
        result := result[i := key];
        used := used + {key.value};
      }
    }
  }

  method FillSlots(unique: seq<string>, kept: Slots, used0: set<string>) returns (result: Slots)
    requires used0 == Given(kept)
    ensures result == FillUpTo(unique, kept, |kept|)
  {
    result := kept;
    var used := used0;
    for i := 0 to |kept|
      invariant result == FillUpTo(unique, kept, i) && used == Given(result)
    {
      if result[i].Some? { continue; }
      for j := 0 to |unique|
        invariant result == FillUpTo(unique, kept, i) && used == Given(result)
        invariant NextFree(unique, used, 0) == NextFree(unique, used, j)
      {
        if unique[j] !in used {
          GivenUpdate(result, i, unique[j]);
          result := result[i := Some(unique[j])];
          used := used + {unique[j]};
          break;
        }
      }
    }
  }

  method ReuseKeys(unique: seq<string>, filled: Slots) returns (result: Slots, extra: nat)
    requires unique != []
    ensures (result, extra) == ReuseUpTo(unique, filled, |filled|)
  {
    result, extra := filled, 0;
    var rr := 0;
    for i := 0 to |filled|
      invariant (result, extra) == ReuseUpTo(unique, filled, i) && rr == extra
    {
      if result[i].Some? { continue; }
      result := result[i := Some(unique[rr % |unique|])];
      rr := rr + 1;
      extra := extra + 1;
    }
  }

  method SpreadKeys(slotCount: int, keys: seq<string>, keep: Option<Slots>)
    returns (result: Slots, extra: nat)
    ensures var n := if slotCount < 0 then 0 else slotCount;
      (result, extra) == Spread(n, Usable(keys), if keep.Some? then keep.value else [])
  {
    var n: nat := if slotCount < 0 then 0 else slotCount;
    var unique, seen := DistinctKeys(keys);
    UsableIsDistinct(keys);
    var used;
    result, used := KeepSlots(n, unique, seen, if keep.Some? then keep.value else []);
    result := FillSlots(unique, result, used);
    extra := 0;
    if unique != [] {
      result, extra := ReuseKeys(unique, result);
    }
  }
}
