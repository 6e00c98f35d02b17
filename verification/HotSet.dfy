/** `select_hot_set` of v2ray/hot_set.py: the ring of nodes the pool keeps loaded.

    A row carries its key and its score before penalties; how that score is computed is not
    part of this model.  */
module HotSet {
  import opened Wrappers
  import opened Ordering
  import opened Arith
  import opened Spreading

  datatype HotRow = HotRow(key: Option<string>, score: real)

  datatype Ring = Ring(active: seq<string>, standby: seq<string>, reserve: seq<string>) {
    function All(): seq<string> { active + standby + reserve }
  }

  /** A cooling node loses 200 points; a node in use gains 10. */
  function Penalty(key: string, inUse: set<string>, cooling: set<string>): real {
    (if key in cooling then 200.0 else 0.0) - (if key in inUse then 10.0 else 0.0)
  }

  datatype Scored = Scored(score: real, key: string)

  function ScoreRows(rows: seq<HotRow>, inUse: set<string>, cooling: set<string>): (s: seq<Scored>)
    ensures |s| <= |rows|
  {
    if rows == [] then []
    else
      var n := |rows| - 1;
      var s := ScoreRows(rows[..n], inUse, cooling);
      match rows[n].key
      case None => s
      case Some(k) => s + [Scored(rows[n].score - Penalty(k, inUse, cooling), k)]
  }

  /** Position `i` of `s` sorts before position `j`: higher score, and on a tie the earlier
      position, because the sort is stable. */
  predicate Before(s: seq<Scored>, i: int, j: int) {
    && 0 <= i < |s| && 0 <= j < |s|
    && (s[i].score > s[j].score || (s[i].score == s[j].score && i < j))
  }

  function Positions(n: nat): (p: set<int>)
    ensures forall i :: i in p <==> 0 <= i < n
    ensures |p| == n
  {
    if n == 0 then {} else Positions(n - 1) + {n - 1}
  }

  function ByScore(s: seq<Scored>): (int, int) -> bool {
    (i, j) => Before(s, i, j)
  }

  /** A stable sort by falling score. */
  function SortedPositions(s: seq<Scored>): (p: seq<int>)
    ensures |p| == |s| && forall i | 0 <= i < |p| :: 0 <= p[i] < |s|
  {
    var p := OrderBy(Positions(|s|), ByScore(s));
    assert forall i | 0 <= i < |p| :: p[i] in p;
    p
  }

  /** All positions, best first. */
  ghost predicate BestOrder(s: seq<Scored>, p: seq<int>) {
    && |p| == |s| && (forall i | 0 <= i < |p| :: 0 <= p[i] < |s|)
    && (forall i | 0 <= i < |s| :: i in p)
    && (forall i, j | 0 <= i < j < |p| :: Before(s, p[i], p[j]))
  }

  lemma SortedPositionsOrder(s: seq<Scored>)
    ensures BestOrder(s, SortedPositions(s))
  {
    var p := SortedPositions(s);
    forall i, j | 0 <= i < j < |p| ensures Before(s, p[i], p[j]) {
      assert ByScore(s)(p[i], p[j]);
    }
  }

  function KeysAt(s: seq<Scored>, p: seq<int>): (r: seq<string>)
    requires forall i | 0 <= i < |p| :: 0 <= p[i] < |s|
    ensures |r| == |p| && forall i | 0 <= i < |p| :: r[i] == s[p[i]].key
  {
    seq(|p|, i requires 0 <= i < |p| => s[p[i]].key)
  }

  /** All keys, best first. */
  function RankedKeys(s: seq<Scored>): seq<string> {
    FirstSeen(KeysAt(s, SortedPositions(s)), {})
  }

  function Clip(n: int): nat { if n < 0 then 0 else n }

  /** Python's `s[a:b]` for non-negative bounds. */
  function Slice<T>(s: seq<T>, a: nat, b: nat): seq<T> {
    var lo := if a < |s| then a else |s|;
    var hi := if b < |s| then b else |s|;
    if lo < hi then s[lo..hi] else []
  }

  function Tiers(keys: seq<string>, a: nat, b: nat, c: nat): Ring {
    Ring(Slice(keys, 0, a), Slice(keys, a, a + b), Slice(keys, a + b, a + b + c))
  }

  function HotRing(s: seq<Scored>, active: int, standby: int, reserve: int): Ring {
    Tiers(RankedKeys(s), Clip(active), Clip(standby), Clip(reserve))
  }

  method ScoreAll(rows: seq<HotRow>, inUse: set<string>, cooling: set<string>) returns (scored: seq<Scored>)
    ensures scored == ScoreRows(rows, inUse, cooling)
  {
    scored := [];
    for i := 0 to |rows|
      invariant scored == ScoreRows(rows[..i], inUse, cooling)
    {
      assert rows[..i + 1][..i] == rows[..i];
      if rows[i].key == None { continue; }
      var key := rows[i].key.value;
      var penalty := 0.0;
      if key in cooling { penalty := penalty + 200.0; }
      if key in inUse { penalty := penalty - 10.0; }
      scored := scored + [Scored(rows[i].score - penalty, key)];
    }
    assert rows[..|rows|] == rows;
  }

  method BestFirst(ranked: seq<string>) returns (keys: seq<string>)
    ensures keys == FirstSeen(ranked, {})
  {
    keys := [];
    var seen: set<string> := {};
    for i := 0 to |ranked|
      invariant keys == FirstSeen(ranked[..i], {})
      invariant forall x :: x in seen <==> x in keys
    {
      FirstSeenStep(ranked, {}, i);
      var key := ranked[i];
      if key in seen { continue; }
      seen := seen + {key};
      keys := keys + [key];
    }
    assert ranked[..|ranked|] == ranked;
  }

  method SelectHotSet(rows: seq<HotRow>, active: int, standby: int, reserve: int,
                      inUse: set<string>, cooling: set<string>) returns (ring: Ring)
    ensures ring == HotRing(ScoreRows(rows, inUse, cooling), active, standby, reserve)
  {
    var scored := ScoreAll(rows, inUse, cooling);
    var keys := BestFirst(KeysAt(scored, SortedPositions(scored)));
    ring := Tiers(keys, Clip(active), Clip(standby), Clip(reserve));
  }

  // ---- the ring is a prefix of the ranking ---------------------------------------------

  lemma KeyAmong(s: seq<Scored>, p: seq<int>, k: string)
    requires BestOrder(s, p)
    ensures k in KeysAt(s, p) <==> exists i | 0 <= i < |s| :: s[i].key == k
  {
    var ks := KeysAt(s, p);
    if i :| 0 <= i < |s| && s[i].key == k {
      assert i in p;
      var j :| 0 <= j < |p| && p[j] == i;
      assert ks[j] == k;
    }
    if k in ks {
      var j :| 0 <= j < |ks| && ks[j] == k;
      assert s[p[j]].key == k;
    }
  }

  /** The ranking lists every key of a row, and nothing else. */
  lemma RankedKeysAreRowKeys(s: seq<Scored>, k: string)
    ensures k in RankedKeys(s) <==> exists i | 0 <= i < |s| :: s[i].key == k
  {
    SortedPositionsOrder(s);
    KeyAmong(s, SortedPositions(s), k);
    FirstSeenMembers(KeysAt(s, SortedPositions(s)), {}, k);
  }

  lemma SlicesJoin(keys: seq<string>, a: nat, b: nat, c: nat)
    ensures Slice(keys, 0, a) + Slice(keys, a, a + b) + Slice(keys, a + b, a + b + c)
         == keys[..Min(|keys|, a + b + c)]
  {
  }

  lemma TiersJoin(keys: seq<string>, a: nat, b: nat, c: nat)
    ensures Tiers(keys, a, b, c).All() == keys[..Min(|keys|, a + b + c)]
  {
    SlicesJoin(keys, a, b, c);
  }

  /** The tiers join to the best keys in order, as many as there is room for. */
  lemma RingIsPrefix(s: seq<Scored>, active: int, standby: int, reserve: int)
    ensures HotRing(s, active, standby, reserve).All()
         == RankedKeys(s)[..Min(|RankedKeys(s)|, Clip(active) + Clip(standby) + Clip(reserve))]
  {
    TiersJoin(RankedKeys(s), Clip(active), Clip(standby), Clip(reserve));
  }

  lemma RingIsDistinct(s: seq<Scored>, active: int, standby: int, reserve: int)
    ensures Distinct(HotRing(s, active, standby, reserve).All())
  {
    RingIsPrefix(s, active, standby, reserve);
    FirstSeenDistinct(KeysAt(s, SortedPositions(s)), {});
  }

  lemma TiersOfDistinct(x: seq<string>, y: seq<string>, z: seq<string>, k: string)
    requires Distinct(x + y + z)
    ensures k in x ==> k !in y && k !in z
    ensures k in y ==> k !in z
  {
    var all := x + y + z;
    assert forall i | 0 <= i < |x| :: all[i] == x[i];
    assert forall i | 0 <= i < |y| :: all[|x| + i] == y[i];
    assert forall i | 0 <= i < |z| :: all[|x| + |y| + i] == z[i];
  }

  /** Tiers are disjoint: no key appears in two of them. */
  lemma TiersAreDisjoint(s: seq<Scored>, active: int, standby: int, reserve: int, k: string)
    ensures var r := HotRing(s, active, standby, reserve);
      && (k in r.active ==> k !in r.standby && k !in r.reserve)
      && (k in r.standby ==> k !in r.reserve)
  {
    var r := HotRing(s, active, standby, reserve);
    RingIsDistinct(s, active, standby, reserve);
    TiersOfDistinct(r.active, r.standby, r.reserve, k);
  }

  // ---- a key ranks by its best row -----------------------------------------------------

  /** `i` is the row that decides the rank of its key: no row of the key sorts before it. */
  ghost predicate IsChampion(s: seq<Scored>, k: string, i: int) {
    && 0 <= i < |s| && s[i].key == k
    && forall j | 0 <= j < |s| && s[j].key == k :: j == i || Before(s, i, j)
  }

  ghost predicate KeyBefore(s: seq<Scored>, a: string, b: string) {
    exists i, j :: IsChampion(s, a, i) && IsChampion(s, b, j) && Before(s, i, j)
  }

  ghost predicate InKeyOrder(s: seq<Scored>, keys: seq<string>) {
    forall i, j | 0 <= i < j < |keys| :: KeyBefore(s, keys[i], keys[j])
  }

  /** The first position of a key in the sorted list is its champion. */
  lemma ChampionAt(s: seq<Scored>, p: seq<int>, m: nat)
    requires BestOrder(s, p) && m < |p|
    requires forall q | 0 <= q < m :: s[p[q]].key != s[p[m]].key
    ensures IsChampion(s, s[p[m]].key, p[m])
  {
    forall j | 0 <= j < |s| && s[j].key == s[p[m]].key ensures j == p[m] || Before(s, p[m], j) {
      assert j in p;
      var q :| 0 <= q < |p| && p[q] == j;
      assert m <= q;
    }
  }

  lemma NewKeyChampion(s: seq<Scored>, p: seq<int>, m: nat)
    requires BestOrder(s, p) && m < |p|
    requires s[p[m]].key !in FirstSeen(KeysAt(s, p)[..m], {})
    ensures IsChampion(s, s[p[m]].key, p[m])
  {
    var ks := KeysAt(s, p);
    FirstSeenMembers(ks[..m], {}, s[p[m]].key);
    forall q | 0 <= q < m ensures s[p[q]].key != s[p[m]].key {
      assert ks[..m][q] == ks[q] == s[p[q]].key;
    }
    ChampionAt(s, p, m);
  }

  lemma {:induction false} RankedChampions(s: seq<Scored>, p: seq<int>, m: nat, x: string)
    requires BestOrder(s, p) && m <= |p| && x in FirstSeen(KeysAt(s, p)[..m], {})
    ensures exists q | 0 <= q < m :: IsChampion(s, x, p[q])
  {
    var before := FirstSeen(KeysAt(s, p)[..m - 1], {});
    FirstSeenStep(KeysAt(s, p), {}, m - 1);
    if x in before {
      RankedChampions(s, p, m - 1, x);
      var q :| 0 <= q < m - 1 && IsChampion(s, x, p[q]);
    } else {
      assert x == s[p[m - 1]].key;
      NewKeyChampion(s, p, m - 1);
    }
  }

  /** A key met for the first time comes after those met before. */
  lemma NewKeyIsLast(s: seq<Scored>, p: seq<int>, m: nat, x: string)
    requires BestOrder(s, p) && m < |p| && x in FirstSeen(KeysAt(s, p)[..m], {})
    requires s[p[m]].key !in FirstSeen(KeysAt(s, p)[..m], {})
    ensures KeyBefore(s, x, s[p[m]].key)
  {
    RankedChampions(s, p, m, x);
    var q :| 0 <= q < m && IsChampion(s, x, p[q]);
    NewKeyChampion(s, p, m);
    assert Before(s, p[q], p[m]);
  }

  lemma RankedStep(s: seq<Scored>, p: seq<int>, m: nat, d: seq<string>)
    requires BestOrder(s, p) && m < |p| && d == FirstSeen(KeysAt(s, p)[..m], {}) && InKeyOrder(s, d)
    ensures InKeyOrder(s, FirstSeen(KeysAt(s, p)[..m + 1], {}))
  {
    FirstSeenStep(KeysAt(s, p), {}, m);
    if s[p[m]].key !in d {
      forall i | 0 <= i < |d| ensures KeyBefore(s, d[i], s[p[m]].key) {
        assert d[i] in d;
        NewKeyIsLast(s, p, m, d[i]);
      }
      ExtendOrder(s, d, s[p[m]].key);
    }
  }

  lemma {:induction false} RankedPrefix(s: seq<Scored>, p: seq<int>, m: nat)
    requires BestOrder(s, p) && m <= |p|
    ensures InKeyOrder(s, FirstSeen(KeysAt(s, p)[..m], {}))
  {
    if m > 0 {
      RankedPrefix(s, p, m - 1);
      RankedStep(s, p, m - 1, FirstSeen(KeysAt(s, p)[..m - 1], {}));
    }
  }

  lemma ExtendOrder(s: seq<Scored>, d: seq<string>, k: string)
    requires InKeyOrder(s, d) && forall i | 0 <= i < |d| :: KeyBefore(s, d[i], k)
    ensures InKeyOrder(s, d + [k])
  {
  }

  /** The ranking lists keys by their best row. */
  lemma RankedKeysSorted(s: seq<Scored>)
    ensures InKeyOrder(s, RankedKeys(s))
  {
    var p := SortedPositions(s);
    SortedPositionsOrder(s);
    RankedPrefix(s, p, |p|);
    assert KeysAt(s, p)[..|p|] == KeysAt(s, p);
  }

  /** No row outside the ring has a higher score than the best row of a key inside it. */
  lemma OutsideNeverOutscoresInside(s: seq<Scored>, active: int, standby: int, reserve: int, inner: string, outer: int)
    requires inner in HotRing(s, active, standby, reserve).All()
    requires 0 <= outer < |s| && s[outer].key !in HotRing(s, active, standby, reserve).All()
    ensures exists i | 0 <= i < |s| :: s[i].key == inner && s[i].score >= s[outer].score
  {
    RingIsPrefix(s, active, standby, reserve);
    RankedKeysSorted(s);
    RankedKeysAreRowKeys(s, s[outer].key);
    PrefixComesFirst(s, RankedKeys(s), HotRing(s, active, standby, reserve).All(), inner, s[outer].key);
    BestRowWins(s, inner, outer);
  }

  lemma BestRowWins(s: seq<Scored>, inner: string, outer: int)
    requires 0 <= outer < |s| && KeyBefore(s, inner, s[outer].key)
    ensures exists i | 0 <= i < |s| :: s[i].key == inner && s[i].score >= s[outer].score
  {
    var i, j :| IsChampion(s, inner, i) && IsChampion(s, s[outer].key, j) && Before(s, i, j);
    assert j == outer || Before(s, j, outer);
    assert s[i].key == inner;
  }

  lemma PrefixComesFirst(s: seq<Scored>, keys: seq<string>, all: seq<string>, inner: string, outer: string)
    requires InKeyOrder(s, keys) && |all| <= |keys| && all == keys[..|all|]
    requires inner in all && outer in keys && outer !in all
    ensures KeyBefore(s, inner, outer)
  {
    var a :| 0 <= a < |all| && all[a] == inner;
    assert keys[a] == inner;
    assert forall b | 0 <= b < |all| :: keys[b] == all[b] && all[b] in all;
    var b :| 0 <= b < |keys| && keys[b] == outer;
  }

  // ---- cooling -------------------------------------------------------------------------

  ghost predicate LoweredBy(s: seq<Scored>, t: seq<Scored>, k: string, points: real) {
    && |s| == |t|
    && forall i | 0 <= i < |s| :: t[i] == if s[i].key == k then Scored(s[i].score - points, k) else s[i]
  }

  /** All rows of the key lose the same points. */
  ghost predicate Lowered(s: seq<Scored>, t: seq<Scored>, k: string) {
    exists points: real :: points >= 0.0 && LoweredBy(s, t, k, points)
  }

  lemma {:induction false} CoolingLowersOneKey(rows: seq<HotRow>, inUse: set<string>, cooling: set<string>, k: string)
    requires k !in cooling
    ensures LoweredBy(ScoreRows(rows, inUse, cooling), ScoreRows(rows, inUse, cooling + {k}), k, 200.0)
  {
    if rows != [] {
      CoolingLowersOneKey(rows[..|rows| - 1], inUse, cooling, k);
    }
  }

  lemma {:induction false} UseRaisesOneKey(rows: seq<HotRow>, inUse: set<string>, cooling: set<string>, k: string)
    requires k !in inUse
    ensures LoweredBy(ScoreRows(rows, inUse + {k}, cooling), ScoreRows(rows, inUse, cooling), k, 10.0)
  {
    if rows != [] {
      UseRaisesOneKey(rows[..|rows| - 1], inUse, cooling, k);
    }
  }

  lemma SameChampion(s: seq<Scored>, t: seq<Scored>, k: string, a: string, i: int)
    requires Lowered(s, t, k)
    ensures IsChampion(s, a, i) <==> IsChampion(t, a, i)
  {
    var points: real :| points >= 0.0 && LoweredBy(s, t, k, points);
    if 0 <= i < |s| && s[i].key == a {
      assert forall j | 0 <= j < |s| && s[j].key == a :: Before(s, i, j) <==> Before(t, i, j);
    }
  }

  lemma OrderOfOthersKept(s: seq<Scored>, t: seq<Scored>, k: string, a: string, b: string)
    requires Lowered(s, t, k) && a != k
    ensures KeyBefore(s, a, b) ==> KeyBefore(t, a, b)
  {
    var points: real :| points >= 0.0 && LoweredBy(s, t, k, points);
    if KeyBefore(s, a, b) {
      var i, j :| IsChampion(s, a, i) && IsChampion(s, b, j) && Before(s, i, j);
      SameChampion(s, t, k, a, i);
      SameChampion(s, t, k, b, j);
      assert Before(t, i, j);
    }
  }

  function Without(keys: seq<string>, k: string): (r: seq<string>)
    ensures forall x :: x in r <==> x in keys && x != k
  {
    if keys == [] then []
    else
      var n := |keys| - 1;
      if keys[n] == k then Without(keys[..n], k) else Without(keys[..n], k) + [keys[n]]
  }

  lemma {:induction false} WithoutSorted(keys: seq<string>, k: string, s: seq<Scored>)
    requires InKeyOrder(s, keys)
    ensures InKeyOrder(s, Without(keys, k))
  {
    if keys != [] {
      var n := |keys| - 1;
      WithoutSorted(keys[..n], k, s);
      var r := Without(keys[..n], k);
      forall i | 0 <= i < |r| ensures KeyBefore(s, r[i], keys[n]) {
        assert r[i] in keys[..n];
        var m :| 0 <= m < n && keys[m] == r[i];
      }
    }
  }

  lemma ChampionUnique(s: seq<Scored>, k: string, i: int, j: int)
    requires IsChampion(s, k, i) && IsChampion(s, k, j)
    ensures i == j
  {
  }

  lemma KeyOrderTotal(s: seq<Scored>, keys: set<string>)
    requires forall k | k in keys :: exists i :: IsChampion(s, k, i)
    ensures StrictTotal((a, b) => KeyBefore(s, a, b), keys)
  {
    var less := (a, b) => KeyBefore(s, a, b);
    forall a | a in keys ensures !less(a, a) {
      if less(a, a) {
        var i, j :| IsChampion(s, a, i) && IsChampion(s, a, j) && Before(s, i, j);
        ChampionUnique(s, a, i, j);
      }
    }
    forall a, b | a in keys && b in keys && a != b ensures less(a, b) || less(b, a) {
      var i :| IsChampion(s, a, i);
      var j :| IsChampion(s, b, j);
      assert Before(s, i, j) || Before(s, j, i);
    }
    forall a, b, c | a in keys && b in keys && c in keys && less(a, b) && less(b, c) ensures less(a, c) {
      var i, j :| IsChampion(s, a, i) && IsChampion(s, b, j) && Before(s, i, j);
      var j', l :| IsChampion(s, b, j') && IsChampion(s, c, l) && Before(s, j', l);
      ChampionUnique(s, b, j, j');
      assert Before(s, i, l);
    }
  }

  lemma RankedKeyOrder(s: seq<Scored>, keys: set<string>)
    requires forall k | k in keys :: k in RankedKeys(s)
    ensures StrictTotal((a, b) => KeyBefore(s, a, b), keys)
  {
    var p := SortedPositions(s);
    SortedPositionsOrder(s);
    assert KeysAt(s, p)[..|p|] == KeysAt(s, p);
    forall k | k in keys ensures exists i :: IsChampion(s, k, i) {
      RankedChampions(s, p, |p|, k);
    }
    KeyOrderTotal(s, keys);
  }

  lemma SameRankedKeys(s: seq<Scored>, t: seq<Scored>, k: string, x: string)
    requires Lowered(s, t, k)
    ensures x in RankedKeys(s) <==> x in RankedKeys(t)
  {
    var points: real :| points >= 0.0 && LoweredBy(s, t, k, points);
    RankedKeysAreRowKeys(s, x);
    RankedKeysAreRowKeys(t, x);
    assert forall i | 0 <= i < |s| :: s[i].key == t[i].key;
  }

  lemma InOrderAfterLowering(s: seq<Scored>, t: seq<Scored>, k: string, keys: seq<string>)
    requires Lowered(s, t, k) && InKeyOrder(s, keys) && k !in keys
    ensures InKeyOrder(t, keys)
  {
    forall i, j | 0 <= i < j < |keys| ensures KeyBefore(t, keys[i], keys[j]) {
      OrderOfOthersKept(s, t, k, keys[i], keys[j]);
    }
  }

  lemma LoweringKeepsOthers(s: seq<Scored>, t: seq<Scored>, k: string)
    requires Lowered(s, t, k)
    ensures Without(RankedKeys(s), k) == Without(RankedKeys(t), k)
  {
    var a, b := Without(RankedKeys(s), k), Without(RankedKeys(t), k);
    RankedKeysSorted(s);
    RankedKeysSorted(t);
    WithoutSorted(RankedKeys(s), k, s);
    WithoutSorted(RankedKeys(t), k, t);
    InOrderAfterLowering(s, t, k, a);
    var less := (x, y) => KeyBefore(t, x, y);
    var keys := set x | x in b;
    RankedKeyOrder(t, keys);
    forall x ensures x in a <==> x in keys { SameRankedKeys(s, t, k, x); }
    assert forall i, j | 0 <= i < j < |a| :: less(a[i], a[j]);
    assert forall i, j | 0 <= i < j < |b| :: less(b[i], b[j]);
    SortedIsUnique(a, b, less, keys);
  }

  /** Cooling one key never reorders the others ... */
  lemma CoolingNeverReordersOthers(rows: seq<HotRow>, inUse: set<string>, cooling: set<string>, k: string)
    requires k !in cooling
    ensures Without(RankedKeys(ScoreRows(rows, inUse, cooling)), k)
         == Without(RankedKeys(ScoreRows(rows, inUse, cooling + {k})), k)
  {
    CoolingLowersOneKey(rows, inUse, cooling, k);
    LoweringKeepsOthers(ScoreRows(rows, inUse, cooling), ScoreRows(rows, inUse, cooling + {k}), k);
  }

  lemma NotBothWays(s: seq<Scored>, a: string, b: string)
    requires KeyBefore(s, a, b)
    ensures !KeyBefore(s, b, a)
  {
    var i, j :| IsChampion(s, a, i) && IsChampion(s, b, j) && Before(s, i, j);
    forall j', i' | IsChampion(s, b, j') && IsChampion(s, a, i') ensures !Before(s, j', i') {
      ChampionUnique(s, a, i, i');
      ChampionUnique(s, b, j, j');
    }
  }

  lemma OrderedIndex(s: seq<Scored>, keys: seq<string>, i: nat, j: nat)
    requires InKeyOrder(s, keys) && i < |keys| && j < |keys| && KeyBefore(s, keys[i], keys[j])
    ensures i < j
  {
    NotBothWays(s, keys[i], keys[j]);
  }

  /** A key that ranked above `k` still ranks above it once `k` is lowered. */
  lemma StillAbove(s: seq<Scored>, t: seq<Scored>, k: string, i: nat, j: nat, m: nat)
    requires Lowered(s, t, k)
    requires i < |RankedKeys(s)| && RankedKeys(s)[i] == k && j < |RankedKeys(t)| && RankedKeys(t)[j] == k
    requires m < i
    ensures RankedKeys(s)[m] in RankedKeys(t)[..j]
  {
    var a, b := RankedKeys(s), RankedKeys(t);
    RankedKeysSorted(s);
    RankedKeysSorted(t);
    assert KeyBefore(s, a[m], k);
    OrderOfOthersKept(s, t, k, a[m], k) by { assert a[m] != k by { NotBothWays(s, a[m], k); } }
    SameRankedKeys(s, t, k, a[m]);
    var q :| 0 <= q < |b| && b[q] == a[m];
    OrderedIndex(t, b, q, j);
    assert b[..j][q] == a[m];
  }

  lemma AllBefore(a: seq<string>, b: seq<string>, i: nat, j: nat)
    requires Distinct(a) && Distinct(b) && i < |a| && j < |b|
    requires forall m | 0 <= m < i :: a[m] in b[..j]
    ensures i <= j
  {
    var above := set y | y in b[..j];
    forall x | x in a[..i] ensures x in above {
      var m :| 0 <= m < i && a[m] == x;
    }
    DistinctBound(a[..i], above);
    DistinctCard(b[..j]);
  }

  lemma LoweringNeverRaises(s: seq<Scored>, t: seq<Scored>, k: string, i: nat, j: nat)
    requires Lowered(s, t, k)
    requires i < |RankedKeys(s)| && RankedKeys(s)[i] == k && j < |RankedKeys(t)| && RankedKeys(t)[j] == k
    ensures i <= j
  {
    FirstSeenDistinct(KeysAt(s, SortedPositions(s)), {});
    FirstSeenDistinct(KeysAt(t, SortedPositions(t)), {});
    forall m | 0 <= m < i ensures RankedKeys(s)[m] in RankedKeys(t)[..j] {
      StillAbove(s, t, k, i, j, m);
    }
    AllBefore(RankedKeys(s), RankedKeys(t), i, j);
  }

  /** ... and never raises its rank: `i` is the rank of `k` before, `j` its rank after. */
  lemma CoolingNeverRaisesRank(rows: seq<HotRow>, inUse: set<string>, cooling: set<string>, k: string,
                               s: seq<Scored>, t: seq<Scored>, i: nat, j: nat)
    requires k !in cooling
    requires s == ScoreRows(rows, inUse, cooling) && t == ScoreRows(rows, inUse, cooling + {k})
    requires i < |RankedKeys(s)| && RankedKeys(s)[i] == k && j < |RankedKeys(t)| && RankedKeys(t)[j] == k
    ensures i <= j
  {
    CoolingLowersOneKey(rows, inUse, cooling, k);
    LoweringNeverRaises(s, t, k, i, j);
  }

  /** Putting one key into use never reorders the others and never lowers its rank: `j` is its rank
      before, `i` its rank in use. */
  lemma UseNeverReordersOthers(rows: seq<HotRow>, inUse: set<string>, cooling: set<string>, k: string)
    requires k !in inUse
    ensures Without(RankedKeys(ScoreRows(rows, inUse + {k}, cooling)), k)
         == Without(RankedKeys(ScoreRows(rows, inUse, cooling)), k)
  {
    UseRaisesOneKey(rows, inUse, cooling, k);
    LoweringKeepsOthers(ScoreRows(rows, inUse + {k}, cooling), ScoreRows(rows, inUse, cooling), k);
  }

  lemma UseNeverLowersRank(rows: seq<HotRow>, inUse: set<string>, cooling: set<string>, k: string,
                           s: seq<Scored>, t: seq<Scored>, i: nat, j: nat)
    requires k !in inUse
    requires s == ScoreRows(rows, inUse + {k}, cooling) && t == ScoreRows(rows, inUse, cooling)
    requires i < |RankedKeys(s)| && RankedKeys(s)[i] == k && j < |RankedKeys(t)| && RankedKeys(t)[j] == k
    ensures i <= j
  {
    UseRaisesOneKey(rows, inUse, cooling, k);
    LoweringNeverRaises(s, t, k, i, j);
  }

  /** The score of a row: its own, less 200 points for a cooling node, and 10 more for one in use. */
  lemma {:induction false} ScoreMeans(rows: seq<HotRow>, inUse: set<string>, cooling: set<string>, x: Scored)
    ensures x in ScoreRows(rows, inUse, cooling)
       <==> exists i | 0 <= i < |rows| :: rows[i].key == Some(x.key)
              && x.score == rows[i].score - (if x.key in cooling then 200.0 else 0.0) + (if x.key in inUse then 10.0 else 0.0)
  {
    if rows != [] { ScoreMeans(rows[..|rows| - 1], inUse, cooling, x); }
  }
}
