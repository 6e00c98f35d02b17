/** The write buffer in front of the V2Ray table (db.py): outcomes are queued, and a flush
    records them grouped by probe type. The clock stands still within one flush.  */
module WriteBuffer {
  import opened Wrappers
  import opened Ordering
  import opened Spreading
  import opened Health
  import opened Catalog

  const LIMIT := 100

  /** The entries as one flush at time `at` writes them. */
  function Stamp(entries: seq<Entry>, at: int): (r: seq<Write>)
    ensures |r| == |entries|
  {
    seq(|entries|, i requires 0 <= i < |entries| => Write(entries[i], None, at))
  }

  function TypesOf(entries: seq<Entry>): (r: seq<string>)
    ensures |r| == |entries|
  {
    seq(|entries|, i requires 0 <= i < |entries| => entries[i].probeType)
  }

  /** The distinct probe types in order of first appearance. */
  function Types(entries: seq<Entry>): seq<string> { FirstSeen(TypesOf(entries), {}) }

  function OfType(entries: seq<Entry>, t: string): seq<Entry> {
    if entries == [] then []
    else
      var n := |entries| - 1;
      OfType(entries[..n], t) + if entries[n].probeType == t then [entries[n]] else []
  }

  function InGroups(entries: seq<Entry>, types: seq<string>): seq<Entry> {
    if types == [] then []
    else InGroups(entries, types[..|types| - 1]) + OfType(entries, types[|types| - 1])
  }

  /** The order in which a flush records the entries. */
  function Grouped(entries: seq<Entry>): seq<Entry> { InGroups(entries, Types(entries)) }

  // ---- grouping loses and repeats nothing --------------------------------------------------

  lemma {:induction false} OfTypeCount(entries: seq<Entry>, t: string, e: Entry)
    ensures multiset(OfType(entries, t))[e] == if e.probeType == t then multiset(entries)[e] else 0
  {
    if entries != [] {
      var n := |entries| - 1;
      OfTypeCount(entries[..n], t, e);
      CountWithLast(entries, e);
      if entries[n].probeType == t {
        var r := OfType(entries, t);
        assert r[..|r| - 1] == OfType(entries[..n], t);
        CountWithLast(r, e);
      } else {
        assert OfType(entries, t) == OfType(entries[..n], t);
      }
    }
  }

  lemma CountWithLast(entries: seq<Entry>, e: Entry)
    requires entries != []
    ensures multiset(entries)[e]
         == multiset(entries[..|entries| - 1])[e] + if entries[|entries| - 1] == e then 1 else 0
  {
    assert entries == entries[..|entries| - 1] + [entries[|entries| - 1]];
  }

  lemma {:induction false} InGroupsCount(entries: seq<Entry>, types: seq<string>, e: Entry)
    requires Distinct(types)
    ensures multiset(InGroups(entries, types))[e] == if e.probeType in types then multiset(entries)[e] else 0
  {
    if types != [] {
      var n := |types| - 1;
      InGroupsCount(entries, types[..n], e);
      OfTypeCount(entries, types[n], e);
      assert types == types[..n] + [types[n]];
    }
  }

  lemma TypeIsListed(entries: seq<Entry>, e: Entry)
    requires e in entries
    ensures e.probeType in Types(entries)
  {
    var i :| 0 <= i < |entries| && entries[i] == e;
    assert TypesOf(entries)[i] == e.probeType;
    FirstSeenMembers(TypesOf(entries), {}, e.probeType);
  }

  /** A flush writes each queued outcome, and each once. */
  lemma GroupedPermutes(entries: seq<Entry>)
    ensures multiset(Grouped(entries)) == multiset(entries)
  {
    FirstSeenDistinct(TypesOf(entries), {});
    forall e ensures multiset(Grouped(entries))[e] == multiset(entries)[e] {
      InGroupsCount(entries, Types(entries), e);
      if e in entries { TypeIsListed(entries, e); }
    }
  }

  // ---- grouping and the order within a key --------------------------------------------------

  function EntriesOfKey(entries: seq<Entry>, key: string): seq<Entry> {
    if entries == [] then []
    else
      var n := |entries| - 1;
      EntriesOfKey(entries[..n], key) + if entries[n].outcome.key == key then [entries[n]] else []
  }

  lemma {:induction false} EntriesOfKeyAppend(a: seq<Entry>, b: seq<Entry>, key: string)
    ensures EntriesOfKey(a + b, key) == EntriesOfKey(a, key) + EntriesOfKey(b, key)
  {
    if b == [] {
      assert a + b == a;
    } else {
      var n := |b| - 1;
      EntriesOfKeyAppend(a, b[..n], key);
      assert (a + b)[..|a + b| - 1] == a + b[..n];
    }
  }

  lemma {:induction false} KeyMembers(entries: seq<Entry>, key: string)
    ensures forall e | e in EntriesOfKey(entries, key) :: e in entries && e.outcome.key == key
  {
    if entries != [] { KeyMembers(entries[..|entries| - 1], key); }
  }

  lemma OfTypeSnoc(entries: seq<Entry>, e: Entry, t: string)
    ensures OfType(entries + [e], t) == OfType(entries, t) + if e.probeType == t then [e] else []
  {
    assert (entries + [e])[..|entries|] == entries;
  }

  lemma EntriesOfKeySnoc(entries: seq<Entry>, e: Entry, key: string)
    ensures EntriesOfKey(entries + [e], key)
         == EntriesOfKey(entries, key) + if e.outcome.key == key then [e] else []
  {
    assert (entries + [e])[..|entries|] == entries;
  }

  lemma NothingMore(entries: seq<Entry>)
    ensures entries + [] == entries
  {
  }

  lemma {:induction false} KeyOfType(entries: seq<Entry>, key: string, t: string)
    ensures EntriesOfKey(OfType(entries, t), key) == OfType(EntriesOfKey(entries, key), t)
  {
    if entries != [] {
      var before, e := entries[..|entries| - 1], entries[|entries| - 1];
      KeyOfType(before, key, t);
      assert entries == before + [e];
      OfTypeSnoc(before, e, t);
      EntriesOfKeySnoc(before, e, key);
      EntriesOfKeySnoc(OfType(before, t), e, key);
      OfTypeSnoc(EntriesOfKey(before, key), e, t);
      NothingMore(OfType(before, t));
      NothingMore(EntriesOfKey(before, key));
    }
  }

  lemma {:induction false} KeyOfGroups(entries: seq<Entry>, types: seq<string>, key: string)
    ensures EntriesOfKey(InGroups(entries, types), key) == InGroups(EntriesOfKey(entries, key), types)
  {
    if types != [] {
      var n := |types| - 1;
      KeyOfGroups(entries, types[..n], key);
      KeyOfType(entries, key, types[n]);
      EntriesOfKeyAppend(InGroups(entries, types[..n]), OfType(entries, types[n]), key);
    }
  }

  /** Where a type stands in a list. */
  function Place(types: seq<string>, t: string): (i: nat)
    ensures i <= |types| && (i < |types| ==> types[i] == t) && forall m | 0 <= m < i :: types[m] != t
  {
    if types == [] then 0 else if types[0] == t then 0 else 1 + Place(types[1..], t)
  }

  /** The entries stand in the order of their groups. */
  ghost predicate Ordered(entries: seq<Entry>, types: seq<string>) {
    forall i, j | 0 <= i < j < |entries| :: Place(types, entries[i].probeType) <= Place(types, entries[j].probeType)
  }

  ghost predicate Listed(entries: seq<Entry>, types: seq<string>) {
    forall e | e in entries :: e.probeType in types
  }

  lemma {:induction false} NoneOfType(entries: seq<Entry>, t: string)
    requires forall e | e in entries :: e.probeType != t
    ensures OfType(entries, t) == []
  {
    if entries != [] { NoneOfType(entries[..|entries| - 1], t); }
  }

  /** No entry belongs to a later group than this one. */
  ghost predicate IsLast(entries: seq<Entry>, e: Entry, types: seq<string>) {
    forall x | x in entries :: Place(types, x.probeType) <= Place(types, e.probeType)
  }

  /** After the group of such an entry no group has any. */
  lemma LaterGroup(entries: seq<Entry>, e: Entry, types: seq<string>, j: nat)
    requires Distinct(types) && IsLast(entries, e, types) && Place(types, e.probeType) < j < |types|
    ensures OfType(entries, types[j]) == []
  {
    forall x | x in entries ensures x.probeType != types[j] {
      assert Place(types, x.probeType) < j;
    }
    NoneOfType(entries, types[j]);
  }

  lemma GroupStep(entries: seq<Entry>, types: seq<string>, j: nat)
    requires j < |types|
    ensures InGroups(entries, types[..j + 1]) == InGroups(entries, types[..j]) + OfType(entries, types[j])
  {
    assert types[..j + 1][..j] == types[..j];
  }

  function Maybe(b: bool, e: Entry): seq<Entry> { if b then [e] else [] }

  lemma GroupGains(entries: seq<Entry>, e: Entry, types: seq<string>, j: nat)
    requires Distinct(types) && IsLast(entries, e, types) && j < |types|
    ensures OfType(entries + [e], types[j]) == OfType(entries, types[j]) + Maybe(Place(types, e.probeType) == j, e)
    ensures Place(types, e.probeType) < j ==> OfType(entries, types[j]) == []
  {
    OfTypeSnoc(entries, e, types[j]);
    if Place(types, e.probeType) < j { LaterGroup(entries, e, types, j); }
  }

  lemma PutLast(before: seq<Entry>, group: seq<Entry>, e: Entry, place: nat, j: nat)
    requires place < j ==> group == []
    ensures (before + Maybe(place < j, e)) + (group + Maybe(place == j, e)) == (before + group) + Maybe(place < j + 1, e)
  {
  }

  /** Such an entry is put at the end of its group. */
  lemma {:induction false} GroupsWithLast(entries: seq<Entry>, e: Entry, types: seq<string>, j: nat)
    requires Distinct(types) && IsLast(entries, e, types) && j <= |types|
    ensures InGroups(entries + [e], types[..j])
         == InGroups(entries, types[..j]) + Maybe(Place(types, e.probeType) < j, e)
  {
    if j > 0 {
      GroupsWithLast(entries, e, types, j - 1);
      GroupStep(entries, types, j - 1);
      GroupStep(entries + [e], types, j - 1);
      GroupGains(entries, e, types, j - 1);
      PutLast(InGroups(entries, types[..j - 1]), OfType(entries, types[j - 1]), e, Place(types, e.probeType), j - 1);
    }
  }

  lemma OrderedLast(entries: seq<Entry>, e: Entry, types: seq<string>)
    requires Ordered(entries + [e], types)
    ensures Ordered(entries, types) && IsLast(entries, e, types)
  {
    var all := entries + [e];
    assert forall i | 0 <= i < |entries| :: all[i] == entries[i];
    assert all[|entries|] == e;
  }

  lemma {:induction false} OrderedStays(entries: seq<Entry>, types: seq<string>)
    requires Distinct(types) && Ordered(entries, types) && Listed(entries, types)
    ensures InGroups(entries, types) == entries
  {
    if entries == [] {
      NothingInGroups(types);
    } else {
      var before, e := entries[..|entries| - 1], entries[|entries| - 1];
      assert entries == before + [e];
      OrderedLast(before, e, types);
      OrderedStays(before, types);
      GroupsWithLast(before, e, types, |types|);
      assert types[..|types|] == types;
      assert e.probeType in types;
    }
  }

  lemma {:induction false} NothingInGroups(types: seq<string>)
    ensures InGroups([], types) == []
  {
    if types != [] { NothingInGroups(types[..|types| - 1]); }
  }

  lemma {:induction false} GroupsAreOrdered(entries: seq<Entry>, types: seq<string>, j: nat)
    requires Distinct(types) && j <= |types|
    ensures Ordered(InGroups(entries, types[..j]), types)
    ensures forall e | e in InGroups(entries, types[..j]) :: Place(types, e.probeType) < j
  {
    if j > 0 {
      var before, last := InGroups(entries, types[..j - 1]), OfType(entries, types[j - 1]);
      GroupsAreOrdered(entries, types, j - 1);
      OfTypeHasType(entries, types[j - 1]);
      assert types[..j][..j - 1] == types[..j - 1];
      assert forall i | 0 <= i < |before| :: before[i] in before;
      assert forall i | 0 <= i < |last| :: last[i] in last && Place(types, last[i].probeType) == j - 1;
    }
  }

  lemma {:induction false} OfTypeHasType(entries: seq<Entry>, t: string)
    ensures forall e | e in OfType(entries, t) :: e.probeType == t
  {
    if entries != [] { OfTypeHasType(entries[..|entries| - 1], t); }
  }

  /** In one flush of these outcomes, those of the key stand in the order of their groups. */
  ghost predicate GroupOrder(entries: seq<Entry>, key: string) {
    Ordered(EntriesOfKey(entries, key), Types(entries))
  }

  lemma KeyIsListed(entries: seq<Entry>, key: string)
    ensures Listed(EntriesOfKey(entries, key), Types(entries))
  {
    KeyMembers(entries, key);
    forall e | e in EntriesOfKey(entries, key) ensures e.probeType in Types(entries) {
      TypeIsListed(entries, e);
    }
  }

  lemma GroupsKeepLength(entries: seq<Entry>, types: seq<string>)
    requires Distinct(types) && Listed(entries, types)
    ensures |InGroups(entries, types)| == |entries|
  {
    forall e ensures multiset(InGroups(entries, types))[e] == multiset(entries)[e] {
      InGroupsCount(entries, types, e);
    }
    assert multiset(InGroups(entries, types)) == multiset(entries);
    assert |multiset(InGroups(entries, types))| == |multiset(entries)|;
  }

  /** A flush writes the outcomes of a key in the order they came in exactly when they stand in
      group order. */
  lemma GroupedKeepsKeyIff(entries: seq<Entry>, key: string)
    ensures EntriesOfKey(Grouped(entries), key) == EntriesOfKey(entries, key) <==> GroupOrder(entries, key)
    ensures |EntriesOfKey(Grouped(entries), key)| == |EntriesOfKey(entries, key)|
  {
    var own, types := EntriesOfKey(entries, key), Types(entries);
    FirstSeenDistinct(TypesOf(entries), {});
    KeyOfGroups(entries, types, key);
    KeyIsListed(entries, key);
    GroupsKeepLength(own, types);
    GroupsAreOrdered(own, types, |types|);
    assert types[..|types|] == types;
    if GroupOrder(entries, key) { OrderedStays(own, types); }
  }

  /** All queued outcomes of this key come from one kind of probe. */
  ghost predicate OneType(entries: seq<Entry>, key: string, t: string) {
    forall i | 0 <= i < |entries| && entries[i].outcome.key == key :: entries[i].probeType == t
  }

  lemma OneTypeOrder(entries: seq<Entry>, key: string, t: string)
    requires OneType(entries, key, t)
    ensures GroupOrder(entries, key)
  {
    KeyMembers(entries, key);
    var own := EntriesOfKey(entries, key);
    forall i | 0 <= i < |own| ensures own[i].probeType == t {
      assert own[i] in own;
    }
  }

  lemma StampAppend(a: seq<Entry>, b: seq<Entry>, at: int)
    ensures Stamp(a + b, at) == Stamp(a, at) + Stamp(b, at)
  {
  }

  lemma EntriesOfStamp(entries: seq<Entry>, at: int)
    ensures Entries(Stamp(entries, at)) == entries
  {
  }

  lemma {:induction false} OfKeyStamp(entries: seq<Entry>, key: string, at: int)
    ensures OfKey(Stamp(entries, at), key) == Stamp(EntriesOfKey(entries, key), at)
  {
    if entries != [] {
      var n := |entries| - 1;
      OfKeyStamp(entries[..n], key, at);
      assert Stamp(entries, at)[..n] == Stamp(entries[..n], at);
    }
  }

  // ---- runs of the buffer -------------------------------------------------------------------

  /** One call of `enqueue_v2ray_results`, or of `v2ray_record_results` where nothing is buffered. */
  datatype Batch = Batch(outcomes: seq<Outcome>, probeType: string, at: int)

  function Tagged(b: Batch): (r: seq<Entry>)
    ensures |r| == |b.outcomes|
  {
    seq(|b.outcomes|, i requires 0 <= i < |b.outcomes| => Entry(b.outcomes[i], b.probeType))
  }

  function AllEntries(batches: seq<Batch>): seq<Entry> {
    if batches == [] then []
    else AllEntries(batches[..|batches| - 1]) + Tagged(batches[|batches| - 1])
  }

  /** What stays queued after a call. */
  function Kept(pending: seq<Entry>, b: Batch): seq<Entry> {
    if |pending + Tagged(b)| >= LIMIT then [] else pending + Tagged(b)
  }

  /** What a call writes: the whole queue once it is long enough. */
  function Flushed(pending: seq<Entry>, b: Batch): seq<Write> {
    if |pending + Tagged(b)| >= LIMIT then Stamp(Grouped(pending + Tagged(b)), b.at) else []
  }

  function Pending(batches: seq<Batch>): seq<Entry> {
    if batches == [] then [] else Kept(Pending(batches[..|batches| - 1]), batches[|batches| - 1])
  }

  function Written(batches: seq<Batch>): seq<Write> {
    if batches == [] then []
    else
      var n := |batches| - 1;
      Written(batches[..n]) + Flushed(Pending(batches[..n]), batches[n])
  }

  /** The writes of a run that ends with `flush_v2ray_writer` at time `at`. */
  function Buffered(batches: seq<Batch>, at: int): seq<Write> {
    Written(batches) + Stamp(Grouped(Pending(batches)), at)
  }

  /** The same calls without the buffer. */
  function Direct(batches: seq<Batch>): seq<Write> {
    if batches == [] then []
    else Direct(batches[..|batches| - 1]) + Stamp(Tagged(batches[|batches| - 1]), batches[|batches| - 1].at)
  }

  lemma {:induction false} DirectEntries(batches: seq<Batch>)
    ensures Entries(Direct(batches)) == AllEntries(batches)
  {
    if batches != [] {
      var n := |batches| - 1;
      DirectEntries(batches[..n]);
      var last := Stamp(Tagged(batches[n]), batches[n].at);
      EntriesAppend(Direct(batches[..n]), last);
      EntriesOfStamp(Tagged(batches[n]), batches[n].at);
    }
  }

  lemma FlushedEntries(pending: seq<Entry>, b: Batch)
    ensures multiset(Entries(Flushed(pending, b))) + multiset(Kept(pending, b))
         == multiset(pending) + multiset(Tagged(b))
  {
    var all := pending + Tagged(b);
    GroupedPermutes(all);
    EntriesOfStamp(Grouped(all), b.at);
    EntriesOfStamp([], b.at);
  }

  /** After every call fewer than a hundred outcomes are queued, and the written and the queued
      outcomes together are exactly the outcomes handed in: none is lost, none written twice. */
  lemma {:induction false} NothingLostOrRepeated(batches: seq<Batch>)
    ensures |Pending(batches)| < LIMIT
    ensures multiset(Entries(Written(batches))) + multiset(Pending(batches)) == multiset(AllEntries(batches))
  {
    if batches != [] {
      var n := |batches| - 1;
      var before, b := batches[..n], batches[n];
      NothingLostOrRepeated(before);
      FlushedEntries(Pending(before), b);
      EntriesAppend(Written(before), Flushed(Pending(before), b));
      Shift(multiset(Entries(Written(before))), multiset(Entries(Flushed(Pending(before), b))),
            multiset(Kept(Pending(before), b)), multiset(Pending(before)), multiset(Tagged(b)));
      assert multiset(AllEntries(batches)) == multiset(AllEntries(before)) + multiset(Tagged(b));
    }
  }

  lemma Shift(a: multiset<Entry>, b: multiset<Entry>, c: multiset<Entry>, d: multiset<Entry>, e: multiset<Entry>)
    requires b + c == d + e
    ensures (a + b) + c == (a + d) + e
  {
    assert (a + b) + c == a + (b + c);
    assert (a + d) + e == a + (d + e);
  }

  lemma BufferedEntries(batches: seq<Batch>, at: int)
    ensures multiset(Entries(Buffered(batches, at))) == multiset(AllEntries(batches))
  {
    NothingLostOrRepeated(batches);
    GroupedPermutes(Pending(batches));
    EntriesOfStamp(Grouped(Pending(batches)), at);
    EntriesAppend(Written(batches), Stamp(Grouped(Pending(batches)), at));
  }

  lemma KnownPermutes(rows: Table, a: seq<Entry>, b: seq<Entry>, key: string)
    requires multiset(a) == multiset(b) && Known(rows, a, key)
    ensures Known(rows, b, key)
  {
    forall i | 0 <= i < |b| && b[i].outcome.key == key && key !in rows
      ensures b[i].outcome.identity.Some?
    {
      assert b[i] in multiset(a);
    }
  }

  /** Over any run of calls, with any clock, the buffer leaves every known key with the lifetime
      totals that writing each outcome at once would have left. */
  lemma BufferKeepsTotals(rows: Table, batches: seq<Batch>, at: int, key: string, scoring: Scoring)
    requires Known(rows, AllEntries(batches), key)
    ensures var buffered, direct := Lookup(RecordAll(rows, Buffered(batches, at), scoring), key),
                                    Lookup(RecordAll(rows, Direct(batches), scoring), key);
      && (buffered.Some? <==> direct.Some?)
      && SnapOf(buffered).checks == SnapOf(direct).checks
      && SnapOf(buffered).successes == SnapOf(direct).successes
      && SnapOf(buffered).failures == SnapOf(direct).failures
  {
    BufferedEntries(batches, at);
    DirectEntries(batches);
    KnownPermutes(rows, AllEntries(batches), Entries(Buffered(batches, at)), key);
    TotalsAreSums(rows, Buffered(batches, at), key, scoring);
    TotalsAreSums(rows, Direct(batches), key, scoring);
    CountsPermute(Entries(Buffered(batches, at)), AllEntries(batches), key);
  }

  // ---- whole rows ---------------------------------------------------------------------------

  ghost predicate OneClock(batches: seq<Batch>, at: int) {
    forall i | 0 <= i < |batches| :: batches[i].at == at
  }

  lemma StampInjective(a: seq<Entry>, b: seq<Entry>, at: int)
    ensures Stamp(a, at) == Stamp(b, at) <==> a == b
  {
    if Stamp(a, at) == Stamp(b, at) {
      forall i | 0 <= i < |a| ensures a[i] == b[i] {
        assert Stamp(a, at)[i].entry == Stamp(b, at)[i].entry;
      }
    }
  }

  lemma KeyParts(pending: seq<Entry>, more: seq<Entry>, key: string, at: int)
    ensures Stamp(EntriesOfKey(pending + more, key), at)
         == Stamp(EntriesOfKey(pending, key), at) + Stamp(EntriesOfKey(more, key), at)
  {
    EntriesOfKeyAppend(pending, more, key);
    StampAppend(EntriesOfKey(pending, key), EntriesOfKey(more, key), at);
  }

  /** Each time the queue is written at its limit, the outcomes of the key stand in group order. */
  ghost predicate FlushesInOrder(batches: seq<Batch>, key: string) {
    batches == [] ||
    var n := |batches| - 1;
    var queue := Pending(batches[..n]) + Tagged(batches[n]);
    FlushesInOrder(batches[..n], key) && (|queue| >= LIMIT ==> GroupOrder(queue, key))
  }

  /** And when the rest is written at the end. */
  ghost predicate RunInOrder(batches: seq<Batch>, key: string) {
    FlushesInOrder(batches, key) && GroupOrder(Pending(batches), key)
  }

  lemma SplitEqual<T>(a: seq<T>, b: seq<T>, c: seq<T>, d: seq<T>)
    requires |a| == |c|
    ensures a + b == c + d <==> a == c && b == d
  {
    if a + b == c + d {
      assert a == (a + b)[..|a|] && c == (c + d)[..|c|];
      assert b == (a + b)[|a|..] && d == (c + d)[|c|..];
    }
  }

  /** What is written of a key and what waits, against the order of arrival: the waiting outcomes
      are the last to have come, and the written ones are in order exactly when each flush was. */
  ghost predicate KeyUpTo(written: seq<Write>, waiting: seq<Write>, direct: seq<Write>, inOrder: bool) {
    && |written| + |waiting| == |direct| && direct[|written|..] == waiting
    && (written == direct[..|written|] <==> inOrder)
  }

  lemma WaitMore(written: seq<Write>, waiting: seq<Write>, more: seq<Write>, direct: seq<Write>, inOrder: bool)
    requires KeyUpTo(written, waiting, direct, inOrder)
    ensures KeyUpTo(written, waiting + more, direct + more, inOrder)
  {
    assert (direct + more)[..|written|] == direct[..|written|];
  }

  lemma WriteOut(written: seq<Write>, waiting: seq<Write>, flushed: seq<Write>, direct: seq<Write>,
                 before: bool, inOrder: bool)
    requires KeyUpTo(written, waiting, direct, before) && |flushed| == |waiting|
    requires flushed == waiting <==> inOrder
    ensures KeyUpTo(written + flushed, [], direct, before && inOrder)
  {
    SplitEqual(written, flushed, direct[..|written|], waiting);
    assert direct == direct[..|written|] + waiting;
    assert direct[..|direct|] == direct;
  }

  lemma GroupedStamped(entries: seq<Entry>, key: string, at: int)
    ensures var flushed, waiting := OfKey(Stamp(Grouped(entries), at), key), Stamp(EntriesOfKey(entries, key), at);
      |flushed| == |waiting| && (flushed == waiting <==> GroupOrder(entries, key))
  {
    OfKeyStamp(Grouped(entries), key, at);
    GroupedKeepsKeyIff(entries, key);
    StampInjective(EntriesOfKey(Grouped(entries), key), EntriesOfKey(entries, key), at);
  }

  lemma OneMoreBatch(batches: seq<Batch>, at: int, key: string)
    requires batches != [] && batches[|batches| - 1].at == at
    requires var before := batches[..|batches| - 1];
      KeyUpTo(OfKey(Written(before), key), Stamp(EntriesOfKey(Pending(before), key), at), OfKey(Direct(before), key),
              FlushesInOrder(before, key))
    ensures KeyUpTo(OfKey(Written(batches), key), Stamp(EntriesOfKey(Pending(batches), key), at),
                    OfKey(Direct(batches), key), FlushesInOrder(batches, key))
  {
    var before, b := batches[..|batches| - 1], batches[|batches| - 1];
    var queue := Pending(before) + Tagged(b);
    var written, waiting, direct := OfKey(Written(before), key), Stamp(EntriesOfKey(Pending(before), key), at),
                                    OfKey(Direct(before), key);
    var more := Stamp(EntriesOfKey(Tagged(b), key), at);
    KeyParts(Pending(before), Tagged(b), key, at);
    OfKeyAppend(Written(before), Flushed(Pending(before), b), key);
    OfKeyAppend(Direct(before), Stamp(Tagged(b), at), key);
    OfKeyStamp(Tagged(b), key, at);
    WaitMore(written, waiting, more, direct, FlushesInOrder(before, key));
    if |queue| >= LIMIT {
      GroupedStamped(queue, key, at);
      WriteOut(written, waiting + more, OfKey(Stamp(Grouped(queue), at), key), direct + more,
               FlushesInOrder(before, key), GroupOrder(queue, key));
      assert Stamp(EntriesOfKey([], key), at) == [];
    } else {
      assert OfKey([], key) == [] && written + [] == written;
    }
  }

  lemma {:induction false} WrittenOfKey(batches: seq<Batch>, at: int, key: string)
    requires OneClock(batches, at)
    ensures KeyUpTo(OfKey(Written(batches), key), Stamp(EntriesOfKey(Pending(batches), key), at),
                    OfKey(Direct(batches), key), FlushesInOrder(batches, key))
  {
    if batches == [] {
      assert OfKey([], key) == [] && Stamp(EntriesOfKey([], key), at) == [];
    } else {
      WrittenOfKey(batches[..|batches| - 1], at, key);
      OneMoreBatch(batches, at, key);
    }
  }

  /** Over any run of calls at one clock, the buffer writes the outcomes of a key in the order in
      which they came exactly when they stand in group order each time the queue is written. */
  lemma WriteOrderIff(batches: seq<Batch>, at: int, key: string)
    requires OneClock(batches, at)
    ensures OfKey(Buffered(batches, at), key) == OfKey(Direct(batches), key) <==> RunInOrder(batches, key)
  {
    var queue := Pending(batches);
    WrittenOfKey(batches, at, key);
    GroupedStamped(queue, key, at);
    OfKeyAppend(Written(batches), Stamp(Grouped(queue), at), key);
    var direct := OfKey(Direct(batches), key);
    WriteOut(OfKey(Written(batches), key), Stamp(EntriesOfKey(queue, key), at),
             OfKey(Stamp(Grouped(queue), at), key), direct, FlushesInOrder(batches, key), GroupOrder(queue, key));
    assert direct[..|direct|] == direct;
  }

  /** Then the buffer leaves the whole row as writing each outcome at once would have left it. */
  lemma BufferKeepsRow(rows: Table, batches: seq<Batch>, at: int, key: string, scoring: Scoring)
    requires OneClock(batches, at) && RunInOrder(batches, key)
    ensures Lookup(RecordAll(rows, Buffered(batches, at), scoring), key)
         == Lookup(RecordAll(rows, Direct(batches), scoring), key)
  {
    WriteOrderIff(batches, at, key);
    RowSeesOwnWrites(rows, Buffered(batches, at), key, scoring);
    RowSeesOwnWrites(rows, Direct(batches), key, scoring);
  }

  /** The outcomes of the key that wait together come from one kind of probe; another flush may
      hold another kind. */
  ghost predicate OneTypeEach(batches: seq<Batch>, key: string) {
    && (forall n | 0 <= n < |batches| :: OneTypeQueue(Pending(batches[..n]) + Tagged(batches[n]), key))
    && OneTypeQueue(Pending(batches), key)
  }

  ghost predicate OneTypeQueue(entries: seq<Entry>, key: string) { exists t :: OneType(entries, key, t) }

  lemma {:induction false} OneTypeFlushes(batches: seq<Batch>, key: string, n: nat)
    requires n <= |batches| && OneTypeEach(batches, key)
    ensures FlushesInOrder(batches[..n], key)
  {
    if n > 0 {
      OneTypeFlushes(batches, key, n - 1);
      var queue := Pending(batches[..n - 1]) + Tagged(batches[n - 1]);
      assert OneTypeQueue(queue, key);
      var t :| OneType(queue, key, t);
      OneTypeOrder(queue, key, t);
      assert batches[..n][..n - 1] == batches[..n - 1];
    }
  }

  /** So it does when the outcomes of the key that wait together share one probe type. */
  lemma OneTypeKeepsRow(rows: Table, batches: seq<Batch>, at: int, key: string, scoring: Scoring)
    requires OneClock(batches, at) && OneTypeEach(batches, key)
    ensures Lookup(RecordAll(rows, Buffered(batches, at), scoring), key)
         == Lookup(RecordAll(rows, Direct(batches), scoring), key)
  {
    OneTypeFlushes(batches, key, |batches|);
    assert batches[..|batches|] == batches;
    var t :| OneType(Pending(batches), key, t);
    OneTypeOrder(Pending(batches), key, t);
    BufferKeepsRow(rows, batches, at, key, scoring);
  }

  // Mixed kinds of probes of one key can be reordered: the TCP failure below came before the
  // second success, and the flush writes it after.

  const WON := Outcome("k", true, Some(0.1), None, Some("id"))
  const LOST := Outcome("k", false, None, Some("refused"), Some("id"))
  const MIXED := [Batch([WON], "xray", 0), Batch([LOST], "tcp", 0), Batch([WON], "xray", 0)]

  lemma OneMoreCall(batches: seq<Batch>, b: Batch)
    ensures AllEntries(batches + [b]) == AllEntries(batches) + Tagged(b)
    ensures Pending(batches + [b]) == Kept(Pending(batches), b)
    ensures Written(batches + [b]) == Written(batches) + Flushed(Pending(batches), b)
  {
    assert (batches + [b])[..|batches|] == batches;
  }

  lemma OneMoreQueued(batches: seq<Batch>, o: Outcome, t: string)
    requires Pending(batches) == AllEntries(batches) && |Pending(batches)| < 10 && Written(batches) == []
    ensures var more := batches + [Batch([o], t, 0)];
      && Pending(more) == AllEntries(more) == AllEntries(batches) + [Entry(o, t)] && Written(more) == []
  {
    OneMoreCall(batches, Batch([o], t, 0));
    assert Tagged(Batch([o], t, 0)) == [Entry(o, t)];
  }

  lemma MixedPending()
    ensures AllEntries(MIXED) == Pending(MIXED) == [Entry(WON, "xray"), Entry(LOST, "tcp"), Entry(WON, "xray")]
    ensures Written(MIXED) == []
  {
    var none: seq<Batch> := [];
    OneMoreQueued(none, WON, "xray");
    var one := none + [Batch([WON], "xray", 0)];
    OneMoreQueued(one, LOST, "tcp");
    var two := one + [Batch([LOST], "tcp", 0)];
    OneMoreQueued(two, WON, "xray");
    assert MIXED == two + [Batch([WON], "xray", 0)];
  }

  function If(e: Entry, t: string): seq<Entry> { if e.probeType == t then [e] else [] }

  lemma OfTypeOfThree(a: Entry, b: Entry, c: Entry, t: string)
    ensures OfType([a, b, c], t) == If(a, t) + If(b, t) + If(c, t)
  {
    assert [a, b, c][..2] == [a, b] && [a, b][..1] == [a] && [a][..0] == [];
    assert OfType([a], t) == If(a, t);
    assert OfType([a, b], t) == If(a, t) + If(b, t);
  }

  lemma TypesOfThree(a: Entry, b: Entry, c: Entry)
    requires a.probeType != b.probeType && c.probeType == a.probeType
    ensures Types([a, b, c]) == [a.probeType, b.probeType]
  {
    var e := [a, b, c];
    TypesStep(e, 0);
    TypesStep(e, 1);
    TypesStep(e, 2);
    assert e[..3] == e && Types(e[..0]) == [];
  }

  lemma GroupsOfThree(a: Entry, b: Entry, c: Entry)
    requires a.probeType != b.probeType && c.probeType == a.probeType
    ensures Grouped([a, b, c]) == [a, c, b]
  {
    var t, u := a.probeType, b.probeType;
    TypesOfThree(a, b, c);
    OfTypeOfThree(a, b, c, t);
    OfTypeOfThree(a, b, c, u);
    assert [t, u][..1] == [t] && [t][..0] == [];
    assert InGroups([a, b, c], [t]) == [a, c];
  }

  lemma OneWrite(row: Option<Row>, a: Write, scoring: Scoring)
    ensures RowAfter(row, [a], scoring) == RecordRow(row, a, scoring)
  {
    assert [a][..0] == [];
  }

  lemma ThreeWrites(row: Option<Row>, a: Write, b: Write, c: Write, scoring: Scoring)
    ensures RowAfter(row, [a, b, c], scoring)
         == RecordRow(RecordRow(RecordRow(row, a, scoring), b, scoring), c, scoring)
  {
    OneWrite(row, a, scoring);
    RowAfterStep(row, [a], b, scoring);
    RowAfterStep(row, [a] + [b], c, scoring);
    assert [a] + [b] + [c] == [a, b, c];
  }

  lemma AfterWon(row: Option<Row>, w: Write, scoring: Scoring)
    requires Won(w.entry.outcome) && Milliseconds(w.entry.outcome.latency.value) <= 2000.0
    requires row.Some? || w.entry.outcome.identity.Some?
    ensures var r := RecordRow(row, w, scoring); r.Some? && r.value.state == Healthy && r.value.snap.failStreak == 0
  {
  }

  lemma AfterLost(row: Row, w: Write, scoring: Scoring)
    requires !Won(w.entry.outcome) && row.snap.failStreak < 2
    ensures var r := RecordRow(Some(row), w, scoring); r.Some? && r.value.state == Degraded
  {
  }

  lemma LostBetween(won: Write, lost: Write, scoring: Scoring)
    requires Won(won.entry.outcome) && Milliseconds(won.entry.outcome.latency.value) <= 2000.0
    requires won.entry.outcome.identity.Some? && !Won(lost.entry.outcome)
    ensures var r := RowAfter(None, [won, lost, won], scoring); r.Some? && r.value.state == Healthy
  {
    var first := RecordRow(None, won, scoring);
    ThreeWrites(None, won, lost, won, scoring);
    AfterWon(RecordRow(first, lost, scoring), won, scoring);
  }

  lemma LostLast(won: Write, lost: Write, scoring: Scoring)
    requires Won(won.entry.outcome) && Milliseconds(won.entry.outcome.latency.value) <= 2000.0
    requires won.entry.outcome.identity.Some? && !Won(lost.entry.outcome)
    ensures var r := RowAfter(None, [won, won, lost], scoring); r.Some? && r.value.state == Degraded
  {
    var first := RecordRow(None, won, scoring);
    ThreeWrites(None, won, won, lost, scoring);
    AfterWon(None, won, scoring);
    AfterWon(first, won, scoring);
    AfterLost(RecordRow(first, won, scoring).value, lost, scoring);
  }

  lemma StampThree(a: Entry, b: Entry, c: Entry, at: int)
    ensures Stamp([a, b, c], at) == [Write(a, None, at), Write(b, None, at), Write(c, None, at)]
  {
  }

  lemma MixedWrites(won: Write, lost: Write)
    requires won == Write(Entry(WON, "xray"), None, 0) && lost == Write(Entry(LOST, "tcp"), None, 0)
    ensures Stamp(AllEntries(MIXED), 0) == [won, lost, won] && Buffered(MIXED, 0) == [won, won, lost]
  {
    MixedPending();
    GroupsOfThree(won.entry, lost.entry, won.entry);
    StampThree(won.entry, lost.entry, won.entry, 0);
    StampThree(won.entry, won.entry, lost.entry, 0);
  }

  /** Out of group order a whole row can come out different, even its
      state: healthy when written at once, degraded through the buffer. */
  lemma MixedTypesReorder(scoring: Scoring)
    ensures var direct := RowAfter(None, Stamp(AllEntries(MIXED), 0), scoring);
            var buffered := RowAfter(None, Buffered(MIXED, 0), scoring);
      && direct.Some? && direct.value.state == Healthy
      && buffered.Some? && buffered.value.state == Degraded
  {
    var won, lost := Write(Entry(WON, "xray"), None, 0), Write(Entry(LOST, "tcp"), None, 0);
    MixedWrites(won, lost);
    LostBetween(won, lost, scoring);
    LostLast(won, lost, scoring);
  }

  // ---- one flush ----------------------------------------------------------------------------

  function FlushTypes(t: Store, entries: seq<Entry>, types: seq<string>, at: int, scoring: Scoring): Store {
    if types == [] then t
    else
      var n := |types| - 1;
      RecordBatch(FlushTypes(t, entries, types[..n], at, scoring), Stamp(OfType(entries, types[n]), at), at, scoring)
  }

  /** `_flush_v2ray_pending_locked`: one recorded batch per probe type. */
  function Flush(t: Store, entries: seq<Entry>, at: int, scoring: Scoring): Store {
    FlushTypes(t, entries, Types(entries), at, scoring)
  }

  lemma {:induction false} FlushTypesRows(t: Store, entries: seq<Entry>, types: seq<string>, at: int, scoring: Scoring)
    ensures FlushTypes(t, entries, types, at, scoring).rows
         == RecordAll(t.rows, Stamp(InGroups(entries, types), at), scoring)
  {
    if types != [] {
      var n := |types| - 1;
      FlushTypesRows(t, entries, types[..n], at, scoring);
      var before, last := InGroups(entries, types[..n]), OfType(entries, types[n]);
      StampAppend(before, last, at);
      RecordAllAppend(t.rows, Stamp(before, at), Stamp(last, at), scoring);
    }
  }

  lemma HistoriesAppend(a: seq<Write>, b: seq<Write>)
    ensures Histories(a + b) == Histories(a) + Histories(b)
  {
  }

  lemma LandedRecent(rows: Table, entries: seq<Entry>, at: int, scoring: Scoring)
    ensures var h := Histories(Landed(rows, Stamp(entries, at), scoring)); Recent(h, at) == h
  {
    var landed := Landed(rows, Stamp(entries, at), scoring);
    LandedAt(rows, Stamp(entries, at), scoring, at);
    forall i | 0 <= i < |landed| ensures Histories(landed)[i].at == at {
      assert landed[i] in landed;
    }
    AllRecent(Histories(landed), at);
  }

  /** The history rows the first groups of a flush add. */
  function GroupHistory(t: Store, entries: seq<Entry>, types: seq<string>, at: int, scoring: Scoring): seq<HistoryRow> {
    Histories(Landed(t.rows, Stamp(InGroups(entries, types), at), scoring))
  }

  lemma GroupHistoryStep(t: Store, entries: seq<Entry>, types: seq<string>, at: int, scoring: Scoring)
    requires types != []
    ensures var n := |types| - 1;
      GroupHistory(t, entries, types, at, scoring)
        == GroupHistory(t, entries, types[..n], at, scoring)
           + Histories(Landed(FlushTypes(t, entries, types[..n], at, scoring).rows,
                              Stamp(OfType(entries, types[n]), at), scoring))
  {
    var n := |types| - 1;
    var before, last := Stamp(InGroups(entries, types[..n]), at), Stamp(OfType(entries, types[n]), at);
    FlushTypesRows(t, entries, types[..n], at, scoring);
    StampAppend(InGroups(entries, types[..n]), OfType(entries, types[n]), at);
    LandedAppend(t.rows, before, last, scoring);
    HistoriesAppend(Landed(t.rows, before, scoring), Landed(RecordAll(t.rows, before, scoring), last, scoring));
  }

  lemma RecentJoin(r: seq<HistoryRow>, a: seq<HistoryRow>, b: seq<HistoryRow>, at: int)
    requires Recent(r, at) == r && Recent(a, at) == a && Recent(b, at) == b
    ensures Recent((r + a) + b, at) == (r + a) + b
  {
    RecentAppend(r + a, b, at);
    RecentAppend(r, a, at);
  }

  lemma Assoc(r: seq<HistoryRow>, a: seq<HistoryRow>, b: seq<HistoryRow>)
    ensures (r + a) + b == r + (a + b)
  {
  }

  /** One group more. */
  lemma FlushOneMore(t: Store, entries: seq<Entry>, types: seq<string>, at: int, scoring: Scoring)
    requires types != []
    ensures var mid := FlushTypes(t, entries, types[..|types| - 1], at, scoring);
            var b := Histories(Landed(mid.rows, Stamp(OfType(entries, types[|types| - 1]), at), scoring));
      && FlushTypes(t, entries, types, at, scoring).history == Recent(mid.history + b, at)
      && Recent(b, at) == b
  {
    var mid := FlushTypes(t, entries, types[..|types| - 1], at, scoring);
    LandedRecent(mid.rows, OfType(entries, types[|types| - 1]), at, scoring);
  }

  /** The history after one more group, from the history before it. */
  lemma JoinHistory(history: seq<HistoryRow>, mid: seq<HistoryRow>, a: seq<HistoryRow>, b: seq<HistoryRow>, at: int)
    requires Recent(a, at) == a && Recent(b, at) == b
    requires mid == Recent(history, at) + a || (mid == history && a == [])
    ensures Recent(mid + b, at) == Recent(history, at) + (a + b)
  {
    if mid == history && a == [] {
      RecentAppend(history, b, at);
      assert a + b == b;
    } else {
      RecentTwice(history, at);
      RecentJoin(Recent(history, at), a, b, at);
      Assoc(Recent(history, at), a, b);
    }
  }

  lemma {:induction false} FlushTypesHistory(t: Store, entries: seq<Entry>, types: seq<string>, at: int, scoring: Scoring)
    requires types != []
    ensures FlushTypes(t, entries, types, at, scoring).history
         == Recent(t.history, at) + GroupHistory(t, entries, types, at, scoring)
  {
    var n := |types| - 1;
    var mid := FlushTypes(t, entries, types[..n], at, scoring);
    var a := GroupHistory(t, entries, types[..n], at, scoring);
    var b := Histories(Landed(mid.rows, Stamp(OfType(entries, types[n]), at), scoring));
    if n > 0 {
      FlushTypesHistory(t, entries, types[..n], at, scoring);
    } else {
      assert types[..n] == [] && a == [];
    }
    LandedRecent(t.rows, InGroups(entries, types[..n]), at, scoring);
    FlushOneMore(t, entries, types, at, scoring);
    JoinHistory(t.history, mid.history, a, b, at);
    GroupHistoryStep(t, entries, types, at, scoring);
  }

  lemma HistoriesRemove(b: seq<Entry>, j: nat, at: int)
    requires j < |b|
    ensures multiset(Histories(Stamp(b, at)))
         == multiset(Histories(Stamp(b[..j] + b[j + 1..], at))) + multiset{HistoryOf(Write(b[j], None, at))}
  {
    var row, front, back := HistoryOf(Write(b[j], None, at)), b[..j], b[j + 1..];
    assert Histories(Stamp(b, at)) == Histories(Stamp(front, at)) + [row] + Histories(Stamp(back, at));
    assert Histories(Stamp(front + back, at)) == Histories(Stamp(front, at)) + Histories(Stamp(back, at));
  }

  lemma {:induction false} HistoriesPermute(a: seq<Entry>, b: seq<Entry>, at: int)
    requires multiset(a) == multiset(b)
    ensures multiset(Histories(Stamp(a, at))) == multiset(Histories(Stamp(b, at)))
    decreases |a|
  {
    if a == [] {
      NoneLeft(b);
    } else {
      var n := |a| - 1;
      var j := TakeOut(a, b);
      HistoriesPermute(a[..n], b[..j] + b[j + 1..], at);
      HistoriesRemove(a, n, at);
      assert a[..n] + a[n + 1..] == a[..n];
      HistoriesRemove(b, j, at);
    }
  }

  lemma AllKnownPermutes(rows: Table, a: seq<Entry>, b: seq<Entry>)
    requires multiset(a) == multiset(b) && AllKnown(rows, a)
    ensures AllKnown(rows, b)
  {
    forall i | 0 <= i < |b| ensures b[i].outcome.key in rows || b[i].outcome.identity.Some? {
      assert b[i] in multiset(a);
    }
  }

  /** A flush adds one history row per queued outcome, whatever the grouping, and drops only what
      is older than thirty days. */
  lemma FlushKeepsHistory(t: Store, entries: seq<Entry>, at: int, scoring: Scoring)
    requires entries != [] && AllKnown(t.rows, entries)
    ensures multiset(Flush(t, entries, at, scoring).history)
         == multiset(Recent(t.history, at)) + multiset(Histories(Stamp(entries, at)))
  {
    TypeIsListed(entries, entries[0]);
    FlushTypesHistory(t, entries, Types(entries), at, scoring);
    GroupedPermutes(entries);
    EntriesOfStamp(Grouped(entries), at);
    AllKnownPermutes(t.rows, entries, Grouped(entries));
    AllLand(t.rows, Stamp(Grouped(entries), at), scoring);
    HistoriesPermute(Grouped(entries), entries, at);
  }

  // ---- the writer ---------------------------------------------------------------------------

  function Writes(outcomes: seq<Outcome>, probeType: string, tcpFlag: Option<bool>, at: int): (r: seq<Write>)
    ensures |r| == |outcomes|
  {
    seq(|outcomes|, i requires 0 <= i < |outcomes| => Write(Entry(outcomes[i], probeType), tcpFlag, at))
  }

  function Outcomes(entries: seq<Entry>): (r: seq<Outcome>)
    ensures |r| == |entries|
  {
    seq(|entries|, i requires 0 <= i < |entries| => entries[i].outcome)
  }

  lemma GroupWrites(entries: seq<Entry>, t: string, at: int)
    ensures Writes(Outcomes(OfType(entries, t)), t, None, at) == Stamp(OfType(entries, t), at)
  {
    var group := OfType(entries, t);
    OfTypeHasType(entries, t);
    forall i | 0 <= i < |group| ensures Entry(group[i].outcome, t) == group[i] {
      assert group[i] in group;
    }
  }

  /** Rows and history after some writes, before the clean-up. */
  function Recorded(t: Store, writes: seq<Write>, scoring: Scoring): Store {
    Store(RecordAll(t.rows, writes, scoring), t.history + Histories(Landed(t.rows, writes, scoring)))
  }

  lemma RecordedStep(t: Store, writes: seq<Write>, i: nat, scoring: Scoring)
    requires i < |writes|
    ensures var before, w := Recorded(t, writes[..i], scoring), writes[i];
            var row := RecordRow(Lookup(before.rows, w.entry.outcome.key), w, scoring);
      Recorded(t, writes[..i + 1], scoring)
        == if row.Some? then Store(before.rows[w.entry.outcome.key := row.value], before.history + [HistoryOf(w)])
           else before
  {
    assert writes[..i + 1][..i] == writes[..i];
    HistoriesAppend(Landed(t.rows, writes[..i], scoring), [writes[i]]);
  }

  class CatalogWriter {
    const scoring: Scoring
    var rows: Table
    var history: seq<HistoryRow>
    var pending: seq<Entry>

    constructor (rows: Table, history: seq<HistoryRow>, scoring: Scoring)
      ensures this.scoring == scoring && Stored() == Store(rows, history) && pending == [] && Valid()
    {
      this.scoring, this.rows, this.history, pending := scoring, rows, history, [];
    }

    ghost function Stored(): Store
      reads this
    {
      Store(rows, history)
    }

    ghost predicate Valid()
      reads this
    {
      |pending| < LIMIT
    }

    /** `_v2ray_record_results_locked`. */
    method RecordLocked(outcomes: seq<Outcome>, probeType: string, tcpFlag: Option<bool>, at: int)
      modifies this`rows, this`history
      ensures Stored() == RecordBatch(old(Stored()), Writes(outcomes, probeType, tcpFlag, at), at, scoring)
    {
      ghost var writes := Writes(outcomes, probeType, tcpFlag, at);
      for i := 0 to |outcomes|
        invariant Stored() == Recorded(old(Stored()), writes[..i], scoring)
      {
        var w := Write(Entry(outcomes[i], probeType), tcpFlag, at);
        RecordedStep(old(Stored()), writes, i, scoring);
        var row := RecordRow(Lookup(rows, outcomes[i].key), w, scoring);
        if row.Some? {
          rows := rows[outcomes[i].key := row.value];
          history := history + [HistoryOf(w)];
        }
      }
      assert writes[..|outcomes|] == writes;
      DropOldHistory(at);
    }

    method DropOldHistory(at: int)
      modifies this`history
      ensures history == Recent(old(history), at)
    {
      var kept := [];
      for i := 0 to |history|
        invariant kept == Recent(history[..i], at)
      {
        assert history[..i + 1][..i] == history[..i];
        if history[i].at >= at - KEPT_SECONDS { kept := kept + [history[i]]; }
      }
      assert history[..|history|] == history;
      history := kept;
    }

    /** `_flush_v2ray_pending_locked`. */
    method FlushPending(at: int)
      modifies this`rows, this`history, this`pending
      ensures pending == []
      ensures Stored() == Flush(old(Stored()), old(pending), at, scoring)
      ensures rows == RecordAll(old(rows), Stamp(Grouped(old(pending)), at), scoring)
    {
      FlushTypesRows(Stored(), pending, Types(pending), at, scoring);
      if pending == [] {
        assert Types(pending) == [];
        return;
      }
      var types, grouped := Group();
      ghost var entries := pending;
      pending := [];
      RecordGroups(types, grouped, entries, at);
    }

    method RecordGroups(types: seq<string>, grouped: map<string, seq<Outcome>>, ghost entries: seq<Entry>, at: int)
      requires forall t | t in types :: t in grouped && grouped[t] == Outcomes(OfType(entries, t))
      modifies this`rows, this`history
      ensures Stored() == FlushTypes(old(Stored()), entries, types, at, scoring)
    {
      for i := 0 to |types|
        invariant Stored() == FlushTypes(old(Stored()), entries, types[..i], at, scoring)
      {
        assert types[..i + 1][..i] == types[..i] && types[i] in types;
        RecordLocked(grouped[types[i]], types[i], None, at);
        GroupWrites(entries, types[i], at);
      }
      assert types[..|types|] == types;
    }

    /** The queue by probe type, the types in order of first appearance. */
    method Group() returns (types: seq<string>, grouped: map<string, seq<Outcome>>)
      ensures types == Types(pending)
      ensures forall t | t in types :: t in grouped && grouped[t] == Outcomes(OfType(pending, t))
    {
      types, grouped := [], map[];
      for i := 0 to |pending|
        invariant types == Types(pending[..i])
        invariant forall t :: t in types <==> t in grouped
        invariant forall t | t in grouped :: grouped[t] == Outcomes(OfType(pending[..i], t))
      {
        var e := pending[i];
        TypesStep(pending, i);
        forall t ensures Outcomes(OfType(pending[..i + 1], t))
                      == Outcomes(OfType(pending[..i], t)) + if e.probeType == t then [e.outcome] else []
        {
          OfTypeStep(pending, i, t);
        }
        if e.probeType !in grouped {
          UnlistedType(pending[..i], e.probeType);
          types := types + [e.probeType];
          grouped := grouped[e.probeType := []];
        }
        grouped := grouped[e.probeType := grouped[e.probeType] + [e.outcome]];
      }
      assert pending[..|pending|] == pending;
    }

    /** `enqueue_v2ray_results`: the queue stays short, and what is written is what the queue
        model says. */
    method Enqueue(b: Batch)
      requires Valid()
      modifies this`rows, this`history, this`pending
      ensures Valid()
      ensures pending == Kept(old(pending), b)
      ensures rows == RecordAll(old(rows), Flushed(old(pending), b), scoring)
      ensures |old(pending) + Tagged(b)| < LIMIT ==> history == old(history)
      ensures |old(pending) + Tagged(b)| >= LIMIT ==>
        Stored() == Flush(old(Stored()), old(pending) + Tagged(b), b.at, scoring)
    {
      if |b.outcomes| == 0 { return; }
      pending := pending + Tagged(b);
      if |pending| >= LIMIT {
        FlushPending(b.at);
      }
    }
  }

  lemma TypesStep(entries: seq<Entry>, i: nat)
    requires i < |entries|
    ensures var r, t := Types(entries[..i]), entries[i].probeType;
      Types(entries[..i + 1]) == if t in r then r else r + [t]
  {
    assert TypesOf(entries[..i + 1])[..i] == TypesOf(entries[..i]);
  }

  lemma OfTypeStep(entries: seq<Entry>, i: nat, t: string)
    requires i < |entries|
    ensures Outcomes(OfType(entries[..i + 1], t))
         == Outcomes(OfType(entries[..i], t)) + if entries[i].probeType == t then [entries[i].outcome] else []
  {
    assert entries[..i + 1][..i] == entries[..i];
  }

  lemma UnlistedType(entries: seq<Entry>, t: string)
    requires t !in Types(entries)
    ensures OfType(entries, t) == []
  {
    forall e | e in entries ensures e.probeType != t { TypeIsListed(entries, e); }
    NoneOfType(entries, t);
  }
}
