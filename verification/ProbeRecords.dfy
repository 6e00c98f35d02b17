/** What a run of probe results leaves in the row of a server that was tested once, whatever the
    flushes, the pruning and the cap do in between (v2ray/store.py over db.py). */
module ProbeRecords {
  import opened Wrappers
  import opened Ordering
  import opened Spreading
  import opened Health
  import opened Catalog
  import opened Inventory
  import opened ProbeWaves

  type Result = ProbeWaves.Result

  /** The results for the key that are not set aside. */
  function Own(rs: seq<Result>, key: string): seq<Result> {
    if rs == [] then []
    else
      var last := rs[|rs| - 1];
      Own(rs[..|rs| - 1], key) + if last.key == key && !Dropped(last) then [last] else []
  }

  lemma {:induction false} OwnAppend(a: seq<Result>, b: seq<Result>, key: string)
    ensures Own(a + b, key) == Own(a, key) + Own(b, key)
  {
    if b == [] {
      assert a + b == a;
    } else {
      var n := |b| - 1;
      OwnAppend(a, b[..n], key);
      assert (a + b)[..|a + b| - 1] == a + b[..n];
    }
  }

  /** `b` is row `a` after the result: working exactly when it has a latency. */
  predicate FiledAs(a: Catalog.Row, b: Catalog.Row, r: Result, scoring: Scoring, now: int) {
    var won := r.latency.Some?;
    && b.identity == a.identity
    && b.snap == (if won then ApplySuccess(a.snap, r.latency.value, scoring, now)
                  else ApplyFailure(a.snap, if r.error == Some("") then None else r.error, scoring, now))
    && (b.state.Healthy? <==> won && r.latency.value <= 2.0)
    && (b.state.Dead? <==> !won && a.snap.failStreak >= 2)
    && (b.failed <==> b.state.Dead?)
    && b.tcp == Some(r.probeType != "tcp" || won)
    && (b.verified <==> a.verified || (won && r.probeType != "tcp"))
    && b.lastOkAt == (if won then Some(now) else a.lastOkAt)
    && b.lastFailAt == (if won then a.lastFailAt else Some(now))
    && b.lastSeenAt == Some(now)
  }

  /** The row of the key is as it was without a result of its own. With one it is the row after that
      result; a row that is new, or that was deleted in between, starts afresh. */
  predicate FiledOnce(a: Rows, b: Rows, own: seq<Result>, key: string, w: World) {
    key in b ==>
      && (own == [] ==> key in a && b[key] == a[key])
      && (|own| == 1 ==>
            || (key in a && FiledAs(a[key], b[key], own[0], w.scoring, w.now))
            || FiledAs(NewRow(own[0].identity), b[key], own[0], w.scoring, w.now))
  }

  /** Two stretches of results after each other. */
  lemma FiledChain(a: Rows, b: Rows, c: Rows, before: seq<Result>, after: seq<Result>, key: string, w: World)
    requires FiledOnce(a, b, before, key, w) && FiledOnce(b, c, after, key, w)
    ensures FiledOnce(a, c, before + after, key, w)
  {
    if |before| == 0 {
      assert before + after == after;
    } else if |after| == 0 {
      assert before + after == before;
    }
  }

  lemma DeletedFiled(a: Rows, gone: set<string>, key: string, w: World)
    ensures FiledOnce(a, a - gone, [], key, w)
  {
  }

  lemma WriteFiled(t: Rows, r: Result, key: string, w: World)
    ensures FiledOnce(t, Record(t, WriteOf(r, w.now), w.scoring), if r.key == key then [r] else [], key, w)
  {
    if r.key == key {
      UpdatedMeans(if key in t then t[key] else NewRow(r.identity), WriteOf(r, w.now), w.scoring);
    }
  }

  // ---- one flush -------------------------------------------------------------------------------

  function OfType(rs: seq<Result>, probeType: string): seq<Result> {
    if rs == [] then []
    else
      var last := rs[|rs| - 1];
      OfType(rs[..|rs| - 1], probeType) + if last.probeType == probeType then [last] else []
  }

  lemma {:induction false} TypeFiled(t: Rows, rs: seq<Result>, probeType: string, key: string, w: World)
    requires forall r | r in rs :: !Dropped(r)
    ensures FiledOnce(t, RecordType(t, rs, probeType, w), Own(OfType(rs, probeType), key), key, w)
  {
    if rs != [] {
      var before, r := rs[..|rs| - 1], rs[|rs| - 1];
      assert rs == before + [r];
      TypeFiled(t, before, probeType, key, w);
      if r.probeType == probeType {
        var b := RecordType(t, before, probeType, w);
        WriteFiled(b, r, key, w);
        OwnOne(r, key);
        OwnAppend(OfType(before, probeType), [r], key);
        FiledChain(t, b, RecordType(t, rs, probeType, w), Own(OfType(before, probeType), key), Own([r], key), key, w);
      } else {
        assert OfType(rs, probeType) == OfType(before, probeType);
      }
    }
  }

  lemma OwnOne(r: Result, key: string)
    ensures Own([r], key) == if r.key == key && !Dropped(r) then [r] else []
  {
    assert [r][..0] == [];
  }

  /** The results of a flush in the order in which they are recorded. */
  function ByTypes(rs: seq<Result>, types: seq<string>): seq<Result> {
    if types == [] then [] else ByTypes(rs, types[..|types| - 1]) + OfType(rs, types[|types| - 1])
  }

  lemma {:induction false} TypesFiled(t: Rows, rs: seq<Result>, types: seq<string>, key: string, w: World)
    requires forall r | r in rs :: !Dropped(r)
    ensures FiledOnce(t, RecordTypes(t, rs, types, w), Own(ByTypes(rs, types), key), key, w)
  {
    if types != [] {
      var before, last := types[..|types| - 1], types[|types| - 1];
      var b := RecordTypes(t, rs, before, w);
      TypesFiled(t, rs, before, key, w);
      TypeFiled(b, rs, last, key, w);
      OwnAppend(ByTypes(rs, before), OfType(rs, last), key);
      FiledChain(t, b, RecordTypes(t, rs, types, w), Own(ByTypes(rs, before), key), Own(OfType(rs, last), key), key, w);
    }
  }

  lemma {:induction false} TypeCounts(rs: seq<Result>, probeType: string, r: Result)
    ensures multiset(OfType(rs, probeType))[r] == if r.probeType == probeType then multiset(rs)[r] else 0
  {
    if rs != [] {
      TypeCounts(rs[..|rs| - 1], probeType, r);
      assert rs == rs[..|rs| - 1] + [rs[|rs| - 1]];
    }
  }

  lemma {:induction false} TypesCount(rs: seq<Result>, types: seq<string>, r: Result)
    requires Distinct(types)
    ensures multiset(ByTypes(rs, types))[r] == if r.probeType in types then multiset(rs)[r] else 0
  {
    if types != [] {
      var before, last := types[..|types| - 1], types[|types| - 1];
      TypesCount(rs, before, r);
      TypeCounts(rs, last, r);
      assert types == before + [last];
      assert last !in before;
    }
  }

  lemma {:induction false} OwnCounts(rs: seq<Result>, key: string, r: Result)
    ensures multiset(Own(rs, key))[r] == if r.key == key && !Dropped(r) then multiset(rs)[r] else 0
  {
    if rs != [] {
      OwnCounts(rs[..|rs| - 1], key, r);
      assert rs == rs[..|rs| - 1] + [rs[|rs| - 1]];
    }
  }

  lemma {:induction false} CountedCounts(rs: seq<Result>, r: Result)
    ensures multiset(Counted(rs))[r] == if Dropped(r) then 0 else multiset(rs)[r]
  {
    if rs != [] {
      CountedCounts(rs[..|rs| - 1], r);
      assert rs == rs[..|rs| - 1] + [rs[|rs| - 1]];
    }
  }

  /** Setting aside and grouping keep the results of the key, though not their order. */
  lemma GroupedOwn(rs: seq<Result>, key: string)
    ensures var counted := Counted(rs);
      multiset(Own(ByTypes(counted, FirstSeen(ResultTypes(counted), {})), key)) == multiset(Own(rs, key))
  {
    var counted := Counted(rs);
    var types := FirstSeen(ResultTypes(counted), {});
    FirstSeenDistinct(ResultTypes(counted), {});
    var grouped := ByTypes(counted, types);
    forall r ensures multiset(Own(grouped, key))[r] == multiset(Own(rs, key))[r] {
      OwnCounts(grouped, key, r);
      OwnCounts(rs, key, r);
      TypesCount(counted, types, r);
      CountedCounts(rs, r);
      if r in counted {
        var i :| 0 <= i < |counted| && counted[i] == r;
        FirstSeenMembers(ResultTypes(counted), {}, r.probeType);
        assert ResultTypes(counted)[i] == r.probeType;
      }
    }
  }

  lemma SameFiled(a: Rows, b: Rows, own: seq<Result>, same: seq<Result>, key: string, w: World)
    requires FiledOnce(a, b, own, key, w) && multiset(own) == multiset(same)
    ensures FiledOnce(a, b, same, key, w)
  {
    assert |own| == |multiset(own)| == |multiset(same)| == |same|;
    if |own| == 1 {
      assert same[0] in multiset(same);
    }
  }

  lemma AppliedFiled(t: Rows, rs: seq<Result>, key: string, w: World)
    ensures FiledOnce(t, Applied(t, rs, w), Own(rs, key), key, w)
  {
    var counted := Counted(rs);
    var types := FirstSeen(ResultTypes(counted), {});
    var recorded := RecordTypes(t, counted, types, w);
    var pruned := Prune(recorded, w.prune, w.now, w.incompatible);
    CountedKeys(rs);
    TypesFiled(t, counted, types, key, w);
    GroupedOwn(rs, key);
    SameFiled(t, recorded, Own(ByTypes(counted, types), key), Own(rs, key), key, w);
    assert FiledOnce(recorded, Applied(t, rs, w), [], key, w) by {
      if w.prune.Some? {
        DeletedFiled(recorded, (set k | k in recorded && Prunable(recorded[k], w.prune.value, w.now, w.incompatible)), key, w);
      }
      DeletedFiled(pruned, DeadFirst(pruned, Overflow(pruned, w.catalogMax)), key, w);
    }
    FiledChain(t, recorded, Applied(t, rs, w), Own(rs, key), [], key, w);
    assert Own(rs, key) + [] == Own(rs, key);
  }

  // ---- the feed --------------------------------------------------------------------------------

  lemma FlushFiled(t: Rows, done: seq<Result>, f: Feed, pending: seq<Result>, key: string, w: World)
    requires FiledOnce(t, f.rows, Own(done, key), key, w)
    ensures FiledOnce(t, Applied(f.rows, pending, w), Own(done + pending, key), key, w)
  {
    AppliedFiled(f.rows, pending, key, w);
    OwnAppend(done, pending, key);
    FiledChain(t, f.rows, Applied(f.rows, pending, w), Own(done, key), Own(pending, key), key, w);
  }

  lemma {:induction false} FedFiled(t: Rows, rs: seq<Result>, key: string, w: World)
    returns (done: seq<Result>)
    ensures rs == done + Fed(t, rs, w).pending && FiledOnce(t, Fed(t, rs, w).rows, Own(done, key), key, w)
  {
    done := [];
    if rs != [] {
      var before, r := rs[..|rs| - 1], rs[|rs| - 1];
      var f := Fed(t, before, w);
      done := FedFiled(t, before, key, w);
      assert rs == before + [r] && rs == done + (f.pending + [r]);
      if |f.pending| + 1 >= FLUSH {
        FlushFiled(t, done, f, f.pending + [r], key, w);
        done := rs;
      }
    }
  }

  /** After the last flush the row of a server with one result is the row after that result, the row of
      a server without one is untouched, and no flush boundary or grouping by probe type changes that. */
  lemma FlushedRow(t: Rows, rs: seq<Result>, key: string, w: World)
    ensures FiledOnce(t, Flushed(t, rs, w), Own(rs, key), key, w)
  {
    var f := Fed(t, rs, w);
    var done := FedFiled(t, rs, key, w);
    if f.pending == [] {
      assert done == rs;
    } else {
      FlushFiled(t, done, f, f.pending, key, w);
    }
  }
}
