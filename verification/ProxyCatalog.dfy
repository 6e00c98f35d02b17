/** The class `ProxyCatalog` with the statements of `CatalogDB` it runs, each against the function
    that specifies it.  */
module ProxyCatalogs {
  import opened Wrappers
  import opened Ordering
  import opened Catalog
  import Health
  import opened ProxySpec
  import opened ProxyStore
  import opened ProxyLaws

  /** What `apply_ping_results` passes on for one result. */
  function Normal(r: Outcome): Outcome {
    if Won(r) then r.(error := None) else r.(ok := false, latency := None)
  }

  function NormalAll(rs: seq<Outcome>): (r: seq<Outcome>)
    ensures |r| == |rs|
  {
    seq(|rs|, i requires 0 <= i < |rs| => Normal(rs[i]))
  }

  class ProxyCatalog {
    const config: Config
    var table: Proxies

    constructor (table: Proxies, config: Config)
      ensures this.config == config && this.table == Enforced(table, config)
      ensures Capped(this.table, config)
    {
      this.config, this.table := config, table;
      new;
      EnforceMaxWorking();
    }

    method NumberRows(keys: seq<string>)
      modifies this
      ensures table == Numbered(old(table), keys)
    {
      for i := 0 to |keys|
        invariant table == Numbered(old(table), keys[..i])
      {
        assert keys[..i + 1][..i] == keys[..i];
        table := Placed(table, keys[i], i);
      }
      assert keys[..|keys|] == keys;
    }

    /** `_mtproto_refresh_sort_orders`. */
    method RefreshSortOrders()
      modifies this
      ensures table == Refresh(old(table))
    {
      NumberedIsSame(table, WorkingList(table));
      SameFailed(table, Numbered(table, WorkingList(table)));
      NumberRows(WorkingList(table));
      NumberRows(FailedList(table));
    }

    method Demote(keys: seq<string>)
      modifies this
      ensures table == Demoted(old(table), keys)
    {
      for i := 0 to |keys|
        invariant table == Demoted(old(table), keys[..i])
      {
        assert keys[..i + 1][..i] == keys[..i];
        table := DemoteOne(table, keys[i]);
      }
      assert keys[..|keys|] == keys;
    }

    /** `mtproto_trim_working`. */
    method TrimToBest(max: int) returns (demoted: nat)
      modifies this
      ensures table == TrimWorking(old(table), max)
      ensures demoted == if 0 < max < |Working(old(table))| then |Working(old(table))| - max else 0
    {
      if max <= 0 { return 0; }
      var working := WorkingList(table);
      if |working| <= max { return 0; }
      Demote(working[max..]);
      RefreshSortOrders();
      demoted := |working| - max;
    }

    method EnforceMaxWorking()
      modifies this
      ensures table == Enforced(old(table), config)
      ensures Capped(table, config)
    {
      EnforcedIsCapped(table, config);
      if config.cap.Some? { var _ := TrimToBest(config.cap.value); }
    }

    method UpsertWorking(items: seq<Item>) returns (added: nat)
      modifies this
      ensures table == UpsertAll(old(table), items) && added == AddedCount(old(table), items)
    {
      added := 0;
      for i := 0 to |items|
        invariant table == UpsertAll(old(table), items[..i]) && added == AddedCount(old(table), items[..i])
      {
        assert items[..i + 1][..i] == items[..i];
        if IsNew(table, items[i]) {
          added := added + 1;
          table := Upserted(table, items[i]);
        }
      }
      assert items[..|items|] == items;
    }

    method RecordResults(outcomes: seq<Outcome>, at: int)
      modifies this
      ensures table == Refresh(RecordedAll(old(table), outcomes, at, config.scoring))
    {
      for i := 0 to |outcomes|
        invariant table == RecordedAll(old(table), outcomes[..i], at, config.scoring)
      {
        assert outcomes[..i + 1][..i] == outcomes[..i];
        table := Recorded(table, outcomes[i], at, config.scoring);
      }
      assert outcomes[..|outcomes|] == outcomes;
      RefreshSortOrders();
    }

    method FileRows(items: seq<Item>, working: bool)
      modifies this
      ensures table == FiledAll(old(table), items, working)
    {
      for i := 0 to |items|
        invariant table == FiledAll(old(table), items[..i], working)
      {
        assert items[..i + 1][..i] == items[..i];
        table := Filed(table, items[i], working, i);
      }
      assert items[..|items|] == items;
    }

    /** `mtproto_prune`. */
    method Prune(s: PruneSettings, now: int) returns (deleted: nat)
      modifies this
      ensures table == Pruned(old(table), s, now)
      ensures deleted == |old(table)| - |table|
    {
      var t := DropChronic(table, s);
      t := DropStale(t, s, now);
      t := DropExcess(t, s);
      PrunedKeys(table, s, now);
      deleted := |table| - |t|;
      table := t;
      if deleted > 0 { RefreshSortOrders(); }
    }

    /** `add`. */
    method Add(items: seq<Item>) returns (added: nat)
      requires Capped(table, config)
      modifies this
      ensures table == Next(old(table), Call.Add(items), config) && added == AddedCount(old(table), items)
      ensures Capped(table, config)
    {
      NextIsCapped(table, Call.Add(items), config);
      added := UpsertWorking(items);
      if added > 0 { EnforceMaxWorking(); }
    }

    static method Outcomes(results: seq<Outcome>) returns (outcomes: seq<Outcome>, won: nat, lost: nat)
      ensures outcomes == NormalAll(results)
      ensures won == WonCount(results) && won + lost == |results|
    {
      outcomes, won, lost := [], 0, 0;
      for i := 0 to |results|
        invariant outcomes == NormalAll(results)[..i]
        invariant won == WonCount(results[..i]) && won + lost == i
      {
        assert results[..i + 1][..i] == results[..i];
        if Won(results[i]) {
          outcomes := outcomes + [results[i].(error := None)];
          won := won + 1;
        } else {
          outcomes := outcomes + [results[i].(ok := false, latency := None)];
          lost := lost + 1;
        }
      }
      assert results[..|results|] == results;
    }

    /** `apply_ping_results`. */
    method ApplyPingResults(results: seq<Outcome>, at: int) returns (won: nat, lost: nat)
      requires Capped(table, config)
      modifies this
      ensures table == Next(old(table), Ping(NormalAll(results), at), config)
      ensures Capped(table, config)
      ensures won == WonCount(results) && won + lost == |results|
    {
      NextIsCapped(table, Ping(NormalAll(results), at), config);
      var outcomes;
      outcomes, won, lost := Outcomes(results);
      RecordResults(outcomes, at);
      EnforceMaxWorking();
      if config.prune.Some? && Enabled(config.prune.value) {
        var _ := Prune(config.prune.value, at);
      }
    }

    /** `reorganize`. */
    method ReorganizeRows(ok: seq<Item>, failed: seq<Item>)
      requires Capped(table, config)
      modifies this
      ensures table == Next(old(table), Reorganize(ok, failed), config)
      ensures Capped(table, config)
    {
      NextIsCapped(table, Reorganize(ok, failed), config);
      FileRows(ok, true);
      FileRows(failed, false);
      table := OnlySeen(table, KeysOf(ok) + KeysOf(failed));
      RefreshSortOrders();
      EnforceMaxWorking();
    }
  }

  lemma NormalLanding(known: bool, results: seq<Outcome>, key: string)
    ensures Landing(known, NormalAll(results), key) == NormalAll(Landing(known, results, key))
  {
    if results != [] {
      var before, o := results[..|results| - 1], results[|results| - 1];
      NormalLanding(known, before, key);
      assert NormalAll(results)[..|results| - 1] == NormalAll(before);
      assert NormalAll(Landing(known, before, key) + [o]) == NormalAll(Landing(known, before, key)) + [Normal(o)];
    }
  }

  lemma NormalAllSnoc(before: seq<Outcome>, o: Outcome)
    ensures NormalAll(before + [o]) == NormalAll(before) + [Normal(o)]
  {
  }

  lemma OneNormalProbe(snap: Health.Snapshot, before: seq<Outcome>, o: Outcome, at: int, scoring: Health.Scoring)
    requires AfterProbes(snap, OutcomeProbes(NormalAll(before), at), scoring)
          == AfterProbes(snap, OutcomeProbes(before, at), scoring)
    ensures AfterProbes(snap, OutcomeProbes(NormalAll(before) + [Normal(o)], at), scoring)
         == AfterProbes(snap, OutcomeProbes(before + [o], at), scoring)
  {
    OneMoreProbe(snap, before, o, at, scoring);
    OneMoreProbe(snap, NormalAll(before), Normal(o), at, scoring);
  }

  lemma {:induction false} NormalProbes(snap: Health.Snapshot, own: seq<Outcome>, at: int, scoring: Health.Scoring)
    ensures AfterProbes(snap, OutcomeProbes(NormalAll(own), at), scoring) == AfterProbes(snap, OutcomeProbes(own, at), scoring)
  {
    if own == [] {
      assert NormalAll(own) == own;
    } else {
      var before, o := own[..|own| - 1], own[|own| - 1];
      NormalProbes(snap, before, at, scoring);
      NormalAllSnoc(before, o);
      OneNormalProbe(snap, before, o, at, scoring);
      assert own == before + [o];
    }
  }

  lemma FromNormal(t: Proxies, r: Proxies, results: seq<Outcome>, at: int, scoring: Health.Scoring, key: string)
    requires PingsFiledAnew(t, r, NormalAll(results), at, scoring, key)
    ensures PingsFiledAnew(t, r, results, at, scoring, key)
  {
    var own := Landing(key in t, results, key);
    NormalLanding(key in t, results, key);
    NormalProbes(SnapIn(t, key), own, at, scoring);
    if own != [] {
      assert NormalAll(own)[|own| - 1] == Normal(own[|own| - 1]) && NormalAll(own)[0] == Normal(own[0]);
    }
  }

  /** What a batch of ping results does to a key, before cap and pruning, read off the results as they
      came: working exactly when the last of them is ok with a latency, with the health of all. */
  lemma ResultsFile(t: Proxies, results: seq<Outcome>, at: int, c: Config, key: string)
    ensures PingsFiledAnew(t, Next(t, Ping(NormalAll(results), at), Plain(c)), results, at, c.scoring, key)
  {
    PingFiles(t, NormalAll(results), at, c, key);
    FromNormal(t, Next(t, Ping(NormalAll(results), at), Plain(c)), results, at, c.scoring, key);
  }

  /** Pruning deletes rows and adds none. */
  lemma PrunedKeys(t: Proxies, s: PruneSettings, now: int)
    ensures var r := DropExcess(DropStale(DropChronic(t, s), s, now), s);
      && Pruned(t, s, now).Keys == r.Keys && r.Keys <= t.Keys && |r| <= |t|
      && |Pruned(t, s, now)| == |r| && (|r| < |t| <==> r.Keys != t.Keys)
  {
    var a := DropChronic(t, s);
    var b := DropStale(a, s, now);
    var r := DropExcess(b, s);
    assert a.Keys <= t.Keys && b.Keys <= a.Keys && r.Keys <= b.Keys;
    RefreshIsSame(r);
    SubsetCard(r.Keys, t.Keys);
    assert |r| == |r.Keys| && |t| == |t.Keys| && |Pruned(t, s, now)| == |Pruned(t, s, now).Keys|;
  }
}
