/** Recording probe outcomes in the V2Ray table (db.py). The table maps keys to rows; a write is
    one outcome together with the clock and the arguments it is recorded with.  */
module Catalog {
  import opened Wrappers
  import opened Ordering
  import opened Arith
  import opened Health

  datatype Row = Row(identity: string, snap: Snapshot, state: State, failed: bool, dueAt: Option<int>,
                     tcp: Option<bool>, verified: bool, lastOkAt: Option<int>, lastFailAt: Option<int>,
                     lastSeenAt: Option<int>)

  type Table = map<string, Row>

  datatype Outcome = Outcome(key: string, ok: bool, latency: Option<real>, error: Option<string>,
                             identity: Option<string>)

  datatype Entry = Entry(outcome: Outcome, probeType: string)

  datatype Write = Write(entry: Entry, tcpFlag: Option<bool>, at: int)

  function NewRow(identity: string): Row {
    Row(identity, FRESH, Unknown, false, None, None, false, None, None, None)
  }

  function Lookup(rows: Table, key: string): Option<Row> {
    if key in rows then Some(rows[key]) else None
  }

  function Coalesce<T>(a: Option<T>, b: Option<T>): Option<T> { if a.Some? then a else b }

  /** A probe counts as a success only with a measured latency. */
  predicate Won(o: Outcome) { o.ok && o.latency.Some? }

  function TcpValue(w: Write): Option<bool> {
    if w.tcpFlag.Some? then w.tcpFlag
    else if w.entry.probeType == "tcp" then Some(w.entry.outcome.ok)
    else None
  }

  function Updated(row: Row, w: Write, scoring: Scoring): Row {
    var o := w.entry.outcome;
    var snap := if Won(o) then ApplySuccess(row.snap, o.latency.value, scoring, w.at)
                else ApplyFailure(row.snap, o.error, scoring, w.at);
    var state := DeriveState(Some(Won(o)), snap.checks, snap.failStreak, snap.lastMs);
    Row(row.identity, snap, state, StatusFailed(state), Some(w.at + ProbeDelay(state, snap)),
        Coalesce(TcpValue(w), row.tcp),
        row.verified || (o.ok && w.entry.probeType != "tcp"),
        if o.ok then Some(w.at) else row.lastOkAt,
        if o.ok then row.lastFailAt else Some(w.at),
        Some(w.at))
  }

  /** The row of the outcome's key after the write. An unknown key without identity is skipped. */
  function RecordRow(row: Option<Row>, w: Write, scoring: Scoring): Option<Row> {
    match row
    case Some(r) => Some(Updated(r, w, scoring))
    case None =>
      if w.entry.outcome.identity.None? then None
      else Some(Updated(NewRow(w.entry.outcome.identity.value), w, scoring))
  }

  function Record(rows: Table, w: Write, scoring: Scoring): Table {
    var key := w.entry.outcome.key;
    var row := RecordRow(Lookup(rows, key), w, scoring);
    if row.Some? then rows[key := row.value] else rows
  }

  function RecordAll(rows: Table, writes: seq<Write>, scoring: Scoring): Table {
    if writes == [] then rows
    else Record(RecordAll(rows, writes[..|writes| - 1], scoring), writes[|writes| - 1], scoring)
  }

  lemma {:induction false} RecordAllAppend(rows: Table, a: seq<Write>, b: seq<Write>, scoring: Scoring)
    ensures RecordAll(rows, a + b, scoring) == RecordAll(RecordAll(rows, a, scoring), b, scoring)
  {
    if b == [] {
      assert a + b == a;
    } else {
      var n := |b| - 1;
      RecordAllAppend(rows, a, b[..n], scoring);
      assert (a + b)[..|a + b| - 1] == a + b[..n];
    }
  }

  // ---- a row depends only on the writes to its key --------------------------------------

  function OfKey(writes: seq<Write>, key: string): seq<Write> {
    if writes == [] then []
    else
      var n := |writes| - 1;
      OfKey(writes[..n], key) + if writes[n].entry.outcome.key == key then [writes[n]] else []
  }

  lemma {:induction false} OfKeyAppend(a: seq<Write>, b: seq<Write>, key: string)
    ensures OfKey(a + b, key) == OfKey(a, key) + OfKey(b, key)
  {
    if b == [] {
      assert a + b == a;
    } else {
      var n := |b| - 1;
      OfKeyAppend(a, b[..n], key);
      assert (a + b)[..|a + b| - 1] == a + b[..n];
    }
  }

  function RowAfter(row: Option<Row>, writes: seq<Write>, scoring: Scoring): Option<Row> {
    if writes == [] then row
    else RecordRow(RowAfter(row, writes[..|writes| - 1], scoring), writes[|writes| - 1], scoring)
  }

  lemma LookupRecord(rows: Table, w: Write, key: string, scoring: Scoring)
    ensures Lookup(Record(rows, w, scoring), key)
         == if w.entry.outcome.key == key then RecordRow(Lookup(rows, key), w, scoring) else Lookup(rows, key)
  {
  }

  lemma RowAfterStep(row: Option<Row>, writes: seq<Write>, w: Write, scoring: Scoring)
    ensures RowAfter(row, writes + [w], scoring) == RecordRow(RowAfter(row, writes, scoring), w, scoring)
  {
    assert (writes + [w])[..|writes|] == writes;
  }

  /** What a row becomes is decided by the writes to its key alone, in their order. */
  lemma {:induction false} RowSeesOwnWrites(rows: Table, writes: seq<Write>, key: string, scoring: Scoring)
    ensures Lookup(RecordAll(rows, writes, scoring), key) == RowAfter(Lookup(rows, key), OfKey(writes, key), scoring)
  {
    if writes != [] {
      var n := |writes| - 1;
      RowSeesOwnWrites(rows, writes[..n], key, scoring);
      LookupRecord(RecordAll(rows, writes[..n], scoring), writes[n], key, scoring);
      var before := OfKey(writes[..n], key);
      if writes[n].entry.outcome.key == key {
        RowAfterStep(Lookup(rows, key), before, writes[n], scoring);
      } else {
        assert OfKey(writes, key) == before;
      }
    }
  }

  // ---- lifetime totals -------------------------------------------------------------------

  /** How many entries have this key, and how many of those succeeded. */
  function CountKey(entries: seq<Entry>, key: string): nat {
    if entries == [] then 0
    else CountKey(entries[..|entries| - 1], key) + if entries[|entries| - 1].outcome.key == key then 1 else 0
  }

  function CountWon(entries: seq<Entry>, key: string): nat {
    if entries == [] then 0
    else
      var o := entries[|entries| - 1].outcome;
      CountWon(entries[..|entries| - 1], key) + if o.key == key && Won(o) then 1 else 0
  }

  function Entries(writes: seq<Write>): (r: seq<Entry>)
    ensures |r| == |writes|
  {
    seq(|writes|, i requires 0 <= i < |writes| => writes[i].entry)
  }

  lemma EntriesAppend(a: seq<Write>, b: seq<Write>)
    ensures Entries(a + b) == Entries(a) + Entries(b)
  {
  }

  lemma EntriesInit(writes: seq<Write>)
    requires writes != []
    ensures Entries(writes)[..|writes| - 1] == Entries(writes[..|writes| - 1])
    ensures Entries(writes)[|writes| - 1] == writes[|writes| - 1].entry
  {
  }

  /** The row exists, or every outcome for it says who it is. */
  ghost predicate Known(rows: Table, entries: seq<Entry>, key: string) {
    key in rows || forall i | 0 <= i < |entries| && entries[i].outcome.key == key :: entries[i].outcome.identity.Some?
  }

  function SnapOf(row: Option<Row>): Snapshot { if row.Some? then row.value.snap else FRESH }

  /** The totals of a row after the outcomes of its key among some entries. */
  ghost predicate SumsUp(before: Option<Row>, after: Option<Row>, entries: seq<Entry>, key: string) {
    && (after.None? <==> before.None? && CountKey(entries, key) == 0)
    && SnapOf(after).checks == SnapOf(before).checks + CountKey(entries, key)
    && SnapOf(after).successes == SnapOf(before).successes + CountWon(entries, key)
    && SnapOf(after).successes + SnapOf(after).failures
         == SnapOf(before).successes + SnapOf(before).failures + CountKey(entries, key)
  }

  lemma CountsSnoc(entries: seq<Entry>, e: Entry, key: string)
    ensures CountKey(entries + [e], key) == CountKey(entries, key) + if e.outcome.key == key then 1 else 0
    ensures CountWon(entries + [e], key)
         == CountWon(entries, key) + if e.outcome.key == key && Won(e.outcome) then 1 else 0
  {
    assert (entries + [e])[..|entries|] == entries;
  }

  lemma OneSumsUp(before: Option<Row>, after: Option<Row>, entries: seq<Entry>, w: Write, key: string, scoring: Scoring)
    requires SumsUp(before, after, entries, key) && w.entry.outcome.key == key
    requires after.Some? || w.entry.outcome.identity.Some?
    ensures SumsUp(before, RecordRow(after, w, scoring), entries + [w.entry], key)
  {
    CountsSnoc(entries, w.entry, key);
  }

  lemma KnownInit(rows: Table, writes: seq<Write>, key: string)
    requires writes != [] && Known(rows, Entries(writes), key)
    ensures Known(rows, Entries(writes[..|writes| - 1]), key)
    ensures writes[|writes| - 1].entry.outcome.key == key && key !in rows ==>
      writes[|writes| - 1].entry.outcome.identity.Some?
  {
    var n := |writes| - 1;
    assert Entries(writes)[n] == writes[n].entry;
    forall i | 0 <= i < n ensures Entries(writes[..n])[i] == Entries(writes)[i] {
    }
  }

  /** After any writes the totals of a known key are its old totals plus its outcomes, however
      they were ordered. */
  lemma {:induction false} TotalsAreSums(rows: Table, writes: seq<Write>, key: string, scoring: Scoring)
    requires Known(rows, Entries(writes), key)
    ensures SumsUp(Lookup(rows, key), Lookup(RecordAll(rows, writes, scoring), key), Entries(writes), key)
  {
    if writes != [] {
      var n := |writes| - 1;
      var before := RecordAll(rows, writes[..n], scoring);
      KnownInit(rows, writes, key);
      TotalsAreSums(rows, writes[..n], key, scoring);
      LookupRecord(before, writes[n], key, scoring);
      assert Entries(writes) == Entries(writes[..n]) + [writes[n].entry];
      if writes[n].entry.outcome.key == key {
        OneSumsUp(Lookup(rows, key), Lookup(before, key), Entries(writes[..n]), writes[n], key, scoring);
      } else {
        CountsSnoc(Entries(writes[..n]), writes[n].entry, key);
      }
    }
  }

  /** Counting does not depend on the order. */
  lemma {:induction false} CountsPermute(a: seq<Entry>, b: seq<Entry>, key: string)
    requires multiset(a) == multiset(b)
    ensures CountKey(a, key) == CountKey(b, key) && CountWon(a, key) == CountWon(b, key)
    decreases |a|
  {
    if a == [] {
      NoneLeft(b);
    } else {
      var j := TakeOut(a, b);
      CountsPermute(a[..|a| - 1], b[..j] + b[j + 1..], key);
      CountsRemove(b[..j], b[j], b[j + 1..], key);
      assert b == b[..j] + [b[j]] + b[j + 1..];
    }
  }

  lemma {:induction false} CountsAppend(a: seq<Entry>, b: seq<Entry>, key: string)
    ensures CountKey(a + b, key) == CountKey(a, key) + CountKey(b, key)
    ensures CountWon(a + b, key) == CountWon(a, key) + CountWon(b, key)
  {
    if b == [] {
      assert a + b == a;
    } else {
      var n := |b| - 1;
      CountsAppend(a, b[..n], key);
      assert (a + b)[..|a + b| - 1] == a + b[..n];
    }
  }

  lemma CountsRemove(a: seq<Entry>, x: Entry, b: seq<Entry>, key: string)
    ensures CountKey(a + [x] + b, key) == CountKey(a + b, key) + if x.outcome.key == key then 1 else 0
    ensures CountWon(a + [x] + b, key)
         == CountWon(a + b, key) + if x.outcome.key == key && Won(x.outcome) then 1 else 0
  {
    CountsAppend(a + [x], b, key);
    CountsAppend(a, b, key);
    assert (a + [x])[..|a|] == a;
  }

  // ---- a row is the history of its probes --------------------------------------------------

  function ProbeOf(w: Write): Probe {
    var o := w.entry.outcome;
    Probe(if Won(o) then o.latency else None, o.error, w.at)
  }

  function Probes(writes: seq<Write>): (r: seq<Probe>)
    ensures |r| == |writes|
  {
    seq(|writes|, i requires 0 <= i < |writes| => ProbeOf(writes[i]))
  }

  lemma ProbesInit(writes: seq<Write>)
    requires writes != []
    ensures Probes(writes)[..|writes| - 1] == Probes(writes[..|writes| - 1])
    ensures Probes(writes)[|writes| - 1] == ProbeOf(writes[|writes| - 1])
  {
  }

  lemma UpdateIsProbe(row: Row, w: Write, scoring: Scoring)
    ensures var r := Updated(row, w, scoring); var snap := Apply(row.snap, ProbeOf(w), scoring);
      && r.snap == snap && r.identity == row.identity
      && r.state == DeriveState(Some(Health.Ok(ProbeOf(w))), snap.checks, snap.failStreak, snap.lastMs)
      && r.failed == StatusFailed(r.state) && r.dueAt == Some(w.at + ProbeDelay(r.state, r.snap))
  {
  }

  ghost predicate CarriesHistory(row: Option<Row>, identity: string, history: seq<Probe>, scoring: Scoring) {
    && row.Some? && history != []
    && row.value.identity == identity
    && row.value.snap == After(history, scoring)
    && row.value.state == StateAfter(history, scoring)
    && row.value.failed == StatusFailed(row.value.state)
    && row.value.dueAt == Some(history[|history| - 1].at + ProbeDelay(row.value.state, row.value.snap))
  }

  lemma HistorySnoc(history: seq<Probe>, p: Probe, scoring: Scoring)
    ensures After(history + [p], scoring) == Apply(After(history, scoring), p, scoring)
    ensures StateAfter(history + [p], scoring)
         == (var snap := Apply(After(history, scoring), p, scoring);
             DeriveState(Some(Health.Ok(p)), snap.checks, snap.failStreak, snap.lastMs))
  {
    assert (history + [p])[..|history|] == history;
  }

  lemma CarriesStep(row: Row, w: Write, history: seq<Probe>, scoring: Scoring)
    requires row.snap == After(history, scoring)
    ensures CarriesHistory(Some(Updated(row, w, scoring)), row.identity, history + [ProbeOf(w)], scoring)
  {
    UpdateIsProbe(row, w, scoring);
    HistorySnoc(history, ProbeOf(w), scoring);
  }

  /** A row first seen through its writes carries exactly the health of that probe history: the
      snapshot, the state, the status and the due time. */
  lemma {:induction false} NewRowIsItsHistory(identity: string, writes: seq<Write>, scoring: Scoring)
    requires writes != []
    ensures CarriesHistory(RowAfter(Some(NewRow(identity)), writes, scoring), identity, Probes(writes), scoring)
    decreases |writes|
  {
    var n := |writes| - 1;
    ProbesInit(writes);
    assert Probes(writes) == Probes(writes[..n]) + [ProbeOf(writes[n])];
    var before := RowAfter(Some(NewRow(identity)), writes[..n], scoring);
    if n > 0 {
      NewRowIsItsHistory(identity, writes[..n], scoring);
    } else {
      assert writes[..n] == [];
    }
    CarriesStep(before.value, writes[n], Probes(writes[..n]), scoring);
  }

  lemma CarriedRest(row: Option<Row>, identity: string, writes: seq<Write>, scoring: Scoring)
    requires writes != [] && CarriesHistory(row, identity, Probes(writes), scoring)
    ensures row.value.dueAt == Some(writes[|writes| - 1].at + Rest(Probes(writes)))
  {
    RestIsExact(Probes(writes), scoring);
  }

  /** And the due time is the last probe and the rest its history asks for. */
  lemma NewRowRests(identity: string, writes: seq<Write>, scoring: Scoring)
    requires writes != []
    ensures var row := RowAfter(Some(NewRow(identity)), writes, scoring);
      row.Some? && row.value.dueAt == Some(writes[|writes| - 1].at + Rest(Probes(writes)))
  {
    NewRowIsItsHistory(identity, writes, scoring);
    CarriedRest(RowAfter(Some(NewRow(identity)), writes, scoring), identity, writes, scoring);
  }

  /** What a write leaves in a row besides the snapshot: the state by the outcome and the failures in a
      row, whether TCP was reached, whether the proxy ever worked, and the times of the last success,
      failure and sight. */
  lemma UpdatedMeans(row: Row, w: Write, scoring: Scoring)
    ensures var o, r := w.entry.outcome, Updated(row, w, scoring); var won := o.ok && o.latency.Some?;
      && r.identity == row.identity
      && r.snap == (if won then ApplySuccess(row.snap, o.latency.value, scoring, w.at)
                    else ApplyFailure(row.snap, o.error, scoring, w.at))
      && (r.state.Healthy? <==> won && o.latency.value <= 2.0)
      && (r.state.Dead? <==> !won && row.snap.failStreak >= 2)
      && (r.state.Degraded? <==> !r.state.Healthy? && !r.state.Dead?)
      && (r.failed <==> r.state.Dead?)
      && r.tcp == (if w.tcpFlag.Some? then w.tcpFlag
                   else if w.entry.probeType == "tcp" then Some(o.ok) else row.tcp)
      && (r.verified <==> row.verified || (o.ok && w.entry.probeType != "tcp"))
      && r.lastOkAt == (if o.ok then Some(w.at) else row.lastOkAt)
      && r.lastFailAt == (if o.ok then row.lastFailAt else Some(w.at))
      && r.lastSeenAt == Some(w.at)
  {
  }

  // ---- the probe history table --------------------------------------------------------------

  datatype HistoryRow = HistoryRow(key: string, at: int, ok: bool, latencyMs: Option<real>,
                                   errorCode: Option<string>, errorText: Option<string>, probeType: string)

  datatype Store = Store(rows: Table, history: seq<HistoryRow>)

  const KEPT_SECONDS := 30 * 86400

  function OrElse(s: Option<string>, other: string): string {
    if s.None? || s.value == "" then other else s.value
  }

  function HistoryOf(w: Write): HistoryRow {
    var o := w.entry.outcome;
    HistoryRow(o.key, w.at, o.ok, if o.latency.Some? then Some(o.latency.value * 1000.0) else None,
               if o.ok then None else Some(Clip(OrElse(o.error, "error"), 80)),
               if o.ok then None else Some(Clip(OrElse(o.error, ""), 240)),
               w.entry.probeType)
  }

  function Histories(writes: seq<Write>): (r: seq<HistoryRow>)
    ensures |r| == |writes|
  {
    seq(|writes|, i requires 0 <= i < |writes| => HistoryOf(writes[i]))
  }

  /** The writes that reach a row: all but those to an unknown key without identity. */
  function Landed(rows: Table, writes: seq<Write>, scoring: Scoring): seq<Write> {
    if writes == [] then []
    else
      var n := |writes| - 1;
      var row := Lookup(RecordAll(rows, writes[..n], scoring), writes[n].entry.outcome.key);
      Landed(rows, writes[..n], scoring) + if RecordRow(row, writes[n], scoring).Some? then [writes[n]] else []
  }

  function Recent(history: seq<HistoryRow>, at: int): seq<HistoryRow> {
    if history == [] then []
    else
      var n := |history| - 1;
      Recent(history[..n], at) + if history[n].at >= at - KEPT_SECONDS then [history[n]] else []
  }

  /** `_v2ray_record_results_locked`: the rows, then the history and its clean-up. */
  function RecordBatch(t: Store, writes: seq<Write>, at: int, scoring: Scoring): Store {
    Store(RecordAll(t.rows, writes, scoring), Recent(t.history + Histories(Landed(t.rows, writes, scoring)), at))
  }

  lemma {:induction false} RecentAppend(a: seq<HistoryRow>, b: seq<HistoryRow>, at: int)
    ensures Recent(a + b, at) == Recent(a, at) + Recent(b, at)
  {
    if b == [] {
      assert a + b == a;
    } else {
      var n := |b| - 1;
      RecentAppend(a, b[..n], at);
      assert (a + b)[..|a + b| - 1] == a + b[..n];
    }
  }

  /** A history row: the outcome, with the latency in milliseconds and the error cut to 80 and 240
      characters. */
  lemma HistoryMeans(w: Write)
    ensures var o, h := w.entry.outcome, HistoryOf(w);
      && h.key == o.key && h.at == w.at && h.ok == o.ok && h.probeType == w.entry.probeType
      && h.latencyMs == (if o.latency.Some? then Some(1000.0 * o.latency.value) else None)
      && (o.ok ==> h.errorCode == None && h.errorText == None)
      && (!o.ok && (o.error.None? || o.error.value == "") ==> h.errorCode == Some("error") && h.errorText == Some(""))
      && (!o.ok && o.error.Some? && o.error.value != "" ==>
            && h.errorCode.Some? && h.errorCode.value <= o.error.value
            && |h.errorCode.value| == Min(|o.error.value|, 80)
            && h.errorText.Some? && h.errorText.value <= o.error.value
            && |h.errorText.value| == Min(|o.error.value|, 240))
  {
  }

  /** The clean-up keeps the rows of the last thirty days, each as often as it was. */
  lemma {:induction false} RecentCounts(history: seq<HistoryRow>, at: int, row: HistoryRow)
    ensures multiset(Recent(history, at))[row] == if at - row.at <= 2592000 then multiset(history)[row] else 0
  {
    if history != [] {
      var before, last := history[..|history| - 1], history[|history| - 1];
      RecentCounts(before, at, row);
      assert history == before + [last];
    }
  }

  /** A write reaches the history exactly when its key has a row by then, or it says who it is. */
  lemma LandedSnoc(rows: Table, writes: seq<Write>, w: Write, scoring: Scoring)
    ensures Landed(rows, writes + [w], scoring)
         == Landed(rows, writes, scoring)
            + if w.entry.outcome.key in RecordAll(rows, writes, scoring) || w.entry.outcome.identity.Some? then [w]
              else []
  {
    assert (writes + [w])[..|writes|] == writes;
  }

  lemma AllRecentOne(row: HistoryRow, at: int)
    requires row.at >= at - KEPT_SECONDS
    ensures Recent([row], at) == [row]
  {
    assert [row][..0] == [];
  }

  lemma {:induction false} RecentTwice(history: seq<HistoryRow>, at: int)
    ensures Recent(Recent(history, at), at) == Recent(history, at)
  {
    if history != [] {
      var n := |history| - 1;
      RecentTwice(history[..n], at);
      if history[n].at >= at - KEPT_SECONDS {
        RecentAppend(Recent(history[..n], at), [history[n]], at);
        AllRecentOne(history[n], at);
      } else {
        assert Recent(history, at) == Recent(history[..n], at);
      }
    }
  }

  lemma {:induction false} AllRecent(history: seq<HistoryRow>, at: int)
    requires forall i | 0 <= i < |history| :: history[i].at == at
    ensures Recent(history, at) == history
  {
    if history != [] { AllRecent(history[..|history| - 1], at); }
  }

  lemma {:induction false} LandedAppend(rows: Table, a: seq<Write>, b: seq<Write>, scoring: Scoring)
    ensures Landed(rows, a + b, scoring) == Landed(rows, a, scoring) + Landed(RecordAll(rows, a, scoring), b, scoring)
  {
    if b == [] {
      assert a + b == a;
    } else {
      var n := |b| - 1;
      LandedAppend(rows, a, b[..n], scoring);
      RecordAllAppend(rows, a, b[..n], scoring);
      assert (a + b)[..|a + b| - 1] == a + b[..n];
    }
  }

  lemma {:induction false} LandedAt(rows: Table, writes: seq<Write>, scoring: Scoring, at: int)
    requires forall i | 0 <= i < |writes| :: writes[i].at == at
    ensures forall w | w in Landed(rows, writes, scoring) :: w.at == at
  {
    if writes != [] { LandedAt(rows, writes[..|writes| - 1], scoring, at); }
  }

  /** Every entry finds its row or says who it is. */
  ghost predicate AllKnown(rows: Table, entries: seq<Entry>) {
    forall i | 0 <= i < |entries| :: entries[i].outcome.key in rows || entries[i].outcome.identity.Some?
  }

  lemma {:induction false} RowsStay(rows: Table, writes: seq<Write>, key: string, scoring: Scoring)
    requires key in rows
    ensures key in RecordAll(rows, writes, scoring)
  {
    if writes != [] { RowsStay(rows, writes[..|writes| - 1], key, scoring); }
  }

  /** Then every write lands. */
  lemma {:induction false} AllLand(rows: Table, writes: seq<Write>, scoring: Scoring)
    requires AllKnown(rows, Entries(writes))
    ensures Landed(rows, writes, scoring) == writes
  {
    if writes != [] {
      var n := |writes| - 1;
      EntriesInit(writes);
      AllLand(rows, writes[..n], scoring);
      var o := Entries(writes)[n].outcome;
      if o.key in rows { RowsStay(rows, writes[..n], o.key, scoring); }
    }
  }
}
