/** The V2Ray inventory (db.py): the cap on the whole table, pruning, and the rows due for a
    probe.  */
module Inventory {
  import opened Wrappers
  import opened Arith
  import opened SqlOrder
  import opened Health
  import Catalog
  import opened ProxyStore

  type Rows = Catalog.Table

  // ---- the cap --------------------------------------------------------------------------------

  predicate Expendable(row: Catalog.Row) { row.state.Dead? || row.state.Quarantined? }

  function DeadRows(t: Rows): set<string> { set k | k in t && Expendable(t[k]) }

  function LiveRows(t: Rows): set<string> { set k | k in t && !Expendable(t[k]) }

  function AsReal(x: Option<int>): Option<real> { if x.Some? then Some(x.value as real) else None }

  /** Lowest priority first, then the longest unchecked. */
  function DeadTerms(t: Rows): Terms {
    map k | k in t :: [t[k].snap.score] + NullLast(AsReal(t[k].snap.checkedAt))
  }

  function Overflow(t: Rows, max: int): nat {
    if max <= 0 || |t| <= max then 0 else |t| - max
  }

  function DeadFirst(t: Rows, n: nat): set<string> { First(DeadTerms(t), DeadRows(t), n) }

  /** `v2ray_enforce_catalog_max`. */
  function EnforceMax(t: Rows, max: int): Rows { t - DeadFirst(t, Overflow(t, max)) }

  lemma DeadFirstCount(t: Rows, n: nat)
    ensures DeadFirst(t, n) <= DeadRows(t) && |DeadFirst(t, n)| == Min(n, |DeadRows(t)|)
  {
    FirstIsExact(DeadTerms(t), DeadRows(t), n);
  }

  lemma LiveAndDead(t: Rows)
    ensures |t| == |LiveRows(t)| + |DeadRows(t)|
  {
    assert t.Keys == LiveRows(t) + DeadRows(t);
    assert |t| == |t.Keys|;
  }

  lemma RemoveCard(t: Rows, gone: set<string>)
    requires gone <= t.Keys
    ensures |t - gone| == |t| - |gone|
  {
    assert (t - gone).Keys == t.Keys - gone;
    assert t.Keys == (t.Keys - gone) + gone;
    assert |t| == |t.Keys| && |t - gone| == |(t - gone).Keys|;
  }

  lemma SparesLive(t: Rows, gone: set<string>)
    requires gone <= DeadRows(t)
    ensures LiveRows(t - gone) == LiveRows(t) && DeadRows(t - gone) == DeadRows(t) - gone
    ensures |t - gone| == |t| - |gone|
  {
    RemoveCard(t, gone);
  }

  /** The cap deletes dead and quarantined rows only, and only over the cap; then it leaves
      max(cap, live rows) rows. A cap of zero or less is none. */
  lemma EnforceMaxIsExact(t: Rows, max: int)
    ensures |EnforceMax(t, max)| == if max <= 0 || |t| <= max then |t| else Max(max, |LiveRows(t)|)
    ensures LiveRows(EnforceMax(t, max)) == LiveRows(t)
    ensures forall k | k in EnforceMax(t, max) :: k in t && EnforceMax(t, max)[k] == t[k]
  {
    DeadFirstCount(t, Overflow(t, max));
    LiveAndDead(t);
    SparesLive(t, DeadFirst(t, Overflow(t, max)));
  }

  lemma DeadBefore(t: Rows, n: nat, a: string, b: string)
    requires a in DeadFirst(t, n) && b in DeadRows(t) - DeadFirst(t, n)
    ensures Before(DeadTerms(t), a, b)
  {
    FirstIsExact(DeadTerms(t), DeadRows(t), n);
  }

  /** It deletes the first of the deletion order. */
  lemma EnforceMaxPicksFirst(t: Rows, max: int, a: string, b: string)
    requires a in t && a !in EnforceMax(t, max) && b in DeadRows(EnforceMax(t, max))
    ensures a in DeadRows(t) && Before(DeadTerms(t), a, b)
  {
    DeadFirstCount(t, Overflow(t, max));
    SparesLive(t, DeadFirst(t, Overflow(t, max)));
    DeadBefore(t, Overflow(t, max), a, b);
  }

  // ---- pruning --------------------------------------------------------------------------------

  predicate ChronicRow(row: Catalog.Row, s: PruneSettings) {
    row.failed && row.snap.failStreak >= s.afterFailures && row.snap.checks >= s.minChecks && row.snap.successes == 0
  }

  predicate StaleRow(row: Catalog.Row, s: PruneSettings, now: int) {
    row.failed && row.snap.failStreak >= 3
    && row.snap.checkedAt.Some? && row.snap.checkedAt.value < now - s.staleDays * 86400
  }

  predicate Prunable(row: Catalog.Row, s: PruneSettings, now: int, incompatible: string -> bool) {
    || (s.incompatible && incompatible(row.identity))
    || (s.afterFailures > 0 && s.minChecks > 0 && ChronicRow(row, s))
    || (s.staleDays > 0 && StaleRow(row, s, now))
  }

  /** `v2ray_prune`: three deletions whose conditions look at one row each. */
  function Prune(t: Rows, s: Option<PruneSettings>, now: int, incompatible: string -> bool): Rows {
    if s.Some? && Enabled(s.value)
    then t - (set k | k in t && Prunable(t[k], s.value, now, incompatible))
    else t
  }

  lemma {:induction false} NeverOk(history: seq<Probe>)
    ensures CountOk(history) == 0 <==> forall i | 0 <= i < |history| :: !Health.Ok(history[i])
  {
    if history != [] {
      var before, last := history[..|history| - 1], history[|history| - 1];
      NeverOk(before);
      assert history == before + [last];
    }
  }

  /** Which rows go, read off the probes: those of an incompatible proxy, those whose probes all failed,
      at least three and as many as both limits ask for, and those whose last three probes failed, the
      last longer ago than the limit. */
  lemma PrunedIff(t: Rows, key: string, identity: string, history: seq<Probe>, scoring: Scoring, s: PruneSettings,
                  now: int, incompatible: string -> bool)
    requires key in t && Catalog.CarriesHistory(Some(t[key]), identity, history, scoring)
    ensures key !in Prune(t, Some(s), now, incompatible)
       <==> || (s.incompatible && incompatible(identity))
            || (s.afterFailures > 0 && s.minChecks > 0 && |history| >= Max(3, Max(s.afterFailures, s.minChecks))
                && forall i | 0 <= i < |history| :: !Health.Ok(history[i]))
            || (s.staleDays > 0 && FailedLast(history, 3) && now - history[|history| - 1].at > s.staleDays * 86400)
  {
    CountsAreExact(history, scoring);
    StateIsExact(history, scoring);
    LastFields(history, scoring);
    NeverOk(history);
    var n := After(history, scoring).failStreak;
    if n < 3 <= |history| {
      assert Health.Ok(history[|history| - n - 1]);
    }
  }

  // ---- due rows -------------------------------------------------------------------------------

  predicate IsDue(row: Catalog.Row, now: int, testable: string -> bool) {
    testable(row.identity) && (row.dueAt.None? || row.dueAt.value <= now)
  }

  function Due(t: Rows, now: int, testable: string -> bool): set<string> {
    set k | k in t && IsDue(t[k], now, testable)
  }

  function StateRank(s: State): real {
    match s
    case Unknown => 0.0
    case Degraded => 1.0
    case Healthy => 2.0
    case _ => 3.0
  }

  /** NULL first, then ascending. */
  function NullFirst(x: Option<real>): seq<real> {
    if x.Some? then [1.0, x.value] else [0.0, 0.0]
  }

  function DueTerms(t: Rows): Terms {
    map k | k in t :: [StateRank(t[k].state)] + NullFirst(AsReal(t[k].dueAt)) + [-t[k].snap.score]
  }

  const WAVE_LIMIT := 1500

  /** `due_servers(limit)`: the first due servers. */
  function DueServers(t: Rows, now: int, testable: string -> bool): seq<string> {
    var due := Listing(DueTerms(t), Due(t, now, testable));
    due[..Min(WAVE_LIMIT, |due|)]
  }

  lemma DueServersAreDue(t: Rows, now: int, testable: string -> bool)
    ensures (set k | k in DueServers(t, now, testable)) <= Due(t, now, testable)
    ensures |set k | k in DueServers(t, now, testable)| == Min(WAVE_LIMIT, |Due(t, now, testable)|)
  {
    var due := Due(t, now, testable);
    FirstIsExact(DueTerms(t), due, WAVE_LIMIT);
    assert (set k | k in DueServers(t, now, testable)) == First(DueTerms(t), due, WAVE_LIMIT);
  }
}
