/** Probe health of a catalog row (health.py). Times are seconds. The priority score is an
    unknown function of the snapshot and the time. */
module Health {
  import opened Wrappers
  import opened Arith

  datatype Snapshot = Snapshot(
    successes: nat, failures: nat, okStreak: nat, failStreak: nat, checks: nat,
    lastMs: Option<real>, avgMs: Option<real>, lastError: Option<string>,
    checkedAt: Option<int>, skipUntil: Option<int>, score: real)

  type Scoring = (Snapshot, int) -> real

  datatype State = Unknown | Healthy | Degraded | Dead | Quarantined

  const FRESH := Snapshot(0, 0, 0, 0, 0, None, None, None, None, None, 1000.0)

  const ALPHA := 0.35

  function Ema(previous: Option<real>, sample: real): real {
    if previous.None? || previous.value <= 0.0 then sample
    else ALPHA * sample + (1.0 - ALPHA) * previous.value
  }

  /** Seconds to wait after the n-th failure in a row. */
  function Backoff(fails: nat): int {
    if fails <= 1 then 0 else Min(15 * Pow2(Min(fails - 2, 6)), 12 * 60) * 60
  }

  function SkipUntil(fails: nat, now: int): Option<int> {
    if Backoff(fails) <= 0 then None else Some(now + Backoff(fails))
  }

  function Milliseconds(seconds: real): real {
    if seconds * 1000.0 < 0.0 then 0.0 else seconds * 1000.0
  }

  function Clip(s: string, n: nat): string { if |s| <= n then s else s[..n] }

  function Scored(snap: Snapshot, scoring: Scoring, now: int): Snapshot {
    snap.(score := scoring(snap.(score := 0.0), now))
  }

  function ApplySuccess(snap: Snapshot, latency: real, scoring: Scoring, now: int): Snapshot {
    var ms := Milliseconds(latency);
    Scored(
      Snapshot(snap.successes + 1, snap.failures, snap.okStreak + 1, 0, snap.checks + 1,
               Some(ms), Some(Ema(snap.avgMs, ms)), None, Some(now), None, 0.0),
      scoring, now)
  }

  function ApplyFailure(snap: Snapshot, error: Option<string>, scoring: Scoring, now: int): Snapshot {
    var text := if error.None? || error.value == "" then "error" else error.value;
    Scored(
      Snapshot(snap.successes, snap.failures + 1, 0, snap.failStreak + 1, snap.checks + 1,
               None, snap.avgMs, Some(Clip(text, 240)), Some(now), SkipUntil(snap.failStreak + 1, now), 0.0),
      scoring, now)
  }

  const MAX_HOT_MS := 3000.0

  function DeriveState(ok: Option<bool>, checks: int, fails: int, lastMs: Option<real>): State {
    if checks <= 0 || ok.None? then Unknown
    else if ok.value && fails <= 0 then
      if lastMs.Some? && lastMs.value > 2000.0 then Degraded
      else if lastMs.Some? && lastMs.value > MAX_HOT_MS then Degraded
      else Healthy
    else if fails >= 3 then Dead
    else if fails > 0 then Degraded
    else Unknown
  }

  /** The status column: true for `failed`. */
  predicate StatusFailed(state: State) { state.Dead? || state.Quarantined? }

  /** Seconds until the next probe is due. */
  function ProbeDelay(state: State, snap: Snapshot): int {
    if state.Unknown? || snap.checks == 0 then 0
    else
      match state
      case Degraded => 2 * 60
      case Healthy =>
        var rate := (snap.successes as real + 1.0) / (snap.checks as real + 2.0);
        if rate >= 0.9 && snap.okStreak >= 5 then 15 * 60 else 10 * 60
      case Dead => Min(45, 5 * Pow2(Min(Max(0, snap.failStreak - 3), 4))) * 60
      case _ => 30 * 60
  }

  // ---- histories ----------------------------------------------------------------------

  /** A probe is a success when it measured a latency. */
  datatype Probe = Probe(latency: Option<real>, error: Option<string>, at: int)

  predicate Ok(p: Probe) { p.latency.Some? }

  function Apply(snap: Snapshot, p: Probe, scoring: Scoring): Snapshot {
    if Ok(p) then ApplySuccess(snap, p.latency.value, scoring, p.at)
    else ApplyFailure(snap, p.error, scoring, p.at)
  }

  function After(history: seq<Probe>, scoring: Scoring): Snapshot
    decreases |history|
  {
    if history == [] then FRESH
    else Apply(After(history[..|history| - 1], scoring), history[|history| - 1], scoring)
  }

  /** The state recorded with the last probe of a history. */
  function StateAfter(history: seq<Probe>, scoring: Scoring): State
    requires history != []
  {
    var snap := After(history, scoring);
    DeriveState(Some(Ok(history[|history| - 1])), snap.checks, snap.failStreak, snap.lastMs)
  }

  function CountOk(history: seq<Probe>): nat {
    if history == [] then 0
    else CountOk(history[..|history| - 1]) + if Ok(history[|history| - 1]) then 1 else 0
  }

  /** The last n probes, and no more, ended with this outcome. */
  ghost predicate IsSuffix(history: seq<Probe>, ok: bool, n: nat) {
    && n <= |history|
    && (forall i | |history| - n <= i < |history| :: Ok(history[i]) == ok)
    && (n < |history| ==> Ok(history[|history| - n - 1]) != ok)
  }

  lemma SuffixStep(history: seq<Probe>, p: Probe, ok: bool, n: nat)
    requires IsSuffix(history, ok, n)
    ensures Ok(p) == ok ==> IsSuffix(history + [p], ok, n + 1)
    ensures Ok(p) != ok ==> IsSuffix(history + [p], ok, 0)
  {
    var h := history + [p];
    assert forall i | 0 <= i < |history| :: h[i] == history[i];
    assert h[|history|] == p;
  }

  /** Lifetime counts add up and the streaks are the lengths of the last runs of outcomes. */
  lemma {:induction false} CountsAreExact(history: seq<Probe>, scoring: Scoring)
    ensures var snap := After(history, scoring);
      && snap.checks == |history|
      && snap.successes == CountOk(history)
      && snap.successes + snap.failures == snap.checks
      && IsSuffix(history, true, snap.okStreak)
      && IsSuffix(history, false, snap.failStreak)
    decreases |history|
  {
    if history != [] {
      var n := |history| - 1;
      var before, p := history[..n], history[n];
      CountsAreExact(before, scoring);
      var snap := After(before, scoring);
      SuffixStep(before, p, true, snap.okStreak);
      SuffixStep(before, p, false, snap.failStreak);
      assert history == before + [p];
    }
  }

  predicate FailedLast(history: seq<Probe>, n: nat) {
    n <= |history| && forall i | |history| - n <= i < |history| :: !Ok(history[i])
  }

  lemma LastProbe(history: seq<Probe>, scoring: Scoring)
    requires history != []
    ensures var p, snap := history[|history| - 1], After(history, scoring);
      && (Ok(p) ==> snap.failStreak == 0 && snap.okStreak > 0 && snap.lastMs == Some(Milliseconds(p.latency.value)))
      && (!Ok(p) ==> snap.failStreak > 0 && snap.okStreak == 0 && snap.lastMs == None)
  {
  }

  /** The state read off the history: dead exactly after three failures in a row, healthy exactly
      after a success within two seconds, degraded otherwise; never unknown once probed. The
      status is failed exactly when the state is dead. */
  lemma StateIsExact(history: seq<Probe>, scoring: Scoring)
    requires history != []
    ensures var state, p := StateAfter(history, scoring), history[|history| - 1];
      && (state.Dead? <==> FailedLast(history, 3))
      && (state.Healthy? <==> Ok(p) && Milliseconds(p.latency.value) <= 2000.0)
      && (state.Degraded? <==> !state.Dead? && !state.Healthy?)
      && (StatusFailed(state) <==> state.Dead?)
  {
    CountsAreExact(history, scoring);
    LastProbe(history, scoring);
    var n := After(history, scoring).failStreak;
    if 0 < n < 3 && |history| >= 3 {
      assert Ok(history[|history| - n - 1]);
    }
  }

  // ---- the latency average ------------------------------------------------------------

  /** Every successful probe measured between lo and hi milliseconds. */
  ghost predicate Within(history: seq<Probe>, lo: real, hi: real) {
    forall i | 0 <= i < |history| && Ok(history[i]) :: lo <= Milliseconds(history[i].latency.value) <= hi
  }

  lemma EmaBetween(previous: Option<real>, sample: real, lo: real, hi: real)
    requires lo <= sample <= hi && (previous.Some? ==> lo <= previous.value <= hi)
    ensures lo <= Ema(previous, sample) <= hi
  {
  }

  /** The average exists exactly when some probe succeeded and lies between any bounds on the
      successful samples, so between their minimum and maximum. */
  lemma {:induction false} AverageStaysBetween(history: seq<Probe>, scoring: Scoring, lo: real, hi: real)
    requires Within(history, lo, hi)
    ensures var avg := After(history, scoring).avgMs;
      && (avg.Some? <==> CountOk(history) > 0)
      && (avg.Some? ==> lo <= avg.value <= hi)
    decreases |history|
  {
    if history != [] {
      var n := |history| - 1;
      AverageStaysBetween(history[..n], scoring, lo, hi);
      if Ok(history[n]) {
        EmaBetween(After(history[..n], scoring).avgMs, Milliseconds(history[n].latency.value), lo, hi);
      }
    }
  }

  // ---- when the next probe is due -----------------------------------------------------

  lemma {:induction false} Pow2Grows(a: nat, b: nat)
    requires a <= b
    ensures 1 <= Pow2(a) <= Pow2(b)
    decreases b
  {
    if a < b {
      Pow2Grows(a, b - 1);
    } else if a > 0 {
      Pow2Grows(a - 1, a - 1);
    }
  }

  /** A probed row rests at least two minutes and at most three quarters of an hour. */
  lemma ProbedRowRests(history: seq<Probe>, scoring: Scoring)
    requires history != []
    ensures 120 <= ProbeDelay(StateAfter(history, scoring), After(history, scoring)) <= 45 * 60
  {
    CountsAreExact(history, scoring);
    LastProbe(history, scoring);
    StateIsExact(history, scoring);
    Pow2Grows(0, Min(Max(0, After(history, scoring).failStreak - 3), 4));
  }

  /** More failures never bring a dead row back sooner. */
  lemma DeadDelayGrows(a: Snapshot, b: Snapshot)
    requires a.failStreak <= b.failStreak && a.checks > 0 && b.checks > 0
    ensures ProbeDelay(Dead, a) <= ProbeDelay(Dead, b)
  {
    Pow2Grows(Min(Max(0, a.failStreak - 3), 4), Min(Max(0, b.failStreak - 3), 4));
  }

  lemma BackoffGrows(a: nat, b: nat)
    requires a <= b
    ensures 0 <= Backoff(a) <= Backoff(b) <= 12 * 3600
  {
    if a > 1 { Pow2Grows(Min(a - 2, 6), Min(b - 2, 6)); }
    if b > 1 { Pow2Grows(0, Min(b - 2, 6)); }
  }

  /** A row is held back exactly after two failures in a row, until its backoff has passed since
      the last one. */
  lemma HeldBackExactly(history: seq<Probe>, scoring: Scoring)
    ensures After(history, scoring).skipUntil.Some? <==> FailedLast(history, 2)
    ensures FailedLast(history, 2) ==>
      After(history, scoring).skipUntil
        == Some(history[|history| - 1].at + Backoff(After(history, scoring).failStreak))
  {
    CountsAreExact(history, scoring);
    var n := After(history, scoring).failStreak;
    SuffixFailed(history, n);
    BackoffStarts(n);
    if history != [] { LastSkip(history, scoring); }
  }

  lemma SuffixFailed(history: seq<Probe>, n: nat)
    requires IsSuffix(history, false, n)
    ensures FailedLast(history, 2) <==> n >= 2
  {
    if n == 1 && |history| >= 2 { assert Ok(history[|history| - 2]); }
    if n == 0 && |history| >= 2 { assert Ok(history[|history| - 1]); }
  }

  lemma BackoffStarts(n: nat)
    ensures Backoff(n) > 0 <==> n >= 2
  {
    if n >= 2 { Pow2Grows(0, Min(n - 2, 6)); }
  }

  lemma LastSkip(history: seq<Probe>, scoring: Scoring)
    requires history != []
    ensures var snap := After(history, scoring);
      snap.skipUntil == if snap.failStreak == 0 then None else SkipUntil(snap.failStreak, history[|history| - 1].at)
  {
  }

  // ---- the waits and the last fields, spelled out --------------------------------------------------

  predicate OkLast(history: seq<Probe>, n: nat) {
    n <= |history| && forall i | |history| - n <= i < |history| :: Ok(history[i])
  }

  /** The seconds a row rests after a history: ten minutes after a fast success, fifteen after five in
      a row when nine in ten of all probes (counting two more, one of them good) succeeded; two minutes
      after a slow success and after one or two failures; after three failures five minutes, doubling
      with each further one up to forty-five. */
  function Rest(history: seq<Probe>): int
    requires history != []
  {
    var p := history[|history| - 1];
    if Ok(p) then
      if p.latency.value > 2.0 then 120
      else if OkLast(history, 5) && 10 * (CountOk(history) + 1) >= 9 * (|history| + 2) then 900
      else 600
    else if !FailedLast(history, 3) then 120
    else if !FailedLast(history, 4) then 300
    else if !FailedLast(history, 5) then 600
    else if !FailedLast(history, 6) then 1200
    else if !FailedLast(history, 7) then 2400
    else 2700
  }

  lemma SuffixReaches(history: seq<Probe>, n: nat, k: nat)
    requires IsSuffix(history, false, n)
    ensures FailedLast(history, k) <==> k <= n
  {
    if n < k <= |history| { assert Ok(history[|history| - n - 1]); }
  }

  lemma OkSuffixReaches(history: seq<Probe>, n: nat, k: nat)
    requires IsSuffix(history, true, n)
    ensures OkLast(history, k) <==> k <= n
  {
    if n < k <= |history| { assert !Ok(history[|history| - n - 1]); }
  }

  lemma RateAtLeast(a: nat, b: nat)
    ensures (a as real + 1.0) / (b as real + 2.0) >= 0.9 <==> 10 * (a + 1) >= 9 * (b + 2)
  {
    var x, y := a as real + 1.0, b as real + 2.0;
    assert x == (x / y) * y;
    if x / y >= 0.9 { ScaleUp(x / y, 0.9, y); } else { ScaleDown(x / y, 0.9, y); }
  }

  lemma ScaleUp(p: real, q: real, y: real)
    requires p >= q && y > 0.0
    ensures p * y >= q * y
  {
  }

  lemma ScaleDown(p: real, q: real, y: real)
    requires p < q && y > 0.0
    ensures p * y < q * y
  {
  }

  lemma DeadWaits(n: nat)
    requires n >= 3
    ensures Min(45, 5 * Pow2(Min(Max(0, n - 3), 4))) * 60
         == if n == 3 then 300 else if n == 4 then 600 else if n == 5 then 1200 else if n == 6 then 2400 else 2700
  {
    assert Pow2(0) == 1 && Pow2(1) == 2 && Pow2(2) == 4 && Pow2(3) == 8 && Pow2(4) == 16;
  }

  lemma RestIsExact(history: seq<Probe>, scoring: Scoring)
    requires history != []
    ensures ProbeDelay(StateAfter(history, scoring), After(history, scoring)) == Rest(history)
  {
    var snap := After(history, scoring);
    CountsAreExact(history, scoring);
    LastProbe(history, scoring);
    StateIsExact(history, scoring);
    if Ok(history[|history| - 1]) {
      OkSuffixReaches(history, snap.okStreak, 5);
      RateAtLeast(snap.successes, snap.checks);
    } else {
      FailedRest(history, snap.failStreak);
      if snap.failStreak >= 3 { DeadWaits(snap.failStreak); }
    }
  }

  lemma FailedRest(history: seq<Probe>, n: nat)
    requires history != [] && !Ok(history[|history| - 1]) && IsSuffix(history, false, n)
    ensures FailedLast(history, 3) <==> n >= 3
    ensures Rest(history)
         == if n < 3 then 120 else if n == 3 then 300 else if n == 4 then 600 else if n == 5 then 1200
            else if n == 6 then 2400 else 2700
  {
    SuffixReaches(history, n, 3);
    SuffixReaches(history, n, 4);
    SuffixReaches(history, n, 5);
    SuffixReaches(history, n, 6);
    SuffixReaches(history, n, 7);
  }

  /** The average moves by 0.35 towards each success and not on failures; the first success starts it. */
  lemma AverageMoves(history: seq<Probe>, p: Probe, scoring: Scoring)
    ensures var before, after := After(history, scoring).avgMs, After(history + [p], scoring).avgMs;
      && (!Ok(p) ==> after == before)
      && (Ok(p) ==>
            var ms := if p.latency.value < 0.0 then 0.0 else 1000.0 * p.latency.value;
            && (before.None? || before.value <= 0.0 ==> after == Some(ms))
            && (before.Some? && before.value > 0.0 ==> after == Some(before.value + 0.35 * (ms - before.value))))
  {
    assert (history + [p])[..|history|] == history;
  }

  /** The kept text of an error: "error" for none, and otherwise its first n characters. */
  predicate ErrorText(error: Option<string>, text: string, n: nat) {
    if error.None? || error.value == "" then text == "error"
    else text <= error.value && |text| == Min(|error.value|, n)
  }

  /** The last probe leaves its time, its latency in milliseconds or none, and its error, cut to 240
      characters and never empty, or none. */
  lemma LastFields(history: seq<Probe>, scoring: Scoring)
    requires history != []
    ensures After(history, scoring).checkedAt == Some(history[|history| - 1].at)
    ensures var p, snap := history[|history| - 1], After(history, scoring);
      Ok(p) ==> && snap.lastError == None
                && snap.lastMs == Some(if p.latency.value < 0.0 then 0.0 else 1000.0 * p.latency.value)
    ensures var p, snap := history[|history| - 1], After(history, scoring);
      !Ok(p) ==> snap.lastMs == None && snap.lastError.Some? && ErrorText(p.error, snap.lastError.value, 240)
  {
  }

  /** Two failures in a row cost a quarter of an hour, each further one doubles it, up to twelve hours. */
  lemma BackoffDoubles(n: nat)
    ensures Backoff(0) == Backoff(1) == 0 && Backoff(2) == 15 * 60
    ensures n >= 2 ==> Backoff(n + 1) == Min(2 * Backoff(n), 12 * 3600)
  {
    assert Pow2(0) == 1 && Pow2(1) == 2 && Pow2(2) == 4 && Pow2(3) == 8 && Pow2(4) == 16 && Pow2(5) == 32;
    assert Pow2(6) == 64;
    if n >= 2 {
      var k := n - 2;
      assert k == 0 || k == 1 || k == 2 || k == 3 || k == 4 || k == 5 || k >= 6;
    }
  }
}
