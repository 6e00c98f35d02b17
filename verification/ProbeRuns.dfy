/** The wave loop over the prober: each wave's report is what an uncancelled `Prober.PingServers`
    may return, and that decides when the loop ends.  */
module ProbeRuns {
  import opened Ordering
  import opened Inventory
  import opened ProbeWaves
  import Prober

  /** What the outside world answers for each key, and the database identity of a key. */
  datatype Outside = Outside(server: string -> Prober.Server, identity: string -> string)

  function ToResult(r: Prober.PingResult, o: Outside): Result {
    Result(r.server.name, o.identity(r.server.name), r.latency, r.error, r.probeType)
  }

  function ToResults(rs: seq<Prober.PingResult>, o: Outside): (r: seq<Result>)
    ensures |r| == |rs| && forall i | 0 <= i < |r| :: r[i] == ToResult(rs[i], o)
  {
    seq(|rs|, i requires 0 <= i < |rs| => ToResult(rs[i], o))
  }

  function ServersFor(keys: seq<string>, o: Outside): (r: seq<Prober.Server>)
    ensures |r| == |keys| && forall i | 0 <= i < |r| :: r[i] == o.server(keys[i])
  {
    seq(|keys|, i requires 0 <= i < |keys| => o.server(keys[i]))
  }

  function Names(servers: seq<Prober.Server>): (r: seq<string>)
    ensures |r| == |servers| && forall i | 0 <= i < |r| :: r[i] == servers[i].name
  {
    seq(|servers|, i requires 0 <= i < |servers| => servers[i].name)
  }

  /** The contract of `Prober.PingServers` when every start of Xray succeeds and nothing is
      cancelled. */
  ghost predicate Allowed(rs: seq<Prober.PingResult>, servers: seq<Prober.Server>) {
    Prober.AllAcceptable(rs, true, false) && multiset(Prober.ServersOf(rs)) == multiset(servers)
  }

  ghost predicate IsProbe(rs: seq<Result>, keys: seq<string>, o: Outside) {
    exists out: seq<Prober.PingResult> :: rs == ToResults(out, o) && Allowed(out, ServersFor(keys, o))
  }

  /** Every wave of the run is a probe of the servers it tests. */
  ghost predicate Probed(t: Rows, w: World, o: Outside) {
    forall n: nat ::
      IsProbe(Report(AfterWaves(t, n, w), n, w), DueServers(AfterWaves(t, n, w), w.now, w.testable), o)
  }

  ghost predicate Named(o: Outside) { forall k :: o.server(k).name == k }

  /** No due server brings Xray down. */
  ghost predicate DueAreTame(t: Rows, w: World, o: Outside) {
    forall k | k in DueNow(t, w) :: Prober.Tame(o.server(k))
  }

  // ---- a probe covers its servers -----------------------------------------------------------------

  lemma NamesRemove(s: seq<Prober.Server>, j: nat)
    requires j < |s|
    ensures multiset(Names(s)) == multiset(Names(s[..j] + s[j + 1..])) + multiset{s[j].name}
  {
    WithoutOne(Names(s), j);
    assert Names(s)[..j] + Names(s)[j + 1..] == Names(s[..j] + s[j + 1..]);
  }

  lemma {:induction false} NamesPermute(a: seq<Prober.Server>, b: seq<Prober.Server>)
    requires multiset(a) == multiset(b)
    ensures multiset(Names(a)) == multiset(Names(b))
    decreases |a|
  {
    if a == [] {
      NoneLeft(b);
    } else {
      var n := |a| - 1;
      var j := TakeOut(a, b);
      NamesPermute(a[..n], b[..j] + b[j + 1..]);
      NamesRemove(a, n);
      assert a[..n] + a[n + 1..] == a[..n];
      NamesRemove(b, j);
    }
  }

  lemma ProbeCovers(rs: seq<Result>, keys: seq<string>, o: Outside)
    requires Named(o) && IsProbe(rs, keys, o)
    ensures Covers(rs, keys)
  {
    var out: seq<Prober.PingResult> :| rs == ToResults(out, o) && Allowed(out, ServersFor(keys, o));
    NamesPermute(Prober.ServersOf(out), ServersFor(keys, o));
    assert ResultKeys(rs) == Names(Prober.ServersOf(out));
    assert Names(ServersFor(keys, o)) == keys;
  }

  // ---- and drops by the lone result -----------------------------------------------------------------

  /** The result of testing this key alone would be dropped. */
  predicate LoneDropped(k: string, o: Outside) { Dropped(ToResult(Prober.Expected(o.server(k)), o)) }

  lemma OneProbeDrops(r: Prober.PingResult, k: string, o: Outside)
    requires Prober.Acceptable(r, true, false) && r.server == o.server(k) && Prober.Tame(o.server(k))
    ensures Dropped(ToResult(r, o)) <==> LoneDropped(k, o)
  {
    Prober.TameOne(r, o.server(k));
  }

  lemma ProbeDrops(rs: seq<Result>, keys: seq<string>, o: Outside, drops: set<string>)
    requires Named(o) && IsProbe(rs, keys, o)
    requires forall k | k in keys :: Prober.Tame(o.server(k)) && (k in drops <==> LoneDropped(k, o))
    ensures DropsIn(rs, drops)
  {
    var out: seq<Prober.PingResult> :| rs == ToResults(out, o) && Allowed(out, ServersFor(keys, o));
    forall i | 0 <= i < |rs| ensures Dropped(rs[i]) <==> rs[i].key in drops {
      assert Prober.ServersOf(out)[i] in multiset(ServersFor(keys, o));
      var j :| 0 <= j < |keys| && ServersFor(keys, o)[j] == out[i].server;
      assert keys[j] in keys && o.server(keys[j]).name == keys[j];
      OneProbeDrops(out[i], keys[j], o);
    }
  }

  // ---- so the run is one of `ProbeWaves` --------------------------------------------------------------

  lemma ProbedIsComplete(t: Rows, w: World, o: Outside)
    requires Named(o) && Probed(t, w, o)
    ensures Complete(t, w)
  {
    forall n: nat ensures Reported(AfterWaves(t, n, w), n, w) {
      var rows := AfterWaves(t, n, w);
      assert IsProbe(Report(rows, n, w), DueServers(rows, w.now, w.testable), o);
      ProbeCovers(Report(rows, n, w), DueServers(rows, w.now, w.testable), o);
    }
  }

  /** The due servers whose lone result is dropped. */
  function LoneDrops(t: Rows, w: World, o: Outside): set<string> {
    set k | k in DueNow(t, w) && LoneDropped(k, o)
  }

  ghost predicate NoneNew(run: Course, n: nat, w: World) { DueNow(run(n + 1), w) <= DueNow(run(n), w) }

  lemma {:induction false} FewerDue(run: Course, n: nat, w: World)
    requires forall i: nat :: NoneNew(run, i, w)
    ensures DueNow(run(n), w) <= DueNow(run(0), w)
  {
    if n > 0 {
      FewerDue(run, n - 1, w);
      assert NoneNew(run, n - 1, w);
    }
  }

  lemma NoneNewAt(t: Rows, i: nat, w: World)
    ensures NoneNew(CourseOf(t, w), i, w)
  {
    WaveMakesNoneDue(AfterWaves(t, i, w), i, w);
    NextWave(t, i, w);
  }

  lemma NoNewDue(t: Rows, n: nat, w: World)
    ensures DueNow(AfterWaves(t, n, w), w) <= DueNow(t, w)
  {
    forall i: nat ensures NoneNew(CourseOf(t, w), i, w) {
      NoneNewAt(t, i, w);
    }
    CourseStarts(t, w);
    FewerDue(CourseOf(t, w), n, w);
  }

  lemma CourseStarts(t: Rows, w: World)
    ensures CourseOf(t, w)(0) == t
  {
  }

  lemma TestedAreDue(t: Rows, n: nat, w: World, k: string)
    requires k in DueServers(AfterWaves(t, n, w), w.now, w.testable)
    ensures k in DueNow(t, w)
  {
    NoNewDue(t, n, w);
    DueServersAreDue(AfterWaves(t, n, w), w.now, w.testable);
    assert k in Tested(AfterWaves(t, n, w), w);
  }

  lemma ProbedDrops(t: Rows, w: World, o: Outside)
    requires Named(o) && Probed(t, w, o) && DueAreTame(t, w, o)
    ensures Drops(t, w, LoneDrops(t, w, o))
  {
    ProbedIsComplete(t, w, o);
    forall n: nat ensures DropsIn(Report(AfterWaves(t, n, w), n, w), LoneDrops(t, w, o)) {
      var rows := AfterWaves(t, n, w);
      var keys := DueServers(rows, w.now, w.testable);
      assert IsProbe(Report(rows, n, w), keys, o);
      forall k | k in keys
        ensures Prober.Tame(o.server(k)) && (k in LoneDrops(t, w, o) <==> LoneDropped(k, o))
      {
        TestedAreDue(t, n, w, k);
      }
      ProbeDrops(Report(rows, n, w), keys, o, LoneDrops(t, w, o));
    }
  }

  /** The wave loop over the prober, when Xray starts and no due server brings it down: it ends
      exactly when every due server whose lone result the filter drops loses its row to some wave. */
  lemma ProbedRunEndsIff(t: Rows, w: World, o: Outside)
    requires Named(o) && Probed(t, w, o) && DueAreTame(t, w, o)
    ensures Ends(t, w) <==> forall k | k in DueNow(t, w) && LoneDropped(k, o) :: GoesAway(t, w, k)
  {
    ProbedIsComplete(t, w, o);
    ProbedDrops(t, w, o);
    WavesEndIff(t, w, LoneDrops(t, w, o));
  }

  /** If no due server is such a one, ceil(n / 1500) waves are enough for n. */
  lemma ProbedRunFinishes(t: Rows, w: World, o: Outside)
    requires Named(o) && Probed(t, w, o) && DueAreTame(t, w, o)
    requires forall k | k in DueNow(t, w) :: !LoneDropped(k, o)
    ensures DueNow(AfterWaves(t, WavesFor(|DueNow(t, w)|), w), w) == {}
  {
    ProbedIsComplete(t, w, o);
    ProbedDrops(t, w, o);
    WavesFinish(t, WavesFor(|DueNow(t, w)|), w, LoneDrops(t, w, o));
  }
}
