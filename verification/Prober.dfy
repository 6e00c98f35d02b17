/** The batched prober of v2ray/ping.py.

    A server carries what the outside world would answer to a probe of it alone. Xray itself is
    nondeterministic only where a killer is involved: with a killer among the outbounds it may
    die, and whatever a probe then reports is arbitrary.  */
module Prober {
  import opened Wrappers

  /** The answer to one HTTP request through the node. */
  datatype Reply = Answered(latency: real, bytes: nat) | NotAllowed | Broken(detail: string)

  /** Only a HEAD request can be refused as such. */
  type Final = r: Reply | !r.NotAllowed? witness Broken("")

  datatype Server = Server(name: string, tcpError: Option<string>, buildError: Option<string>,
                           swapError: Option<string>, head: Reply, get: Final, killer: bool)

  datatype PingResult = PingResult(server: Server, latency: Option<real>, error: Option<string>,
                                   bytes: nat, probeType: string)

  function Failure(s: Server, error: string, probeType: string): PingResult {
    PingResult(s, None, Some(error), 0, probeType)
  }

  const SWAP_FAILED := "outbound swap failed: "
  const NOT_STARTED := SWAP_FAILED + "probe xray did not start"
  const NOT_RESTARTED := SWAP_FAILED + "probe xray did not restart"

  /** HEAD first, GET where HEAD is refused. */
  function Request(s: Server): Final {
    if s.head.NotAllowed? then s.get else s.head
  }

  function FromReply(s: Server, r: Final): PingResult {
    match r
    case Answered(latency, bytes) => PingResult(s, Some(latency), None, bytes, "xray")
    case Broken(detail) => Failure(s, detail, "xray")
  }

  /** The result of probing the server alone through a fresh Xray. */
  function Lone(s: Server): PingResult {
    if s.buildError.Some? then Failure(s, s.buildError.value, "xray")
    else if s.swapError.Some? then Failure(s, SWAP_FAILED + s.swapError.value, "xray")
    else FromReply(s, Request(s))
  }

  /** The result of testing the server alone: TCP first, then the probe. */
  function Expected(s: Server): PingResult {
    if s.tcpError.Some? then Failure(s, s.tcpError.value, "tcp") else Lone(s)
  }

  ghost predicate FailedWith(r: PingResult, error: string, probeType: string) {
    r.latency == None && r.error == Some(error) && r.bytes == 0 && r.probeType == probeType
  }

  ghost predicate AnsweredWith(r: PingResult, latency: real, bytes: nat) {
    r.latency == Some(latency) && r.error == None && r.bytes == bytes && r.probeType == "xray"
  }

  /** A result that says what testing its server alone shows: the first step that fails, with its
      error, or the request that was answered, which is the GET where HEAD was refused. */
  ghost predicate TellsRight(r: PingResult) {
    var s := r.server;
    if s.tcpError.Some? then FailedWith(r, s.tcpError.value, "tcp")
    else if s.buildError.Some? then FailedWith(r, s.buildError.value, "xray")
    else if s.swapError.Some? then FailedWith(r, "outbound swap failed: " + s.swapError.value, "xray")
    else
      && (s.head.Answered? ==> AnsweredWith(r, s.head.latency, s.head.bytes))
      && (s.head.Broken? ==> FailedWith(r, s.head.detail, "xray"))
      && (s.head.NotAllowed? && s.get.Answered? ==> AnsweredWith(r, s.get.latency, s.get.bytes))
      && (s.head.NotAllowed? && s.get.Broken? ==> FailedWith(r, s.get.detail, "xray"))
  }

  function Cancelled(s: Server): PingResult { Failure(s, "cancelled", "tcp") }

  function ServersOf(results: seq<PingResult>): (r: seq<Server>)
    ensures |r| == |results| && forall i | 0 <= i < |r| :: r[i] == results[i].server
  {
    seq(|results|, i requires 0 <= i < |results| => results[i].server)
  }

  lemma ServersOfAppend(a: seq<PingResult>, b: seq<PingResult>)
    ensures ServersOf(a + b) == ServersOf(a) + ServersOf(b)
  {
  }

  lemma OneMore(a: seq<Server>, b: seq<Server>, s: Server, a': seq<Server>, b': seq<Server>)
    requires (a' == a + [s] && b' == b) || (a' == a && b' == b + [s])
    ensures multiset(a') + multiset(b') == multiset(a) + multiset(b) + multiset{s}
  {
  }

  predicate HasKiller(batch: seq<Server>) {
    exists i | 0 <= i < |batch| :: batch[i].killer && batch[i].buildError.None?
  }

  /** Which results a server may end with. `starts`: every start of Xray succeeds. `cancels`:
      the run may be cancelled. */
  predicate Acceptable(r: PingResult, starts: bool, cancels: bool) {
    || (r.server.killer && r.server.tcpError.None?)
    || r == Expected(r.server)
    || (!starts && r.server.tcpError.None?
        && (r == Failure(r.server, NOT_STARTED, "xray") || r == Failure(r.server, NOT_RESTARTED, "xray")))
    || (cancels && r == Cancelled(r.server))
  }

  ghost predicate AllAcceptable(results: seq<PingResult>, starts: bool, cancels: bool) {
    forall i | 0 <= i < |results| :: Acceptable(results[i], starts, cancels)
  }

  /** A server whose result does not depend on its neighbours: it kills nothing, or the TCP stage
      keeps it away from Xray. */
  predicate Tame(s: Server) { !s.killer || s.tcpError.Some? }

  /** When Xray starts and nothing is cancelled, every result of a tame server tells right, so it has
      a latency exactly when the server passed every step and HEAD, or GET after a refused HEAD, was
      answered. */
  lemma TameTellsRight(r: PingResult)
    requires Acceptable(r, true, false) && Tame(r.server)
    ensures TellsRight(r)
    ensures r.latency.Some?
       <==> && r.server.tcpError.None? && r.server.buildError.None? && r.server.swapError.None?
            && (r.server.head.Answered? || (r.server.head.NotAllowed? && r.server.get.Answered?))
  {
  }

  ghost predicate AllTellRight(results: seq<PingResult>) {
    forall i | 0 <= i < |results| && Tame(results[i].server) :: TellsRight(results[i])
  }

  lemma AllTameTellRight(results: seq<PingResult>)
    requires AllAcceptable(results, true, false)
    ensures AllTellRight(results)
  {
    forall i | 0 <= i < |results| && Tame(results[i].server) ensures TellsRight(results[i]) {
      TameTellsRight(results[i]);
    }
  }

  ghost predicate PastTcp(batch: seq<Server>) {
    forall i | 0 <= i < |batch| :: batch[i].tcpError.None?
  }

  function LoneAll(batch: seq<Server>): (r: seq<PingResult>)
    ensures |r| == |batch| && forall i | 0 <= i < |r| :: r[i] == Lone(batch[i])
    ensures ServersOf(r) == batch
  {
    seq(|batch|, i requires 0 <= i < |batch| => Lone(batch[i]))
  }

  function FailAll(batch: seq<Server>, error: string): (r: seq<PingResult>)
    ensures |r| == |batch| && forall i | 0 <= i < |r| :: r[i] == Failure(batch[i], error, "xray")
    ensures ServersOf(r) == batch
  {
    seq(|batch|, i requires 0 <= i < |batch| => Failure(batch[i], error, "xray"))
  }

  class Session {
    const slots: nat
    var running: bool

    constructor (slots: nat)
      ensures this.slots == slots && running
    {
      this.slots := slots;
      running := true;
    }

    /** `set_outbounds_async`: one error or none per slot, or it raises. Xray dies here only with
        a killer among the outbounds. */
    method SetOutbounds(batch: seq<Server>) returns (raised: Option<string>, errors: seq<Option<string>>)
      requires running && |batch| <= slots
      modifies this`running
      ensures |errors| == |batch|
      ensures running ==> raised == None && forall i | 0 <= i < |batch| :: errors[i] == batch[i].swapError
      ensures !running ==> HasKiller(batch)
    {
      raised := None;
      errors := seq(|batch|, i requires 0 <= i < |batch| => batch[i].swapError);
      if HasKiller(batch) {
        var dies: bool := *;
        if dies {
          running := false;
          raised := *;
          var other: seq<Option<string>> := *;
          if |other| == |batch| { errors := other; }
        }
      }
    }

    /** One HTTP probe through the slot of a server; arbitrary once Xray is dead. */
    method Fetch(s: Server, batch: seq<Server>) returns (r: PingResult)
      modifies this`running
      ensures r.server == s
      ensures running ==> old(running) && r == FromReply(s, Request(s))
      ensures old(running) && !running ==> HasKiller(batch)
    {
      if HasKiller(batch) && running { running := *; }
      var reply: Final := Request(s);
      if !running { reply := *; }
      r := FromReply(s, reply);
    }

    /** `_probe_batch_on_session`: one result per server of the batch, in order. If Xray survives
        the batch, each result is the server's lone result; it dies only of a killer. */
    method ProbeBatch(batch: seq<Server>) returns (results: seq<PingResult>)
      requires running && |batch| <= slots
      modifies this`running
      ensures ServersOf(results) == batch
      ensures running ==> results == LoneAll(batch)
      ensures !running ==> HasKiller(batch)
    {
      results := [];
      if batch == [] { return; }
      var raised, errors := SetOutbounds(batch);
      ghost var settled := running;
      for i := 0 to |batch|
        invariant |results| == i && (running ==> settled) && (!running ==> HasKiller(batch))
        invariant forall j | 0 <= j < i :: results[j].server == batch[j]
        invariant running ==> forall j | 0 <= j < i :: results[j] == Lone(batch[j])
      {
        var s := batch[i];
        var r;
        if s.buildError.Some? {
          r := Failure(s, s.buildError.value, "xray");
        } else if raised.Some? {
          r := Failure(s, SWAP_FAILED + raised.value, "xray");
        } else if errors[i].Some? {
          r := Failure(s, SWAP_FAILED + errors[i].value, "xray");
        } else {
          r := Fetch(s, batch);
        }
        results := results + [r];
      }
    }
  }

  class Prober {
    const starts: bool
    const cancels: bool
    const batchSize: nat
    var session: Session?
    var cancelled: bool
    var done: nat
    var results: seq<PingResult>
    /** The calls of the `on_result` callback: done, total, result. */
    var log: seq<(nat, nat, PingResult)>

    constructor (starts: bool, cancels: bool, batchSize: nat)
      requires batchSize > 0
      ensures this.starts == starts && this.cancels == cancels && this.batchSize == batchSize
      ensures session == null && !cancelled && results == [] && log == [] && done == 0
    {
      this.starts, this.cancels, this.batchSize := starts, cancels, batchSize;
      session, cancelled, done, results, log := null, false, 0, [], [];
    }

    /** The n-th callback carries n, the total and the n-th result. */
    ghost predicate Logged(total: nat)
      reads this
    {
      && done == |results| == |log|
      && forall i | 0 <= i < |log| :: log[i] == (i + 1, total, results[i])
    }

    ghost predicate SessionFits()
      reads this, session
    {
      session != null ==> session.slots == batchSize
    }

    method CheckCancel() returns (now: bool)
      requires cancelled ==> cancels
      modifies this`cancelled
      ensures now == cancelled && (old(cancelled) ==> cancelled) && (cancelled ==> cancels)
    {
      if cancels && !cancelled { cancelled := *; }
      now := cancelled;
    }

    method Report(r: PingResult, total: nat)
      requires Logged(total) && AllAcceptable(results, starts, cancels) && Acceptable(r, starts, cancels)
      modifies this`done, this`results, this`log
      ensures Logged(total) && AllAcceptable(results, starts, cancels)
      ensures results == old(results) + [r]
      ensures ServersOf(results) == ServersOf(old(results)) + [r.server]
    {
      done := done + 1;
      results := results + [r];
      log := log + [(done, total, r)];
    }

    method ReportAll(rs: seq<PingResult>, total: nat)
      requires Logged(total) && AllAcceptable(results, starts, cancels) && AllAcceptable(rs, starts, cancels)
      modifies this`done, this`results, this`log
      ensures Logged(total) && AllAcceptable(results, starts, cancels)
      ensures results == old(results) + rs
      ensures ServersOf(results) == ServersOf(old(results)) + ServersOf(rs)
    {
      ServersOfAppend(results, rs);
      for i := 0 to |rs|
        invariant Logged(total) && AllAcceptable(results, starts, cancels)
        invariant results == old(results) + rs[..i]
      {
        Report(rs[i], total);
        assert rs[..i + 1] == rs[..i] + [rs[i]];
      }
      assert rs[..|rs|] == rs;
    }

    method StopSession()
      modifies this`session
      ensures session == null
    {
      session := null;
    }

    method StartSession() returns (ok: bool)
      modifies this`session
      ensures starts ==> ok
      ensures ok ==> session != null && fresh(session) && session.running && session.slots == batchSize
      ensures !ok ==> session == null
    {
      ok := starts;
      if !ok { ok := *; }
      if ok { session := new Session(batchSize); } else { session := null; }
    }

    /** A session that is running, or the news that Xray did not start. */
    method EnsureSession() returns (ok: bool)
      requires SessionFits()
      modifies this`session
      ensures SessionFits() && (starts ==> ok)
      ensures session == old(session) || session == null || fresh(session)
      ensures ok ==> session != null && session.running
      ensures !ok ==> session == null
    {
      ok := true;
      if session == null || !session.running {
        StopSession();
        ok := StartSession();
      }
    }

    /** `_retry_crashed_batch`: every server alone, with a restart after each crash. */
    method RetryCrashedBatch(batch: seq<Server>) returns (isolated: seq<PingResult>)
      requires SessionFits() && PastTcp(batch) && batchSize > 0 && (cancelled ==> cancels)
      modifies this`session, this`cancelled, session
      ensures SessionFits() && (session == old(session) || session == null || fresh(session))
      ensures old(cancelled) ==> cancelled
      ensures cancelled ==> cancels
      ensures AllAcceptable(isolated, starts, cancels)
      ensures ServersOf(isolated) <= batch
      ensures !cancelled ==> ServersOf(isolated) == batch
    {
      isolated := [];
      for i := 0 to |batch|
        invariant SessionFits() && (session == old(session) || session == null || fresh(session))
        invariant old(cancelled) ==> cancelled
        invariant cancelled ==> cancels
        invariant AllAcceptable(isolated, starts, cancels) && ServersOf(isolated) == batch[..i]
      {
        var stop := CheckCancel();
        if stop { return; }
        var one;
        var ok := EnsureSession();
        if !ok {
          one := FailAll([batch[i]], NOT_RESTARTED);
        } else {
          one := session.ProbeBatch([batch[i]]);
          if !session.running { StopSession(); }
        }
        ServersOfAppend(isolated, one);
        assert batch[..i + 1] == batch[..i] + [batch[i]];
        isolated := isolated + one;
      }
      assert batch[..|batch|] == batch;
    }

    /** The TCP stage of one chunk: rejected servers are reported, the others go on. */
    method TcpStage(chunk: seq<Server>, total: nat) returns (survivors: seq<Server>)
      requires Logged(total) && AllAcceptable(results, starts, cancels) && (cancelled ==> cancels)
      modifies this`done, this`results, this`log, this`cancelled
      ensures Logged(total) && AllAcceptable(results, starts, cancels) && PastTcp(survivors)
      ensures old(cancelled) ==> cancelled
      ensures cancelled ==> cancels
      ensures multiset(ServersOf(results)) + multiset(survivors) == multiset(ServersOf(old(results))) + multiset(chunk)
    {
      survivors := [];
      for i := 0 to |chunk|
        invariant Logged(total) && AllAcceptable(results, starts, cancels) && PastTcp(survivors)
        invariant old(cancelled) ==> cancelled
        invariant cancelled ==> cancels
        invariant multiset(ServersOf(results)) + multiset(survivors)
               == multiset(ServersOf(old(results))) + multiset(chunk[..i])
      {
        var s := chunk[i];
        assert chunk[..i + 1] == chunk[..i] + [s];
        ghost var before, kept := ServersOf(results), survivors;
        var stop := CheckCancel();
        if stop {
          Report(Cancelled(s), total);
        } else if s.tcpError.Some? {
          Report(Failure(s, s.tcpError.value, "tcp"), total);
        } else {
          survivors := survivors + [s];
        }
        OneMore(before, kept, s, ServersOf(results), survivors);
      }
      assert chunk[..|chunk|] == chunk;
    }

    /** One batch of servers that passed the TCP stage. */
    method ProbeStage(batch: seq<Server>) returns (batchResults: seq<PingResult>)
      requires SessionFits() && PastTcp(batch) && 0 < |batch| <= batchSize && (cancelled ==> cancels)
      modifies this`session, this`cancelled, session
      ensures SessionFits() && (session == old(session) || session == null || fresh(session))
      ensures old(cancelled) ==> cancelled
      ensures cancelled ==> cancels
      ensures AllAcceptable(batchResults, starts, cancels)
      ensures ServersOf(batchResults) <= batch
      ensures !cancelled ==> ServersOf(batchResults) == batch
    {
      var ok := EnsureSession();
      if !ok { return FailAll(batch, NOT_RESTARTED); }
      batchResults := session.ProbeBatch(batch);
      if !session.running && |batch| > 1 {
        StopSession();
        batchResults := RetryCrashedBatch(batch);
      }
    }

    /** Reports no server twice, and every server unless cancelled. */
    ghost predicate Accounts(before: seq<PingResult>, given: seq<Server>)
      reads this
    {
      && multiset(ServersOf(results)) <= multiset(ServersOf(before)) + multiset(given)
      && (!cancelled ==> multiset(ServersOf(results)) == multiset(ServersOf(before)) + multiset(given))
    }

    method ReportBatch(rs: seq<PingResult>, batch: seq<Server>, total: nat)
      requires Logged(total) && AllAcceptable(results, starts, cancels) && AllAcceptable(rs, starts, cancels)
      requires ServersOf(rs) <= batch && (!cancelled ==> ServersOf(rs) == batch)
      modifies this`done, this`results, this`log
      ensures Logged(total) && AllAcceptable(results, starts, cancels)
      ensures Accounts(old(results), batch)
    {
      ReportAll(rs, total);
      ghost var rest := batch[|rs|..];
      assert batch == ServersOf(rs) + rest;
    }

    method ProbeOneBatch(batch: seq<Server>, total: nat)
      requires Logged(total) && AllAcceptable(results, starts, cancels)
      requires SessionFits() && PastTcp(batch) && 0 < |batch| <= batchSize && (cancelled ==> cancels)
      modifies this`session, this`cancelled, this`done, this`results, this`log, session
      ensures Logged(total) && AllAcceptable(results, starts, cancels)
      ensures SessionFits() && (session == old(session) || session == null || fresh(session))
      ensures (old(cancelled) ==> cancelled) && (cancelled ==> cancels)
      ensures Accounts(old(results), batch)
    {
      var batchResults := ProbeStage(batch);
      ReportBatch(batchResults, batch, total);
    }

    /** The batches of one chunk. */
    method ProbeSurvivors(survivors: seq<Server>, total: nat)
      requires Logged(total) && AllAcceptable(results, starts, cancels)
      requires SessionFits() && PastTcp(survivors) && batchSize > 0 && (cancelled ==> cancels)
      modifies this`session, this`cancelled, this`done, this`results, this`log, session
      ensures Logged(total) && AllAcceptable(results, starts, cancels)
      ensures SessionFits() && (session == old(session) || session == null || fresh(session))
      ensures (old(cancelled) ==> cancelled) && (cancelled ==> cancels)
      ensures Accounts(old(results), survivors)
    {
      var next := 0;
      ghost var before := ServersOf(results);
      while next < |survivors|
        invariant next <= |survivors|
        invariant Logged(total) && AllAcceptable(results, starts, cancels)
        invariant SessionFits() && (session == old(session) || session == null || fresh(session))
        invariant (old(cancelled) ==> cancelled) && (cancelled ==> cancels)
        invariant Accounts(old(results), survivors[..next])
      {
        var stop := CheckCancel();
        if stop {
          FewerAccounted(before, survivors, next);
          return;
        }
        var end := if next + batchSize < |survivors| then next + batchSize else |survivors|;
        ProbeOneBatch(survivors[next..end], total);
        JoinAccounted(before, survivors, next, end);
        next := end;
      }
      assert survivors[..next] == survivors;
    }

    method PingChunk(chunk: seq<Server>, total: nat)
      requires Logged(total) && AllAcceptable(results, starts, cancels)
      requires SessionFits() && batchSize > 0 && (cancelled ==> cancels)
      modifies this`session, this`cancelled, this`done, this`results, this`log, session
      ensures Logged(total) && AllAcceptable(results, starts, cancels)
      ensures SessionFits() && (session == old(session) || session == null || fresh(session))
      ensures (old(cancelled) ==> cancelled) && (cancelled ==> cancels)
      ensures Accounts(old(results), chunk)
    {
      var survivors := TcpStage(chunk, total);
      if survivors == [] { return; }
      if session != null && !session.running { StopSession(); }
      if session == null {
        var ok := StartSession();
        if !ok {
          ReportBatch(FailAll(survivors, NOT_STARTED), survivors, total);
          return;
        }
      }
      ProbeSurvivors(survivors, total);
    }

    /** Without an Xray binary nothing is tested: every server fails, in order, one callback each. */
    method FailWithoutXray(servers: seq<Server>, error: string)
      requires results == [] && log == [] && done == 0
      modifies this`done, this`results, this`log
      ensures results == FailAll(servers, error)
      ensures Logged(|servers|)
    {
      for i := 0 to |servers|
        invariant done == i && results == FailAll(servers, error)[..i]
        invariant Logged(|servers|)
      {
        var r := Failure(servers[i], error, "xray");
        done := done + 1;
        results := results + [r];
        log := log + [(done, |servers|, r)];
      }
    }

    /** `ping_v2ray_servers` with an Xray binary. Every result is one its server may end with; the callback counts
        1, 2, ... with one result each; no server is reported twice, and unless the run is
        cancelled every server is reported. */
    method PingServers(servers: seq<Server>, tcpConcurrency: int)
      requires session == null && !cancelled && results == [] && log == [] && done == 0 && batchSize > 0
      modifies this
      ensures Logged(|servers|) && AllAcceptable(results, starts, cancels)
      ensures multiset(ServersOf(results)) <= multiset(servers)
      ensures !cancels ==> multiset(ServersOf(results)) == multiset(servers)
      ensures starts && !cancels ==> AllTellRight(results)
      ensures session == null
    {
      var chunkSize := if tcpConcurrency > 1 then tcpConcurrency else 1;
      var offset := 0;
      while offset < |servers|
        invariant offset <= |servers|
        invariant Logged(|servers|) && AllAcceptable(results, starts, cancels)
        invariant SessionFits() && (session == null || fresh(session)) && (cancelled ==> cancels)
        invariant Accounts([], servers[..offset])
      {
        var stop := CheckCancel();
        if stop {
          FewerAccounted([], servers, offset);
          StopSession();
          return;
        }
        var end := if offset + chunkSize < |servers| then offset + chunkSize else |servers|;
        ghost var before := results;
        PingChunk(servers[offset..end], |servers|);
        JoinAccounted([], servers, offset, end);
        offset := end;
      }
      assert servers[..offset] == servers;
      if starts && !cancels { AllTameTellRight(results); }
      StopSession();
    }
  }

  lemma FewerAccounted(before: seq<Server>, all: seq<Server>, next: nat)
    requires next <= |all|
    ensures multiset(before) + multiset(all[..next]) <= multiset(before) + multiset(all)
  {
    assert all == all[..next] + all[next..];
  }

  lemma JoinAccounted(before: seq<Server>, all: seq<Server>, next: nat, end: nat)
    requires next <= end <= |all|
    ensures multiset(before) + multiset(all[..next]) + multiset(all[next..end]) == multiset(before) + multiset(all[..end])
  {
    assert all[..end] == all[..next] + all[next..end];
  }

  lemma CountOneMore<T>(a: seq<T>, x: T, y: T)
    ensures multiset(a + [x])[y] == multiset(a)[y] + if x == y then 1 else 0
  {
  }

  lemma ExpectedFor(s: Server)
    ensures Expected(s).server == s
  {
  }

  lemma TameOne(r: PingResult, s: Server)
    requires Acceptable(r, true, false) && Tame(s)
    ensures r == Expected(s) <==> r.server == s
  {
    ExpectedFor(s);
    if r.server == s {
      assert Tame(r.server);
    }
  }

  lemma {:induction false} TameCount(results: seq<PingResult>, s: Server)
    requires AllAcceptable(results, true, false) && Tame(s)
    ensures multiset(results)[Expected(s)] == multiset(ServersOf(results))[s]
  {
    var n := |results| - 1;
    if results != [] {
      var before, r := results[..n], results[n];
      TameCount(before, s);
      TameOne(r, s);
      CountOneMore(before, r, Expected(s));
      CountOneMore(ServersOf(before), r.server, s);
      assert results == before + [r];
      assert ServersOf(results) == ServersOf(before) + [r.server];
    }
  }

  /** The batched prober refines testing each server alone. `results` is any outcome
      `PingServers` allows when every start of Xray succeeds and nothing is cancelled. Whatever
      the killers among the servers do, every other server gets its lone result, as often as it
      was given, and nothing else. */
  lemma BatchedIsLone(servers: seq<Server>, results: seq<PingResult>, s: Server)
    requires AllAcceptable(results, true, false) && multiset(ServersOf(results)) == multiset(servers)
    requires Tame(s)
    ensures multiset(results)[Expected(s)] == multiset(servers)[s]
    ensures forall r | r in results && r.server == s :: r == Expected(s)
  {
    TameCount(results, s);
  }
}
