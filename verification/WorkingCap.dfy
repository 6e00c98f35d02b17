/** The bounded-concurrency pinger of mtproto/ping.py as a protocol over its suspension points.

    A lock body never suspends, so between two suspension points a task runs alone: leaving the
    semaphore, taking the lock and recording a result are one step. Which waiter gets a freed
    permit, and when, is left open, which covers every order of the event loop.  */
module WorkingCap {
  import opened Wrappers
  import opened Ordering
  import opened Arith

  /** Fresh: not yet started. Waiting: queued on the semaphore. Granted: woken with a permit but
      not yet resumed. Pinging: inside `ping_proxy`. Recorded or Skipped: finished. */
  datatype Phase = Fresh | Waiting | Granted | Pinging | Recorded | Skipped

  datatype Job = Job(keys: seq<string>, initial: set<string>, permits: nat, cap: Option<int>)

  datatype Event = Begin(task: nat, direct: bool) | Grant(task: nat) | Resume(task: nat)
                 | Finish(task: nat, ok: bool) | Cancel

  /** `results`: what was appended, as (task, ok). */
  datatype State = State(phases: seq<Phase>, working: set<string>, free: nat, cancelled: bool,
                         results: seq<(nat, bool)>)

  function Start(job: Job): State {
    State(seq(|job.keys|, i => Fresh), job.initial, job.permits, false, [])
  }

  predicate Blocked(job: Job, s: State, key: string) {
    s.cancelled || (job.cap.Some? && |s.working| >= job.cap.value && key !in s.working)
  }

  function Marked(working: set<string>, key: string, ok: bool): set<string> {
    if ok then working + {key} else working - {key}
  }

  /** One step of one task; an event that is not possible changes nothing. */
  function Next(job: Job, s: State, e: Event): State
    requires |s.phases| == |job.keys|
  {
    if e.Cancel? then s.(cancelled := true)
    else if e.task >= |s.phases| then s
    else
      var t := e.task;
      match (e, s.phases[t])
      case (Begin(_, direct), Fresh) =>
        if Blocked(job, s, job.keys[t]) then s.(phases := s.phases[t := Skipped])
        else if direct && s.free > 0 then s.(phases := s.phases[t := Pinging], free := s.free - 1)
        else s.(phases := s.phases[t := Waiting])
      case (Grant(_), Waiting) =>
        if s.free > 0 then s.(phases := s.phases[t := Granted], free := s.free - 1) else s
      case (Resume(_), Granted) =>
        if Blocked(job, s, job.keys[t]) then s.(phases := s.phases[t := Skipped], free := s.free + 1)
        else s.(phases := s.phases[t := Pinging])
      case (Finish(_, ok), Pinging) =>
        s.(phases := s.phases[t := Recorded], free := s.free + 1,
           working := Marked(s.working, job.keys[t], ok), results := s.results + [(t, ok)])
      case _ => s
  }

  function Run(job: Job, events: seq<Event>): (s: State)
    ensures |s.phases| == |job.keys|
    decreases |events|
  {
    if events == [] then Start(job)
    else Next(job, Run(job, events[..|events| - 1]), events[|events| - 1])
  }

  // ---- permits ------------------------------------------------------------------------

  function Holders(s: State): set<nat> {
    set t: nat | t < |s.phases| && (s.phases[t].Granted? || s.phases[t].Pinging?)
  }

  function Flying(s: State): set<nat> { set t: nat | t < |s.phases| && s.phases[t].Pinging? }

  function FlyingKeys(job: Job, s: State): set<string>
    requires |s.phases| == |job.keys|
  {
    set t | t in Flying(s) :: job.keys[t]
  }

  lemma HoldersStep(s: State, t: nat, p: Phase)
    requires t < |s.phases|
    ensures Holders(s.(phases := s.phases[t := p]))
         == if p.Granted? || p.Pinging? then Holders(s) + {t} else Holders(s) - {t}
    ensures Flying(s.(phases := s.phases[t := p])) == if p.Pinging? then Flying(s) + {t} else Flying(s) - {t}
  {
  }

  function Held(p: Phase): nat { if p.Granted? || p.Pinging? then 1 else 0 }

  /** A step moves at most its own task, and takes or gives back a permit accordingly. */
  lemma OneTaskMoves(job: Job, s: State, e: Event)
    requires |s.phases| == |job.keys| && !e.Cancel? && e.task < |s.phases|
    ensures Next(job, s, e).phases == s.phases[e.task := Next(job, s, e).phases[e.task]]
    ensures Next(job, s, e).free + Held(Next(job, s, e).phases[e.task]) == s.free + Held(s.phases[e.task])
  {
  }

  lemma HolderIff(s: State, t: nat)
    requires t < |s.phases|
    ensures t in Holders(s) <==> Held(s.phases[t]) == 1
  {
  }

  lemma HoldersCard(s: State, t: nat, p: Phase)
    requires t < |s.phases|
    ensures |Holders(s.(phases := s.phases[t := p]))| == |Holders(s)| - Held(s.phases[t]) + Held(p)
  {
    var h := Holders(s);
    HoldersStep(s, t, p);
    HolderIff(s, t);
    if t in h {
      assert h == (h - {t}) + {t};
      assert |h| == |h - {t}| + 1;
      assert h + {t} == h;
    } else {
      assert |h + {t}| == |h| + 1;
      assert h - {t} == h;
    }
  }

  lemma SamePhases(s: State, s': State)
    requires s.phases == s'.phases
    ensures Holders(s) == Holders(s') && Flying(s) == Flying(s')
  {
  }

  lemma PermitsStep(job: Job, s: State, e: Event)
    requires |s.phases| == |job.keys| && s.free + |Holders(s)| == job.permits
    ensures Next(job, s, e).free + |Holders(Next(job, s, e))| == job.permits
  {
    if !e.Cancel? && e.task < |s.phases| {
      var s' := Next(job, s, e);
      var p := s'.phases[e.task];
      OneTaskMoves(job, s, e);
      HoldersCard(s, e.task, p);
      SamePhases(s.(phases := s.phases[e.task := p]), s');
    } else {
      SamePhases(s, Next(job, s, e));
    }
  }

  /** Free and held permits always add up, so no more than `permits` pings fly at once. */
  lemma {:induction false} PermitsConserved(job: Job, events: seq<Event>)
    ensures Run(job, events).free + |Holders(Run(job, events))| == job.permits
    ensures |Flying(Run(job, events))| <= job.permits
    decreases |events|
  {
    var s := Run(job, events);
    if events == [] {
      assert Holders(s) == {};
    } else {
      PermitsConserved(job, events[..|events| - 1]);
      PermitsStep(job, Run(job, events[..|events| - 1]), events[|events| - 1]);
    }
    SubsetCard(Flying(s), Holders(s));
  }

  lemma {:induction false} ImageCard(job: Job, tasks: set<nat>)
    requires forall t | t in tasks :: t < |job.keys|
    ensures |set t | t in tasks :: job.keys[t]| <= |tasks|
  {
    if tasks != {} {
      var t :| t in tasks;
      ImageCard(job, tasks - {t});
      assert (set u | u in tasks :: job.keys[u]) == (set u | u in tasks - {t} :: job.keys[u]) + {job.keys[t]};
    }
  }

  // ---- the cap ------------------------------------------------------------------------

  /** The working keys together with the keys in flight. */
  function Reach(job: Job, s: State): set<string>
    requires |s.phases| == |job.keys|
  {
    s.working + FlyingKeys(job, s)
  }

  lemma FlyingStep(job: Job, s: State, e: Event)
    requires |s.phases| == |job.keys|
    ensures var s' := Next(job, s, e);
      Flying(s') == (if e.Cancel? || e.task >= |s.phases| then Flying(s)
                     else if s'.phases[e.task].Pinging? then Flying(s) + {e.task} else Flying(s) - {e.task})
  {
    var s' := Next(job, s, e);
    if !e.Cancel? && e.task < |s.phases| {
      var p := s'.phases[e.task];
      OneTaskMoves(job, s, e);
      HoldersStep(s, e.task, p);
      SamePhases(s.(phases := s.phases[e.task := p]), s');
    } else {
      SamePhases(s, s');
    }
  }

  lemma FewerFlying(job: Job, s: State, s': State)
    requires |s.phases| == |s'.phases| == |job.keys| && Flying(s') <= Flying(s)
    ensures FlyingKeys(job, s') <= FlyingKeys(job, s)
  {
  }

  lemma OneMoreFlying(job: Job, s: State, s': State, t: nat)
    requires |s.phases| == |s'.phases| == |job.keys| && t < |s.phases| && Flying(s') == Flying(s) + {t}
    ensures FlyingKeys(job, s') <= FlyingKeys(job, s) + {job.keys[t]}
  {
  }

  lemma FlyingKey(job: Job, s: State, t: nat)
    requires |s.phases| == |job.keys| && t < |s.phases| && s.phases[t].Pinging?
    ensures job.keys[t] in FlyingKeys(job, s)
  {
    assert t in Flying(s);
  }

  /** What a step does to the working keys, and when a task may start to ping. */
  lemma WorkingStep(job: Job, s: State, e: Event)
    requires |s.phases| == |job.keys| && job.cap.Some? && !e.Cancel? && e.task < |s.phases|
    ensures var s' := Next(job, s, e);
      && (s.phases[e.task].Pinging? && !s'.phases[e.task].Pinging? ==> s'.working <= s.working + {job.keys[e.task]})
      && (s.phases[e.task].Pinging? <== s'.working != s.working)
      && (s'.phases[e.task].Pinging? ==> s'.working == s.working)
      && (s'.phases[e.task].Pinging? && !s.phases[e.task].Pinging? ==>
            |s.working| < job.cap.value || job.keys[e.task] in s.working)
  {
  }

  /** Only a task that starts to ping can enlarge the reach, and then it held a place below the
      cap or brought a key that was working already. */
  lemma ReachStep(job: Job, s: State, e: Event)
    requires |s.phases| == |job.keys| && job.cap.Some?
    ensures var s' := Next(job, s, e);
            Reach(job, s') <= Reach(job, s) || (s'.working == s.working && |s.working| < job.cap.value)
  {
    var s' := Next(job, s, e);
    FlyingStep(job, s, e);
    if e.Cancel? || e.task >= |s.phases| {
      FewerFlying(job, s, s');
    } else {
      WorkingStep(job, s, e);
      if s'.phases[e.task].Pinging? {
        OneMoreFlying(job, s, s', e.task);
        if s.phases[e.task].Pinging? { FlyingKey(job, s, e.task); }
      } else {
        FewerFlying(job, s, s');
        if s.phases[e.task].Pinging? { FlyingKey(job, s, e.task); }
      }
    }
  }

  lemma UnionCard<T>(a: set<T>, b: set<T>)
    ensures |a + b| <= |a| + |b|
  {
    assert a + b == a + (b - a);
    SubsetCard(b - a, b);
  }

  /** In every run, under every interleaving: the working keys together with the keys in flight
      never exceed max(|initial|, cap - 1 + permits). */
  lemma {:induction false} ReachStaysUnderCap(job: Job, events: seq<Event>)
    requires job.cap.Some?
    ensures |Reach(job, Run(job, events))| <= Max(|job.initial|, job.cap.value - 1 + job.permits)
    decreases |events|
  {
    var s := Run(job, events);
    if events == [] {
      assert Reach(job, s) == job.initial;
    } else {
      var before := Run(job, events[..|events| - 1]);
      ReachStaysUnderCap(job, events[..|events| - 1]);
      ReachStep(job, before, events[|events| - 1]);
      if Reach(job, s) <= Reach(job, before) {
        SubsetCard(Reach(job, s), Reach(job, before));
      } else {
        PermitsConserved(job, events);
        ImageCard(job, Flying(s));
        UnionCard(s.working, FlyingKeys(job, s));
      }
    }
  }

  lemma WorkingStaysUnderCap(job: Job, events: seq<Event>)
    requires job.cap.Some?
    ensures |Run(job, events).working| <= Max(|job.initial|, job.cap.value - 1 + job.permits)
  {
    ReachStaysUnderCap(job, events);
    SubsetCard(Run(job, events).working, Reach(job, Run(job, events)));
  }

  // ---- the bound is reached -----------------------------------------------------------

  lemma RunStep(job: Job, events: seq<Event>, e: Event)
    ensures Run(job, events + [e]) == Next(job, Run(job, events), e)
  {
    assert (events + [e])[..|events|] == events;
  }

  /** Distinct keys, none of them working at the start. */
  ghost predicate AllNew(job: Job) {
    && job.initial == {}
    && (forall i, j | 0 <= i < j < |job.keys| :: job.keys[i] != job.keys[j])
  }

  function FirstKeys(job: Job, n: nat): set<string>
    requires n <= |job.keys|
  {
    set i: nat | i < n :: job.keys[i]
  }

  lemma NextKey(job: Job, n: nat)
    requires AllNew(job) && n < |job.keys|
    ensures job.keys[n] !in FirstKeys(job, n)
    ensures FirstKeys(job, n + 1) == FirstKeys(job, n) + {job.keys[n]}
  {
  }

  lemma {:induction false} FirstKeysCard(job: Job, n: nat)
    requires AllNew(job) && n <= |job.keys|
    ensures |FirstKeys(job, n)| == n
  {
    if n == 0 {
      assert FirstKeys(job, n) == {};
    } else {
      FirstKeysCard(job, n - 1);
      NextKey(job, n - 1);
    }
  }

  /** `gather` runs every task to its first suspension before any ping can answer. */
  ghost predicate StartsAll(job: Job, events: seq<Event>) {
    |events| >= |job.keys| && forall i: nat | i < |job.keys| :: events[i] == Begin(i, true)
  }

  /** The first n tasks have begun: they ping while there are permits, and wait otherwise. */
  ghost predicate Begun(job: Job, s: State, n: nat) {
    && n <= |job.keys| == |s.phases|
    && s.working == {} && !s.cancelled && s.free == (if n < job.permits then job.permits - n else 0)
    && (forall i | 0 <= i < n :: s.phases[i] == if i < job.permits then Pinging else Waiting)
    && forall i | n <= i < |s.phases| :: s.phases[i] == Fresh
  }

  lemma OneBegins(job: Job, s: State, n: nat)
    requires AllNew(job) && Begun(job, s, n) && n < |job.keys| && job.cap.Some? && job.cap.value > 0
    ensures Begun(job, Next(job, s, Begin(n, true)), n + 1)
  {
  }

  lemma {:induction false} BeginRun(job: Job, n: nat) returns (events: seq<Event>)
    requires AllNew(job) && n <= |job.keys| && job.cap.Some? && job.cap.value > 0
    ensures Begun(job, Run(job, events), n)
    ensures |events| == n && forall i: nat | i < n :: events[i] == Begin(i, true)
  {
    if n == 0 {
      events := [];
    } else {
      var before := BeginRun(job, n - 1);
      OneBegins(job, Run(job, before), n - 1);
      RunStep(job, before, Begin(n - 1, true));
      events := before + [Begin(n - 1, true)];
    }
  }

  /** The first r tasks succeeded, the next ones ping with all the permits, the others wait. */
  ghost predicate Rolling(job: Job, s: State, r: nat) {
    && r + job.permits <= |job.keys| == |s.phases|
    && s.working == FirstKeys(job, r) && !s.cancelled && s.free == 0
    && (forall i | r <= i < r + job.permits :: s.phases[i] == Pinging)
    && forall i | r + job.permits <= i < |s.phases| :: s.phases[i] == Waiting
  }

  lemma BelowCap(job: Job, s: State, n: nat, key: string)
    requires AllNew(job) && n <= |job.keys| && s.working == FirstKeys(job, n) && !s.cancelled
    requires job.cap.Some? && n < job.cap.value
    ensures !Blocked(job, s, key)
  {
    FirstKeysCard(job, n);
  }

  /** In between: task r - 1 succeeded, and the first that waits may have been woken. */
  ghost predicate Handing(job: Job, s: State, r: nat, woken: bool) {
    && 0 < r && r + job.permits <= |job.keys| == |s.phases|
    && s.working == FirstKeys(job, r) && !s.cancelled && s.free == (if woken then 0 else 1)
    && (forall i | r <= i < r + job.permits - 1 :: s.phases[i] == Pinging)
    && (forall i | r + job.permits <= i < |s.phases| :: s.phases[i] == Waiting)
    && s.phases[r + job.permits - 1] == if woken then Granted else Waiting
  }

  lemma RoundFinish(job: Job, events: seq<Event>, r: nat)
    requires AllNew(job) && Rolling(job, Run(job, events), r) && r + 1 + job.permits <= |job.keys| && job.permits > 0
    ensures Handing(job, Run(job, events + [Finish(r, true)]), r + 1, false)
  {
    RunStep(job, events, Finish(r, true));
    NextKey(job, r);
  }

  lemma RoundGrant(job: Job, events: seq<Event>, r: nat)
    requires Handing(job, Run(job, events), r, false) && job.permits > 0
    ensures Handing(job, Run(job, events + [Grant(r + job.permits - 1)]), r, true)
  {
    RunStep(job, events, Grant(r + job.permits - 1));
  }

  lemma RoundResume(job: Job, events: seq<Event>, r: nat)
    requires AllNew(job) && Handing(job, Run(job, events), r, true) && job.permits > 0
    requires job.cap.Some? && r < job.cap.value
    ensures Rolling(job, Run(job, events + [Resume(r + job.permits - 1)]), r)
  {
    RunStep(job, events, Resume(r + job.permits - 1));
    BelowCap(job, Run(job, events), r, job.keys[r + job.permits - 1]);
  }

  /** One task succeeds and hands its permit to the first that waits. */
  lemma OneRound(job: Job, before: seq<Event>, r: nat) returns (events: seq<Event>)
    requires AllNew(job) && StartsAll(job, before) && Rolling(job, Run(job, before), r)
    requires r + 1 + job.permits <= |job.keys| && job.permits > 0 && job.cap.Some? && r + 1 < job.cap.value
    ensures StartsAll(job, events) && Rolling(job, Run(job, events), r + 1)
  {
    RoundFinish(job, before, r);
    events := before + [Finish(r, true)];
    RoundGrant(job, events, r + 1);
    events := events + [Grant(r + job.permits)];
    RoundResume(job, events, r + 1);
    events := events + [Resume(r + job.permits)];
  }

  lemma AllBegun(job: Job, s: State)
    requires Begun(job, s, |job.keys|) && job.permits <= |job.keys|
    ensures Rolling(job, s, 0)
  {
    assert FirstKeys(job, 0) == {};
  }

  /** All tasks begin, and then one after the other succeeds until the working set is one short of
      the cap. */
  lemma {:induction false} RollRun(job: Job, r: nat) returns (events: seq<Event>)
    requires AllNew(job) && r + job.permits <= |job.keys| && job.permits > 0
    requires job.cap.Some? && r < job.cap.value
    ensures StartsAll(job, events) && Rolling(job, Run(job, events), r)
  {
    if r == 0 {
      events := BeginRun(job, |job.keys|);
      AllBegun(job, Run(job, events));
    } else {
      var before := RollRun(job, r - 1);
      events := OneRound(job, before, r - 1);
    }
  }

  /** From there the tasks in flight succeed, and those they wake come too late. */
  ghost predicate InFlight(job: Job, s: State, n: nat, end: nat) {
    && n <= end <= |job.keys| == |s.phases|
    && s.working == FirstKeys(job, n)
    && forall i | n <= i < end :: s.phases[i] == Pinging
  }

  lemma OneLands(job: Job, s: State, n: nat, end: nat)
    requires AllNew(job) && InFlight(job, s, n, end) && n < end
    ensures InFlight(job, Next(job, s, Finish(n, true)), n + 1, end)
  {
    NextKey(job, n);
  }

  lemma {:induction false} LandRun(job: Job, alone: nat, landed: nat) returns (events: seq<Event>)
    requires AllNew(job) && alone + job.permits <= |job.keys| && job.permits > 0
    requires job.cap.Some? && alone < job.cap.value && landed <= job.permits
    ensures StartsAll(job, events) && InFlight(job, Run(job, events), alone + landed, alone + job.permits)
  {
    if landed == 0 {
      events := RollRun(job, alone);
    } else {
      var before := LandRun(job, alone, landed - 1);
      OneLands(job, Run(job, before), alone + landed - 1, alone + job.permits);
      RunStep(job, before, Finish(alone + landed - 1, true));
      events := before + [Finish(alone + landed - 1, true)];
    }
  }

  /** The bound cannot be lowered: for every cap and every number of permits it is reached by a run
      that begins all its tasks first. */
  lemma CapOvershootIsReached(job: Job, cap: nat)
    requires job.cap == Some(cap) && cap > 0 && job.permits > 0
    requires AllNew(job) && |job.keys| >= cap - 1 + job.permits
    ensures exists events :: StartsAll(job, events) && |Run(job, events).working| == cap - 1 + job.permits
  {
    var events := LandRun(job, cap - 1, job.permits);
    InFlightWorking(job, Run(job, events), cap - 1 + job.permits, cap - 1 + job.permits);
  }

  lemma InFlightWorking(job: Job, s: State, n: nat, end: nat)
    requires AllNew(job) && InFlight(job, s, n, end)
    ensures |s.working| == n
  {
    FirstKeysCard(job, n);
  }

  // ---- what is recorded ---------------------------------------------------------------

  /** The working set after the recorded results, taken in order. */
  function Replay(job: Job, results: seq<(nat, bool)>): set<string> {
    if results == [] then job.initial
    else
      var last := results[|results| - 1];
      var before := Replay(job, results[..|results| - 1]);
      if last.0 < |job.keys| then Marked(before, job.keys[last.0], last.1) else before
  }

  predicate Reported(s: State, t: nat) { exists i | 0 <= i < |s.results| :: s.results[i].0 == t }

  /** A task is reported exactly when it is Recorded, and only once. */
  ghost predicate ReportsOnce(s: State) {
    && (forall t: nat :: Reported(s, t) <==> t < |s.phases| && s.phases[t].Recorded?)
    && (forall i, j | 0 <= i < j < |s.results| :: s.results[i].0 != s.results[j].0)
  }

  lemma ReportsStep(job: Job, s: State, e: Event)
    requires |s.phases| == |job.keys| && ReportsOnce(s)
    ensures ReportsOnce(Next(job, s, e))
  {
    var s' := Next(job, s, e);
    if s'.results != s.results {
      var n := |s.results|;
      assert s'.results[n].0 == e.task && !Reported(s, e.task);
      forall t: nat ensures Reported(s', t) <==> Reported(s, t) || t == e.task {
        if Reported(s, t) {
          var i :| 0 <= i < n && s.results[i].0 == t;
          assert s'.results[i].0 == t;
        }
      }
    } else {
      forall t: nat ensures Reported(s', t) <==> Reported(s, t) {
      }
    }
  }

  lemma {:induction false} EachTaskReportedOnce(job: Job, events: seq<Event>)
    ensures ReportsOnce(Run(job, events))
    decreases |events|
  {
    if events != [] {
      EachTaskReportedOnce(job, events[..|events| - 1]);
      ReportsStep(job, Run(job, events[..|events| - 1]), events[|events| - 1]);
    }
  }

  lemma ReplayOne(job: Job, results: seq<(nat, bool)>, t: nat, ok: bool)
    requires t < |job.keys|
    ensures Replay(job, results + [(t, ok)]) == Marked(Replay(job, results), job.keys[t], ok)
  {
    assert (results + [(t, ok)])[..|results|] == results;
  }

  lemma ReplayStep(job: Job, s: State, e: Event)
    requires |s.phases| == |job.keys| && s.working == Replay(job, s.results)
    ensures Next(job, s, e).working == Replay(job, Next(job, s, e).results)
  {
    if e.Finish? && e.task < |s.phases| { ReplayOne(job, s.results, e.task, e.ok); }
  }

  /** The working set is what the recorded results say, last word per key. */
  lemma {:induction false} WorkingIsReplay(job: Job, events: seq<Event>)
    ensures Run(job, events).working == Replay(job, Run(job, events).results)
    decreases |events|
  {
    if events != [] {
      WorkingIsReplay(job, events[..|events| - 1]);
      ReplayStep(job, Run(job, events[..|events| - 1]), events[|events| - 1]);
    }
  }

  predicate Uncut(events: seq<Event>) { Cancel !in events }

  /** Without a cap and without cancellation no task is ever skipped. */
  lemma {:induction false} NothingSkipped(job: Job, events: seq<Event>)
    requires job.cap == None && Uncut(events)
    ensures !Run(job, events).cancelled
    ensures forall t | 0 <= t < |job.keys| :: !Run(job, events).phases[t].Skipped?
    decreases |events|
  {
    if events != [] {
      NothingSkipped(job, events[..|events| - 1]);
      assert events[|events| - 1] in events;
    }
  }

  predicate Finished(s: State) {
    forall t | 0 <= t < |s.phases| :: s.phases[t].Recorded? || s.phases[t].Skipped?
  }

  /** Then a finished run has reported every task exactly once. */
  lemma EveryTaskReported(job: Job, events: seq<Event>)
    requires job.cap == None && Uncut(events) && Finished(Run(job, events))
    ensures ReportsOnce(Run(job, events))
    ensures forall t: nat | t < |job.keys| :: Reported(Run(job, events), t)
  {
    NothingSkipped(job, events);
    EachTaskReportedOnce(job, events);
  }

  // ---- progress -----------------------------------------------------------------------

  function Left(p: Phase): nat {
    match p
    case Fresh => 4
    case Waiting => 3
    case Granted => 2
    case Pinging => 1
    case _ => 0
  }

  function Work(phases: seq<Phase>): nat {
    if phases == [] then 0 else Work(phases[..|phases| - 1]) + Left(phases[|phases| - 1])
  }

  lemma {:induction false} WorkUpdate(phases: seq<Phase>, t: nat, p: Phase)
    requires t < |phases|
    ensures Work(phases[t := p]) == Work(phases) - Left(phases[t]) + Left(p)
    decreases |phases|
  {
    var n := |phases| - 1;
    if t == n {
      assert phases[t := p][..n] == phases[..n];
    } else {
      WorkUpdate(phases[..n], t, p);
      assert phases[t := p][..n] == phases[..n][t := p];
    }
  }

  /** The event that moves a task on. */
  function Push(p: Phase, t: nat): Event {
    match p
    case Fresh => Begin(t, true)
    case Waiting => Grant(t)
    case Granted => Resume(t)
    case _ => Finish(t, true)
  }

  lemma PushMoves(job: Job, s: State, t: nat)
    requires |s.phases| == |job.keys| && t < |s.phases| && Left(s.phases[t]) > 0
    requires s.free > 0 || Held(s.phases[t]) == 1
    ensures Work(Next(job, s, Push(s.phases[t], t)).phases) < Work(s.phases)
  {
    var s' := Next(job, s, Push(s.phases[t], t));
    OneTaskMoves(job, s, Push(s.phases[t], t));
    WorkUpdate(s.phases, t, s'.phases[t]);
  }

  /** With at least one permit an unfinished run can always go on, whatever happened before, and
      each such step uses up work: no deadlock, and at most four steps per task. */
  lemma CanGoOn(job: Job, events: seq<Event>)
    requires job.permits > 0 && !Finished(Run(job, events))
    ensures exists e :: Work(Next(job, Run(job, events), e).phases) < Work(Run(job, events).phases)
  {
    var s := Run(job, events);
    PermitsConserved(job, events);
    var t: nat :| t < |s.phases| && !s.phases[t].Recorded? && !s.phases[t].Skipped?;
    if Holders(s) != {} { t :| t in Holders(s); }
    PushMoves(job, s, t);
  }

  /** No step ever adds work, and one that moves a task uses some up. */
  lemma WorkNeverGrows(job: Job, s: State, e: Event)
    requires |s.phases| == |job.keys|
    ensures Work(Next(job, s, e).phases) <= Work(s.phases)
    ensures Next(job, s, e).phases != s.phases ==> Work(Next(job, s, e).phases) < Work(s.phases)
  {
    if !e.Cancel? && e.task < |s.phases| {
      OneTaskMoves(job, s, e);
      WorkUpdate(s.phases, e.task, Next(job, s, e).phases[e.task]);
      if Next(job, s, e).phases[e.task] == s.phases[e.task] { assert Next(job, s, e).phases == s.phases; }
    }
  }

  /** The events of a run that move a task. */
  function Moves(job: Job, events: seq<Event>): nat
    decreases |events|
  {
    if events == [] then 0
    else
      var n := |events| - 1;
      Moves(job, events[..n]) + if Run(job, events).phases != Run(job, events[..n]).phases then 1 else 0
  }

  lemma {:induction false} FreshWork(phases: seq<Phase>)
    requires forall i | 0 <= i < |phases| :: phases[i] == Fresh
    ensures Work(phases) == 4 * |phases|
  {
    if phases != [] { FreshWork(phases[..|phases| - 1]); }
  }

  /** In every run at most four events per task move anything, so the pushes of `CanGoOn` end. */
  lemma {:induction false} FourMovesPerTask(job: Job, events: seq<Event>)
    ensures Moves(job, events) + Work(Run(job, events).phases) <= 4 * |job.keys|
    decreases |events|
  {
    if events == [] {
      FreshWork(Start(job).phases);
    } else {
      var n := |events| - 1;
      FourMovesPerTask(job, events[..n]);
      WorkNeverGrows(job, Run(job, events[..n]), events[n]);
    }
  }
}
