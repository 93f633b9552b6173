/** The asynchronous analytics engine as a protocol: callers that count and queue metrics, workers
    that collect and flush them, and Stop, interleaved in any order. */
module EngineProtocol {
  import opened Basics
  import opened Occurrences
  import opened TimeSeries

  datatype Config = Config(workers: nat, queueSize: nat, batchSize: nat, dropOnOverflow: bool)

  type Bag = multiset<Metric>

  /** `admitted` holds calls past the stop check that have not counted yet, `inCall` those that have
      counted and not yet tried the queue, `blocked` those waiting for room in it. `counted` is what
      totalReqs counts, `dropped` what drops counts, and `abandoned` is what blocked calls gave up. */
  datatype Calls = Calls(admitted: Bag, inCall: Bag, blocked: Bag, counted: Bag, dropped: Bag, abandoned: Bag,
                         totalReqs: nat, drops: nat)

  /** A worker's batch, split while it flushes into what it still `held`s and what is already
      `pushed` to the ring. */
  datatype Worker = Worker(held: seq<Metric>, flushing: bool, pushed: seq<Metric>, exited: bool)

  datatype Work = Work(workers: seq<Worker>, ring: seq<Metric>, series: seq<Metric>)

  datatype State = State(stopped: bool, closed: bool, calls: Calls, queue: seq<Metric>, work: Work)

  const NO_CALLS := Calls(multiset{}, multiset{}, multiset{}, multiset{}, multiset{}, multiset{}, 0, 0)
  const IDLE := Worker([], false, [], false)

  function Initial(cfg: Config): State {
    State(false, false, NO_CALLS, [], Work(seq(cfg.workers, _ => IDLE), [], []))
  }

  datatype CallStep = Admit | Count | Enqueue | Drop | Block | Unblock | Abandon
  datatype WorkStep = Receive | BeginFlush | PushOne | EndFlush | Exit

  /** A step of a call with metric `m`, a step of worker `w`, or, without a buffer, a metric handed
      from a caller to a waiting worker directly. */
  datatype Action =
    | Call(call: CallStep, m: Metric)
    | Do(step: WorkStep, w: nat)
    | Hand(metric: Metric, waited: bool, worker: nat)
    | Stop
    | Close

  predicate Collecting(w: Worker) {
    !w.flushing && !w.exited
  }

  /** Waits for another metric. */
  predicate HasRoom(cfg: Config, w: Worker) {
    Collecting(w) && (w.held == [] || |w.held| < cfg.batchSize)
  }

  predicate CallEnabled(cfg: Config, s: State, call: CallStep, m: Metric) {
    match call
    case Admit => !s.stopped
    case Count => m in s.calls.admitted
    case Enqueue => m in s.calls.inCall && |s.queue| < cfg.queueSize
    case Drop => m in s.calls.inCall && |s.queue| >= cfg.queueSize && cfg.dropOnOverflow
    case Block => m in s.calls.inCall && |s.queue| >= cfg.queueSize && !cfg.dropOnOverflow
    case Unblock => m in s.calls.blocked && |s.queue| < cfg.queueSize
    case Abandon => m in s.calls.blocked && s.closed
  }

  predicate WorkEnabled(cfg: Config, s: State, step: WorkStep, w: Worker) {
    match step
    case Receive => HasRoom(cfg, w) && s.queue != []
    case BeginFlush => Collecting(w) && w.held != []
    case PushOne => w.flushing && w.held != []
    case EndFlush => w.flushing && w.held == []
    case Exit => Collecting(w) && w.held == [] && s.closed
  }

  predicate Enabled(cfg: Config, s: State, a: Action) {
    match a
    case Call(call, m) => CallEnabled(cfg, s, call, m)
    case Do(step, w) => w < |s.work.workers| && WorkEnabled(cfg, s, step, s.work.workers[w])
    case Hand(m, waited, w) =>
      && cfg.queueSize == 0 && w < |s.work.workers| && HasRoom(cfg, s.work.workers[w])
      && m in (if waited then s.calls.blocked else s.calls.inCall)
    case Stop => !s.stopped
    case Close => s.stopped && !s.closed
  }

  function NextCalls(c: Calls, call: CallStep, m: Metric): Calls {
    match call
    case Admit => c.(admitted := c.admitted + multiset{m})
    case Count => c.(admitted := c.admitted - multiset{m}, inCall := c.inCall + multiset{m},
                     counted := c.counted + multiset{m}, totalReqs := c.totalReqs + 1)
    case Enqueue => c.(inCall := c.inCall - multiset{m})
    case Drop => c.(inCall := c.inCall - multiset{m}, dropped := c.dropped + multiset{m}, drops := c.drops + 1)
    case Block => c.(inCall := c.inCall - multiset{m}, blocked := c.blocked + multiset{m})
    case Unblock => c.(blocked := c.blocked - multiset{m})
    case Abandon => c.(blocked := c.blocked - multiset{m}, abandoned := c.abandoned + multiset{m})
  }

  function Queued(queue: seq<Metric>, call: CallStep, m: Metric): seq<Metric> {
    if call.Enqueue? || call.Unblock? then queue + [m] else queue
  }

  function NextWorker(w: Worker, step: WorkStep, queue: seq<Metric>): Worker
    requires (step.Receive? ==> queue != []) && (step.PushOne? ==> w.held != [])
  {
    match step
    case Receive => w.(held := w.held + [queue[0]])
    case BeginFlush => w.(flushing := true)
    case PushOne => w.(held := w.held[1..], pushed := w.pushed + [w.held[0]])
    case EndFlush => w.(flushing := false, pushed := [])
    case Exit => w.(exited := true)
  }

  function NextWork(work: Work, step: WorkStep, w: nat, queue: seq<Metric>): Work
    requires w < |work.workers| && (step.Receive? ==> queue != []) && (step.PushOne? ==> work.workers[w].held != [])
  {
    var worker := work.workers[w];
    Work(work.workers[w := NextWorker(worker, step, queue)],
         if step.PushOne? then work.ring + [worker.held[0]] else work.ring,
         if step.EndFlush? then work.series + worker.pushed else work.series)
  }

  function HandedCalls(c: Calls, m: Metric, waited: bool): Calls {
    if waited then c.(blocked := c.blocked - multiset{m}) else c.(inCall := c.inCall - multiset{m})
  }

  function HandedWork(work: Work, m: Metric, w: nat): Work
    requires w < |work.workers|
  {
    work.(workers := work.workers[w := work.workers[w].(held := work.workers[w].held + [m])])
  }

  function Next(cfg: Config, s: State, a: Action): State
    requires Enabled(cfg, s, a)
  {
    match a
    case Call(call, m) => s.(calls := NextCalls(s.calls, call, m), queue := Queued(s.queue, call, m))
    case Do(step, w) =>
      s.(work := NextWork(s.work, step, w, s.queue), queue := if step.Receive? then s.queue[1..] else s.queue)
    case Hand(m, waited, w) => s.(calls := HandedCalls(s.calls, m, waited), work := HandedWork(s.work, m, w))
    case Stop => s.(stopped := true)
    case Close => s.(closed := true)
  }

  /** What a sequence of steps leads to, if each was possible. */
  function Run(cfg: Config, actions: seq<Action>): Option<State> {
    if actions == [] then Some(Initial(cfg))
    else
      var before, a := Run(cfg, actions[..|actions| - 1]), actions[|actions| - 1];
      if before.Some? && Enabled(cfg, before.value, a) then Some(Next(cfg, before.value, a)) else None
  }

  // ----- Conservation -----

  function AllHeld(workers: seq<Worker>): seq<Metric> {
    if workers == [] then [] else workers[0].held + AllHeld(workers[1..])
  }

  function AllPushed(workers: seq<Worker>): seq<Metric> {
    if workers == [] then [] else workers[0].pushed + AllPushed(workers[1..])
  }

  ghost function InBag(bag: Bag, m: Metric): nat {
    bag[m]
  }

  /** The countings of a metric that are still with callers, dropped or abandoned. */
  ghost function WithCallers(c: Calls, m: Metric): nat {
    InBag(c.dropped, m) + InBag(c.abandoned, m) + InBag(c.inCall, m) + InBag(c.blocked, m)
  }

  ghost function WithWorkers(work: Work, m: Metric): nat {
    Occurs(AllHeld(work.workers), m) + Occurs(work.ring, m)
  }

  /** The ring is ahead of the time series by what running flushes have pushed. */
  ghost predicate Ahead(work: Work, m: Metric) {
    Occurs(work.ring, m) == Occurs(work.series, m) + Occurs(AllPushed(work.workers), m)
  }

  /** Every counting of a metric is accounted for. */
  ghost predicate Balanced(s: State, m: Metric) {
    && InBag(s.calls.counted, m) == WithCallers(s.calls, m) + Occurs(s.queue, m) + WithWorkers(s.work, m)
    && Ahead(s.work, m)
  }

  /** A worker that is not flushing has pushed nothing, one that has left holds nothing. */
  ghost predicate OrderlyWorker(w: Worker) {
    (!w.flushing ==> w.pushed == []) && (w.exited ==> w.held == [] && !w.flushing)
  }

  ghost predicate Orderly(s: State) {
    forall i :: 0 <= i < |s.work.workers| ==> OrderlyWorker(s.work.workers[i])
  }

  lemma {:induction false} OneWorkerChanges(workers: seq<Worker>, i: nat, w: Worker, m: Metric)
    requires i < |workers|
    ensures Occurs(AllHeld(workers[i := w]), m) + Occurs(workers[i].held, m)
            == Occurs(AllHeld(workers), m) + Occurs(w.held, m)
    ensures Occurs(AllPushed(workers[i := w]), m) + Occurs(workers[i].pushed, m)
         == Occurs(AllPushed(workers), m) + Occurs(w.pushed, m)
    decreases |workers|
  {
    hide Occurs;
    var after := workers[i := w];
    OccursConcat(workers[0].held, AllHeld(workers[1..]), m);
    OccursConcat(after[0].held, AllHeld(after[1..]), m);
    OccursConcat(workers[0].pushed, AllPushed(workers[1..]), m);
    OccursConcat(after[0].pushed, AllPushed(after[1..]), m);
    if i == 0 {
      assert after[1..] == workers[1..];
    } else {
      assert after[1..] == workers[1..][i - 1 := w];
      assert workers[1..][i - 1] == workers[i];
      OneWorkerChanges(workers[1..], i - 1, w, m);
    }
  }

  lemma OccursOnce(x: Metric, m: Metric)
    ensures Occurs([x], m) == InBag(multiset{x}, m)
  {
    OccursIsMultiplicity([x], m);
  }

  lemma OccursFirst(s: seq<Metric>, m: Metric)
    requires s != []
    ensures Occurs(s, m) == Occurs([s[0]], m) + Occurs(s[1..], m)
  {
    assert s == [s[0]] + s[1..];
    OccursConcat([s[0]], s[1..], m);
  }

  lemma OccursNone(m: Metric)
    ensures Occurs([], m) == 0
  {
  }

  lemma Moving(bag: Bag, x: Metric, m: Metric)
    ensures InBag(bag + multiset{x}, m) == InBag(bag, m) + InBag(multiset{x}, m)
    ensures x in bag ==> InBag(bag - multiset{x}, m) + InBag(multiset{x}, m) == InBag(bag, m)
  {
  }

  /** A step of a call moves its metric: what the callers lose the queue gains. */
  lemma CallKeepsBalance(cfg: Config, s: State, call: CallStep, x: Metric, m: Metric)
    requires CallEnabled(cfg, s, call, x)
    ensures var after := NextCalls(s.calls, call, x);
            InBag(s.calls.counted, m) + WithCallers(after, m) + Occurs(Queued(s.queue, call, x), m)
            == InBag(after.counted, m) + WithCallers(s.calls, m) + Occurs(s.queue, m)
  {
    hide Occurs, InBag;
    OccursOnce(x, m);
    OccursConcat(s.queue, [x], m);
    Moving(s.calls.counted, x, m);
    Moving(s.calls.inCall, x, m);
    Moving(s.calls.blocked, x, m);
    Moving(s.calls.dropped, x, m);
    Moving(s.calls.abandoned, x, m);
  }

  /** A step of a worker moves a metric: what the queue loses the workers and the ring gain. */
  lemma WorkerKeepsBalance(work: Work, step: WorkStep, w: nat, queue: seq<Metric>, m: Metric)
    requires w < |work.workers| && (step.Receive? ==> queue != []) && (step.PushOne? ==> work.workers[w].held != [])
    requires Ahead(work, m)
    ensures var after := NextWork(work, step, w, queue);
            && WithWorkers(work, m) + Occurs(queue, m)
            == WithWorkers(after, m) + Occurs(if step.Receive? then queue[1..] else queue, m)
            && Ahead(after, m)
  {
    hide Occurs, AllHeld, AllPushed;
    var worker := work.workers[w];
    OneWorkerChanges(work.workers, w, NextWorker(worker, step, queue), m);
    match step
    case Receive =>
      OccursFirst(queue, m);
      OccursConcat(worker.held, [queue[0]], m);
    case BeginFlush =>
    case PushOne =>
      OccursFirst(worker.held, m);
      OccursConcat(worker.pushed, [worker.held[0]], m);
      OccursConcat(work.ring, [worker.held[0]], m);
    case EndFlush =>
      OccursConcat(work.series, worker.pushed, m);
      OccursNone(m);
    case Exit =>
  }

  lemma HandoverKeepsBalance(s: State, x: Metric, waited: bool, w: nat, m: Metric)
    requires w < |s.work.workers| && x in (if waited then s.calls.blocked else s.calls.inCall) && Ahead(s.work, m)
    ensures var c, work := HandedCalls(s.calls, x, waited), HandedWork(s.work, x, w);
            && WithCallers(c, m) + WithWorkers(work, m) == WithCallers(s.calls, m) + WithWorkers(s.work, m)
            && Ahead(work, m)
  {
    hide Occurs, InBag, AllHeld, AllPushed;
    var worker := s.work.workers[w];
    OneWorkerChanges(s.work.workers, w, worker.(held := worker.held + [x]), m);
    OccursOnce(x, m);
    OccursConcat(worker.held, [x], m);
    Moving(s.calls.blocked, x, m);
    Moving(s.calls.inCall, x, m);
  }

  lemma StepKeepsBalance(cfg: Config, s: State, a: Action, m: Metric)
    requires Balanced(s, m) && Enabled(cfg, s, a)
    ensures Balanced(Next(cfg, s, a), m)
  {
    hide Occurs, InBag, WithCallers, WithWorkers, Ahead, NextCalls, NextWork, HandedCalls, HandedWork, Queued,
        CallEnabled;
    match a
    case Call(call, x) => CallKeepsBalance(cfg, s, call, x, m);
    case Do(step, w) => WorkerKeepsBalance(s.work, step, w, s.queue, m);
    case Hand(x, waited, w) => HandoverKeepsBalance(s, x, waited, w, m); HandedCounted(s.calls, x, waited);
    case Stop =>
    case Close =>
  }

  lemma HandedCounted(c: Calls, x: Metric, waited: bool)
    ensures HandedCalls(c, x, waited).counted == c.counted
  {
  }

  lemma {:induction false} IdleHaveNothing(n: nat)
    ensures AllHeld(seq(n, _ => IDLE)) == [] && AllPushed(seq(n, _ => IDLE)) == []
  {
    var all := seq(n, _ => IDLE);
    if n > 0 {
      IdleHaveNothing(n - 1);
      assert all[1..] == seq(n - 1, _ => IDLE);
    }
  }

  lemma WorkerStaysOrderly(cfg: Config, s: State, step: WorkStep, w: Worker)
    requires WorkEnabled(cfg, s, step, w) && OrderlyWorker(w)
    ensures OrderlyWorker(NextWorker(w, step, s.queue))
  {
  }

  lemma StepKeepsOrder(cfg: Config, s: State, a: Action)
    requires Orderly(s) && Enabled(cfg, s, a)
    ensures Orderly(Next(cfg, s, a))
  {
    hide NextWorker, NextCalls, HandedCalls, WorkEnabled, CallEnabled;
    if a.Do? {
      WorkerStaysOrderly(cfg, s, a.step, s.work.workers[a.w]);
    }
  }

  lemma {:induction false} RunsKeepOrder(cfg: Config, actions: seq<Action>)
    ensures var r := Run(cfg, actions); r.Some? ==> Orderly(r.value)
  {
    hide Next, Enabled;
    if actions != [] && Run(cfg, actions).Some? {
      hide Orderly;
      RunsKeepOrder(cfg, actions[..|actions| - 1]);
      StepKeepsOrder(cfg, Run(cfg, actions[..|actions| - 1]).value, actions[|actions| - 1]);
    }
  }

  lemma {:induction false} RunsBalance(cfg: Config, actions: seq<Action>, m: Metric)
    ensures var r := Run(cfg, actions); r.Some? ==> Balanced(r.value, m)
  {
    hide Next, Enabled;
    if actions == [] {
      IdleHaveNothing(cfg.workers);
    } else if Run(cfg, actions).Some? {
      hide Balanced;
      var n := |actions| - 1;
      RunsBalance(cfg, actions[..n], m);
      StepKeepsBalance(cfg, Run(cfg, actions[..n]).value, actions[n], m);
    }
  }

  ghost predicate CountsRight(c: Calls) {
    c.totalReqs == |c.counted| && c.drops == |c.dropped|
  }

  lemma Sizes(bag: Bag, m: Metric)
    ensures |bag + multiset{m}| == |bag| + 1 && bag + multiset{m} != multiset{}
    ensures m in bag ==> |bag - multiset{m}| == |bag| - 1
  {
    assert m in bag + multiset{m};
  }

  lemma CallCounts(c: Calls, call: CallStep, m: Metric)
    requires CountsRight(c)
    ensures CountsRight(NextCalls(c, call, m))
  {
    Sizes(c.counted, m);
    Sizes(c.dropped, m);
  }

  lemma StepCounts(cfg: Config, s: State, a: Action)
    requires Enabled(cfg, s, a) && CountsRight(s.calls)
    ensures CountsRight(Next(cfg, s, a).calls)
  {
    hide NextCalls, NextWork, HandedWork, CallEnabled, WorkEnabled;
    if a.Call? {
      CallCounts(s.calls, a.call, a.m);
    }
  }

  lemma {:induction false} RunsCount(cfg: Config, actions: seq<Action>)
    ensures var r := Run(cfg, actions); r.Some? ==> CountsRight(r.value.calls)
  {
    hide Enabled, Next;
    if actions != [] && Run(cfg, actions).Some? {
      hide CountsRight;
      var n := |actions| - 1;
      RunsCount(cfg, actions[..n]);
      StepCounts(cfg, Run(cfg, actions[..n]).value, actions[n]);
    }
  }

  /** In every interleaving the counted metrics are exactly those dropped, abandoned, still in
      their call, waiting for the queue, queued, held by a worker, or in the ring. */
  lemma RunsConserve(cfg: Config, actions: seq<Action>)
    ensures var r := Run(cfg, actions); r.Some? ==>
              var c, queue, work := r.value.calls, r.value.queue, r.value.work;
              && c.counted == c.dropped + c.abandoned + c.inCall + c.blocked
                              + multiset(queue) + multiset(AllHeld(work.workers)) + multiset(work.ring)
              && multiset(work.ring) == multiset(work.series) + multiset(AllPushed(work.workers))
  {
    hide Run;
    var r := Run(cfg, actions);
    if r.Some? {
      var c, queue, work := r.value.calls, r.value.queue, r.value.work;
      forall m: Metric
        ensures c.counted[m] == (c.dropped + c.abandoned + c.inCall + c.blocked + multiset(queue)
                                 + multiset(AllHeld(work.workers)) + multiset(work.ring))[m]
        ensures multiset(work.ring)[m] == (multiset(work.series) + multiset(AllPushed(work.workers)))[m]
      {
        RunsBalance(cfg, actions, m);
        OccursIsMultiplicity(queue, m);
        OccursIsMultiplicity(AllHeld(work.workers), m);
        OccursIsMultiplicity(work.ring, m);
        OccursIsMultiplicity(work.series, m);
        OccursIsMultiplicity(AllPushed(work.workers), m);
      }
    }
  }

  /** Nothing is recorded more often than it was counted, neither in the ring nor in the series. */
  lemma NothingRecordedTwice(cfg: Config, actions: seq<Action>)
    ensures var r := Run(cfg, actions); r.Some? ==>
              multiset(r.value.work.series) <= multiset(r.value.work.ring) <= r.value.calls.counted
  {
    hide Run;
    RunsConserve(cfg, actions);
  }

  // ----- After Stop -----

  /** All calls that counted have returned and all workers have left. */
  ghost predicate Quiescent(s: State) {
    && s.calls.inCall == multiset{} && s.calls.blocked == multiset{}
    && forall i :: 0 <= i < |s.work.workers| ==> s.work.workers[i].exited
  }

  lemma {:induction false} GoneHoldNothing(workers: seq<Worker>)
    requires forall i :: 0 <= i < |workers| ==> workers[i].held == [] && workers[i].pushed == []
    ensures AllHeld(workers) == [] && AllPushed(workers) == []
  {
    if workers != [] {
      assert forall i :: 0 <= i < |workers| - 1 ==> workers[1..][i] == workers[i + 1];
      GoneHoldNothing(workers[1..]);
    }
  }

  /** Once quiet, the requests counted are those dropped, abandoned, left in the queue or recorded,
      and the ring and the time series hold the same metrics. */
  lemma QuietAccount(cfg: Config, actions: seq<Action>)
    requires Run(cfg, actions).Some? && Quiescent(Run(cfg, actions).value)
    ensures var s := Run(cfg, actions).value;
            && s.calls.counted == s.calls.dropped + s.calls.abandoned + multiset(s.queue) + multiset(s.work.ring)
            && multiset(s.work.ring) == multiset(s.work.series)
            && s.calls.totalReqs == s.calls.drops + |s.calls.abandoned| + |s.queue| + |s.work.ring|
  {
    hide Run;
    var s := Run(cfg, actions).value;
    RunsConserve(cfg, actions);
    RunsCount(cfg, actions);
    RunsKeepOrder(cfg, actions);
    GoneHoldNothing(s.work.workers);
    assert |multiset(s.queue)| == |s.queue| && |multiset(s.work.ring)| == |s.work.ring|;
  }

  /** No call is under way. */
  ghost predicate NoCalls(c: Calls) {
    c.admitted == multiset{} && c.inCall == multiset{} && c.blocked == multiset{}
  }

  /** Stopped with nothing queued and no call under way. */
  ghost predicate Settled(s: State) {
    s.stopped && s.queue == [] && NoCalls(s.calls)
  }

  /** The queue has no room, and calls do not wait for any. */
  predicate NothingWaits(cfg: Config) {
    cfg.queueSize == 0 && cfg.dropOnOverflow
  }

  lemma SettledStep(cfg: Config, s: State, a: Action)
    requires Settled(s) && Enabled(cfg, s, a)
    ensures Settled(Next(cfg, s, a)) && Next(cfg, s, a).calls.abandoned == s.calls.abandoned
  {
    hide NextWork, HandedWork;
  }

  lemma {:induction false} SettledStays(cfg: Config, actions: seq<Action>, longer: seq<Action>)
    requires actions <= longer && Run(cfg, longer).Some?
    ensures Run(cfg, actions).Some?
    ensures var s, t := Run(cfg, actions).value, Run(cfg, longer).value;
            Settled(s) ==> Settled(t) && t.calls.abandoned == s.calls.abandoned
  {
    hide Next, Enabled, Settled;
    if actions == longer {
    } else {
      var n := |longer| - 1;
      assert actions <= longer[..n];
      SettledStays(cfg, actions, longer[..n]);
      var t := Run(cfg, longer[..n]).value;
      if Settled(t) {
        SettledStep(cfg, t, longer[n]);
      }
    }
  }

  /** Nobody gives up before the stop channel is closed. */
  ghost predicate Patient(s: State) {
    !s.closed ==> s.calls.abandoned == multiset{}
  }

  ghost predicate NeverWaits(s: State) {
    s.queue == [] && s.calls.blocked == multiset{} && s.calls.abandoned == multiset{}
  }

  lemma PatienceStep(cfg: Config, s: State, a: Action)
    requires Enabled(cfg, s, a)
    ensures Patient(s) ==> Patient(Next(cfg, s, a))
    ensures NothingWaits(cfg) && NeverWaits(s) ==> NeverWaits(Next(cfg, s, a))
  {
    hide NextWork, HandedWork;
  }

  lemma {:induction false} RunsArePatient(cfg: Config, actions: seq<Action>)
    ensures var r := Run(cfg, actions); r.Some? ==> Patient(r.value) && (NothingWaits(cfg) ==> NeverWaits(r.value))
  {
    hide Next, Enabled;
    if actions != [] && Run(cfg, actions).Some? {
      hide Patient, NeverWaits;
      var n := |actions| - 1;
      RunsArePatient(cfg, actions[..n]);
      PatienceStep(cfg, Run(cfg, actions[..n]).value, actions[n]);
    }
  }

  // ----- When stopping is graceful -----

  function StepsToExit(w: Worker): nat {
    if w.exited then 0 else if w.flushing then |w.held| + 2 else if w.held == [] then 1 else |w.held| + 3
  }

  /** The next step of a worker that is to leave. */
  function TowardsExit(w: Worker): WorkStep {
    if w.flushing then (if w.held == [] then EndFlush else PushOne)
    else if w.held == [] then Exit
    else BeginFlush
  }

  lemma OneStepTowardsExit(cfg: Config, s: State, w: nat)
    requires s.closed && w < |s.work.workers| && !s.work.workers[w].exited
    ensures var a := Do(TowardsExit(s.work.workers[w]), w);
            && Enabled(cfg, s, a)
            && var t := Next(cfg, s, a);
               && t == s.(work := t.work) && |t.work.workers| == |s.work.workers|
               && StepsToExit(t.work.workers[w]) < StepsToExit(s.work.workers[w])
               && forall i :: 0 <= i < |s.work.workers| && i != w ==> t.work.workers[i] == s.work.workers[i]
  {
  }

  /** After the stop channel is closed a worker can always flush what it holds and leave. */
  lemma {:induction false} WorkerLeaves(cfg: Config, actions: seq<Action>, w: nat) returns (longer: seq<Action>)
    requires Run(cfg, actions).Some?
    requires var s := Run(cfg, actions).value; s.closed && w < |s.work.workers|
    ensures actions <= longer && Run(cfg, longer).Some?
    ensures var s, t := Run(cfg, actions).value, Run(cfg, longer).value;
            && t == s.(work := t.work) && |t.work.workers| == |s.work.workers| && t.work.workers[w].exited
            && forall i :: 0 <= i < |s.work.workers| && i != w ==> t.work.workers[i] == s.work.workers[i]
    decreases StepsToExit(Run(cfg, actions).value.work.workers[w])
  {
    hide Next, Enabled, TowardsExit, Run;
    var s := Run(cfg, actions).value;
    longer := actions;
    if !s.work.workers[w].exited {
      OneStepTowardsExit(cfg, s, w);
      var next := RunSnoc(cfg, actions, s, Do(TowardsExit(s.work.workers[w]), w));
      longer := WorkerLeaves(cfg, next, w);
    }
  }

  lemma {:induction false} WorkersLeave(cfg: Config, actions: seq<Action>, n: nat) returns (longer: seq<Action>)
    requires Run(cfg, actions).Some?
    requires var s := Run(cfg, actions).value; s.closed && n <= |s.work.workers|
    ensures actions <= longer && Run(cfg, longer).Some?
    ensures var s, t := Run(cfg, actions).value, Run(cfg, longer).value;
            && t == s.(work := t.work) && |t.work.workers| == |s.work.workers|
            && forall i :: 0 <= i < n ==> t.work.workers[i].exited
  {
    hide Run, StepsToExit;
    longer := actions;
    if n > 0 {
      var next := WorkersLeave(cfg, actions, n - 1);
      longer := WorkerLeaves(cfg, next, n - 1);
    }
  }

  ghost function CallSteps(c: Calls): nat {
    3 * |c.admitted| + 2 * |c.inCall| + |c.blocked|
  }

  /** A step of a call brings it closer to its end, and leaves something behind. */
  ghost predicate Progress(cfg: Config, s: State, t: State) {
    && CallSteps(t.calls) < CallSteps(s.calls) && t == s.(calls := t.calls, queue := t.queue) && s.queue <= t.queue
    && (|s.calls.abandoned| >= |t.calls.abandoned| ==>
          t.calls.abandoned == s.calls.abandoned && (!NothingWaits(cfg) ==> t.queue != [] || !NoCalls(t.calls)))
  }

  lemma AdmittedGoesOn(cfg: Config, s: State, m: Metric)
    requires m in s.calls.admitted
    ensures Enabled(cfg, s, Call(Count, m)) && Progress(cfg, s, Next(cfg, s, Call(Count, m)))
  {
    Sizes(s.calls.admitted, m);
    Sizes(s.calls.inCall, m);
  }

  lemma InCallGoesOn(cfg: Config, s: State, m: Metric) returns (a: Action)
    requires m in s.calls.inCall
    ensures Enabled(cfg, s, a) && Progress(cfg, s, Next(cfg, s, a))
  {
    Sizes(s.calls.inCall, m);
    Sizes(s.calls.blocked, m);
    a := Call(if |s.queue| < cfg.queueSize then Enqueue else if cfg.dropOnOverflow then Drop else Block, m);
  }

  lemma BlockedGoesOn(cfg: Config, s: State, m: Metric) returns (a: Action)
    requires s.closed && m in s.calls.blocked
    ensures Enabled(cfg, s, a) && Progress(cfg, s, Next(cfg, s, a))
  {
    Sizes(s.calls.blocked, m);
    Sizes(s.calls.abandoned, m);
    a := Call(if |s.queue| < cfg.queueSize then Unblock else Abandon, m);
  }

  /** Without any worker each call can go on: it counts, queues, drops, waits or gives up. */
  lemma OneCallStep(cfg: Config, s: State) returns (a: Action)
    requires s.closed && CallSteps(s.calls) > 0
    ensures Enabled(cfg, s, a) && Progress(cfg, s, Next(cfg, s, a))
  {
    hide Next, Enabled, Progress;
    if s.calls.admitted != multiset{} {
      var m :| m in s.calls.admitted;
      a := Call(Count, m);
      AdmittedGoesOn(cfg, s, m);
    } else if s.calls.inCall != multiset{} {
      var m :| m in s.calls.inCall;
      a := InCallGoesOn(cfg, s, m);
    } else {
      var m :| m in s.calls.blocked;
      a := BlockedGoesOn(cfg, s, m);
    }
  }

  lemma {:induction false} CallsReturn(cfg: Config, actions: seq<Action>) returns (longer: seq<Action>)
    requires Run(cfg, actions).Some? && Run(cfg, actions).value.closed
    ensures actions <= longer && Run(cfg, longer).Some?
    ensures var s, t := Run(cfg, actions).value, Run(cfg, longer).value;
            && CallSteps(t.calls) == 0 && t.work == s.work && s.queue <= t.queue
            && |s.calls.abandoned| <= |t.calls.abandoned|
            && (!NothingWaits(cfg) && (s.queue != [] || !NoCalls(s.calls)) ==>
                t.queue != [] || |s.calls.abandoned| < |t.calls.abandoned|)
    decreases CallSteps(Run(cfg, actions).value.calls)
  {
    hide Next, Enabled, Run;
    var s := Run(cfg, actions).value;
    longer := actions;
    if CallSteps(s.calls) > 0 {
      var a := OneCallStep(cfg, s);
      var next := RunSnoc(cfg, actions, s, a);
      longer := CallsReturn(cfg, next);
    }
  }

  /** Seen from the moment the stop channel is closed: however the engine winds down, every metric
      counted and not dropped is recorded, if and only if nothing was queued and no call was under
      way, or the queue has no room at all and calls do not wait. */
  lemma StopIsGracefulIff(cfg: Config, actions: seq<Action>)
    requires actions != [] && actions[|actions| - 1] == Close && Run(cfg, actions).Some?
    ensures (forall longer :: actions <= longer && Run(cfg, longer).Some? && Quiescent(Run(cfg, longer).value) ==>
               var t := Run(cfg, longer).value; t.calls.totalReqs == t.calls.drops + |t.work.ring|)
       <==> Settled(Run(cfg, actions).value) || NothingWaits(cfg)
  {
    hide Run, Quiescent;
    JustClosed(cfg, actions);
    var s := Run(cfg, actions).value;
    if Settled(s) || NothingWaits(cfg) {
      forall longer | actions <= longer && Run(cfg, longer).Some? && Quiescent(Run(cfg, longer).value)
        ensures var t := Run(cfg, longer).value; t.calls.totalReqs == t.calls.drops + |t.work.ring|
      {
        QuietAccount(cfg, longer);
        SettledStays(cfg, actions, longer);
        RunsArePatient(cfg, longer);
      }
    } else {
      var longer := WindsDownWithLoss(cfg, actions);
    }
  }

  lemma JustClosed(cfg: Config, actions: seq<Action>)
    requires actions != [] && actions[|actions| - 1] == Close && Run(cfg, actions).Some?
    ensures var s := Run(cfg, actions).value; s.stopped && s.closed && s.calls.abandoned == multiset{}
  {
    RunsArePatient(cfg, actions[..|actions| - 1]);
  }

  /** A way to wind down that leaves a counted metric unrecorded. */
  lemma WindsDownWithLoss(cfg: Config, actions: seq<Action>) returns (longer: seq<Action>)
    requires Run(cfg, actions).Some? && !NothingWaits(cfg)
    requires var s := Run(cfg, actions).value; s.closed && (s.queue != [] || !NoCalls(s.calls))
    ensures actions <= longer && Run(cfg, longer).Some? && Quiescent(Run(cfg, longer).value)
    ensures var t := Run(cfg, longer).value; t.calls.totalReqs > t.calls.drops + |t.work.ring|
    ensures Run(cfg, actions).value.queue <= Run(cfg, longer).value.queue
  {
    hide Run;
    var n := |Run(cfg, actions).value.work.workers|;
    var next := WorkersLeave(cfg, actions, n);
    longer := CallsReturn(cfg, next);
    QuietAccount(cfg, longer);
  }

  /** A metric queued just before Stop, when the workers happen to leave at once. */
  lemma QueuedMetricIsLost(cfg: Config, m: Metric) returns (actions: seq<Action>)
    requires cfg.queueSize > 0
    ensures Run(cfg, actions).Some? && Quiescent(Run(cfg, actions).value)
    ensures m in Run(cfg, actions).value.queue
  {
    hide Run;
    actions := QueuedAtClose(cfg, m);
    assert Run(cfg, actions).value.queue[0] == m;
    actions := WindsDownWithLoss(cfg, actions);
    assert Run(cfg, actions).value.queue[0] == m;
  }

  lemma QueuedAtClose(cfg: Config, m: Metric) returns (actions: seq<Action>)
    requires cfg.queueSize > 0
    ensures Run(cfg, actions).Some?
    ensures Run(cfg, actions).value.closed && Run(cfg, actions).value.queue == [m]
  {
    hide Run;
    EmptyRun(cfg);
    actions := RunSnoc(cfg, [], Initial(cfg), Call(Admit, m));
    actions := RunSnoc(cfg, actions, Run(cfg, actions).value, Call(Count, m));
    actions := RunSnoc(cfg, actions, Run(cfg, actions).value, Call(Enqueue, m));
    actions := RunSnoc(cfg, actions, Run(cfg, actions).value, Stop);
    actions := RunSnoc(cfg, actions, Run(cfg, actions).value, Close);
  }

  lemma EmptyRun(cfg: Config)
    ensures Run(cfg, []) == Some(Initial(cfg))
  {
  }

  lemma RunSnoc(cfg: Config, actions: seq<Action>, s: State, a: Action) returns (longer: seq<Action>)
    requires Run(cfg, actions) == Some(s) && Enabled(cfg, s, a)
    ensures longer == actions + [a] && Run(cfg, longer) == Some(Next(cfg, s, a))
  {
    longer := actions + [a];
    assert longer[..|actions|] == actions;
  }
}
