/** What runs of the engine protocol keep besides the metrics themselves: the order they arrive in,
    the bounds of the queue and of the batches, and that a flush is of a whole batch. */
module EngineOrder {
  import opened Basics
  import opened TimeSeries
  import opened EngineProtocol

  // ----- Bounds -----

  ghost predicate SmallBatch(cfg: Config, w: Worker) {
    |w.held| + |w.pushed| <= cfg.batchSize || |w.held| + |w.pushed| <= 1
  }

  ghost predicate Bounded(cfg: Config, s: State) {
    && |s.queue| <= cfg.queueSize && |s.work.workers| == cfg.workers
    && forall i :: 0 <= i < |s.work.workers| ==> SmallBatch(cfg, s.work.workers[i])
  }

  lemma WorkerStaysSmall(cfg: Config, s: State, step: WorkStep, w: Worker)
    requires WorkEnabled(cfg, s, step, w) && OrderlyWorker(w) && SmallBatch(cfg, w)
    ensures SmallBatch(cfg, NextWorker(w, step, s.queue))
  {
  }

  lemma StepKeepsBounds(cfg: Config, s: State, a: Action)
    requires Orderly(s) && Bounded(cfg, s) && Enabled(cfg, s, a)
    ensures Bounded(cfg, Next(cfg, s, a))
  {
    hide NextWorker, NextCalls, HandedCalls, WorkEnabled;
    if a.Do? {
      WorkerStaysSmall(cfg, s, a.step, s.work.workers[a.w]);
      assert a.step.Receive? ==> s.queue != [] by { WorkEnabledNeeds(cfg, s, a.step, s.work.workers[a.w]); }
    } else if a.Hand? {
      assert OrderlyWorker(s.work.workers[a.worker]) && SmallBatch(cfg, s.work.workers[a.worker]);
    }
  }

  lemma WorkEnabledNeeds(cfg: Config, s: State, step: WorkStep, w: Worker)
    requires WorkEnabled(cfg, s, step, w)
    ensures (step.Receive? ==> s.queue != []) && (step.PushOne? ==> w.held != [])
  {
  }

  /** In every run the queue keeps to its size and every batch, what is already flushed of it
      included, to the batch size; one metric is collected even if that is zero. */
  lemma {:induction false} RunsAreBounded(cfg: Config, actions: seq<Action>)
    ensures var r := Run(cfg, actions); r.Some? ==> Bounded(cfg, r.value)
  {
    hide Next, Enabled;
    if actions != [] && Run(cfg, actions).Some? {
      hide Bounded;
      var n := |actions| - 1;
      RunsAreBounded(cfg, actions[..n]);
      RunsKeepOrder(cfg, actions[..n]);
      StepKeepsBounds(cfg, Run(cfg, actions[..n]).value, actions[n]);
    }
  }

  // ----- Whole batches -----

  /** Worker `w` is flushing this batch. */
  ghost predicate Flushes(s: State, w: nat, batch: seq<Metric>) {
    && w < |s.work.workers| && s.work.workers[w].flushing
    && s.work.workers[w].pushed + s.work.workers[w].held == batch
  }

  lemma FlushGoesOn(cfg: Config, s: State, a: Action, w: nat, batch: seq<Metric>)
    requires Enabled(cfg, s, a) && Flushes(s, w, batch) && a != Do(EndFlush, w)
    ensures Flushes(Next(cfg, s, a), w, batch)
  {
    hide NextCalls, HandedCalls, CallEnabled;
    var worker := s.work.workers[w];
    if a == Do(PushOne, w) {
      assert worker.pushed + [worker.held[0]] + worker.held[1..] == worker.pushed + worker.held;
    }
  }

  lemma {:induction false} FlushLasts(cfg: Config, actions: seq<Action>, i: nat, j: nat, w: nat)
    requires i < j <= |actions| && Run(cfg, actions[..j]).Some? && actions[i] == Do(BeginFlush, w)
    requires forall k :: i < k < j ==> actions[k] != Do(EndFlush, w)
    ensures Run(cfg, actions[..i]).Some? && w < |Run(cfg, actions[..i]).value.work.workers|
    ensures var batch := Run(cfg, actions[..i]).value.work.workers[w].held;
            batch != [] && Flushes(Run(cfg, actions[..j]).value, w, batch)
    decreases j
  {
    hide NextCalls, HandedCalls, CallEnabled, HandedWork, HasRoom;
    assert actions[..j][..j - 1] == actions[..j - 1];
    var before := Run(cfg, actions[..j - 1]).value;
    if i == j - 1 {
      RunsKeepOrder(cfg, actions[..i]);
      assert OrderlyWorker(before.work.workers[w]);
      assert [] + before.work.workers[w].held == before.work.workers[w].held;
    } else {
      hide Enabled, Next, Flushes;
      FlushLasts(cfg, actions, i, j - 1, w);
      FlushGoesOn(cfg, before, actions[j - 1], w, Run(cfg, actions[..i]).value.work.workers[w].held);
    }
  }

  /** A flush takes the whole of a batch that is not empty: when it ends, everything the worker held
      when it began has gone, in order, to the ring, and goes to the time series. */
  lemma FlushIsWhole(cfg: Config, actions: seq<Action>, i: nat, j: nat, w: nat)
    requires i < j < |actions| && Run(cfg, actions[..j + 1]).Some?
    requires actions[i] == Do(BeginFlush, w) && actions[j] == Do(EndFlush, w)
    requires forall k :: i < k < j ==> actions[k] != Do(EndFlush, w)
    ensures var began, ends, ended := Run(cfg, actions[..i]), Run(cfg, actions[..j]), Run(cfg, actions[..j + 1]);
            && began.Some? && ends.Some? && w < |began.value.work.workers|
            && began.value.work.workers[w].held != []
            && ended.value.work.series == ends.value.work.series + began.value.work.workers[w].held
  {
    hide NextCalls, HandedCalls, CallEnabled, HandedWork, HasRoom;
    assert actions[..j + 1][..j] == actions[..j];
    FlushLasts(cfg, actions, i, j, w);
    var worker := Run(cfg, actions[..j]).value.work.workers[w];
    assert worker.pushed + [] == worker.pushed;
  }

  // ----- Arrivals -----

  /** The metrics that callers put into the queue or handed over, in this order. */
  ghost function Arrivals(actions: seq<Action>): seq<Metric> {
    if actions == [] then []
    else
      var earlier, a := Arrivals(actions[..|actions| - 1]), actions[|actions| - 1];
      if a.Call? && (a.call.Enqueue? || a.call.Unblock?) then earlier + [a.m]
      else if a.Hand? then earlier + [a.metric]
      else earlier
  }

  /** The metrics that workers took, whichever worker it was, in this order. */
  ghost function Taken(cfg: Config, actions: seq<Action>): seq<Metric> {
    if actions == [] then []
    else
      var earlier, a := Taken(cfg, actions[..|actions| - 1]), actions[|actions| - 1];
      var s := Run(cfg, actions[..|actions| - 1]);
      if a.Hand? then earlier + [a.metric]
      else if a.Do? && a.step.Receive? && s.Some? && s.value.queue != [] then earlier + [s.value.queue[0]]
      else earlier
  }

  lemma ReceivedFirst(taken: seq<Metric>, queue: seq<Metric>)
    requires queue != []
    ensures taken + [queue[0]] + queue[1..] == taken + queue
  {
  }

  /** Metrics leave for the workers in the order of their arrival, however many workers there are. */
  lemma {:induction false} FirstInFirstOut(cfg: Config, actions: seq<Action>)
    ensures var r := Run(cfg, actions); r.Some? ==> Taken(cfg, actions) + r.value.queue == Arrivals(actions)
  {
    hide NextCalls, HandedCalls, NextWork, HandedWork, HasRoom;
    if actions != [] && Run(cfg, actions).Some? {
      var n := |actions| - 1;
      var s, a := Run(cfg, actions[..n]).value, actions[n];
      FirstInFirstOut(cfg, actions[..n]);
      RunsAreBounded(cfg, actions[..n]);
      if a.Do? && a.step.Receive? {
        ReceivedFirst(Taken(cfg, actions[..n]), s.queue);
      } else if a.Hand? {
        assert s.queue == [];
      } else if a.Call? {
        assert Taken(cfg, actions[..n]) + (s.queue + [a.m]) == Taken(cfg, actions[..n]) + s.queue + [a.m];
      }
    }
  }

  /** What the only worker did with what it took. */
  ghost predicate InTurn(work: Work, taken: seq<Metric>) {
    && |work.workers| == 1 && work.ring + work.workers[0].held == taken
    && work.ring == work.series + work.workers[0].pushed
  }

  lemma OneWorkerStep(work: Work, step: WorkStep, queue: seq<Metric>, taken: seq<Metric>)
    requires InTurn(work, taken) && (step.Receive? ==> queue != []) && (step.PushOne? ==> work.workers[0].held != [])
    ensures InTurn(NextWork(work, step, 0, queue), if step.Receive? then taken + [queue[0]] else taken)
  {
    var w := work.workers[0];
    if step.Receive? {
      assert work.ring + (w.held + [queue[0]]) == work.ring + w.held + [queue[0]];
    } else if step.PushOne? {
      assert work.ring + [w.held[0]] + w.held[1..] == work.ring + w.held;
      assert work.series + (w.pushed + [w.held[0]]) == work.series + w.pushed + [w.held[0]];
    } else if step.EndFlush? {
      assert work.series + w.pushed + [] == work.series + w.pushed;
    }
  }

  lemma OneWorkerHanded(work: Work, m: Metric, taken: seq<Metric>)
    requires InTurn(work, taken)
    ensures InTurn(HandedWork(work, m, 0), taken + [m])
  {
    var w := work.workers[0];
    assert work.ring + (w.held + [m]) == work.ring + w.held + [m];
  }

  lemma {:induction false} OneWorkerTakesInTurn(cfg: Config, actions: seq<Action>)
    requires cfg.workers == 1
    ensures var r := Run(cfg, actions); r.Some? ==> InTurn(r.value.work, Taken(cfg, actions))
  {
    hide NextCalls, HandedCalls, NextWork, HandedWork, HasRoom, CallEnabled;
    if actions != [] && Run(cfg, actions).Some? {
      hide InTurn;
      var n := |actions| - 1;
      var s, a := Run(cfg, actions[..n]).value, actions[n];
      OneWorkerTakesInTurn(cfg, actions[..n]);
      RunsAreBounded(cfg, actions[..n]);
      if a.Do? {
        OneWorkerStep(s.work, a.step, s.queue, Taken(cfg, actions[..n]));
      } else if a.Hand? {
        OneWorkerHanded(s.work, a.metric, Taken(cfg, actions[..n]));
      }
    }
  }

  /** With one worker nothing is reordered: the time series, then what is flushed, then what is
      held, then the queue is everything that arrived, in order. */
  lemma OneWorkerKeepsOrder(cfg: Config, actions: seq<Action>)
    requires cfg.workers == 1 && Run(cfg, actions).Some?
    ensures var s := Run(cfg, actions).value;
            && |s.work.workers| == 1
            && s.work.series + s.work.workers[0].pushed + s.work.workers[0].held + s.queue == Arrivals(actions)
  {
    hide Run, Taken, Arrivals;
    OneWorkerTakesInTurn(cfg, actions);
    FirstInFirstOut(cfg, actions);
  }

  // ----- Full batches -----

  /** Every batch up to the batch size can be collected. */
  lemma {:induction false} BatchesFill(cfg: Config, metrics: seq<Metric>) returns (actions: seq<Action>)
    requires cfg.workers > 0 && cfg.queueSize > 0 && |metrics| <= cfg.batchSize
    ensures var r := Run(cfg, actions);
            && r.Some? && |r.value.work.workers| == cfg.workers && !r.value.stopped && r.value.queue == []
            && r.value.work.workers[0] == Worker(metrics, false, [], false)
    decreases |metrics|
  {
    if metrics == [] {
      actions := [];
      EmptyRun(cfg);
    } else {
      var n := |metrics| - 1;
      actions := BatchesFill(cfg, metrics[..n]);
      actions := OneMore(cfg, actions, metrics[n]);
      assert metrics == metrics[..n] + [metrics[n]];
    }
  }

  lemma OneMore(cfg: Config, actions: seq<Action>, m: Metric) returns (longer: seq<Action>)
    requires Run(cfg, actions).Some? && cfg.queueSize > 0
    requires var s := Run(cfg, actions).value;
             && s.queue == [] && !s.stopped && s.work.workers != [] && Collecting(s.work.workers[0])
             && |s.work.workers[0].held| < cfg.batchSize
    ensures var s, r := Run(cfg, actions).value, Run(cfg, longer);
            && r.Some? && !r.value.stopped && r.value.queue == []
            && r.value.work.workers
               == s.work.workers[0 := s.work.workers[0].(held := s.work.workers[0].held + [m])]
  {
    hide Run;
    var s := Run(cfg, actions).value;
    longer := RunSnoc(cfg, actions, s, Call(Admit, m));
    s := Run(cfg, longer).value;
    longer := RunSnoc(cfg, longer, s, Call(Count, m));
    s := Run(cfg, longer).value;
    longer := RunSnoc(cfg, longer, s, Call(Enqueue, m));
    s := Run(cfg, longer).value;
    longer := RunSnoc(cfg, longer, s, Do(Receive, 0));
  }
}
