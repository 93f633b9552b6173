/** Plans that contain a step more than once: the sequential executor runs it again, the parallel one
    runs it once. */
module Repeats {
  import opened Basics
  import opened MergeTree
  import opened Planner
  import opened Executor
  import opened Outcomes

  /** After every step, each step below its path comes again. */
  ghost predicate NestedComeAgain(steps: seq<Step>) {
    forall i, j :: 0 <= i < |steps| && 0 <= j < |steps| && Below(steps[i].path, steps[j].path) ==>
      steps[j] in steps[i + 1..]
  }

  /** The last occurrence of each step. */
  function LastOnes(order: seq<Step>): seq<Step> {
    if order == [] then []
    else if order[0] in order[1..] then LastOnes(order[1..])
    else [order[0]] + LastOnes(order[1..])
  }

  lemma {:induction false} LastOnesMembers(order: seq<Step>)
    ensures forall s :: s in LastOnes(order) <==> s in order
  {
    if order != [] {
      LastOnesMembers(order[1..]);
      assert order == [order[0]] + order[1..];
    }
  }

  ghost predicate NoneTwice(order: seq<Step>) {
    forall i, j :: 0 <= i < j < |order| ==> order[i] != order[j]
  }

  lemma {:induction false} LastOnesOnce(order: seq<Step>)
    ensures NoneTwice(LastOnes(order))
  {
    if order != [] {
      LastOnesOnce(order[1..]);
      LastOnesMembers(order[1..]);
    }
  }

  /** Of two steps, one below the other, the upper one comes first. */
  ghost predicate UpperFirst(order: seq<Step>) {
    forall i, j :: 0 <= i < |order| && 0 <= j < |order| && Below(order[i].path, order[j].path) ==> i < j
  }

  lemma NestedComeAgainLater(steps: seq<Step>)
    requires steps != [] && NestedComeAgain(steps)
    ensures NestedComeAgain(steps[1..])
  {
    hide Below;
    var rest := steps[1..];
    forall i, j | 0 <= i < |rest| && 0 <= j < |rest| && Below(rest[i].path, rest[j].path)
      ensures rest[j] in rest[i + 1..]
    {
      assert steps[i + 1] == rest[i] && steps[j + 1] == rest[j];
      assert steps[i + 2..] == rest[i + 1..];
    }
  }

  lemma {:induction false} LastOnesOrdered(steps: seq<Step>)
    requires NestedComeAgain(steps)
    ensures UpperFirst(LastOnes(steps))
  {
    hide Below;
    if steps != [] {
      var rest := steps[1..];
      NestedComeAgainLater(steps);
      LastOnesOrdered(rest);
      if steps[0] !in rest {
        var last := LastOnes(rest);
        forall i | 0 <= i < |last|
          ensures !Below(last[i].path, steps[0].path)
        {
          LastOnesMembers(rest);
          assert last[i] in last;
          var k :| 0 <= k < |rest| && rest[k] == last[i];
          assert steps[k + 1] == rest[k] && steps[k + 2..] == rest[k + 1..];
        }
        OneMoreFirst(steps[0], last);
      }
    }
  }

  lemma OneMoreFirst(s: Step, last: seq<Step>)
    requires UpperFirst(last) && forall i :: 0 <= i < |last| ==> !Below(last[i].path, s.path)
    ensures UpperFirst([s] + last)
  {
    hide Below;
    assert !Below(s.path, s.path) by { NotBelowItself(s.path); }
  }

  lemma NotBelowItself(p: Path)
    ensures !Below(p, p)
  {
  }

  /** Placing a step's answer early makes no difference when it is placed again, before anything
      below it is. */
  lemma {:induction false} PlacedAgain(plan: Plan, exec: Subgraphs, data: Object, s: Step, order: seq<Step>, k: nat)
    requires WellFormed(plan) && Known(plan, order) && k < |order| && order[k] == s && s.id in StepOf(plan.steps)
    requires forall i :: 0 <= i < k ==> Apart(order[i].path, s.path) || Below(order[i].path, s.path)
    ensures PlaceAll(plan, exec, Place(plan, exec, data, s), order) == PlaceAll(plan, exec, data, order)
    decreases k
  {
    hide Place, StepOf, Apart, Below, WellFormed;
    var x := order[0];
    if k == 0 {
      PlaceTwice(plan, exec, data, s);
    } else {
      PlaceAfter(plan, exec, data, s, x);
      PlacedAgain(plan, exec, Place(plan, exec, data, x), s, order[1..], k - 1);
    }
  }

  lemma PlaceTwice(plan: Plan, exec: Subgraphs, data: Object, s: Step)
    requires WellFormed(plan) && s.id in StepOf(plan.steps)
    ensures Place(plan, exec, Place(plan, exec, data, s), s) == Place(plan, exec, data, s)
  {
    hide Outcome, StepOf, Merge;
    var x := Outcome(plan, exec, s.id);
    if x.Some? {
      MergeTwice(data, x.value, s.path);
    }
  }

  lemma PlaceAfter(plan: Plan, exec: Subgraphs, data: Object, s: Step, x: Step)
    requires WellFormed(plan) && s.id in StepOf(plan.steps) && x.id in StepOf(plan.steps)
    requires Apart(x.path, s.path) || Below(x.path, s.path)
    ensures var both, only := Place(plan, exec, Place(plan, exec, data, s), x), Place(plan, exec, data, x);
            both == only || both == Place(plan, exec, only, s)
  {
    hide Outcome, StepOf, Merge;
    if Apart(x.path, s.path) {
      PlacesCommute(plan, exec, data, x, s);
    } else {
      var a, b := Outcome(plan, exec, s.id), Outcome(plan, exec, x.id);
      if a.Some? && b.Some? {
        MergeAbove(data, a.value, s.path, b.value, x.path);
      }
    }
  }

  /** Steps on one path are one step. */
  ghost predicate PathsIdentify(steps: seq<Step>) {
    forall i, j :: 0 <= i < |steps| && 0 <= j < |steps| && steps[i].path == steps[j].path ==> steps[i] == steps[j]
  }

  /** Only the last occurrence of a step matters. */
  lemma {:induction false} LastOnesDecide(plan: Plan, exec: Subgraphs, data: Object, order: seq<Step>)
    requires WellFormed(plan) && Known(plan, order) && NestedComeAgain(order) && PathsIdentify(order)
    ensures Known(plan, LastOnes(order))
            && PlaceAll(plan, exec, data, order) == PlaceAll(plan, exec, data, LastOnes(order))
    decreases |order|
  {
    hide Place, StepOf, Below, WellFormed;
    LastOnesMembers(order);
    if order != [] {
      var s, rest := order[0], order[1..];
      var after := Place(plan, exec, data, s);
      NestedComeAgainLater(order);
      LastOnesDecide(plan, exec, after, rest);
      if s in rest {
        var last := LastOnes(rest);
        LastOnesMembers(rest);
        LastOnesOnce(rest);
        LastOnesOrdered(rest);
        var k :| 0 <= k < |last| && last[k] == s;
        forall i | 0 <= i < k
          ensures Apart(last[i].path, s.path) || Below(last[i].path, s.path)
        {
          UpperOrApart(order, last, i, k);
        }
        PlacedAgain(plan, exec, data, s, last, k);
      }
    }
  }

  lemma UpperOrApart(order: seq<Step>, last: seq<Step>, i: nat, k: nat)
    requires PathsIdentify(order) && NoneTwice(last) && UpperFirst(last) && (forall s <- last :: s in order)
    requires i < k < |last|
    ensures Apart(last[i].path, last[k].path) || Below(last[i].path, last[k].path)
  {
    assert last[i] in order && last[k] in order;
    assert last[i].path != last[k].path;
  }

  /** Every step waits for the other steps above it. */
  ghost predicate NestedAwait(plan: Plan) {
    forall i, j :: 0 <= i < |plan.steps| && 0 <= j < |plan.steps|
                   && plan.steps[i].path <= plan.steps[j].path && plan.steps[i] != plan.steps[j] ==>
      plan.steps[i].id in Deps(plan, plan.steps[j].id)
  }

  lemma AwaitedPathsIdentify(plan: Plan)
    requires WellFormed(plan) && NestedAwait(plan)
    ensures PathsIdentify(plan.steps)
  {
    hide Deps, WellFormed;
    forall i, j | 0 <= i < |plan.steps| && 0 <= j < |plan.steps| && plan.steps[i].path == plan.steps[j].path
      ensures plan.steps[i] == plan.steps[j]
    {
      ConflictIsOneWay(plan, plan.steps[i], plan.steps[j]);
    }
  }

  lemma LogInOrder(plan: Plan, log: seq<Step>)
    requires NestedAwait(plan) && DepsFirst(plan, log)
    ensures ConflictsInOrder(plan, log)
  {
    hide StepOf, Deps;
    forall i, j | 0 <= i < j < |log|
      ensures Apart(log[i].path, log[j].path) || log[i].id in Deps(plan, log[j].id)
    {
      StepNames(plan.steps, log[i].id);
      StepNames(plan.steps, log[j].id);
      var a :| 0 <= a < |plan.steps| && plan.steps[a] == log[i];
      var b :| 0 <= b < |plan.steps| && plan.steps[b] == log[j];
      NotRunYet(log, i, j);
    }
  }

  lemma LastOnesInOrder(plan: Plan, last: seq<Step>)
    requires NestedAwait(plan) && NoneTwice(last) && UpperFirst(last) && PathsIdentify(plan.steps)
    requires forall s <- last :: s in plan.steps
    ensures ConflictsInOrder(plan, last)
  {
    hide Deps, Apart, Below;
    forall i, j | 0 <= i < j < |last|
      ensures Apart(last[i].path, last[j].path) || last[i].id in Deps(plan, last[j].id)
    {
      UpperOrApart(plan.steps, last, i, j);
      assert last[i] in plan.steps && last[j] in plan.steps;
      if Below(last[i].path, last[j].path) {
        BelowLeadsTo(last[i].path, last[j].path);
        var a :| 0 <= a < |plan.steps| && plan.steps[a] == last[i];
        var b :| 0 <= b < |plan.steps| && plan.steps[b] == last[j];
      }
    }
  }

  lemma BelowLeadsTo(p: Path, q: Path)
    requires Below(p, q)
    ensures p <= q
  {
  }

  lemma OnceIsDistinct(plan: Plan, last: seq<Step>)
    requires NoneTwice(last) && DepsBefore(plan, plan.steps) && forall s <- last :: s in plan.steps
    ensures DistinctIDs(last) && Known(plan, last)
  {
    hide StepOf, Deps;
    forall i | 0 <= i < |last|
      ensures last[i].id in StepOf(plan.steps) && StepOf(plan.steps)[last[i].id] == last[i]
    {
      assert last[i] in plan.steps;
    }
  }

  /** A plan in which every step waits for those above it, and in which whatever lies below a step
      comes again when the step does, is answered alike by both executors. */
  lemma RepeatingPlansAgree(plan: Plan, exec: Subgraphs, log: seq<Step>)
    requires WellFormed(plan) && DepsBefore(plan, plan.steps) && NestedAwait(plan) && NestedComeAgain(plan.steps)
    requires Legal(plan, exec, log) && Complete(plan, log)
    ensures var parallel, sequential := RunSteps(plan, exec, log), RunSteps(plan, exec, plan.steps);
            && parallel.data == sequential.data && parallel.completed == sequential.completed
            && forall id :: id in parallel.failed <==> id in sequential.failed
  {
    hide Outcome, StepOf, RunSteps, Legal, PlaceAll, LastOnes, NestedComeAgain, NestedAwait, ConflictsInOrder;
    var last := LastOnes(plan.steps);
    LegalIsDepsFirst(plan, exec, log);
    SameSteps(plan, log);
    SameOutcomes(plan, exec, log);
    DataIsPlaced(plan, exec, log);
    DataIsPlaced(plan, exec, plan.steps);
    AwaitedPathsIdentify(plan);
    LastOnesDecide(plan, exec, map[], plan.steps);
    LastOnesMembers(plan.steps);
    LastOnesOnce(plan.steps);
    LastOnesOrdered(plan.steps);
    OnceIsDistinct(plan, last);
    LogInOrder(plan, log);
    LastOnesInOrder(plan, last);
    OrdersAgree(plan, exec, map[], log, last);
  }
}
