/** What runs of a federated plan come to: answers that do not depend on when a step runs, deadlock,
    and agreement of the two executors. */
module Outcomes {
  import opened Basics
  import opened MergeTree
  import opened Planner
  import opened Executor

  /** The answer to a step when each dependency has had its turn before it. */
  ghost function Outcome(plan: Plan, exec: Subgraphs, id: string): Option<Object>
    requires WellFormed(plan) && id in StepOf(plan.steps)
    decreases |id|, 1, 0
  {
    exec(StepOf(plan.steps)[id], DepData(plan, exec, id, Deps(plan, id)))
  }

  ghost function DepData(plan: Plan, exec: Subgraphs, id: string, deps: seq<string>): Object
    requires WellFormed(plan) && forall d <- deps :: d in Deps(plan, id)
    decreases |id|, 0, |deps|
  {
    if deps == [] then map[]
    else
      var d := deps[|deps| - 1];
      var earlier := DepData(plan, exec, id, deps[..|deps| - 1]);
      DependencyIsShorter(plan, id, d);
      match Outcome(plan, exec, d)
      case Some(data) => earlier + data
      case None => earlier
  }

  lemma DependencyIsShorter(plan: Plan, id: string, d: string)
    requires WellFormed(plan) && d in Deps(plan, id)
    ensures |d| < |id| && d in StepOf(plan.steps)
  {
    StepNames(plan.steps, d);
    assert Before(d, id);
    assert d == id[..|d|] && id[..|id|] == id;
  }

  /** Steps that their identifiers stand for, dependencies first. */
  ghost predicate DepsBefore(plan: Plan, order: seq<Step>) {
    && (forall i :: 0 <= i < |order| ==>
        order[i].id in StepOf(plan.steps) && StepOf(plan.steps)[order[i].id] == order[i])
    && (forall i, d :: 0 <= i < |order| && d in Deps(plan, order[i].id) ==> HasStep(order[..i], d))
  }

  /** The same with each identifier once. */
  ghost predicate DepsFirst(plan: Plan, order: seq<Step>) {
    DistinctIDs(order) && DepsBefore(plan, order)
  }

  /** The completed results are the answers of the steps that succeeded. */
  ghost predicate Records(plan: Plan, exec: Subgraphs, order: seq<Step>, completed: Results)
    requires WellFormed(plan)
  {
    && (forall id :: id in completed ==> HasStep(order, id))
    && (forall i :: 0 <= i < |order| && order[i].id in StepOf(plan.steps) ==>
          Recorded(completed, order[i].id, Outcome(plan, exec, order[i].id)))
  }

  ghost predicate Recorded(completed: Results, id: string, outcome: Option<Object>) {
    match outcome
    case Some(data) => id in completed && completed[id] == data
    case None => id !in completed
  }

  lemma {:induction false} GatherIsDepData(plan: Plan, exec: Subgraphs, id: string, deps: seq<string>,
                                           completed: Results)
    requires WellFormed(plan) && forall d <- deps :: d in Deps(plan, id)
    requires forall d <- deps :: d in StepOf(plan.steps) && Recorded(completed, d, Outcome(plan, exec, d))
    ensures Gather(deps, completed) == DepData(plan, exec, id, deps)
  {
    hide Outcome, StepOf;
    if deps != [] {
      var d := deps[|deps| - 1];
      assert d in deps;
      GatherIsDepData(plan, exec, id, deps[..|deps| - 1], completed);
    }
  }

  lemma DepsBeforePrefix(plan: Plan, order: seq<Step>, n: nat)
    requires DepsBefore(plan, order) && n <= |order|
    ensures DepsBefore(plan, order[..n])
  {
    hide StepOf, Deps, HasStep;
    forall i, d | 0 <= i < n && d in Deps(plan, order[..n][i].id)
      ensures HasStep(order[..n][..i], d)
    {
      assert order[..n][..i] == order[..i];
    }
  }

  lemma {:induction false} OrdersRecordOutcomes(plan: Plan, exec: Subgraphs, order: seq<Step>)
    requires WellFormed(plan) && DepsBefore(plan, order)
    ensures Records(plan, exec, order, RunSteps(plan, exec, order).completed)
  {
    if order != [] {
      var n := |order| - 1;
      DepsBeforePrefix(plan, order, n);
      OrdersRecordOutcomes(plan, exec, order[..n]);
      AnswerIsOutcome(plan, exec, order, n);
      RecordOneMore(plan, exec, order, RunSteps(plan, exec, order[..n]));
    }
  }

  /** The answer that step n gets is its outcome. */
  lemma AnswerIsOutcome(plan: Plan, exec: Subgraphs, order: seq<Step>, n: nat)
    requires WellFormed(plan) && DepsBefore(plan, order) && n < |order|
    requires Records(plan, exec, order[..n], RunSteps(plan, exec, order[..n]).completed)
    ensures exec(order[n], Gather(Deps(plan, order[n].id), RunSteps(plan, exec, order[..n]).completed))
         == Outcome(plan, exec, order[n].id)
  {
    hide StepOf, RunSteps;
    var id, completed := order[n].id, RunSteps(plan, exec, order[..n]).completed;
    forall d | d in Deps(plan, id)
      ensures d in StepOf(plan.steps) && Recorded(completed, d, Outcome(plan, exec, d))
    {
      StepNames(plan.steps, d);
      var k :| 0 <= k < n && order[..n][k].id == d;
    }
    GatherIsDepData(plan, exec, id, Deps(plan, id), completed);
  }

  lemma RecordOneMore(plan: Plan, exec: Subgraphs, order: seq<Step>, st: State)
    requires WellFormed(plan) && order != [] && order[|order| - 1].id in StepOf(plan.steps)
    requires var n := |order| - 1;
             && Records(plan, exec, order[..n], st.completed)
             && exec(order[n], Gather(Deps(plan, order[n].id), st.completed)) == Outcome(plan, exec, order[n].id)
    ensures Records(plan, exec, order, RunStep(plan, exec, st, order[|order| - 1]).completed)
  {
    hide Outcome, StepOf, Gather, Deps, Merge;
    var n := |order| - 1;
    assert order == order[..n] + [order[n]];
    HasStepSnoc(order[..n], order[n]);
    var after := RunStep(plan, exec, st, order[n]).completed;
    forall i | 0 <= i < |order| && order[i].id in StepOf(plan.steps)
      ensures Recorded(after, order[i].id, Outcome(plan, exec, order[i].id))
    {
      if i < n {
        assert order[..n][i].id == order[i].id;
      } else if HasStep(order[..n], order[n].id) {
        var k :| 0 <= k < n && order[..n][k].id == order[n].id;
      }
    }
  }

  lemma LegalIsDepsFirst(plan: Plan, exec: Subgraphs, log: seq<Step>)
    requires Legal(plan, exec, log)
    ensures DepsFirst(plan, log)
  {
    hide StepOf, Deps;
    forall i, d | 0 <= i < |log| && d in Deps(plan, log[i].id)
      ensures HasStep(log[..i], d)
    {
      CompletedHaveRun(plan, exec, log[..i]);
    }
  }

  lemma {:induction false} CompletedHaveRun(plan: Plan, exec: Subgraphs, order: seq<Step>)
    ensures forall id :: id in RunSteps(plan, exec, order).completed ==> HasStep(order, id)
  {
    hide Merge, Gather, Deps;
    if order != [] {
      var n := |order| - 1;
      CompletedHaveRun(plan, exec, order[..n]);
      HasStepSnoc(order[..n], order[n]);
      assert order == order[..n] + [order[n]];
    }
  }

  // ----- When the rounds come to an end -----

  /** Every step that another one waits for answers. */
  ghost predicate DependenciesAnswer(plan: Plan, exec: Subgraphs)
    requires WellFormed(plan)
  {
    forall id, d :: id in StepOf(plan.steps) && d in Deps(plan, id) && d in StepOf(plan.steps) ==>
      Outcome(plan, exec, d).Some?
  }

  /** What a run step waited for has completed, and stays so. */
  lemma {:induction false} DependenciesCompleted(plan: Plan, exec: Subgraphs, log: seq<Step>, i: nat, n: nat, d: string)
    requires Legal(plan, exec, log) && i < n <= |log| && d in Deps(plan, log[i].id)
    ensures d in RunSteps(plan, exec, log[..n]).completed
    decreases n
  {
    hide StepOf, RunStep, Deps, DistinctIDs;
    assert log[..n][..n - 1] == log[..n - 1];
    assert RunSteps(plan, exec, log[..n]) == RunStep(plan, exec, RunSteps(plan, exec, log[..n - 1]), log[n - 1]);
    CompletedGrows(plan, exec, RunSteps(plan, exec, log[..n - 1]), log[n - 1]);
    if i < n - 1 {
      DependenciesCompleted(plan, exec, log, i, n - 1, d);
    }
  }

  /** In a stuck run some step failed for which another one waits. */
  lemma {:induction false} StuckOnFailure(plan: Plan, exec: Subgraphs, log: seq<Step>, id: string)
      returns (x: string, d: string)
    requires WellFormed(plan) && Legal(plan, exec, log) && Stuck(plan, RunSteps(plan, exec, log).completed, log)
    requires id in StepOf(plan.steps) && !HasStep(log, id)
    ensures x in StepOf(plan.steps) && d in Deps(plan, x) && HasStep(log, d)
            && d !in RunSteps(plan, exec, log).completed
    decreases |id|
  {
    hide StepOf, RunSteps, Legal;
    d :| d in Deps(plan, id) && d !in RunSteps(plan, exec, log).completed;
    x := id;
    DependencyIsShorter(plan, id, d);
    if !HasStep(log, d) {
      x, d := StuckOnFailure(plan, exec, log, d);
    }
  }

  /** A parallel run ends well exactly when every step that another one waits for answers; in
      particular it never reports a deadlock when all steps succeed. Otherwise it stops with the
      deadlock error, where the sequential executor goes on. */
  lemma CompletesIffDependenciesAnswer(plan: Plan, exec: Subgraphs, log: seq<Step>)
    requires WellFormed(plan) && Legal(plan, exec, log)
    requires Complete(plan, log) || Stuck(plan, RunSteps(plan, exec, log).completed, log)
    ensures Complete(plan, log) <==> DependenciesAnswer(plan, exec)
  {
    hide Outcome, StepOf, RunSteps, Legal;
    var completed := RunSteps(plan, exec, log).completed;
    LegalIsDepsFirst(plan, exec, log);
    OrdersRecordOutcomes(plan, exec, log);
    if Complete(plan, log) {
      forall id, d | id in StepOf(plan.steps) && d in Deps(plan, id) && d in StepOf(plan.steps)
        ensures Outcome(plan, exec, d).Some?
      {
        var i :| 0 <= i < |log| && log[i].id == id;
        assert log[..|log|] == log;
        DependenciesCompleted(plan, exec, log, i, |log|, d);
        var k :| 0 <= k < |log| && log[k].id == d;
      }
    } else {
      var id :| id in StepOf(plan.steps) && !HasStep(log, id);
      var x, d := StuckOnFailure(plan, exec, log, id);
      var k :| 0 <= k < |log| && log[k].id == d;
      assert d in StepOf(plan.steps) by {
        DependencyIsShorter(plan, x, d);
      }
      assert Outcome(plan, exec, d).None?;
    }
  }

  // ----- Any completion order gives the same data -----

  /** Placing the answer of a step, if it has one. */
  ghost function Place(plan: Plan, exec: Subgraphs, data: Object, step: Step): Object
    requires WellFormed(plan) && step.id in StepOf(plan.steps)
  {
    match Outcome(plan, exec, step.id)
    case Some(d) => Merge(data, d, step.path)
    case None => data
  }

  ghost predicate Known(plan: Plan, order: seq<Step>) {
    forall i :: 0 <= i < |order| ==> order[i].id in StepOf(plan.steps)
  }

  ghost function PlaceAll(plan: Plan, exec: Subgraphs, data: Object, order: seq<Step>): Object
    requires WellFormed(plan) && Known(plan, order)
    decreases |order|
  {
    if order == [] then data else PlaceAll(plan, exec, Place(plan, exec, data, order[0]), order[1..])
  }

  lemma {:induction false} PlaceAllSnoc(plan: Plan, exec: Subgraphs, data: Object, order: seq<Step>)
    requires WellFormed(plan) && Known(plan, order) && order != []
    ensures var n := |order| - 1;
            PlaceAll(plan, exec, data, order) == Place(plan, exec, PlaceAll(plan, exec, data, order[..n]), order[n])
    decreases |order|
  {
    hide Place, StepOf;
    var n := |order| - 1;
    if n == 0 {
      assert order[1..] == [] && order[..n] == [];
    } else {
      PlaceAllSnoc(plan, exec, Place(plan, exec, data, order[0]), order[1..]);
      assert order[1..][..n - 1] == order[..n][1..];
    }
  }

  /** An executor's data is the placed answers, in its order. */
  lemma {:induction false} DataIsPlaced(plan: Plan, exec: Subgraphs, order: seq<Step>)
    requires WellFormed(plan) && DepsBefore(plan, order)
    ensures Known(plan, order) && RunSteps(plan, exec, order).data == PlaceAll(plan, exec, map[], order)
  {
    hide Outcome, StepOf, Gather, Merge;
    if order != [] {
      var n := |order| - 1;
      DepsBeforePrefix(plan, order, n);
      DataIsPlaced(plan, exec, order[..n]);
      OrdersRecordOutcomes(plan, exec, order[..n]);
      AnswerIsOutcome(plan, exec, order, n);
      PlaceAllSnoc(plan, exec, map[], order);
    }
  }

  lemma PlacesCommute(plan: Plan, exec: Subgraphs, data: Object, s: Step, t: Step)
    requires WellFormed(plan) && s.id in StepOf(plan.steps) && t.id in StepOf(plan.steps) && Apart(s.path, t.path)
    ensures Place(plan, exec, Place(plan, exec, data, s), t) == Place(plan, exec, Place(plan, exec, data, t), s)
  {
    hide Outcome, StepOf, Merge;
    var x, y := Outcome(plan, exec, s.id), Outcome(plan, exec, t.id);
    if x.Some? && y.Some? {
      MergesCommute(data, x.value, s.path, y.value, t.path);
    }
  }

  /** A step moves to the front past steps whose paths are apart from its own. */
  lemma {:induction false} MoveToFront(plan: Plan, exec: Subgraphs, data: Object, order: seq<Step>, j: nat)
    requires WellFormed(plan) && Known(plan, order) && j < |order|
    requires forall i :: 0 <= i < j ==> Apart(order[i].path, order[j].path)
    ensures Known(plan, [order[j]] + order[..j] + order[j + 1..])
    ensures PlaceAll(plan, exec, data, order)
            == PlaceAll(plan, exec, Place(plan, exec, data, order[j]), order[..j] + order[j + 1..])
    decreases |order|
  {
    hide Place, StepOf, Apart;
    var others := order[..j] + order[j + 1..];
    if j == 0 {
      assert others == order[1..];
    } else {
      var head, tail := order[0], order[1..];
      var after := Place(plan, exec, data, head);
      MoveToFront(plan, exec, after, tail, j - 1);
      assert tail[..j - 1] + tail[j..] == others[1..];
      PlacesCommute(plan, exec, data, head, order[j]);
    }
  }

  /** Of two steps whose paths are not apart the later one waits for the earlier one. */
  ghost predicate ConflictsInOrder(plan: Plan, order: seq<Step>) {
    forall i, j :: 0 <= i < j < |order| ==>
        Apart(order[i].path, order[j].path) || order[i].id in Deps(plan, order[j].id)
  }

  lemma {:induction false} OrdersAgree(plan: Plan, exec: Subgraphs, data: Object, s: seq<Step>, t: seq<Step>)
    requires WellFormed(plan) && Known(plan, s) && Known(plan, t) && DistinctIDs(s) && DistinctIDs(t)
    requires ConflictsInOrder(plan, s) && ConflictsInOrder(plan, t) && (forall x :: x in s <==> x in t)
    ensures PlaceAll(plan, exec, data, s) == PlaceAll(plan, exec, data, t)
    decreases |s|
  {
    hide Place, StepOf, Apart, WellFormed, Deps;
    if s == [] {
      SomeStepLeft(t);
    } else {
      var x := s[0];
      assert x in s && x in t;
      var j :| 0 <= j < |t| && t[j] == x;
      forall i | 0 <= i < j
        ensures Apart(t[i].path, t[j].path)
      {
        assert t[i] in s;
        var k :| 0 <= k < |s| && s[k] == t[i];
        ConflictIsOneWay(plan, s[0], s[k]);
      }
      MoveToFront(plan, exec, data, t, j);
      var others := t[..j] + t[j + 1..];
      DropKeepsShape(plan, s, t, j);
      OrdersAgree(plan, exec, Place(plan, exec, data, x), s[1..], others);
    }
  }

  lemma SomeStepLeft(order: seq<Step>)
    ensures order == [] || exists x :: x in order
  {
    if order != [] {
      assert order[0] in order;
    }
  }

  /** Two steps cannot each wait for the other; and being apart has no direction. */
  lemma ConflictIsOneWay(plan: Plan, x: Step, y: Step)
    requires WellFormed(plan)
    ensures !(x.id in Deps(plan, y.id) && y.id in Deps(plan, x.id))
    ensures Apart(x.path, y.path) <==> Apart(y.path, x.path)
  {
    if x.id in Deps(plan, y.id) && y.id in Deps(plan, x.id) {
      DependencyIsShorter(plan, y.id, x.id);
      DependencyIsShorter(plan, x.id, y.id);
    }
  }

  lemma DropMembers(s: seq<Step>, t: seq<Step>, j: nat)
    requires s != [] && j < |t| && t[j] == s[0] && DistinctIDs(s) && DistinctIDs(t) && (forall x :: x in s <==> x in t)
    ensures forall x :: x in s[1..] <==> x in t[..j] + t[j + 1..]
  {
    var others := t[..j] + t[j + 1..];
    assert t == t[..j] + [t[j]] + t[j + 1..];
    assert s == [s[0]] + s[1..];
    forall x
      ensures x in s[1..] <==> x in others
    {
      if x in s[1..] {
        var k :| 0 <= k < |s[1..]| && s[1..][k] == x;
        assert s[k + 1] == x && x != s[0] && x in s && x in t;
      }
      if x in others {
        var k :| 0 <= k < |others| && others[k] == x;
        assert x == t[if k < j then k else k + 1] && x != t[j] && x in t && x in s;
      }
    }
  }

  lemma DropKeepsShape(plan: Plan, s: seq<Step>, t: seq<Step>, j: nat)
    requires s != [] && j < |t| && t[j] == s[0] && Known(plan, s) && Known(plan, t) && DistinctIDs(s) && DistinctIDs(t)
    requires ConflictsInOrder(plan, s) && ConflictsInOrder(plan, t) && (forall x :: x in s <==> x in t)
    ensures var others := t[..j] + t[j + 1..];
            && Known(plan, s[1..]) && Known(plan, others) && DistinctIDs(s[1..]) && DistinctIDs(others)
            && ConflictsInOrder(plan, s[1..]) && ConflictsInOrder(plan, others)
            && forall x :: x in s[1..] <==> x in others
  {
    hide StepOf, Apart, Deps;
    var others := t[..j] + t[j + 1..];
    DropMembers(s, t, j);
    assert forall k :: 0 <= k < |others| ==> others[k] == t[if k < j then k else k + 1];
  }

  // ----- The two executors agree -----

  /** Of any two steps whose paths are not apart one waits for the other. */
  ghost predicate ConflictsOrdered(plan: Plan) {
    forall i, j :: 0 <= i < j < |plan.steps| ==>
      var s, t := plan.steps[i], plan.steps[j];
      Apart(s.path, t.path) || s.id in Deps(plan, t.id) || t.id in Deps(plan, s.id)
  }

  lemma {:induction false} DistinctStepOf(steps: seq<Step>, i: nat)
    requires DistinctIDs(steps) && i < |steps|
    ensures steps[i].id in StepOf(steps) && StepOf(steps)[steps[i].id] == steps[i]
    decreases |steps|
  {
    var n := |steps| - 1;
    if i < n {
      DistinctStepOf(steps[..n], i);
    }
  }

  lemma ConflictsFollowOrder(plan: Plan, order: seq<Step>)
    requires ConflictsOrdered(plan) && DepsFirst(plan, order)
    ensures ConflictsInOrder(plan, order)
  {
    hide StepOf, Apart, Deps;
    forall i, j | 0 <= i < j < |order|
      ensures Apart(order[i].path, order[j].path) || order[i].id in Deps(plan, order[j].id)
    {
      var s, t := order[i], order[j];
      StepNames(plan.steps, s.id);
      StepNames(plan.steps, t.id);
      var a :| 0 <= a < |plan.steps| && plan.steps[a] == s;
      var b :| 0 <= b < |plan.steps| && plan.steps[b] == t;
      assert Apart(s.path, t.path) <==> Apart(t.path, s.path) by {
        ApartIsSymmetric(s.path, t.path);
      }
      NotRunYet(order, i, j);
    }
  }

  lemma NotRunYet(order: seq<Step>, i: nat, j: nat)
    requires DistinctIDs(order) && i <= j < |order|
    ensures !HasStep(order[..i], order[j].id)
  {
    assert forall k :: 0 <= k < i ==> order[..i][k] == order[k];
  }

  lemma ApartIsSymmetric(p: Path, q: Path)
    ensures Apart(p, q) <==> Apart(q, p)
  {
  }

  /** Every completion order of a parallel run that ends well leaves the data, the results and the
      failed steps of the sequential executor, even when steps fail for which none waits. */
  lemma ParallelAgreesWithSequential(plan: Plan, exec: Subgraphs, log: seq<Step>)
    requires WellFormed(plan) && DepsFirst(plan, plan.steps) && ConflictsOrdered(plan)
    requires Legal(plan, exec, log) && Complete(plan, log)
    ensures var parallel, sequential := RunSteps(plan, exec, log), RunSteps(plan, exec, plan.steps);
            && parallel.data == sequential.data && parallel.completed == sequential.completed
            && forall id :: id in parallel.failed <==> id in sequential.failed
  {
    hide Outcome, StepOf, RunSteps, Legal, PlaceAll;
    LegalIsDepsFirst(plan, exec, log);
    SameSteps(plan, log);
    SameOutcomes(plan, exec, log);
    DataIsPlaced(plan, exec, log);
    DataIsPlaced(plan, exec, plan.steps);
    ConflictsFollowOrder(plan, log);
    ConflictsFollowOrder(plan, plan.steps);
    OrdersAgree(plan, exec, map[], log, plan.steps);
  }

  lemma SameSteps(plan: Plan, log: seq<Step>)
    requires DepsBefore(plan, plan.steps) && DepsBefore(plan, log) && Complete(plan, log)
    ensures forall x :: x in log <==> x in plan.steps
    ensures forall id :: HasStep(log, id) <==> HasStep(plan.steps, id)
  {
    hide StepOf, Deps;
    forall x
      ensures x in log <==> x in plan.steps
    {
      StepNames(plan.steps, x.id);
    }
    forall id
      ensures HasStep(log, id) <==> HasStep(plan.steps, id)
    {
      StepNames(plan.steps, id);
    }
  }

  lemma CompletedAgree(plan: Plan, exec: Subgraphs, log: seq<Step>)
    requires WellFormed(plan) && DepsBefore(plan, plan.steps) && DepsBefore(plan, log) && Complete(plan, log)
    requires Records(plan, exec, log, RunSteps(plan, exec, log).completed)
    requires Records(plan, exec, plan.steps, RunSteps(plan, exec, plan.steps).completed)
    ensures RunSteps(plan, exec, log).completed == RunSteps(plan, exec, plan.steps).completed
  {
    hide Outcome, StepOf, RunSteps, Deps;
    var p, q := RunSteps(plan, exec, log).completed, RunSteps(plan, exec, plan.steps).completed;
    SameSteps(plan, log);
    forall id
      ensures id in p <==> id in q
      ensures id in p ==> p[id] == q[id]
    {
      if id in p || id in q {
        var i :| 0 <= i < |log| && log[i].id == id;
        var j :| 0 <= j < |plan.steps| && plan.steps[j].id == id;
        assert Recorded(p, id, Outcome(plan, exec, id)) && Recorded(q, id, Outcome(plan, exec, id));
      }
    }
  }

  lemma {:induction false} FailedSteps(plan: Plan, exec: Subgraphs, order: seq<Step>, id: string)
    requires WellFormed(plan) && DepsBefore(plan, order)
    ensures id in RunSteps(plan, exec, order).failed <==>
              HasStep(order, id) && id in StepOf(plan.steps) && Outcome(plan, exec, id).None?
  {
    hide Outcome, StepOf, Gather, Merge;
    if order != [] {
      var n := |order| - 1;
      DepsBeforePrefix(plan, order, n);
      FailedSteps(plan, exec, order[..n], id);
      OrdersRecordOutcomes(plan, exec, order[..n]);
      AnswerIsOutcome(plan, exec, order, n);
      HasStepSnoc(order[..n], order[n]);
      assert order == order[..n] + [order[n]];
    }
  }

  /** Results and failures do not depend on the order, nor on repetition. */
  lemma SameOutcomes(plan: Plan, exec: Subgraphs, log: seq<Step>)
    requires WellFormed(plan) && DepsBefore(plan, plan.steps) && DepsBefore(plan, log) && Complete(plan, log)
    ensures var parallel, sequential := RunSteps(plan, exec, log), RunSteps(plan, exec, plan.steps);
            && parallel.completed == sequential.completed
            && forall id :: id in parallel.failed <==> id in sequential.failed
  {
    hide Outcome, StepOf, RunSteps, DepsBefore;
    OrdersRecordOutcomes(plan, exec, log);
    OrdersRecordOutcomes(plan, exec, plan.steps);
    SameSteps(plan, log);
    CompletedAgree(plan, exec, log);
    forall id
      ensures id in RunSteps(plan, exec, log).failed <==> id in RunSteps(plan, exec, plan.steps).failed
    {
      FailedSteps(plan, exec, log, id);
      FailedSteps(plan, exec, plan.steps, id);
    }
  }

  lemma RunStepsSnoc(plan: Plan, exec: Subgraphs, order: seq<Step>, step: Step)
    ensures RunSteps(plan, exec, order + [step]) == RunStep(plan, exec, RunSteps(plan, exec, order), step)
  {
    hide RunStep;
    assert (order + [step])[..|order|] == order;
  }

  lemma TwoStepMap(steps: seq<Step>, s: Step, t: Step)
    requires s.id != t.id && (steps == [s, t] || steps == [t, s])
    ensures StepOf(steps) == map[s.id := s, t.id := t]
  {
    assert steps[..1] == [steps[0]] && [steps[0]][..0] == [];
    assert StepOf([steps[0]]) == map[steps[0].id := steps[0]];
  }

  lemma TwoStepsRun(plan: Plan, exec: Subgraphs, s: Step, t: Step)
    requires s.id != t.id && Deps(plan, s.id) == Deps(plan, t.id) == []
    requires exec(s, map[]).Some? && exec(t, map[]).Some?
    ensures RunSteps(plan, exec, [s, t]).data
         == Merge(Merge(map[], exec(s, map[]).value, s.path), exec(t, map[]).value, t.path)
  {
    hide Merge, RunSteps;
    RunNothing(plan, exec);
    RunStepsSnoc(plan, exec, [], s);
    RunStepsSnoc(plan, exec, [s], t);
    assert [] + [s] == [s] && [s] + [t] == [s, t];
  }

  lemma RunNothing(plan: Plan, exec: Subgraphs)
    ensures RunSteps(plan, exec, []) == INITIAL
  {
  }

  /** Steps of the plan that wait for nothing may complete in any order. */
  lemma FreeStepsAreLegal(plan: Plan, exec: Subgraphs, log: seq<Step>)
    requires DistinctIDs(log)
    requires forall i :: 0 <= i < |log| ==>
               log[i].id in StepOf(plan.steps) && StepOf(plan.steps)[log[i].id] == log[i] && Deps(plan, log[i].id) == []
    ensures Legal(plan, exec, log)
  {
    hide RunSteps, StepOf, Deps;
  }

  lemma TwoStepsComplete(plan: Plan, s: Step, t: Step)
    requires StepOf(plan.steps).Keys == {s.id, t.id}
    ensures Complete(plan, [s, t])
  {
    hide StepOf;
    var log := [s, t];
    assert log[0].id == s.id && log[1].id == t.id;
  }

  lemma TwoSteps(plan: Plan, exec: Subgraphs, s: Step, t: Step)
    requires s.id != t.id && Deps(plan, s.id) == Deps(plan, t.id) == []
    requires plan.steps == [s, t] || plan.steps == [t, s]
    requires exec(s, map[]).Some? && exec(t, map[]).Some?
    ensures Legal(plan, exec, [s, t]) && Complete(plan, [s, t])
    ensures RunSteps(plan, exec, [s, t]).data
         == Merge(Merge(map[], exec(s, map[]).value, s.path), exec(t, map[]).value, t.path)
  {
    hide Merge, StepOf, RunSteps, Legal, Complete, Deps;
    TwoStepMap(plan.steps, s, t);
    TwoStepsRun(plan, exec, s, t);
    FreeStepsAreLegal(plan, exec, [s, t]);
    TwoStepsComplete(plan, s, t);
  }

  /** The condition on paths is needed: whenever one of two independent steps lies on the other's
      path, answers exist for which the two completion orders leave different data. */
  lemma UnorderedConflictsRace(s: Step, t: Step) returns (exec: Subgraphs)
    requires s.id != t.id && !Apart(s.path, t.path)
    ensures var plan := Plan([s, t], map[s.id := [], t.id := []]);
            && Legal(plan, exec, [s, t]) && Complete(plan, [s, t])
            && Legal(plan, exec, [t, s]) && Complete(plan, [t, s])
            && RunSteps(plan, exec, [s, t]).data != RunSteps(plan, exec, [t, s]).data
  {
    hide Merge, Legal, Complete, RunSteps;
    var plan := Plan([s, t], map[s.id := [], t.id := []]);
    var a, b;
    if s.path <= t.path {
      a, b := PrefixesDoNotCommute(s.path, t.path);
    } else {
      b, a := PrefixesDoNotCommute(t.path, s.path);
    }
    exec := (step, _) => Some(if step == s then a else b);
    TwoSteps(plan, exec, s, t);
    TwoSteps(plan, exec, t, s);
  }
}
