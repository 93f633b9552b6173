/** Which planned queries both executors answer alike. */
module PlannedQueries {
  import opened Basics
  import opened Json
  import opened MergeTree
  import opened Planner
  import opened PlannedSteps
  import opened Executor
  import opened Outcomes
  import opened Repeats
  import opened Races

  /** A field that has steps below its own is an entity field. */
  ghost predicate OnlyEntitiesNest(planner: Planner, steps: seq<Step>) {
    forall i, j :: 0 <= i < |steps| && 0 <= j < |steps| && steps[i].path != []
                   && Below(steps[i].path, steps[j].path) ==>
      steps[i].path[|steps[i].path| - 1] in planner.entities
  }

  /** An identifier stands for one step, which may occur more than once. */
  ghost predicate IDsIdentify(steps: seq<Step>) {
    forall i, j :: 0 <= i < |steps| && 0 <= j < |steps| && steps[i].id == steps[j].id ==> steps[i] == steps[j]
  }

  function PlanOf(steps: seq<Step>): Plan {
    Plan(steps, DependencyMap(steps))
  }

  // ----- Queries answered alike -----

  lemma IdentifiedStepOf(steps: seq<Step>, i: nat)
    requires IDsIdentify(steps) && i < |steps|
    ensures steps[i].id in StepOf(steps) && StepOf(steps)[steps[i].id] == steps[i]
  {
    hide StepOf;
    RunIsThere(steps, i);
    StepNames(steps, steps[i].id);
  }

  lemma {:induction false} DependencyMapIsStepOf(steps: seq<Step>, id: string)
    ensures id in DependencyMap(steps) <==> id in StepOf(steps)
    ensures id in StepOf(steps) ==> DependencyMap(steps)[id] == StepOf(steps)[id].dependsOn
  {
    if steps != [] {
      DependencyMapIsStepOf(steps[..|steps| - 1], id);
    }
  }

  lemma IdentifiedDeps(steps: seq<Step>, i: nat)
    requires IDsIdentify(steps) && i < |steps|
    ensures Deps(PlanOf(steps), steps[i].id) == steps[i].dependsOn
  {
    hide StepOf, DependencyMap;
    IdentifiedStepOf(steps, i);
    DependencyMapIsStepOf(steps, steps[i].id);
  }

  lemma PlannedDepsBefore(steps: seq<Step>)
    requires Layered(steps, []) && IDsIdentify(steps)
    ensures DepsBefore(PlanOf(steps), steps)
  {
    hide StepOf, DependencyMap, Deps;
    forall i | 0 <= i < |steps|
      ensures steps[i].id in StepOf(steps) && StepOf(steps)[steps[i].id] == steps[i]
    {
      IdentifiedStepOf(steps, i);
    }
    forall i, d | 0 <= i < |steps| && d in Deps(PlanOf(steps), steps[i].id)
      ensures HasStep(steps[..i], d)
    {
      IdentifiedDeps(steps, i);
      assert LayeredAt(steps, [], i);
    }
  }

  lemma PlannedPathsIdentify(steps: seq<Step>)
    requires Layered(steps, []) && IDsIdentify(steps)
    ensures PathsIdentify(steps)
  {
    hide StepID;
    forall i, j | 0 <= i < |steps| && 0 <= j < |steps| && steps[i].path == steps[j].path
      ensures steps[i] == steps[j]
    {
      assert LayeredAt(steps, [], i) && LayeredAt(steps, [], j);
    }
  }

  lemma UpperIsAwaited(planner: Planner, steps: seq<Step>, i: nat, j: nat)
    requires Layered(steps, []) && EntitiesAwaited(planner, steps, []) && OnlyEntitiesNest(planner, steps)
    requires i < |steps| && j < |steps| && Below(steps[i].path, steps[j].path)
    ensures steps[i].id in steps[j].dependsOn
  {
    hide StepID, OnlyEntitiesNest;
    assert LayeredAt(steps, [], i);
    var p, q := steps[i].path, steps[j].path;
    assert q[..|p|] == p && q[..|q|] == q;
    assert |p| < |q| && q[|p| - 1] == p[|p| - 1];
    assert p[|p| - 1] in planner.entities by { UpperIsEntity(planner, steps, i, j); }
  }

  lemma UpperIsEntity(planner: Planner, steps: seq<Step>, i: nat, j: nat)
    requires OnlyEntitiesNest(planner, steps) && i < |steps| && j < |steps|
    requires steps[i].path != [] && Below(steps[i].path, steps[j].path)
    ensures steps[i].path[|steps[i].path| - 1] in planner.entities
  {
  }

  lemma PlannedNestedAwait(planner: Planner, steps: seq<Step>)
    requires Layered(steps, []) && EntitiesAwaited(planner, steps, [])
    requires IDsIdentify(steps) && OnlyEntitiesNest(planner, steps)
    ensures NestedAwait(PlanOf(steps))
  {
    hide Deps, Layered, EntitiesAwaited, OnlyEntitiesNest, IDsIdentify;
    forall i, j | 0 <= i < |steps| && 0 <= j < |steps| && steps[i].path <= steps[j].path && steps[i] != steps[j]
      ensures steps[i].id in Deps(PlanOf(steps), steps[j].id)
    {
      PlannedPathsIdentify(steps);
      IdentifiedDeps(steps, j);
      UpperIsAwaited(planner, steps, i, j);
    }
  }

  /** The three conditions suffice. */
  lemma PlannedQueriesAgree(planner: Planner, operations: seq<seq<Field>>, exec: Subgraphs, log: seq<Step>)
    requires PlanOperations(planner, operations).Ok?
    requires var steps := PlanOperations(planner, operations).value;
             && IDsIdentify(steps) && OnlyEntitiesNest(planner, steps) && NestedComeAgain(steps)
             && Legal(PlanOf(steps), exec, log) && Complete(PlanOf(steps), log)
    ensures var plan := PlanOf(PlanOperations(planner, operations).value);
            var parallel, sequential := RunSteps(plan, exec, log), RunSteps(plan, exec, plan.steps);
            && parallel.data == sequential.data && parallel.completed == sequential.completed
            && forall id :: id in parallel.failed <==> id in sequential.failed
  {
    hide Legal, RunSteps, PlanOperations, Complete, DependencyMap, Layered, EntitiesAwaited, NestedComeAgain;
    var steps := PlanOperations(planner, operations).value;
    PlannedStepsAreLayered(planner, operations);
    PlannedEntitiesAreAwaited(planner, operations);
    LayeredPlanIsWellFormed(steps);
    PlannedDepsBefore(steps);
    PlannedNestedAwait(planner, steps);
    RepeatingPlansAgree(PlanOf(steps), exec, log);
  }

  // ----- Queries that race -----

  lemma {:induction false} LongestBelow(steps: seq<Step>, p: Path, n: nat, j: nat) returns (k: nat)
    requires j < n <= |steps| && Below(p, steps[j].path)
    ensures k < n && Below(p, steps[k].path)
    ensures forall i :: 0 <= i < n && Below(p, steps[i].path) ==> |steps[i].path| <= |steps[k].path|
  {
    hide Below;
    if j == n - 1 && (forall i :: 0 <= i < n - 1 ==> !Below(p, steps[i].path)) {
      k := j;
    } else {
      var j' := j;
      if j == n - 1 {
        j' :| 0 <= j' < n - 1 && Below(p, steps[j'].path);
      }
      k := LongestBelow(steps, p, n - 1, j');
      if Below(p, steps[n - 1].path) && |steps[n - 1].path| > |steps[k].path| {
        k := n - 1;
      }
    }
  }

  /** In a planned query a step waits only for steps of entity fields above it. */
  lemma WaitsForEntitiesAbove(planner: Planner, operations: seq<seq<Field>>, i: nat, d: string) returns (k: nat)
    requires PlanOperations(planner, operations).Ok? && i < |PlanOperations(planner, operations).value|
    requires IDsIdentify(PlanOperations(planner, operations).value)
    requires d in Deps(PlanOf(PlanOperations(planner, operations).value),
                       PlanOperations(planner, operations).value[i].id)
    ensures var steps := PlanOperations(planner, operations).value;
            && k < |steps| && steps[k].id == d && Below(steps[k].path, steps[i].path)
            && steps[k].path != [] && steps[k].path[|steps[k].path| - 1] in planner.entities
  {
    hide PlanOperations, DependencyMap, EntitiesAbove, AllPaths, StepID;
    var steps, paths := PlanOperations(planner, operations).value, AllPaths(operations);
    PlannedStepsAre(planner, operations);
    IdentifiedDeps(steps, i);
    assert IsStepFor(planner, steps[i], paths[i], 0);
    var m := AboveIsEntity(planner, paths[i], 0, d);
    AllPathsClosed(operations, paths[i], m);
    k :| 0 <= k < |paths| && paths[k] == paths[i][..m];
    assert IsStepFor(planner, steps[k], paths[k], 0);
  }

  lemma NobodyWaits(planner: Planner, operations: seq<seq<Field>>, i: nat, t: nat, k: nat)
    requires PlanOperations(planner, operations).Ok? && IDsIdentify(PlanOperations(planner, operations).value)
    requires var steps := PlanOperations(planner, operations).value;
             && i < |steps| && t < |steps| && k < |steps| && steps[i].path != [] && Below(steps[i].path, steps[t].path)
             && steps[i].path[|steps[i].path| - 1] !in planner.entities
             && forall m :: 0 <= m < |steps| && Below(steps[i].path, steps[m].path) ==>
                |steps[m].path| <= |steps[t].path|
    ensures var steps := PlanOperations(planner, operations).value;
            var deps := Deps(PlanOf(steps), steps[k].id);
            steps[i].id !in deps && steps[t].id !in deps
  {
    hide PlanOperations, DependencyMap, Deps, PlanOf;
    var steps := PlanOperations(planner, operations).value;
    if steps[i].id in Deps(PlanOf(steps), steps[k].id) {
      var m := WaitsForEntitiesAbove(planner, operations, k, steps[i].id);
    }
    if steps[t].id in Deps(PlanOf(steps), steps[k].id) {
      var m := WaitsForEntitiesAbove(planner, operations, k, steps[t].id);
    }
  }

  /** Some order of the plan's steps, each once and after what it waits for. */
  lemma SomeOrder(plan: Plan) returns (order: seq<Step>)
    requires WellFormed(plan)
    ensures DepsFirst(plan, order) && Complete(plan, order)
  {
    hide WellFormed, Legal, DepsFirst, Complete;
    var exec: Subgraphs := (_, _) => Some(map[]);
    order := CompleteLogExists(plan, exec);
    LegalIsDepsFirst(plan, exec, order);
  }

  /** If some step lies below the step of a field that is no entity, completion orders exist that
      leave other data than the sequential executor. */
  lemma ScalarNestRaces(planner: Planner, operations: seq<seq<Field>>, i: nat, j: nat)
      returns (exec: Subgraphs, log: seq<Step>)
    requires PlanOperations(planner, operations).Ok? && IDsIdentify(PlanOperations(planner, operations).value)
    requires var steps := PlanOperations(planner, operations).value;
             && i < |steps| && j < |steps| && steps[i].path != [] && Below(steps[i].path, steps[j].path)
             && steps[i].path[|steps[i].path| - 1] !in planner.entities
    ensures var plan := PlanOf(PlanOperations(planner, operations).value);
            && Legal(plan, exec, log) && Complete(plan, log)
            && RunSteps(plan, exec, log).data != RunSteps(plan, exec, plan.steps).data
  {
    hide PlanOperations, DependencyMap, RunSteps, Legal, Complete, Layered, IDsIdentify, Deps, StepOf, DistinctIDs;
    var steps := PlanOperations(planner, operations).value;
    var plan := PlanOf(steps);
    PlannedStepsAreLayered(planner, operations);
    LayeredPlanIsWellFormed(steps);
    PlannedDepsBefore(steps);
    var t := LongestBelow(steps, steps[i].path, |steps|, j);
    var order := SomeOrder(plan);
    SameSteps(plan, order);
    assert steps[i] in order && steps[t] in order;
    var a :| 0 <= a < |order| && order[a] == steps[i];
    var b :| 0 <= b < |order| && order[b] == steps[t];
    forall k | 0 <= k < |order|
      ensures steps[i].id !in Deps(plan, order[k].id) && steps[t].id !in Deps(plan, order[k].id)
    {
      assert order[k] in steps;
      var m :| 0 <= m < |steps| && steps[m] == order[k];
      NobodyWaits(planner, operations, i, t, m);
    }
    var others := LeftToTheEnd(plan, order, a, b);
    exec := LastTwoRace(plan, others, steps[i], steps[t]);
    AnsweredOrdersAreLegal(plan, exec, others + [steps[i], steps[t]]);
    AnsweredOrdersAreLegal(plan, exec, others + [steps[t], steps[i]]);
    log := others + [steps[i], steps[t]];
    if RunSteps(plan, exec, log).data == RunSteps(plan, exec, steps).data {
      log := others + [steps[t], steps[i]];
    }
  }

  // ----- The exact condition -----

  /** For every planned query: both executors leave the same data, whatever the subgraphs answer and
      however the steps complete, if and only if equal identifiers belong to equal steps, only entity
      fields have steps below them, and whatever lies below a step comes again after it. */
  lemma PlannedAgreeIff(planner: Planner, operations: seq<seq<Field>>)
    requires PlanOperations(planner, operations).Ok?
    ensures var steps := PlanOperations(planner, operations).value;
            ExecutorsAgree(PlanOf(steps)) <==>
              IDsIdentify(steps) && OnlyEntitiesNest(planner, steps) && NestedComeAgain(steps)
  {
    hide PlanOperations, DependencyMap, RunSteps, Legal, Complete, Layered, IDsIdentify, OnlyEntitiesNest,
        NestedComeAgain;
    var steps := PlanOperations(planner, operations).value;
    var plan := PlanOf(steps);
    if !IDsIdentify(steps) {
      CollisionShows(planner, operations);
    } else if !OnlyEntitiesNest(planner, steps) {
      NestShows(planner, operations);
    } else if !NestedComeAgain(steps) {
      RepeatShows(planner, operations);
    } else {
      forall exec, log | Legal(plan, exec, log) && Complete(plan, log)
        ensures RunSteps(plan, exec, log).data == RunSteps(plan, exec, plan.steps).data
      {
        PlannedQueriesAgree(planner, operations, exec, log);
      }
    }
  }

  lemma CollisionShows(planner: Planner, operations: seq<seq<Field>>)
    requires PlanOperations(planner, operations).Ok? && !IDsIdentify(PlanOperations(planner, operations).value)
    ensures !ExecutorsAgree(PlanOf(PlanOperations(planner, operations).value))
  {
    hide PlanOperations, DependencyMap, RunSteps, Legal, Complete, Layered, StepOf;
    var steps := PlanOperations(planner, operations).value;
    PlannedStepsAreLayered(planner, operations);
    LayeredPlanIsWellFormed(steps);
    var i, j :| 0 <= i < |steps| && 0 <= j < |steps| && steps[i].id == steps[j].id && steps[i] != steps[j];
    RunIsThere(steps, i);
    StepNames(steps, steps[i].id);
    var k := if StepOf(steps)[steps[i].id] != steps[i] then i else j;
    PlannedPathNotEmpty(steps, k);
    var exec, log := CollidingStepShows(PlanOf(steps), k);
  }

  lemma NestShows(planner: Planner, operations: seq<seq<Field>>)
    requires PlanOperations(planner, operations).Ok? && IDsIdentify(PlanOperations(planner, operations).value)
    requires !OnlyEntitiesNest(planner, PlanOperations(planner, operations).value)
    ensures !ExecutorsAgree(PlanOf(PlanOperations(planner, operations).value))
  {
    hide PlanOperations, DependencyMap, RunSteps, Legal, Complete, IDsIdentify, Below;
    var steps := PlanOperations(planner, operations).value;
    var i, j :| 0 <= i < |steps| && 0 <= j < |steps| && steps[i].path != [] && Below(steps[i].path, steps[j].path)
                && steps[i].path[|steps[i].path| - 1] !in planner.entities;
    var exec, log := ScalarNestRaces(planner, operations, i, j);
  }

  lemma RepeatShows(planner: Planner, operations: seq<seq<Field>>)
    requires PlanOperations(planner, operations).Ok?
    requires var steps := PlanOperations(planner, operations).value;
             IDsIdentify(steps) && OnlyEntitiesNest(planner, steps) && !NestedComeAgain(steps)
    ensures !ExecutorsAgree(PlanOf(PlanOperations(planner, operations).value))
  {
    hide PlanOperations, DependencyMap, RunSteps, Legal, Complete, Layered, IDsIdentify, OnlyEntitiesNest, Below, Deps,
         EntitiesAwaited;
    var steps := PlanOperations(planner, operations).value;
    PlannedStepsAreLayered(planner, operations);
    PlannedEntitiesAreAwaited(planner, operations);
    LayeredPlanIsWellFormed(steps);
    PlannedDepsBefore(steps);
    PlannedPathsIdentify(steps);
    var i, j :| 0 <= i < |steps| && 0 <= j < |steps| && Below(steps[i].path, steps[j].path)
        && steps[j] !in steps[i + 1..];
    UpperIsAwaited(planner, steps, i, j);
    IdentifiedDeps(steps, j);
    PlannedPathNotEmpty(steps, i);
    var exec, log := MissedRepeatShows(PlanOf(steps), i, j);
  }

  lemma PlannedPathNotEmpty(steps: seq<Step>, i: nat)
    requires Layered(steps, []) && i < |steps|
    ensures steps[i].path != []
  {
    assert LayeredAt(steps, [], i);
  }

  /** With distinct identifiers the second condition decides. */
  lemma QueriesAgreeIff(planner: Planner, operations: seq<seq<Field>>)
    requires PlanOperations(planner, operations).Ok? && DistinctIDs(PlanOperations(planner, operations).value)
    ensures ExecutorsAgree(PlanOf(PlanOperations(planner, operations).value))
       <==> OnlyEntitiesNest(planner, PlanOperations(planner, operations).value)
  {
    hide PlanOperations, DependencyMap, OnlyEntitiesNest, Layered, EntitiesAwaited, ExecutorsAgree, NestedComeAgain;
    var steps := PlanOperations(planner, operations).value;
    PlannedAgreeIff(planner, operations);
    if OnlyEntitiesNest(planner, steps) {
      PlannedStepsAreLayered(planner, operations);
      PlannedEntitiesAreAwaited(planner, operations);
      DistinctComeOnce(planner, steps);
    }
  }

  lemma DistinctComeOnce(planner: Planner, steps: seq<Step>)
    requires DistinctIDs(steps) && Layered(steps, []) && EntitiesAwaited(planner, steps, [])
             && OnlyEntitiesNest(planner, steps)
    ensures NestedComeAgain(steps)
  {
    hide EntitiesAwaited, OnlyEntitiesNest, Below, StepID;
    forall i, j | 0 <= i < |steps| && 0 <= j < |steps| && Below(steps[i].path, steps[j].path)
      ensures steps[j] in steps[i + 1..]
    {
      UpperIsAwaited(planner, steps, i, j);
      assert LayeredAt(steps, [], j);
      var k :| 0 <= k < j && steps[..j][k].id == steps[i].id;
      assert steps[k].id == steps[i].id;
      assert steps[i + 1..][j - i - 1] == steps[j];
    }
  }
}
