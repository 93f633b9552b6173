/** The two executors of a federated plan: in order, and by rounds of steps that run in parallel
    and complete in any order. A subgraph's answer is any function of the step and the data of its
    dependencies; trees and step results are values. */
module Executor {
  import opened Basics
  import opened MergeTree
  import opened Planner

  type Results = map<string, Object>

  /** The answer to a step, given the data of its dependencies; none is a failed request. */
  type Subgraphs = (Step, Object) -> Option<Object>

  /** What both executors build up; `failed` lists the identifiers put into the error list. */
  datatype State = State(completed: Results, data: Object, failed: seq<string>)

  const INITIAL := State(map[], map[], [])

  function Deps(plan: Plan, id: string): seq<string> {
    if id in plan.dependsOn then plan.dependsOn[id] else []
  }

  /** The data of the dependencies that have completed, later ones winning. */
  function Gather(deps: seq<string>, completed: Results): Object {
    if deps == [] then map[]
    else
      var earlier, d := Gather(deps[..|deps| - 1], completed), deps[|deps| - 1];
      if d in completed then earlier + completed[d] else earlier
  }

  /** One step runs and its result is recorded. */
  function RunStep(plan: Plan, exec: Subgraphs, st: State, step: Step): State {
    match exec(step, Gather(Deps(plan, step.id), st.completed))
    case Some(d) => State(st.completed[step.id := d], Merge(st.data, d, step.path), st.failed)
    case None => st.(failed := st.failed + [step.id])
  }

  function RunSteps(plan: Plan, exec: Subgraphs, order: seq<Step>): State {
    if order == [] then INITIAL
    else RunStep(plan, exec, RunSteps(plan, exec, order[..|order| - 1]), order[|order| - 1])
  }

  /** The completed dependency `d` has a field `name`. */
  predicate Supplies(completed: Results, d: string, name: string) {
    d in completed && name in completed[d]
  }

  /** A gathered field has the value of the last dependency that supplies it. */
  lemma {:induction false} LastSupplierWins(deps: seq<string>, completed: Results, i: nat, name: string)
    requires i < |deps| && Supplies(completed, deps[i], name)
    requires forall j :: i < j < |deps| ==> !Supplies(completed, deps[j], name)
    ensures name in Gather(deps, completed) && Gather(deps, completed)[name] == completed[deps[i]][name]
  {
    var n := |deps| - 1;
    if i < n {
      assert deps[..n][i] == deps[i];
      assert forall j :: i < j < n ==> deps[..n][j] == deps[j];
      LastSupplierWins(deps[..n], completed, i, name);
      assert !Supplies(completed, deps[n], name);
    }
  }

  /** A field that no completed dependency supplies is not gathered. */
  lemma {:induction false} UnsuppliedIsMissing(deps: seq<string>, completed: Results, name: string)
    requires forall i :: 0 <= i < |deps| ==> !Supplies(completed, deps[i], name)
    ensures name !in Gather(deps, completed)
  {
    if deps != [] {
      UnsuppliedIsMissing(deps[..|deps| - 1], completed, name);
      assert !Supplies(completed, deps[|deps| - 1], name);
    }
  }

  method GatherData(deps: seq<string>, completed: Results) returns (data: Object)
    ensures data == Gather(deps, completed)
  {
    data := map[];
    for i := 0 to |deps|
      invariant data == Gather(deps[..i], completed)
    {
      assert deps[..i + 1][..i] == deps[..i];
      if deps[i] in completed { data := data + completed[deps[i]]; }
    }
    assert deps[..|deps|] == deps;
  }

  method Execute(plan: Plan, exec: Subgraphs) returns (st: State)
    ensures st == RunSteps(plan, exec, plan.steps)
  {
    hide Merge, Gather;
    st := INITIAL;
    for i := 0 to |plan.steps|
      invariant st == RunSteps(plan, exec, plan.steps[..i])
    {
      assert plan.steps[..i + 1][..i] == plan.steps[..i];
      var step := plan.steps[i];
      var depData := GatherData(Deps(plan, step.id), st.completed);
      match exec(step, depData) {
        case None => st := st.(failed := st.failed + [step.id]);
        case Some(d) => st := State(st.completed[step.id := d], Merge(st.data, d, step.path), st.failed);
      }
    }
    assert plan.steps[..|plan.steps|] == plan.steps;
  }

  // ----- Rounds -----

  /** The step that an identifier stands for: the last one that has it. */
  function StepOf(steps: seq<Step>): map<string, Step> {
    if steps == [] then map[]
    else StepOf(steps[..|steps| - 1])[steps[|steps| - 1].id := steps[|steps| - 1]]
  }

  predicate Ready(plan: Plan, completed: Results, id: string) {
    forall d <- Deps(plan, id) :: d in completed
  }

  ghost predicate DistinctIDs(order: seq<Step>) {
    forall i, j :: 0 <= i < j < |order| ==> order[i].id != order[j].id
  }

  /** A completion order that the rounds may produce: steps of the plan, each identifier once, each
      after all its dependencies have completed. */
  ghost predicate Legal(plan: Plan, exec: Subgraphs, log: seq<Step>) {
    && DistinctIDs(log)
    && forall i :: 0 <= i < |log| ==>
         && log[i].id in StepOf(plan.steps) && StepOf(plan.steps)[log[i].id] == log[i]
         && Ready(plan, RunSteps(plan, exec, log[..i]).completed, log[i].id)
  }

  ghost predicate Complete(plan: Plan, log: seq<Step>) {
    forall id :: id in StepOf(plan.steps) ==> HasStep(log, id)
  }

  /** Something is left, and nothing that is left is ready. */
  ghost predicate Stuck(plan: Plan, completed: Results, log: seq<Step>) {
    && !Complete(plan, log)
    && forall id :: id in StepOf(plan.steps) && !HasStep(log, id) ==> !Ready(plan, completed, id)
  }

  method ExecuteParallel(plan: Plan, exec: Subgraphs) returns (ok: bool, st: State, log: seq<Step>)
    ensures Legal(plan, exec, log) && st == RunSteps(plan, exec, log)
    ensures if ok then Complete(plan, log) else Stuck(plan, st.completed, log)
  {
    hide Merge, Gather, RunStep, Ready;
    var pending := PendingSteps(plan.steps);
    st, log := INITIAL, [];
    while |pending| > 0
      invariant Legal(plan, exec, log) && st == RunSteps(plan, exec, log)
      invariant Partition(plan, pending, log)
      decreases |pending|
    {
      var executable := set id | id in pending && Ready(plan, st.completed, id);
      if executable == {} {
        assert forall id :: id in pending && Ready(plan, st.completed, id) ==> id in executable;
        NothingReady(plan, st.completed, pending, log);
        return false, st, log;
      }
      pending, st, log := RunBatch(plan, exec, executable, pending, st, log);
    }
    ok := true;
  }

  /** The pending steps are those of the plan that have not run. */
  ghost predicate Partition(plan: Plan, pending: map<string, Step>, log: seq<Step>) {
    && (forall id :: id in pending <==> id in StepOf(plan.steps) && !HasStep(log, id))
    && (forall id :: id in pending ==> pending[id] == StepOf(plan.steps)[id])
  }

  /** One round: the executable steps complete in an arbitrary order. */
  method RunBatch(plan: Plan, exec: Subgraphs, executable: set<string>, pending0: map<string, Step>, st0: State,
                  log0: seq<Step>)
      returns (pending: map<string, Step>, st: State, log: seq<Step>)
    requires Legal(plan, exec, log0) && st0 == RunSteps(plan, exec, log0) && Partition(plan, pending0, log0)
    requires executable != {} && forall id <- executable :: id in pending0 && Ready(plan, st0.completed, id)
    ensures Legal(plan, exec, log) && st == RunSteps(plan, exec, log) && Partition(plan, pending, log)
    ensures |pending| == |pending0| - |executable|
    ensures |pending| < |pending0|
  {
    hide Legal, Partition, Ready, RunSteps, RunStep;
    pending, st, log := pending0, st0, log0;
    var inProgress := executable;
    while inProgress != {}
      invariant inProgress <= executable && |pending| == |pending0| - |executable| + |inProgress|
      invariant Legal(plan, exec, log) && st == RunSteps(plan, exec, log) && Partition(plan, pending, log)
      invariant forall id <- inProgress :: id in pending && Ready(plan, st.completed, id)
    {
      var id :| id in inProgress;
      var step := pending[id];
      CompletionKeepsRound(plan, exec, pending, log, id);
      st := RunStep(plan, exec, st, step);
      log := log + [step];
      inProgress := inProgress - {id};
      assert (pending - {id}).Keys == pending.Keys - {id};
      pending := pending - {id};
    }
  }

  lemma CompletionKeepsRound(plan: Plan, exec: Subgraphs, pending: map<string, Step>, log: seq<Step>, id: string)
    requires Legal(plan, exec, log) && Partition(plan, pending, log)
    requires id in pending && Ready(plan, RunSteps(plan, exec, log).completed, id)
    ensures var longer, st := log + [pending[id]], RunSteps(plan, exec, log);
            && Legal(plan, exec, longer) && Partition(plan, pending - {id}, longer)
            && RunSteps(plan, exec, longer) == RunStep(plan, exec, st, pending[id])
            && forall x :: Ready(plan, st.completed, x) ==>
               Ready(plan, RunStep(plan, exec, st, pending[id]).completed, x)
  {
    hide Legal, StepOf;
    var step := pending[id];
    StepNames(plan.steps, id);
    LegalExtends(plan, exec, log, step);
    CompletedGrows(plan, exec, RunSteps(plan, exec, log), step);
    HasStepSnoc(log, step);
    assert (log + [step])[..|log|] == log;
  }

  lemma NothingReady(plan: Plan, completed: Results, pending: map<string, Step>, log: seq<Step>)
    requires Partition(plan, pending, log) && |pending| > 0
    requires forall id :: id in pending ==> !Ready(plan, completed, id)
    ensures Stuck(plan, completed, log)
  {
    hide Ready, StepOf, HasStep;
    assert pending.Keys != {};
    var id :| id in pending;
  }

  method PendingSteps(steps: seq<Step>) returns (pending: map<string, Step>)
    ensures pending == StepOf(steps)
  {
    pending := map[];
    for i := 0 to |steps|
      invariant pending == StepOf(steps[..i])
    {
      assert steps[..i + 1][..i] == steps[..i];
      pending := pending[steps[i].id := steps[i]];
    }
    assert steps[..|steps|] == steps;
  }

  lemma {:induction false} StepNames(steps: seq<Step>, id: string)
    ensures id in StepOf(steps) <==> HasStep(steps, id)
    ensures id in StepOf(steps) ==> StepOf(steps)[id].id == id && StepOf(steps)[id] in steps
  {
    if steps != [] {
      var n := |steps| - 1;
      StepNames(steps[..n], id);
      HasStepSnoc(steps[..n], steps[n]);
      assert steps == steps[..n] + [steps[n]];
    }
  }

  lemma HasStepSnoc(log: seq<Step>, step: Step)
    ensures forall id :: HasStep(log + [step], id) <==> HasStep(log, id) || id == step.id
  {
    forall id
      ensures HasStep(log + [step], id) <==> HasStep(log, id) || id == step.id
    {
      if HasStep(log, id) {
        var i :| 0 <= i < |log| && log[i].id == id;
        assert (log + [step])[i].id == id;
      }
      assert (log + [step])[|log|].id == step.id;
    }
  }

  lemma CompletedGrows(plan: Plan, exec: Subgraphs, st: State, step: Step)
    ensures forall id :: id in st.completed ==> id in RunStep(plan, exec, st, step).completed
  {
  }

  lemma LegalExtends(plan: Plan, exec: Subgraphs, log: seq<Step>, step: Step)
    requires Legal(plan, exec, log) && !HasStep(log, step.id)
    requires step.id in StepOf(plan.steps) && StepOf(plan.steps)[step.id] == step
    requires Ready(plan, RunSteps(plan, exec, log).completed, step.id)
    ensures Legal(plan, exec, log + [step])
  {
    hide RunSteps, Ready, StepOf;
    var longer := log + [step];
    forall i | 0 <= i < |longer|
      ensures && longer[i].id in StepOf(plan.steps) && StepOf(plan.steps)[longer[i].id] == longer[i]
              && Ready(plan, RunSteps(plan, exec, longer[..i]).completed, longer[i].id)
    {
      if i < |log| {
        assert longer[..i] == log[..i];
      } else {
        assert longer[..i] == log;
      }
    }
  }
}
