/** Plans that the two executors answer differently, with the answers and the completion order that
    show it. */
module Races {
  import opened Basics
  import opened Json
  import opened MergeTree
  import opened Planner
  import opened Executor
  import opened Outcomes
  import opened Repeats

  /** Both executors leave the same data, whatever the subgraphs answer and however the steps
      complete. */
  ghost predicate ExecutorsAgree(plan: Plan) {
    forall exec, log :: Legal(plan, exec, log) && Complete(plan, log) ==>
      RunSteps(plan, exec, log).data == RunSteps(plan, exec, plan.steps).data
  }

  ghost predicate AlwaysAnswers(exec: Subgraphs) {
    forall step, data :: exec(step, data).Some?
  }

  lemma {:induction false} AnsweredHaveCompleted(plan: Plan, exec: Subgraphs, order: seq<Step>, id: string)
    requires AlwaysAnswers(exec) && HasStep(order, id)
    ensures id in RunSteps(plan, exec, order).completed
  {
    hide Merge, Gather, Deps;
    var n := |order| - 1;
    if order[n].id != id {
      var i :| 0 <= i < |order| && order[i].id == id;
      assert order[..n][i].id == id;
      AnsweredHaveCompleted(plan, exec, order[..n], id);
    }
  }

  lemma AnsweredOrdersAreLegal(plan: Plan, exec: Subgraphs, log: seq<Step>)
    requires AlwaysAnswers(exec) && DepsFirst(plan, log)
    ensures Legal(plan, exec, log)
  {
    hide RunSteps, StepOf, Deps, HasStep;
    forall i, d | 0 <= i < |log| && d in Deps(plan, log[i].id)
      ensures d in RunSteps(plan, exec, log[..i]).completed
    {
      AnsweredHaveCompleted(plan, exec, log[..i], d);
    }
  }

  lemma {:induction false} EmptyAnswers(plan: Plan, exec: Subgraphs, order: seq<Step>)
    requires forall i, data :: 0 <= i < |order| ==> exec(order[i], data) == Some(map[])
    ensures AllObjects(RunSteps(plan, exec, order).data)
  {
    hide Merge, Gather, Deps;
    if order != [] {
      var n := |order| - 1;
      EmptyAnswers(plan, exec, order[..n]);
      EmptyResultsLeaveObjects(RunSteps(plan, exec, order[..n]).data, order[n].path);
    }
  }

  /** When every subgraph answers, some completion order runs every identifier. */
  lemma {:induction false} RunsCanComplete(plan: Plan, exec: Subgraphs, pending: map<string, Step>, log: seq<Step>)
      returns (longer: seq<Step>)
    requires WellFormed(plan) && AlwaysAnswers(exec) && Legal(plan, exec, log) && Partition(plan, pending, log)
    ensures Legal(plan, exec, longer) && Complete(plan, longer)
    decreases |pending|
  {
    hide Legal, RunSteps, RunStep, StepOf, Outcome, WellFormed, Deps;
    longer := log;
    if !Complete(plan, log) {
      if Stuck(plan, RunSteps(plan, exec, log).completed, log) {
        AnswersAreGiven(plan, exec);
        CompletesIffDependenciesAnswer(plan, exec, log);
      }
      var id :| id in StepOf(plan.steps) && !HasStep(log, id) && Ready(plan, RunSteps(plan, exec, log).completed, id);
      CompletionKeepsRound(plan, exec, pending, log, id);
      longer := RunsCanComplete(plan, exec, pending - {id}, log + [pending[id]]);
    }
  }

  lemma AnswersAreGiven(plan: Plan, exec: Subgraphs)
    requires WellFormed(plan) && AlwaysAnswers(exec)
    ensures DependenciesAnswer(plan, exec)
  {
    hide WellFormed, DepData;
  }

  lemma CompleteLogExists(plan: Plan, exec: Subgraphs) returns (log: seq<Step>)
    requires WellFormed(plan) && AlwaysAnswers(exec)
    ensures Legal(plan, exec, log) && Complete(plan, log)
  {
    log := RunsCanComplete(plan, exec, StepOf(plan.steps), []);
  }

  // ----- Two steps that can both be left to the end -----

  function Without(order: seq<Step>, k: nat): seq<Step>
    requires k < |order|
  {
    order[..k] + order[k + 1..]
  }

  lemma WithoutMembers(order: seq<Step>, k: nat, id: string)
    requires k < |order| && DistinctIDs(order)
    ensures HasStep(Without(order, k), id) <==> HasStep(order, id) && id != order[k].id
  {
    var others := Without(order, k);
    assert forall i :: 0 <= i < |others| ==> others[i] == order[if i < k then i else i + 1];
    if HasStep(order, id) && id != order[k].id {
      var i :| 0 <= i < |order| && order[i].id == id;
      assert others[if i < k then i else i - 1].id == id;
    }
  }

  /** A step nobody waits for can be left out. */
  lemma WithoutIsDepsFirst(plan: Plan, order: seq<Step>, k: nat)
    requires DepsFirst(plan, order) && k < |order|
    requires forall i :: 0 <= i < |order| ==> order[k].id !in Deps(plan, order[i].id)
    ensures DepsFirst(plan, Without(order, k))
  {
    hide StepOf, Deps;
    var others := Without(order, k);
    assert forall i :: 0 <= i < |others| ==> others[i] == order[if i < k then i else i + 1];
    forall i, d | 0 <= i < |others| && d in Deps(plan, others[i].id)
      ensures HasStep(others[..i], d)
    {
      var m := if i < k then i else i + 1;
      assert HasStep(order[..m], d);
      var n :| 0 <= n < m && order[..m][n].id == d;
      assert n != k;
      assert others[..i][if n < k then n else n - 1].id == d;
    }
  }

  /** And run last, once everything it waits for has run. */
  lemma LastIsDepsFirst(plan: Plan, order: seq<Step>, step: Step)
    requires DepsFirst(plan, order) && !HasStep(order, step.id)
    requires step.id in StepOf(plan.steps) && StepOf(plan.steps)[step.id] == step
    requires forall d <- Deps(plan, step.id) :: HasStep(order, d)
    ensures DepsFirst(plan, order + [step])
  {
    hide StepOf, Deps, HasStep;
    var longer := order + [step];
    forall i, j | 0 <= i < j < |longer|
      ensures longer[i].id != longer[j].id
    {
      if j == |order| {
        RunIsThere(order, i);
      }
    }
    forall i, d | 0 <= i < |longer| && d in Deps(plan, longer[i].id)
      ensures HasStep(longer[..i], d)
    {
      if i < |order| {
        assert longer[..i] == order[..i];
      } else {
        assert longer[..i] == order;
      }
    }
  }

  lemma RunIsThere(order: seq<Step>, i: nat)
    requires i < |order|
    ensures HasStep(order, order[i].id)
  {
  }

  /** Two last steps, one below the other, in either order. */
  lemma LastTwoRace(plan: Plan, others: seq<Step>, s: Step, t: Step) returns (exec: Subgraphs)
    requires s.path != [] && Below(s.path, t.path) && s != t && s !in others
    ensures AlwaysAnswers(exec)
    ensures RunSteps(plan, exec, others + [s, t]).data != RunSteps(plan, exec, others + [t, s]).data
  {
    hide Merge, RunSteps, Gather, Deps;
    var rest := t.path[|s.path|..];
    assert t.path == s.path + rest && rest != [];
    var nested := Nest(rest);
    exec := (step, _) => Some(if step == s then nested else map[]);
    EmptyAnswers(plan, exec, others);
    var before := RunSteps(plan, exec, others);
    OrderShows(before.data, s.path, rest);
    TwoMore(plan, exec, others, s, t);
    TwoMore(plan, exec, others, t, s);
  }

  lemma TwoMore(plan: Plan, exec: Subgraphs, order: seq<Step>, x: Step, y: Step)
    ensures RunSteps(plan, exec, order + [x, y])
            == RunStep(plan, exec, RunStep(plan, exec, RunSteps(plan, exec, order), x), y)
  {
    hide RunSteps, RunStep;
    RunStepsSnoc(plan, exec, order, x);
    RunStepsSnoc(plan, exec, order + [x], y);
    assert order + [x] + [y] == order + [x, y];
  }

  /** Two steps of a plan of which nobody waits for either can both be left to the end. */
  lemma LeftToTheEnd(plan: Plan, steps: seq<Step>, i: nat, j: nat) returns (others: seq<Step>)
    requires DepsFirst(plan, steps) && Complete(plan, steps) && i < |steps| && j < |steps| && i != j
    requires forall k :: 0 <= k < |steps| ==>
               steps[i].id !in Deps(plan, steps[k].id) && steps[j].id !in Deps(plan, steps[k].id)
    ensures steps[i] !in others
    ensures DepsFirst(plan, others + [steps[i], steps[j]]) && Complete(plan, others + [steps[i], steps[j]])
    ensures DepsFirst(plan, others + [steps[j], steps[i]]) && Complete(plan, others + [steps[j], steps[i]])
  {
    hide StepOf, Deps, HasStep, Without;
    var rest := Without(steps, j);
    WithoutIsDepsFirst(plan, steps, j);
    var k := if i < j then i else i - 1;
    assert rest[k] == steps[i] by { WithoutAt(steps, j, i); }
    forall m | 0 <= m < |rest|
      ensures rest[k].id !in Deps(plan, rest[m].id)
    {
      var n := WithoutFrom(steps, j, m);
    }
    others := Without(rest, k);
    WithoutIsDepsFirst(plan, rest, k);
    forall id
      ensures HasStep(others, id) <==> HasStep(steps, id) && id != steps[i].id && id != steps[j].id
    {
      WithoutMembers(steps, j, id);
      WithoutMembers(rest, k, id);
    }
    if steps[i] in others {
      var m :| 0 <= m < |others| && others[m] == steps[i];
      RunIsThere(others, m);
    }
    BothLast(plan, steps, others, i, j);
    BothLast(plan, steps, others, j, i);
  }

  lemma WithoutAt(order: seq<Step>, k: nat, i: nat)
    requires k < |order| && i < |order| && i != k
    ensures |Without(order, k)| == |order| - 1 && Without(order, k)[if i < k then i else i - 1] == order[i]
  {
  }

  lemma WithoutFrom(order: seq<Step>, k: nat, m: nat) returns (n: nat)
    requires k < |order| && m < |Without(order, k)|
    ensures n < |order| && Without(order, k)[m] == order[n]
  {
    n := if m < k then m else m + 1;
  }

  lemma BothLast(plan: Plan, steps: seq<Step>, others: seq<Step>, i: nat, j: nat)
    requires DepsFirst(plan, steps) && Complete(plan, steps) && DepsFirst(plan, others)
    requires i < |steps| && j < |steps| && i != j
    requires forall k :: 0 <= k < |steps| ==>
               steps[i].id !in Deps(plan, steps[k].id) && steps[j].id !in Deps(plan, steps[k].id)
    requires forall id :: HasStep(others, id) <==> HasStep(steps, id) && id != steps[i].id && id != steps[j].id
    ensures DepsFirst(plan, others + [steps[i], steps[j]]) && Complete(plan, others + [steps[i], steps[j]])
  {
    hide StepOf, Deps, HasStep;
    var s, t := steps[i], steps[j];
    forall d | d in Deps(plan, s.id)
      ensures HasStep(others, d)
    {
      HasStepLonger(steps, i, d);
    }
    LastIsDepsFirst(plan, others, s);
    forall id
      ensures HasStep(others + [s], id) <==> HasStep(others, id) || id == s.id
    {
      HasStepSnoc(others, s);
    }
    forall d | d in Deps(plan, t.id)
      ensures HasStep(others + [s], d)
    {
      HasStepLonger(steps, j, d);
    }
    LastIsDepsFirst(plan, others + [s], t);
    var log := others + [s, t];
    assert others + [s] + [t] == log;
    forall id | id in StepOf(plan.steps)
      ensures HasStep(log, id)
    {
      HasStepSnoc(others + [s], t);
    }
  }

  lemma HasStepLonger(order: seq<Step>, n: nat, id: string)
    requires n <= |order| && HasStep(order[..n], id)
    ensures HasStep(order, id)
  {
    var i :| 0 <= i < n && order[..n][i].id == id;
    assert order[i].id == id;
  }

  // ----- A step that its identifier does not stand for -----

  function Longest(names: seq<string>): (n: nat)
    ensures forall i :: 0 <= i < |names| ==> |names[i]| <= n
  {
    if names == [] then 0
    else
      var n, last := Longest(names[..|names| - 1]), names[|names| - 1];
      assert forall i :: 0 <= i < |names| - 1 ==> names[..|names| - 1][i] == names[i];
      if |last| > n then |last| else n
  }

  function LastNames(steps: seq<Step>): (names: seq<string>)
    ensures |names| == |steps|
    ensures forall i :: 0 <= i < |steps| && steps[i].path != [] ==> names[i] == steps[i].path[|steps[i].path| - 1]
  {
    seq(|steps|, i requires 0 <= i < |steps| => if steps[i].path == [] then "" else steps[i].path[|steps[i].path| - 1])
  }

  /** A name that no step's path ends with. */
  lemma FreshName(steps: seq<Step>) returns (name: string)
    ensures forall i, p: Path :: 0 <= i < |steps| ==> steps[i].path != p + [name]
  {
    var names := LastNames(steps);
    name := seq(Longest(names) + 1, _ => 'x');
    forall i, p: Path | 0 <= i < |steps|
      ensures steps[i].path != p + [name]
    {
      assert |names[i]| < |name|;
    }
  }

  /** A sequential run that includes `s` leaves the text that `s` answers. */
  lemma {:induction false} TextIsLeft(plan: Plan, exec: Subgraphs, order: seq<Step>, s: Step, name: string)
    requires s.path != []
    requires forall step, data :: exec(step, data) == Some(if step == s then map[name := Str("")] else map[])
    requires forall i :: 0 <= i < |order| ==> order[i].path != s.path + [name]
    ensures if s in order then Find(RunSteps(plan, exec, order).data, s.path + [name]) == Some(Str(""))
            else AllObjects(RunSteps(plan, exec, order).data)
  {
    hide Merge, Gather, Deps, Find, AllObjects;
    if order == [] {
      NothingIsObjects();
    } else {
      var n := |order| - 1;
      var before, x := RunSteps(plan, exec, order[..n]).data, order[n];
      TextIsLeft(plan, exec, order[..n], s, name);
      assert s in order <==> s in order[..n] || x == s;
      if x == s {
        if s in order[..n] {
          FoundIsReachable(before, s.path, name);
        } else {
          ObjectsAreReachable(before, s.path);
        }
        TextLands(before, s.path, name);
      } else if s in order[..n] {
        TextStays(before, x.path, s.path + [name]);
      } else {
        EmptyResultsLeaveObjects(before, x.path);
      }
    }
  }

  lemma NothingIsObjects()
    ensures AllObjects(map[])
  {
  }

  /** If a step's identifier stands for another step, the parallel executor never runs it, and its
      answer shows in the sequential data alone. */
  lemma CollidingStepShows(plan: Plan, i: nat) returns (exec: Subgraphs, log: seq<Step>)
    requires WellFormed(plan) && i < |plan.steps| && plan.steps[i].path != []
    requires plan.steps[i].id in StepOf(plan.steps) && StepOf(plan.steps)[plan.steps[i].id] != plan.steps[i]
    ensures Legal(plan, exec, log) && Complete(plan, log)
    ensures RunSteps(plan, exec, log).data != RunSteps(plan, exec, plan.steps).data
  {
    hide RunSteps, Complete, WellFormed, StepOf, Find, AllObjects;
    var s := plan.steps[i];
    var name := FreshName(plan.steps);
    var mark: Object := map[name := Str("")];
    exec := (step, _) => Some(if step == s then mark else map[]);
    log := CompleteLogExists(plan, exec);
    TextIsLeft(plan, exec, plan.steps, s, name);
    forall k | 0 <= k < |log|
      ensures log[k].path != s.path + [name] && log[k] != s
    {
      assert log[k].id in StepOf(plan.steps) && StepOf(plan.steps)[log[k].id] == log[k];
      StepNames(plan.steps, log[k].id);
    }
    TextIsLeft(plan, exec, log, s, name);
    NoTextInObjects(RunSteps(plan, exec, log).data, s.path + [name]);
  }

  // ----- A step that comes again without those below it -----

  /** Since `s` last ran, `t` has not. */
  predicate Shows(order: seq<Step>, s: Step, t: Step) {
    order != [] &&
    var n := |order| - 1;
    order[n] == s || (order[n] != t && Shows(order[..n], s, t))
  }

  lemma {:induction false} ShowsIff(order: seq<Step>, s: Step, t: Step, i: nat)
    requires s != t && i < |order| && order[i] == s && s !in order[i + 1..]
    ensures Shows(order, s, t) <==> t !in order[i + 1..]
    decreases |order|
  {
    var n := |order| - 1;
    if i < n {
      assert order[i + 1..] == order[..n][i + 1..] + [order[n]];
      ShowsIff(order[..n], s, t, i);
    }
  }

  /** If `s` answers with a text at the path of `t`, and nothing else answers with any fields, the
      text is left exactly when `t` has not run since. */
  lemma {:induction false} TextShows(plan: Plan, exec: Subgraphs, order: seq<Step>, s: Step, t: Step, rest: Path)
    requires s.path != [] && rest != [] && t.path == s.path + rest
    requires forall step, data :: exec(step, data) == Some(if step == s then Nest(rest) else map[])
    requires forall i :: 0 <= i < |order| && order[i].path == t.path ==> order[i] == t
    ensures var data := RunSteps(plan, exec, order).data;
            Reachable(data, t.path) && (Find(data, t.path) == Some(Str("")) <==> Shows(order, s, t))
  {
    hide Merge, Gather, Deps, Find, Reachable, Nest;
    if order == [] {
      NothingIsThere(t.path);
    } else {
      var n := |order| - 1;
      var before, x := RunSteps(plan, exec, order[..n]).data, order[n];
      TextShows(plan, exec, order[..n], s, t, rest);
      if x == s {
        ReachableAbove(before, s.path, rest);
        NestLands(before, s.path, rest);
      } else {
        ReachableStays(before, x.path, t.path);
        if x == t {
          MergeStores(before, map[], t.path);
        } else {
          TextStays(before, x.path, t.path);
        }
      }
    }
  }

  lemma NothingIsThere(place: Path)
    requires place != []
    ensures Reachable(map[], place) && Find(map[], place).None?
  {
  }

  lemma {:induction false} LastOccurrence(steps: seq<Step>, i: nat) returns (k: nat)
    requires i < |steps|
    ensures i <= k < |steps| && steps[k] == steps[i] && steps[i] !in steps[k + 1..]
    decreases |steps| - i
  {
    k := i;
    if steps[i] in steps[i + 1..] {
      var m :| 0 <= m < |steps| - (i + 1) && steps[i + 1..][m] == steps[i];
      k := LastOccurrence(steps, i + 1 + m);
    }
  }

  /** If a step comes and one below it, which waits for it, does not come again, the sequential
      executor leaves the upper one's answer there and the parallel one the lower one's. */
  lemma MissedRepeatShows(plan: Plan, i: nat, j: nat) returns (exec: Subgraphs, log: seq<Step>)
    requires WellFormed(plan) && DepsBefore(plan, plan.steps) && PathsIdentify(plan.steps)
    requires i < |plan.steps| && j < |plan.steps| && plan.steps[i].path != []
    requires Below(plan.steps[i].path, plan.steps[j].path) && plan.steps[i].id in Deps(plan, plan.steps[j].id)
    requires plan.steps[j] !in plan.steps[i + 1..]
    ensures Legal(plan, exec, log) && Complete(plan, log)
    ensures RunSteps(plan, exec, log).data != RunSteps(plan, exec, plan.steps).data
  {
    hide RunSteps, WellFormed, StepOf, Find, Reachable, Deps, Nest, Shows, Legal, Complete;
    var s, t := plan.steps[i], plan.steps[j];
    var rest := t.path[|s.path|..];
    var nested := Nest(rest);
    exec := (step, _) => Some(if step == s then nested else map[]);
    log := CompleteLogExists(plan, exec);
    LegalIsDepsFirst(plan, exec, log);
    SameSteps(plan, log);
    TextShows(plan, exec, plan.steps, s, t, rest);
    TextShows(plan, exec, log, s, t, rest);
    var k := LastOccurrence(plan.steps, i);
    assert plan.steps[k + 1..] == plan.steps[i + 1..][k - i..];
    ShowsIff(plan.steps, s, t, k);
    AwaitedIsCovered(plan, log, s, t);
  }

  lemma AwaitedRunsBefore(plan: Plan, log: seq<Step>, a: nat, b: nat)
    requires DepsFirst(plan, log) && a < |log| && b < |log| && log[a].id in Deps(plan, log[b].id)
    ensures a < b
  {
    hide StepOf, Deps;
    assert HasStep(log[..b], log[a].id);
    var c :| 0 <= c < b && log[..b][c].id == log[a].id;
    assert log[c].id == log[a].id;
  }

  lemma AwaitedIsCovered(plan: Plan, log: seq<Step>, s: Step, t: Step)
    requires DepsFirst(plan, log) && s in log && t in log && s != t && s.id in Deps(plan, t.id)
    ensures !Shows(log, s, t)
  {
    hide DepsBefore, Deps, Shows;
    var a :| 0 <= a < |log| && log[a] == s;
    var b :| 0 <= b < |log| && log[b] == t;
    AwaitedRunsBefore(plan, log, a, b);
    assert log[a + 1..][b - a - 1] == t;
    ShowsIff(log, s, t, a);
  }
}
