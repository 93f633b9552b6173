/** Exactly which steps the planner makes, with which query texts, and what they wait for. */
module PlannedSteps {
  import opened Basics
  import opened Planner

  /** The paths of a field and of all fields below it, in query order. */
  function FieldPaths(field: Field, path: Path): seq<Path>
    decreases field, 1
  {
    [path + [field.name]] + SelectedPaths(field.fields, path + [field.name])
  }

  function SelectedPaths(fields: seq<Field>, path: Path): seq<Path>
    decreases fields, 0
  {
    if fields == [] then [] else FieldPaths(fields[0], path) + SelectedPaths(fields[1..], path)
  }

  /** The entity fields above the end of a path and deeper than `from`, innermost first. */
  function EntitiesAbove(planner: Planner, path: Path, from: nat): seq<string>
    decreases |path| - from
  {
    if from + 1 >= |path| then []
    else
      var here := if path[from] in planner.entities then [StepID(path[..from + 1])] else [];
      EntitiesAbove(planner, path, from + 1) + here
  }

  ghost predicate IsStepFor(planner: Planner, step: Step, path: Path, from: nat) {
    && from < |path| && step.path == path && step.id == StepID(path)
    && step.resultType == (if path[|path| - 1] in planner.entities then path[|path| - 1] else "scalar")
    && step.dependsOn == EntitiesAbove(planner, path, from)
  }

  ghost predicate AreStepsFor(planner: Planner, steps: seq<Step>, paths: seq<Path>, base: Path) {
    |steps| == |paths| && forall i :: 0 <= i < |steps| ==>
        base <= paths[i] && IsStepFor(planner, steps[i], paths[i], |base|)
  }

  lemma NestedStep(planner: Planner, step: Step, path: Path, base: Path)
    requires base != [] && base <= path && IsStepFor(planner, step, path, |base|)
    ensures var name, id := base[|base| - 1], StepID(base);
            var marked := if name in planner.entities then step.(dependsOn := step.dependsOn + [id]) else step;
            IsStepFor(planner, marked, path, |base| - 1)
  {
    assert path[..|base|] == base;
    assert path[|base| - 1] == base[|base| - 1];
  }

  lemma NestedSteps(planner: Planner, steps: seq<Step>, paths: seq<Path>, base: Path, name: string)
    requires AreStepsFor(planner, steps, paths, base + [name])
    ensures var marked := if name in planner.entities then AfterStep(steps, StepID(base + [name])) else steps;
            AreStepsFor(planner, marked, paths, base)
  {
    hide IsStepFor, StepID, AfterStep;
    var marked := if name in planner.entities then AfterStep(steps, StepID(base + [name])) else steps;
    forall i | 0 <= i < |steps|
      ensures base <= paths[i] && IsStepFor(planner, marked[i], paths[i], |base|)
    {
      NestedStep(planner, steps[i], paths[i], base + [name]);
    }
  }

  lemma OneMoreStep(planner: Planner, step: Step, steps: seq<Step>, path: Path, paths: seq<Path>, base: Path)
    requires base <= path && IsStepFor(planner, step, path, |base|) && AreStepsFor(planner, steps, paths, base)
    ensures AreStepsFor(planner, [step] + steps, [path] + paths, base)
  {
    hide IsStepFor;
  }

  lemma {:induction false} PlanFieldIs(planner: Planner, field: Field, path: Path)
    ensures var r := PlanField(planner, field, path); r.Ok? ==>
            AreStepsFor(planner, r.value, FieldPaths(field, path), path)
    decreases field, 1
  {
    hide IsStepFor, AreStepsFor, StepID, CanResolve, AfterStep, QueryText;
    var r := PlanField(planner, field, path);
    if r.Ok? {
      var here := path + [field.name];
      PlanFieldsAre(planner, field.fields, here);
      var nested, below := PlanFields(planner, field.fields, here).value, SelectedPaths(field.fields, here);
      NestedSteps(planner, nested, below, path, field.name);
      var step := OwnStep(planner, field, here);
      OwnStepIs(planner, field, here);
      var marked := if field.name in planner.entities then AfterStep(nested, step.id) else nested;
      OneMoreStep(planner, step, marked, here, below, path);
    }
  }

  lemma OwnStepIs(planner: Planner, field: Field, here: Path)
    requires here != [] && here[|here| - 1] == field.name
    ensures IsStepFor(planner, OwnStep(planner, field, here), here, |here| - 1)
  {
    hide QueryText, Join;
  }

  lemma {:induction false} PlanFieldsAre(planner: Planner, fields: seq<Field>, path: Path)
    ensures var r := PlanFields(planner, fields, path); r.Ok? ==>
            AreStepsFor(planner, r.value, SelectedPaths(fields, path), path)
    decreases fields, 0
  {
    hide IsStepFor, PlanField, FieldPaths, CanResolve;
    if fields != [] && PlanFields(planner, fields, path).Ok? {
      PlanFieldIs(planner, fields[0], path);
      PlanFieldsAre(planner, fields[1..], path);
    }
  }

  function AllPaths(operations: seq<seq<Field>>): seq<Path> {
    if operations == [] then [] else SelectedPaths(operations[0], []) + AllPaths(operations[1..])
  }

  /** A plan has exactly one step for each selected field at any depth, in query order, and it waits
      for exactly the entity fields above it, innermost first. */
  lemma {:induction false} PlannedStepsAre(planner: Planner, operations: seq<seq<Field>>)
    ensures var r := PlanOperations(planner, operations); r.Ok? ==>
            AreStepsFor(planner, r.value, AllPaths(operations), [])
  {
    hide IsStepFor, PlanFields, SelectedPaths, CanResolve;
    if operations != [] && PlanOperations(planner, operations).Ok? {
      PlanFieldsAre(planner, operations[0], []);
      PlannedStepsAre(planner, operations[1..]);
    }
  }

  /** A field and all fields below it, in query order. */
  function FieldsOf(field: Field): (r: seq<Field>)
    ensures forall path :: |r| == |FieldPaths(field, path)|
    decreases field, 1
  {
    [field] + SelectedFields(field.fields)
  }

  function SelectedFields(fields: seq<Field>): (r: seq<Field>)
    ensures forall path :: |r| == |SelectedPaths(fields, path)|
    decreases fields, 0
  {
    if fields == [] then [] else FieldsOf(fields[0]) + SelectedFields(fields[1..])
  }

  function AllFields(operations: seq<seq<Field>>): (r: seq<Field>)
    ensures |r| == |AllPaths(operations)|
  {
    if operations == [] then [] else SelectedFields(operations[0]) + AllFields(operations[1..])
  }

  ghost predicate Ask(planner: Planner, steps: seq<Step>, fields: seq<Field>) {
    |steps| == |fields| && forall i :: 0 <= i < |steps| ==> steps[i].query == QueryText(planner, fields[i])
  }

  lemma {:induction false} PlanFieldAsks(planner: Planner, field: Field, path: Path)
    ensures var r := PlanField(planner, field, path); r.Ok? ==> Ask(planner, r.value, FieldsOf(field))
    decreases field, 1
  {
    hide QueryText, CanResolve, StepID, FieldPaths, SelectedPaths;
    PlanFieldsAsk(planner, field.fields, path + [field.name]);
  }

  lemma {:induction false} PlanFieldsAsk(planner: Planner, fields: seq<Field>, path: Path)
    ensures var r := PlanFields(planner, fields, path); r.Ok? ==> Ask(planner, r.value, SelectedFields(fields))
    decreases fields, 0
  {
    hide QueryText, CanResolve, StepID, FieldPaths, SelectedPaths;
    if fields != [] && PlanFields(planner, fields, path).Ok? {
      PlanFieldAsks(planner, fields[0], path);
      PlanFieldsAsk(planner, fields[1..], path);
    }
  }

  /** The steps ask, in query order, with the text of each selected field. */
  lemma {:induction false} PlannedStepsAsk(planner: Planner, operations: seq<seq<Field>>)
    ensures var r := PlanOperations(planner, operations); r.Ok? ==> Ask(planner, r.value, AllFields(operations))
  {
    hide QueryText, CanResolve, StepID, AllPaths;
    if operations != [] && PlanOperations(planner, operations).Ok? {
      PlanFieldsAsk(planner, operations[0], []);
      PlannedStepsAsk(planner, operations[1..]);
    }
  }

  // ----- Fields and the fields below them -----

  predicate Named(fields: seq<Field>, name: string) {
    exists field <- fields :: field.name == name
  }

  predicate ChildFollows(paths: seq<Path>, i: nat, name: string)
    requires i < |paths|
  {
    paths[i] + [name] in paths[i + 1..]
  }

  /** Each field directly below a field follows it. */
  ghost predicate ChildrenFollow(paths: seq<Path>, fields: seq<Field>) {
    && |paths| == |fields|
    && forall i, name :: 0 <= i < |fields| && Named(fields[i].fields, name) ==> ChildFollows(paths, i, name)
  }

  lemma ChildrenFollowConcat(p: seq<Path>, f: seq<Field>, q: seq<Path>, g: seq<Field>)
    requires ChildrenFollow(p, f) && ChildrenFollow(q, g)
    ensures ChildrenFollow(p + q, f + g)
  {
    hide Named;
    var paths, fields := p + q, f + g;
    forall i, name | 0 <= i < |fields| && Named(fields[i].fields, name)
      ensures ChildFollows(paths, i, name)
    {
      if i < |f| {
        assert ChildFollows(p, i, name);
        assert paths[i + 1..] == p[i + 1..] + q;
      } else {
        assert ChildFollows(q, i - |f|, name);
        assert paths[i + 1..] == q[i - |f| + 1..];
      }
    }
  }

  lemma {:induction false} FieldChildren(field: Field, base: Path)
    ensures ChildrenFollow(FieldPaths(field, base), FieldsOf(field))
    decreases field, 1
  {
    hide Named, SelectedPaths, SelectedFields;
    var here := base + [field.name];
    var paths, below := FieldPaths(field, base), SelectedPaths(field.fields, here);
    SelectedChildren(field.fields, here);
    forall i, name | 0 <= i < |paths| && Named(FieldsOf(field)[i].fields, name)
      ensures ChildFollows(paths, i, name)
    {
      if i == 0 {
        ChildIsSelected(field.fields, here, name);
        assert paths[1..] == below;
      } else {
        assert ChildFollows(below, i - 1, name);
        assert paths[i + 1..] == below[i..];
      }
    }
  }

  lemma {:induction false} SelectedChildren(fields: seq<Field>, base: Path)
    ensures ChildrenFollow(SelectedPaths(fields, base), SelectedFields(fields))
    decreases fields, 0
  {
    if fields != [] {
      FieldChildren(fields[0], base);
      SelectedChildren(fields[1..], base);
      ChildrenFollowConcat(FieldPaths(fields[0], base), FieldsOf(fields[0]), SelectedPaths(fields[1..], base),
                           SelectedFields(fields[1..]));
    }
  }

  lemma {:induction false} ChildIsSelected(fields: seq<Field>, base: Path, name: string)
    requires Named(fields, name)
    ensures base + [name] in SelectedPaths(fields, base)
  {
    if fields[0].name == name {
      assert base + [name] in FieldPaths(fields[0], base);
    } else {
      var c :| c in fields && c.name == name;
      assert c in fields[1..];
      ChildIsSelected(fields[1..], base, name);
    }
  }

  lemma {:induction false} AllChildren(operations: seq<seq<Field>>)
    ensures ChildrenFollow(AllPaths(operations), AllFields(operations))
  {
    if operations != [] {
      var first := operations[0];
      SelectedChildren(first, []);
      AllChildren(operations[1..]);
      ChildrenFollowConcat(SelectedPaths(first, []), SelectedFields(first), AllPaths(operations[1..]),
                           AllFields(operations[1..]));
    }
  }

  /** Each path ends with its field's name, right below the base or directly below another field. */
  ghost predicate HaveParents(paths: seq<Path>, fields: seq<Field>, base: Path) {
    |paths| == |fields| && forall j :: 0 <= j < |paths| ==> HasParent(paths, fields, base, j)
  }

  ghost predicate HasParent(paths: seq<Path>, fields: seq<Field>, base: Path, j: nat)
    requires |paths| == |fields| && j < |paths|
  {
    var p := paths[j];
    && |p| > |base| && p[|p| - 1] == fields[j].name
    && (|p| > |base| + 1 ==> exists i :: 0 <= i < |paths| && IsParent(paths[i], fields[i], p))
  }

  predicate IsParent(path: Path, field: Field, p: Path) {
    |p| > 0 && path == p[..|p| - 1] && Named(field.fields, p[|p| - 1])
  }

  lemma ParentsConcat(p: seq<Path>, f: seq<Field>, q: seq<Path>, g: seq<Field>, base: Path)
    requires HaveParents(p, f, base) && HaveParents(q, g, base)
    ensures HaveParents(p + q, f + g, base)
  {
    hide IsParent;
    var paths, fields := p + q, f + g;
    forall j | 0 <= j < |paths|
      ensures HasParent(paths, fields, base, j)
    {
      if j < |p| {
        assert HasParent(p, f, base, j);
        if |p[j]| > |base| + 1 {
          var i :| 0 <= i < |p| && IsParent(p[i], f[i], p[j]);
          assert paths[i] == p[i] && fields[i] == f[i];
        }
      } else {
        assert HasParent(q, g, base, j - |p|);
        if |paths[j]| > |base| + 1 {
          var i :| 0 <= i < |q| && IsParent(q[i], g[i], q[j - |p|]);
          assert paths[|p| + i] == q[i] && fields[|p| + i] == g[i];
        }
      }
    }
  }

  lemma {:induction false} FieldParents(field: Field, base: Path)
    ensures HaveParents(FieldPaths(field, base), FieldsOf(field), base)
    decreases field, 1
  {
    hide Named;
    var here := base + [field.name];
    var paths, below := FieldPaths(field, base), SelectedPaths(field.fields, here);
    var fields, nested := FieldsOf(field), SelectedFields(field.fields);
    SelectedParents(field.fields, here);
    forall j | 0 <= j < |paths|
      ensures HasParent(paths, fields, base, j)
    {
      if j > 0 {
        assert paths[j] == below[j - 1] && HasParent(below, nested, here, j - 1);
        if |paths[j]| > |here| + 1 {
          var i :| 0 <= i < |below| && IsParent(below[i], nested[i], below[j - 1]);
          assert paths[i + 1] == below[i] && fields[i + 1] == nested[i];
        } else {
          assert below[j - 1] in below;
          TopIsChild(field.fields, here, below[j - 1]);
          assert IsParent(paths[0], fields[0], paths[j]);
        }
      }
    }
  }

  lemma {:induction false} TopIsChild(fields: seq<Field>, base: Path, p: Path)
    requires p in SelectedPaths(fields, base) && |p| == |base| + 1
    ensures p[..|base|] == base && Named(fields, p[|base|])
    decreases |fields|
  {
    var first := FieldPaths(fields[0], base);
    if p in first {
      if p != first[0] {
        assert p in SelectedPaths(fields[0].fields, base + [fields[0].name]);
        SelectedPathsExtend(fields[0].fields, base + [fields[0].name], p);
      }
      assert fields[0] in fields && p == base + [fields[0].name];
    } else {
      TopIsChild(fields[1..], base, p);
    }
  }

  lemma {:induction false} SelectedParents(fields: seq<Field>, base: Path)
    ensures HaveParents(SelectedPaths(fields, base), SelectedFields(fields), base)
    decreases fields, 0
  {
    if fields != [] {
      FieldParents(fields[0], base);
      SelectedParents(fields[1..], base);
      ParentsConcat(FieldPaths(fields[0], base), FieldsOf(fields[0]), SelectedPaths(fields[1..], base),
                    SelectedFields(fields[1..]), base);
    }
  }

  lemma {:induction false} AllParents(operations: seq<seq<Field>>)
    ensures HaveParents(AllPaths(operations), AllFields(operations), [])
  {
    if operations != [] {
      var first := operations[0];
      SelectedParents(first, []);
      AllParents(operations[1..]);
      ParentsConcat(SelectedPaths(first, []), SelectedFields(first), AllPaths(operations[1..]),
                    AllFields(operations[1..]), []);
    }
  }

  /** What a step waits for is the step of an entity field above it. */
  lemma {:induction false} AboveIsEntity(planner: Planner, path: Path, from: nat, d: string) returns (k: nat)
    requires d in EntitiesAbove(planner, path, from)
    ensures from < k < |path| && path[k - 1] in planner.entities && d == StepID(path[..k])
    decreases |path| - from
  {
    if d in EntitiesAbove(planner, path, from + 1) {
      k := AboveIsEntity(planner, path, from + 1, d);
    } else {
      k := from + 1;
    }
  }

  lemma {:induction false} FieldPathsClosed(field: Field, base: Path, p: Path, k: nat)
    requires p in FieldPaths(field, base) && |base| < k <= |p|
    ensures p[..k] in FieldPaths(field, base)
    decreases field, 1
  {
    var here := base + [field.name];
    if p == here {
      assert p[..k] == p;
    } else {
      SelectedPathsExtend(field.fields, here, p);
      if k == |here| {
        assert p[..k] == here;
      } else {
        SelectedPathsClosed(field.fields, here, p, k);
      }
    }
  }

  /** A field above a selected field is selected. */
  lemma {:induction false} SelectedPathsClosed(fields: seq<Field>, base: Path, p: Path, k: nat)
    requires p in SelectedPaths(fields, base) && |base| < k <= |p|
    ensures p[..k] in SelectedPaths(fields, base)
    decreases fields, 0
  {
    if p in FieldPaths(fields[0], base) {
      FieldPathsClosed(fields[0], base, p, k);
    } else {
      SelectedPathsClosed(fields[1..], base, p, k);
    }
  }

  lemma {:induction false} SelectedPathsExtend(fields: seq<Field>, base: Path, p: Path)
    requires p in SelectedPaths(fields, base)
    ensures base <= p && |base| < |p|
    decreases fields, 0
  {
    if p in FieldPaths(fields[0], base) {
      var here := base + [fields[0].name];
      if p != here {
        SelectedPathsExtend(fields[0].fields, here, p);
      }
    } else {
      SelectedPathsExtend(fields[1..], base, p);
    }
  }

  lemma {:induction false} AllPathsClosed(operations: seq<seq<Field>>, p: Path, k: nat)
    requires p in AllPaths(operations) && 0 < k <= |p|
    ensures p[..k] in AllPaths(operations)
  {
    if p in SelectedPaths(operations[0], []) {
      SelectedPathsClosed(operations[0], [], p, k);
    } else {
      AllPathsClosed(operations[1..], p, k);
    }
  }
}
