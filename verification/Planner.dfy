/** Planning of a federated query: one step per selected field, identified by its path, and a
    dependency of every step below an entity field on that field's step. */
module Planner {
  import opened Basics

  datatype Schema = Schema(queryType: string, types: map<string, set<string>>)
  datatype Subgraph = Subgraph(schema: Option<Schema>)
  datatype Entity = Entity(name: string, subgraphs: seq<Subgraph>)
  datatype Planner = Planner(subgraphs: seq<Subgraph>, entities: map<string, Entity>)

  /** A selected field, with the text of its arguments. Its alias is not used in planning. */
  datatype Field = Field(name: string, args: string, fields: seq<Field>)

  datatype Step = Step(id: string, query: string, resultType: string, path: Path, dependsOn: seq<string>)
  datatype Plan = Plan(steps: seq<Step>, dependsOn: map<string, seq<string>>)

  datatype Result<+T> = Ok(value: T) | NoSubgraph(field: string)

  function Join(path: Path): string {
    if path == [] then "" else if |path| == 1 then path[0] else path[0] + "_" + Join(path[1..])
  }

  function StepID(path: Path): string {
    "step_" + Join(path)
  }

  predicate HasType(sg: Subgraph, name: string) {
    sg.schema.Some? && name in sg.schema.value.types
  }

  predicate HasQueryField(sg: Subgraph, name: string) {
    sg.schema.Some? &&
    var Schema(queryType, types) := sg.schema.value;
    queryType != "" && queryType in types && name in types[queryType]
  }

  /** Some subgraph knows the field: as a type of an entity's subgraph, or as a query field. */
  predicate CanResolve(planner: Planner, name: string) {
    || (exists e <- planner.entities, sg <- planner.entities[e].subgraphs :: HasType(sg, name))
    || (exists sg <- planner.subgraphs :: HasQueryField(sg, name))
  }

  /** The schema of some entity's subgraph has a type of that name. */
  ghost predicate TypeIsKnown(planner: Planner, name: string) {
    exists e, sg :: e in planner.entities && sg in planner.entities[e].subgraphs && sg.schema.Some?
                    && name in sg.schema.value.types
  }

  /** The subgraph's schema names a query type, defines it, and lists the field there. */
  predicate Queries(sg: Subgraph, name: string) {
    match sg.schema
    case None => false
    case Some(schema) => if schema.queryType == "" || schema.queryType !in schema.types then false
                         else name in schema.types[schema.queryType]
  }

  /** The schemas know the field, as a type or as a query field. */
  ghost predicate InSchemas(planner: Planner, name: string) {
    TypeIsKnown(planner, name) || exists sg <- planner.subgraphs :: Queries(sg, name)
  }

  /** The subgraph to ask: one of an entity whose schema has a type of that name, if there is any, and
      otherwise the first that lists the field under its query type. */
  method FindSubgraphForField(planner: Planner, name: string) returns (found: Option<Subgraph>)
    ensures found.Some? <==> InSchemas(planner, name)
    ensures TypeIsKnown(planner, name) ==>
              && found.value.schema.Some? && name in found.value.schema.value.types
              && exists e <- planner.entities :: found.value in planner.entities[e].subgraphs
    ensures found.Some? && !TypeIsKnown(planner, name) ==>
              exists i :: && 0 <= i < |planner.subgraphs| && found.value == planner.subgraphs[i]
                          && Queries(found.value, name)
                          && forall j :: 0 <= j < i ==> !Queries(planner.subgraphs[j], name)
    ensures found.Some? <==> CanResolve(planner, name)
  {
    ResolvesIff(planner, name);
    var todo := planner.entities.Keys;
    while todo != {}
      invariant todo <= planner.entities.Keys
      invariant forall e, sg :: e in planner.entities && e !in todo && sg in planner.entities[e].subgraphs ==>
                !HasType(sg, name)
      decreases |todo|
    {
      var e :| e in todo;
      todo := todo - {e};
      var sgs := planner.entities[e].subgraphs;
      for i := 0 to |sgs|
        invariant forall j :: 0 <= j < i ==> !HasType(sgs[j], name)
      {
        if HasType(sgs[i], name) {
          assert sgs[i] in sgs && e in planner.entities;
          return Some(sgs[i]);
        }
      }
    }
    NoneKnown(planner, name);
    for i := 0 to |planner.subgraphs|
      invariant forall j :: 0 <= j < i ==> !Queries(planner.subgraphs[j], name)
    {
      KnownIff(planner.subgraphs[i], name);
      if HasQueryField(planner.subgraphs[i], name) {
        assert planner.subgraphs[i] in planner.subgraphs;
        return Some(planner.subgraphs[i]);
      }
    }
    found := None;
  }

  /** When a field can be resolved, by the schemas. */
  lemma ResolvesIff(planner: Planner, name: string)
    ensures CanResolve(planner, name) <==> InSchemas(planner, name)
  {
    hide HasType, HasQueryField, Queries;
    forall sg
      ensures HasQueryField(sg, name) <==> Queries(sg, name)
      ensures HasType(sg, name) <==> sg.schema.Some? && name in sg.schema.value.types
    {
      KnownIff(sg, name);
    }
  }

  lemma NoneKnown(planner: Planner, name: string)
    requires forall e, sg :: e in planner.entities && sg in planner.entities[e].subgraphs ==> !HasType(sg, name)
    ensures !TypeIsKnown(planner, name)
  {
    hide HasType;
    forall sg
      ensures HasType(sg, name) <==> sg.schema.Some? && name in sg.schema.value.types
    {
      KnownIff(sg, name);
    }
  }

  lemma KnownIff(sg: Subgraph, name: string)
    ensures HasQueryField(sg, name) <==> Queries(sg, name)
    ensures HasType(sg, name) <==> sg.schema.Some? && name in sg.schema.value.types
  {
  }

  /** Every step additionally waits for `id`. */
  function AfterStep(steps: seq<Step>, id: string): (marked: seq<Step>)
    ensures |marked| == |steps|
    ensures forall i :: 0 <= i < |steps| ==> marked[i] == steps[i].(dependsOn := steps[i].dependsOn + [id])
  {
    if steps == [] then []
    else [steps[0].(dependsOn := steps[0].dependsOn + [id])] + AfterStep(steps[1..], id)
  }

  // ----- Query texts -----

  function Indentation(depth: nat): string {
    seq(2 * depth, _ => ' ')
  }

  function Selection(field: Field, depth: nat): string
    decreases field, 1
  {
    var args := if field.args == "" then "" else "(" + field.args + ")";
    var below := if field.fields == [] then ""
        else " {\n" + Selections(field.fields, depth + 1) + Indentation(depth) + "}";
    Indentation(depth) + field.name + args + below + "\n"
  }

  function Selections(fields: seq<Field>, depth: nat): string
    decreases fields, 0
  {
    if fields == [] then "" else Selection(fields[0], depth) + Selections(fields[1..], depth)
  }

  function NameLines(fields: seq<Field>): string {
    if fields == [] then "" else "      " + fields[0].name + "\n" + NameLines(fields[1..])
  }

  /** The text names the fields below an entity field, and nothing of their arguments or its own. */
  function EntityQuery(entity: Entity, field: Field): string {
    "query ($representations: [_Any!]!) {\n  _entities(representations: $representations) {\n    ... on "
    + entity.name + " {\n" + NameLines(field.fields) + "    }\n  }\n}"
  }

  function FieldQuery(field: Field): string {
    "{\n" + Selection(field, 1) + "}"
  }

  function QueryText(planner: Planner, field: Field): string {
    if field.name in planner.entities then EntityQuery(planner.entities[field.name], field) else FieldQuery(field)
  }

  // ----- Steps -----

  /** The step of a field itself, which waits for nothing yet. */
  function OwnStep(planner: Planner, field: Field, here: Path): Step {
    var resultType := if field.name in planner.entities then field.name else "scalar";
    Step(StepID(here), QueryText(planner, field), resultType, here, [])
  }

  function PlanField(planner: Planner, field: Field, path: Path): Result<seq<Step>>
    decreases field, 1
  {
    var here := path + [field.name];
    if !CanResolve(planner, field.name) then NoSubgraph(field.name)
    else
      var step := OwnStep(planner, field, here);
      var nested := PlanFields(planner, field.fields, here);
      if nested.NoSubgraph? then nested
      else if field.name in planner.entities then Ok([step] + AfterStep(nested.value, step.id))
      else Ok([step] + nested.value)
  }

  function PlanFields(planner: Planner, fields: seq<Field>, path: Path): Result<seq<Step>>
    decreases fields, 0
  {
    if fields == [] then Ok([])
    else
      var first := PlanField(planner, fields[0], path);
      if first.NoSubgraph? then first
      else
        var rest := PlanFields(planner, fields[1..], path);
        if rest.NoSubgraph? then rest else Ok(first.value + rest.value)
  }

  function PlanOperations(planner: Planner, operations: seq<seq<Field>>): Result<seq<Step>> {
    if operations == [] then Ok([])
    else
      var first := PlanFields(planner, operations[0], []);
      if first.NoSubgraph? then first
      else
        var rest := PlanOperations(planner, operations[1..]);
        if rest.NoSubgraph? then rest else Ok(first.value + rest.value)
  }

  /** The dependency map; of steps that share an identifier the last one counts. */
  function DependencyMap(steps: seq<Step>): map<string, seq<string>> {
    if steps == [] then map[]
    else DependencyMap(steps[..|steps| - 1])[steps[|steps| - 1].id := steps[|steps| - 1].dependsOn]
  }

  // ----- When planning succeeds -----

  /** All selected fields in query order, each before those below it. */
  ghost function Selected(fields: seq<Field>): seq<string> {
    if fields == [] then [] else [fields[0].name] + Selected(fields[0].fields) + Selected(fields[1..])
  }

  ghost function AllSelected(operations: seq<seq<Field>>): seq<string> {
    if operations == [] then [] else Selected(operations[0]) + AllSelected(operations[1..])
  }

  ghost predicate AllKnown(planner: Planner, names: seq<string>) {
    forall i :: 0 <= i < |names| ==> InSchemas(planner, names[i])
  }

  /** The first of these fields that no schema knows. */
  ghost predicate FirstUnknown(planner: Planner, names: seq<string>, name: string) {
    exists i :: 0 <= i < |names| && names[i] == name && !InSchemas(planner, name) && AllKnown(planner, names[..i])
  }

  /** All fields are known, or the first that is not is reported. */
  ghost predicate AsKnown<T>(planner: Planner, names: seq<string>, r: Result<T>) {
    if r.Ok? then AllKnown(planner, names) else FirstUnknown(planner, names, r.field)
  }

  lemma ReportedFirst<T, U>(planner: Planner, names: seq<string>, more: seq<string>, r: Result<T>, q: Result<U>)
    requires AsKnown(planner, names, r) && (r.Ok? ==> AsKnown(planner, more, q))
    requires r.NoSubgraph? ==> q.NoSubgraph? && q.field == r.field
    ensures AsKnown(planner, names + more, q)
  {
    hide InSchemas;
    if r.NoSubgraph? {
      var i :| 0 <= i < |names| && names[i] == r.field && AllKnown(planner, names[..i]);
      assert (names + more)[..i] == names[..i] && (names + more)[i] == r.field;
    } else if q.NoSubgraph? {
      var i :| 0 <= i < |more| && more[i] == q.field && AllKnown(planner, more[..i]);
      assert (names + more)[..|names| + i] == names + more[..i] && (names + more)[|names| + i] == q.field;
      assert forall j :: 0 <= j < |names| + i ==>
               (names + more[..i])[j] == if j < |names| then names[j] else more[..i][j - |names|];
    }
  }

  lemma {:induction false} FieldAsKnown(planner: Planner, field: Field, path: Path)
    ensures AsKnown(planner, [field.name] + Selected(field.fields), PlanField(planner, field, path))
    decreases field, 1
  {
    hide CanResolve, InSchemas, OwnStep, AfterStep, AsKnown, PlanFields;
    var r := if CanResolve(planner, field.name) then Ok(0) else NoSubgraph(field.name);
    ResolvesIff(planner, field.name);
    assert AsKnown(planner, [field.name], r) by { OneAsKnown(planner, field.name, r); }
    var nested := PlanFields(planner, field.fields, path + [field.name]);
    FieldsAsKnown(planner, field.fields, path + [field.name]);
    var q := PlanField(planner, field, path);
    if nested.Ok? && r.Ok? {
      SameAsKnown(planner, Selected(field.fields), nested, q);
    }
    ReportedFirst(planner, [field.name], Selected(field.fields), r, q);
  }

  lemma OneAsKnown<T>(planner: Planner, name: string, r: Result<T>)
    requires r.Ok? <==> InSchemas(planner, name)
    requires r.NoSubgraph? ==> r.field == name
    ensures AsKnown(planner, [name], r)
  {
    if r.NoSubgraph? {
      assert [name][0] == name && AllKnown(planner, [name][..0]);
    }
  }

  lemma SameAsKnown<T, U>(planner: Planner, names: seq<string>, r: Result<T>, q: Result<U>)
    requires AsKnown(planner, names, r) && r.Ok? && q.Ok?
    ensures AsKnown(planner, names, q)
  {
  }

  lemma {:induction false} FieldsAsKnown(planner: Planner, fields: seq<Field>, path: Path)
    ensures AsKnown(planner, Selected(fields), PlanFields(planner, fields, path))
    decreases fields, 0
  {
    hide InSchemas, FirstUnknown, PlanField;
    if fields != [] {
      hide AsKnown;
      var first, rest := PlanField(planner, fields[0], path), PlanFields(planner, fields[1..], path);
      var q := PlanFields(planner, fields, path);
      FieldAsKnown(planner, fields[0], path);
      FieldsAsKnown(planner, fields[1..], path);
      if first.Ok? && rest.Ok? {
        SameAsKnown(planner, Selected(fields[1..]), rest, q);
      }
      ReportedFirst(planner, [fields[0].name] + Selected(fields[0].fields), Selected(fields[1..]), first, q);
    }
  }

  /** A query is planned if and only if the schemas know every selected field, at any depth; otherwise
      the first one that they do not know, in query order, is reported. */
  lemma {:induction false} PlannedIffKnown(planner: Planner, operations: seq<seq<Field>>)
    ensures AsKnown(planner, AllSelected(operations), PlanOperations(planner, operations))
  {
    hide InSchemas, FirstUnknown, PlanFields, Selected;
    if operations != [] {
      hide AsKnown;
      var first, rest := PlanFields(planner, operations[0], []), PlanOperations(planner, operations[1..]);
      var q := PlanOperations(planner, operations);
      FieldsAsKnown(planner, operations[0], []);
      PlannedIffKnown(planner, operations[1..]);
      if first.Ok? && rest.Ok? {
        SameAsKnown(planner, AllSelected(operations[1..]), rest, q);
      }
      ReportedFirst(planner, Selected(operations[0]), AllSelected(operations[1..]), first, q);
    }
  }

  method PlanAll(planner: Planner, operations: seq<seq<Field>>) returns (r: Result<seq<Step>>)
    ensures r == PlanOperations(planner, operations) && AsKnown(planner, AllSelected(operations), r)
  {
    hide PlanFields, AsKnown;
    PlannedIffKnown(planner, operations);
    var steps: seq<Step> := [];
    ghost var all := PlanOperations(planner, operations);
    for i := 0 to |operations|
      invariant var rest := PlanOperations(planner, operations[i..]);
                if rest.Ok? then all.Ok? && all.value == steps + rest.value else all == rest
    {
      assert operations[i..][1..] == operations[i + 1..];
      var planned := PlanFields(planner, operations[i], []);
      if planned.NoSubgraph? { return planned; }
      steps := steps + planned.value;
    }
    assert steps + [] == steps;
    r := Ok(steps);
  }

  method MakePlan(planner: Planner, operations: seq<seq<Field>>) returns (r: Result<Plan>)
    ensures var planned := PlanOperations(planner, operations);
            if planned.Ok? then r == Ok(Plan(planned.value, DependencyMap(planned.value))) && WellFormed(r.value)
            else r == NoSubgraph(planned.field)
    ensures AsKnown(planner, AllSelected(operations), r)
  {
    hide InSchemas;
    var planned := PlanAll(planner, operations);
    if planned.NoSubgraph? { return NoSubgraph(planned.field); }
    var steps := planned.value;
    var dependsOn: map<string, seq<string>> := map[];
    for i := 0 to |steps|
      invariant dependsOn == DependencyMap(steps[..i])
    {
      assert steps[..i + 1][..i] == steps[..i];
      dependsOn := dependsOn[steps[i].id := steps[i].dependsOn];
    }
    assert steps[..|steps|] == steps;
    PlannedStepsAreLayered(planner, operations);
    LayeredPlanIsWellFormed(steps);
    r := Ok(Plan(steps, dependsOn));
  }

  // ----- Shape of planned steps -----

  /** A proper prefix. */
  predicate Before(d: string, id: string) {
    d <= id && d != id
  }

  /** Every dependency names a step of the plan and is a proper prefix of the dependent's identifier. */
  ghost predicate WellFormed(plan: Plan) {
    && (forall i :: 0 <= i < |plan.steps| ==> plan.steps[i].id in plan.dependsOn)
    && (forall id :: id in plan.dependsOn ==> HasStep(plan.steps, id))
    && (forall id, d :: id in plan.dependsOn && d in plan.dependsOn[id] ==> Before(d, id) && HasStep(plan.steps, d))
  }

  predicate HasStep(steps: seq<Step>, id: string) {
    exists i :: 0 <= i < |steps| && steps[i].id == id
  }

  /** Below `base`: steps are named after their paths, and wait only for steps that precede them. */
  ghost predicate Layered(steps: seq<Step>, base: Path) {
    forall i :: 0 <= i < |steps| ==> LayeredAt(steps, base, i)
  }

  ghost predicate LayeredAt(steps: seq<Step>, base: Path, i: nat)
    requires i < |steps|
  {
    && |base| < |steps[i].path| && base <= steps[i].path && steps[i].id == StepID(steps[i].path)
    && forall d :: d in steps[i].dependsOn ==> Before(d, steps[i].id) && HasStep(steps[..i], d)
  }

  lemma {:induction false} JoinConcat(p: Path, q: Path)
    requires p != [] && q != []
    ensures Join(p + q) == Join(p) + "_" + Join(q)
  {
    assert (p + q)[0] == p[0] && (p + q)[1..] == p[1..] + q;
    if |p| == 1 {
      assert p[1..] + q == q;
    } else {
      JoinConcat(p[1..], q);
    }
  }

  /** Identifiers grow with paths, even when different paths share an identifier. */
  lemma PathOrderIsIDOrder(p: Path, q: Path)
    requires p != [] && p <= q && p != q
    ensures Before(StepID(p), StepID(q))
  {
    assert q == p + q[|p|..];
    JoinConcat(p, q[|p|..]);
    assert StepID(q) == StepID(p) + ("_" + Join(q[|p|..]));
  }

  lemma HasStepPrefix(steps: seq<Step>, more: seq<Step>, i: nat, id: string)
    requires i <= |more|
    ensures HasStep(more[..i], id) ==> HasStep((steps + more)[..|steps| + i], id)
  {
    if HasStep(more[..i], id) {
      var k :| 0 <= k < i && more[..i][k].id == id;
      assert (steps + more)[..|steps| + i][|steps| + k].id == id;
    }
  }

  lemma {:induction false} LayeredConcat(steps: seq<Step>, more: seq<Step>, base: Path)
    requires Layered(steps, base) && Layered(more, base)
    ensures Layered(steps + more, base)
  {
    var all := steps + more;
    forall i | 0 <= i < |all|
      ensures LayeredAt(all, base, i)
    {
      if i < |steps| {
        assert LayeredAt(steps, base, i) && all[..i] == steps[..i];
      } else {
        assert LayeredAt(more, base, i - |steps|);
        forall d | d in all[i].dependsOn
          ensures HasStep(all[..i], d)
        {
          HasStepPrefix(steps, more, i - |steps|, d);
        }
      }
    }
  }

  /** Putting the step of a field before the steps nested in it, with or without the dependency. */
  lemma {:induction false} LayeredBelow(step: Step, nested: seq<Step>, base: Path, marked: bool)
    requires |base| < |step.path| && base <= step.path && step.id == StepID(step.path) && step.dependsOn == []
    requires Layered(nested, step.path)
    ensures Layered([step] + if marked then AfterStep(nested, step.id) else nested, base)
  {
    var tail := if marked then AfterStep(nested, step.id) else nested;
    var all := [step] + tail;
    forall i | 0 <= i < |all|
      ensures LayeredAt(all, base, i)
    {
      if i > 0 {
        assert LayeredAt(nested, step.path, i - 1);
        assert all[i].path == nested[i - 1].path && all[i].id == nested[i - 1].id;
        PathOrderIsIDOrder(step.path, all[i].path);
        forall d | d in all[i].dependsOn
          ensures Before(d, all[i].id) && HasStep(all[..i], d)
        {
          if d in nested[i - 1].dependsOn {
            var k :| 0 <= k < i - 1 && nested[..i - 1][k].id == d;
            assert all[..i][k + 1].id == d;
          } else {
            assert all[..i][0].id == d;
          }
        }
      }
    }
  }

  lemma {:induction false} PlanFieldLayered(planner: Planner, field: Field, path: Path)
    requires PlanField(planner, field, path).Ok?
    ensures Layered(PlanField(planner, field, path).value, path)
    decreases field, 1
  {
    var here := path + [field.name];
    PlanFieldsLayered(planner, field.fields, here);
    var nested := PlanFields(planner, field.fields, here).value;
    LayeredBelow(OwnStep(planner, field, here), nested, path, field.name in planner.entities);
  }

  lemma {:induction false} PlanFieldsLayered(planner: Planner, fields: seq<Field>, path: Path)
    requires PlanFields(planner, fields, path).Ok?
    ensures Layered(PlanFields(planner, fields, path).value, path)
    decreases fields, 0
  {
    if fields != [] {
      PlanFieldLayered(planner, fields[0], path);
      PlanFieldsLayered(planner, fields[1..], path);
      LayeredConcat(PlanField(planner, fields[0], path).value, PlanFields(planner, fields[1..], path).value, path);
    }
  }

  lemma {:induction false} PlannedStepsAreLayered(planner: Planner, operations: seq<seq<Field>>)
    ensures var r := PlanOperations(planner, operations); r.Ok? ==> Layered(r.value, [])
  {
    if operations != [] && PlanOperations(planner, operations).Ok? {
      PlanFieldsLayered(planner, operations[0], []);
      PlannedStepsAreLayered(planner, operations[1..]);
      LayeredConcat(PlanFields(planner, operations[0], []).value, PlanOperations(planner, operations[1..]).value, []);
    }
  }

  lemma {:induction false} DependencyMapLookup(steps: seq<Step>, id: string)
    ensures id in DependencyMap(steps) <==> HasStep(steps, id)
    ensures HasStep(steps, id) ==>
              exists i :: 0 <= i < |steps| && steps[i].id == id && DependencyMap(steps)[id] == steps[i].dependsOn
  {
    if steps != [] {
      var n := |steps| - 1;
      DependencyMapLookup(steps[..n], id);
      if HasStep(steps, id) && steps[n].id != id {
        var i :| 0 <= i < |steps| && steps[i].id == id;
        assert steps[..n][i].id == id;
      }
      if HasStep(steps[..n], id) && steps[n].id != id {
        var i :| 0 <= i < n && steps[..n][i].id == id && DependencyMap(steps[..n])[id] == steps[..n][i].dependsOn;
        assert steps[i].id == id;
      }
    }
  }

  /** Whatever query is planned, and even if identifiers collide, the plan is well formed; as
      dependencies are proper prefixes it has no cycle. */
  lemma LayeredPlanIsWellFormed(steps: seq<Step>)
    requires Layered(steps, [])
    ensures WellFormed(Plan(steps, DependencyMap(steps)))
  {
    var deps := DependencyMap(steps);
    forall i | 0 <= i < |steps|
      ensures steps[i].id in deps
    {
      DependencyMapLookup(steps, steps[i].id);
    }
    forall id | id in deps
      ensures HasStep(steps, id)
    {
      DependencyMapLookup(steps, id);
    }
    forall id, d | id in deps && d in deps[id]
      ensures Before(d, id) && HasStep(steps, d)
    {
      DependencyMapLookup(steps, id);
      var i :| 0 <= i < |steps| && steps[i].id == id && deps[id] == steps[i].dependsOn;
      assert LayeredAt(steps, [], i);
      var k :| 0 <= k < i && steps[..i][k].id == d;
      assert steps[k].id == d;
    }
  }

  // ----- Entity fields order everything below them -----

  /** Every step of a list that lies below an entity field waits for that field's step. */
  ghost predicate EntitiesAwaited(planner: Planner, steps: seq<Step>, base: Path) {
    forall i, n :: 0 <= i < |steps| && |base| < n < |steps[i].path| && steps[i].path[n - 1] in planner.entities ==>
      StepID(steps[i].path[..n]) in steps[i].dependsOn
  }

  lemma {:induction false} PlanFieldAwaits(planner: Planner, field: Field, path: Path)
    requires PlanField(planner, field, path).Ok?
    ensures EntitiesAwaited(planner, PlanField(planner, field, path).value, path)
    decreases field, 1
  {
    hide QueryText, CanResolve, PlanFields, Join;
    var here := path + [field.name];
    var nested := PlanFields(planner, field.fields, here).value;
    var all := PlanField(planner, field, path).value;
    PlanFieldsAwait(planner, field.fields, here);
    PlanFieldsLayered(planner, field.fields, here);
    forall i, n | 0 <= i < |all| && |path| < n < |all[i].path| && all[i].path[n - 1] in planner.entities
      ensures StepID(all[i].path[..n]) in all[i].dependsOn
    {
      if i > 0 {
        assert LayeredAt(nested, here, i - 1);
        var deps := nested[i - 1].dependsOn;
        assert all[i].path == nested[i - 1].path;
        assert all[i].dependsOn == if field.name in planner.entities then deps + [StepID(here)] else deps;
        if n == |here| {
          assert all[i].path[..n] == here;
        } else {
          assert StepID(nested[i - 1].path[..n]) in deps;
        }
      }
    }
  }

  lemma {:induction false} PlanFieldsAwait(planner: Planner, fields: seq<Field>, path: Path)
    requires PlanFields(planner, fields, path).Ok?
    ensures EntitiesAwaited(planner, PlanFields(planner, fields, path).value, path)
    decreases fields, 0
  {
    hide PlanField, StepID;
    if fields != [] {
      PlanFieldAwaits(planner, fields[0], path);
      PlanFieldsAwait(planner, fields[1..], path);
    }
  }

  lemma {:induction false} PlannedEntitiesAreAwaited(planner: Planner, operations: seq<seq<Field>>)
    ensures var r := PlanOperations(planner, operations); r.Ok? ==> EntitiesAwaited(planner, r.value, [])
  {
    hide PlanFields, StepID;
    if operations != [] && PlanOperations(planner, operations).Ok? {
      PlanFieldsAwait(planner, operations[0], []);
      PlannedEntitiesAreAwaited(planner, operations[1..]);
    }
  }
}
