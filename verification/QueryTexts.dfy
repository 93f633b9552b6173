/** What the texts of queries mean for agreement: fields selected again, aliases and arguments. */
module QueryTexts {
  import opened Basics
  import opened MergeTree
  import opened Planner
  import opened PlannedSteps
  import opened Executor
  import opened Repeats
  import opened Races
  import opened PlannedQueries

  /** No line breaks in names, as in GraphQL. */
  ghost predicate PlainNames(steps: seq<Step>) {
    forall i, k :: 0 <= i < |steps| && 0 <= k < |steps[i].path| ==> '\n' !in steps[i].path[k]
  }

  lemma SameFirstLine(x: string, y: string, more: string, more': string)
    requires '\n' !in x && '\n' !in y && x + "\n" + more == y + "\n" + more'
    ensures x == y && more == more'
  {
    var s := x + "\n" + more;
    assert s[|x|] == '\n' && s[|y|] == '\n';
    assert s[..|x|] == x && s[..|y|] == y;
    assert s[|x| + 1..] == more && s[|y| + 1..] == more';
  }

  /** The text of an entity query says which fields are selected below it. */
  lemma {:induction false} SameLines(fields: seq<Field>, others: seq<Field>, name: string)
    requires NameLines(fields) == NameLines(others) && Named(fields, name)
    requires (forall f <- fields :: '\n' !in f.name) && (forall f <- others :: '\n' !in f.name)
    ensures Named(others, name)
  {
    var n := |"      "|;
    assert NameLines(fields) == "      " + (fields[0].name + "\n" + NameLines(fields[1..]));
    assert others != [] by { assert |NameLines(others)| > 0; }
    assert NameLines(others) == "      " + (others[0].name + "\n" + NameLines(others[1..]));
    assert NameLines(fields)[n..] == fields[0].name + "\n" + NameLines(fields[1..]);
    assert NameLines(others)[n..] == others[0].name + "\n" + NameLines(others[1..]);
    SameFirstLine(fields[0].name, others[0].name, NameLines(fields[1..]), NameLines(others[1..]));
    if fields[0].name == name {
      assert others[0] in others;
    } else {
      var f :| f in fields && f.name == name;
      assert f in fields[1..];
      SameLines(fields[1..], others[1..], name);
    }
  }

  lemma SameEntityQuery(entity: Entity, f: Field, g: Field)
    requires EntityQuery(entity, f) == EntityQuery(entity, g)
    ensures NameLines(f.fields) == NameLines(g.fields)
  {
    hide NameLines;
    var head := "query ($representations: [_Any!]!) {\n  _entities(representations: $representations) {\n    ... on "
                + entity.name + " {\n";
    var tail := "    }\n  }\n}";
    SameMiddle(head, NameLines(f.fields), NameLines(g.fields), tail);
  }

  lemma SameMiddle(head: string, x: string, y: string, tail: string)
    requires head + x + tail == head + y + tail
    ensures x == y
  {
    var s := head + x + tail;
    assert s[|head|..|s| - |tail|] == x;
    assert (head + y + tail)[|head|..|s| - |tail|] == y;
  }

  lemma ChildNamesArePlain(steps: seq<Step>, paths: seq<Path>, fields: seq<Field>, i: nat)
    requires PlainNames(steps) && |steps| == |paths| && forall k :: 0 <= k < |steps| ==> steps[k].path == paths[k]
    requires ChildrenFollow(paths, fields) && i < |fields|
    ensures forall f <- fields[i].fields :: '\n' !in f.name
  {
    forall f | f in fields[i].fields
      ensures '\n' !in f.name
    {
      assert Named(fields[i].fields, f.name) && ChildFollows(paths, i, f.name);
      var p := paths[i] + [f.name];
      assert p in paths[i + 1..];
      var k :| 0 <= k < |paths| - i - 1 && paths[i + 1..][k] == p;
      assert steps[i + 1 + k].path == p && p[|p| - 1] == f.name;
    }
  }

  /** The first two conditions hold of the planned steps, and names are plain. */
  ghost predicate AskedAlike(planner: Planner, steps: seq<Step>, paths: seq<Path>, fields: seq<Field>) {
    && |steps| == |paths| && (forall k :: 0 <= k < |steps| ==> steps[k].path == paths[k])
    && Ask(planner, steps, fields) && ChildrenFollow(paths, fields) && HaveParents(paths, fields, [])
    && PathsIdentify(steps) && OnlyEntitiesNest(planner, steps) && PlainNames(steps)
  }

  /** Steps on one path ask for the same fields below it, so what lies below one follows the other. */
  lemma ChildComesAgain(planner: Planner, steps: seq<Step>, paths: seq<Path>, fields: seq<Field>, k: nat, m: nat)
      returns (k': nat)
    requires AskedAlike(planner, steps, paths, fields) && k < |steps| && m < |steps|
    requires |paths[m]| > 1 && paths[k] == paths[m][..|paths[m]| - 1]
    ensures k < k' < |steps| && paths[k'] == paths[m]
  {
    hide IsParent, Ask, Named, OnlyEntitiesNest, PlainNames, PathsIdentify, ChildFollows;
    var name := paths[m][|paths[m]| - 1];
    assert HasParent(paths, fields, [], m);
    var i :| 0 <= i < |paths| && IsParent(paths[i], fields[i], paths[m]);
    assert paths[i] == paths[k] && Named(fields[i].fields, name) by { ParentSays(paths[i], fields[i], paths[m]); }
    SameFieldsBelow(planner, steps, paths, fields, i, k, m, name);
    assert ChildFollows(paths, k, name);
    k' := FollowingChild(paths, k, name);
    assert paths[k] + [name] == paths[m];
  }

  lemma FollowingChild(paths: seq<Path>, k: nat, name: string) returns (k': nat)
    requires k < |paths| && ChildFollows(paths, k, name)
    ensures k < k' < |paths| && paths[k'] == paths[k] + [name]
  {
    var d :| 0 <= d < |paths| - k - 1 && paths[k + 1..][d] == paths[k] + [name];
    k' := k + 1 + d;
  }

  lemma ParentSays(path: Path, field: Field, p: Path)
    requires IsParent(path, field, p)
    ensures p != [] && path == p[..|p| - 1] && Named(field.fields, p[|p| - 1])
  {
  }

  lemma SameFieldsBelow(planner: Planner, steps: seq<Step>, paths: seq<Path>, fields: seq<Field>, i: nat, k: nat,
                        m: nat, name: string)
    requires AskedAlike(planner, steps, paths, fields) && i < |steps| && k < |steps| && m < |steps|
    requires paths[i] == paths[k] && Below(paths[k], paths[m]) && Named(fields[i].fields, name)
    ensures Named(fields[k].fields, name)
  {
    hide Named, EntityQuery, FieldQuery, IsParent, ChildrenFollow, PlainNames, OnlyEntitiesNest;
    assert HasParent(paths, fields, [], i) && HasParent(paths, fields, [], k);
    var last := paths[k][|paths[k]| - 1];
    assert last in planner.entities by { UpperIsEntity(planner, steps, k, m); }
    assert steps[i] == steps[k];
    assert QueryText(planner, fields[i]) == QueryText(planner, fields[k]);
    SameEntityQuery(planner.entities[last], fields[i], fields[k]);
    ChildNamesArePlain(steps, paths, fields, i);
    ChildNamesArePlain(steps, paths, fields, k);
    SameLines(fields[i].fields, fields[k].fields, name);
  }

  lemma {:induction false} PathComesAgain(planner: Planner, operations: seq<seq<Field>>, i: nat, j: nat, n: nat)
      returns (k: nat)
    requires PlanOperations(planner, operations).Ok?
    requires var steps, paths := PlanOperations(planner, operations).value, AllPaths(operations);
             && AskedAlike(planner, steps, paths, AllFields(operations)) && i < |steps| && j < |steps|
             && Below(paths[i], paths[j]) && |paths[i]| <= n <= |paths[j]|
    ensures var paths := AllPaths(operations);
            i <= k < |paths| && paths[k] == paths[j][..n] && (n > |paths[i]| ==> k > i)
    decreases n
  {
    hide PlanOperations, AllPaths, AllFields, ChildrenFollow, HaveParents, PathsIdentify, OnlyEntitiesNest, PlainNames,
        Ask;
    var steps, paths, fields := PlanOperations(planner, operations).value, AllPaths(operations), AllFields(operations);
    if n == |paths[i]| {
      k := i;
    } else {
      var above := PathComesAgain(planner, operations, i, j, n - 1);
      var p := paths[j][..n];
      AllPathsClosed(operations, paths[j], n);
      var m :| 0 <= m < |paths| && paths[m] == p;
      assert p[..n - 1] == paths[j][..n - 1];
      assert n > 1 by { assert paths[i] != [] by { PathNotEmpty(paths, fields, i); } }
      k := ChildComesAgain(planner, steps, paths, fields, above, m);
    }
  }

  lemma PathNotEmpty(paths: seq<Path>, fields: seq<Field>, i: nat)
    requires HaveParents(paths, fields, []) && i < |paths|
    ensures paths[i] != []
  {
    assert HasParent(paths, fields, [], i);
  }

  lemma PlannedAskAlike(planner: Planner, operations: seq<seq<Field>>)
    requires PlanOperations(planner, operations).Ok?
    requires var steps := PlanOperations(planner, operations).value;
             IDsIdentify(steps) && OnlyEntitiesNest(planner, steps) && PlainNames(steps)
    ensures AskedAlike(planner, PlanOperations(planner, operations).value, AllPaths(operations), AllFields(operations))
  {
    hide PlanOperations, AllPaths, AllFields, ChildrenFollow, HaveParents, PathsIdentify, OnlyEntitiesNest, PlainNames,
        Ask, IDsIdentify;
    var steps, paths := PlanOperations(planner, operations).value, AllPaths(operations);
    PlannedStepsAreLayered(planner, operations);
    PlannedPathsIdentify(steps);
    PlannedStepsAre(planner, operations);
    PlannedStepsAsk(planner, operations);
    AllChildren(operations);
    AllParents(operations);
    forall k | 0 <= k < |steps|
      ensures steps[k].path == paths[k]
    {
      assert IsStepFor(planner, steps[k], paths[k], 0);
    }
  }

  /** With plain names the third condition follows: a field selected again under one identifier has
      the same query text, hence the same fields below it. So both executors answer a query alike if
      and only if equal identifiers belong to equal steps and only entity fields have steps below
      them. */
  lemma PlainQueriesAgreeIff(planner: Planner, operations: seq<seq<Field>>)
    requires PlanOperations(planner, operations).Ok? && PlainNames(PlanOperations(planner, operations).value)
    ensures var steps := PlanOperations(planner, operations).value;
            ExecutorsAgree(PlanOf(steps)) <==> IDsIdentify(steps) && OnlyEntitiesNest(planner, steps)
  {
    hide PlanOperations, AllPaths, AllFields, OnlyEntitiesNest, PlainNames, IDsIdentify, ExecutorsAgree, Below;
    var steps := PlanOperations(planner, operations).value;
    PlannedAgreeIff(planner, operations);
    if IDsIdentify(steps) && OnlyEntitiesNest(planner, steps) {
      PlannedAskAlike(planner, operations);
      forall i, j | 0 <= i < |steps| && 0 <= j < |steps| && Below(steps[i].path, steps[j].path)
        ensures steps[j] in steps[i + 1..]
      {
        StepComesAgain(planner, operations, i, j);
      }
    }
  }

  lemma StepComesAgain(planner: Planner, operations: seq<seq<Field>>, i: nat, j: nat)
    requires PlanOperations(planner, operations).Ok?
    requires var steps := PlanOperations(planner, operations).value;
             && AskedAlike(planner, steps, AllPaths(operations), AllFields(operations))
             && i < |steps| && j < |steps| && Below(steps[i].path, steps[j].path)
    ensures var steps := PlanOperations(planner, operations).value;
            steps[j] in steps[i + 1..]
  {
    hide PlanOperations, AllPaths, AllFields, OnlyEntitiesNest, PlainNames, Ask, ChildrenFollow, HaveParents;
    var steps := PlanOperations(planner, operations).value;
    var q := AllPaths(operations)[j];
    var k := PathComesAgain(planner, operations, i, j, |q|);
    assert q[..|q|] == q && steps[k] == steps[j];
    assert steps[i + 1..][k - i - 1] == steps[k];
  }

  // ----- What the text of another field says -----

  predicate NameChar(c: char) {
    c != ' ' && c != '(' && c != '\n' && c != '{' && c != '}'
  }

  /** Names as in GraphQL, and arguments without raw line breaks, as JSON writes them. */
  predicate PlainField(field: Field) {
    && field.name != "" && (forall i :: 0 <= i < |field.name| ==> NameChar(field.name[i]))
    && '\n' !in field.args && (forall f <- field.fields :: PlainField(f))
  }

  function ArgsText(args: string): string {
    if args == "" then "" else "(" + args + ")"
  }

  /** The line a field's selection starts with, without its indentation. */
  function FirstLine(field: Field): string {
    field.name + ArgsText(field.args) + if field.fields == [] then "" else " {"
  }

  function Rest(field: Field, depth: nat): string {
    if field.fields == [] then "" else Selections(field.fields, depth + 1) + (Indentation(depth) + "}\n")
  }

  lemma SelectionIs(field: Field, depth: nat, more: string)
    ensures Selection(field, depth) + more == Indentation(depth) + FirstLine(field) + "\n" + (Rest(field, depth) + more)
  {
    hide Selections, Indentation;
    var args := ArgsText(field.args);
    if field.fields == [] {
      assert field.name + args + "" == FirstLine(field);
    } else {
      var below := Selections(field.fields, depth + 1) + Indentation(depth) + "}";
      assert below + "\n" == Rest(field, depth);
      assert Selection(field, depth) == Indentation(depth) + field.name + args + (" {\n" + below) + "\n";
    }
  }

  lemma FirstLineIsOne(field: Field, depth: nat)
    requires PlainField(field)
    ensures '\n' !in Indentation(depth) + FirstLine(field) && '\n' !in FirstLine(field)
  {
  }

  lemma {:induction false} SameName(x: string, y: string, a: string, b: string)
    requires (forall i :: 0 <= i < |x| ==> NameChar(x[i])) && (forall i :: 0 <= i < |y| ==> NameChar(y[i]))
    requires (a == "" || !NameChar(a[0])) && (b == "" || !NameChar(b[0])) && x + a == y + b
    ensures x == y && a == b
  {
    var s := x + a;
    assert s[..|x|] == x && s[|x|..] == a && (y + b)[..|y|] == y && (y + b)[|y|..] == b;
  }

  lemma SameFirstLineReads(f: Field, g: Field)
    requires PlainField(f) && PlainField(g) && FirstLine(f) == FirstLine(g)
    ensures f.name == g.name && f.args == g.args && (f.fields == [] <==> g.fields == [])
  {
    hide ArgsText, PlainField;
    EndsOpen(f);
    EndsOpen(g);
    var brace := if f.fields == [] then "" else " {";
    var x, y := ArgsText(f.args) + brace, ArgsText(g.args) + brace;
    assert FirstLine(f) == f.name + x && FirstLine(g) == g.name + y;
    NameEnds(f, brace);
    NameEnds(g, brace);
    SameName(f.name, g.name, x, y);
    ArgsRead(f.args, g.args, brace);
  }

  lemma NameEnds(f: Field, brace: string)
    requires PlainField(f) && (brace == "" || brace == " {")
    ensures forall i :: 0 <= i < |f.name| ==> NameChar(f.name[i])
    ensures var rest := ArgsText(f.args) + brace; rest == "" || !NameChar(rest[0])
  {
  }

  lemma ArgsRead(args: string, other: string, tail: string)
    requires ArgsText(args) + tail == ArgsText(other) + tail
    ensures args == other
  {
    var x, y := ArgsText(args), ArgsText(other);
    assert (x + tail)[..|x + tail| - |tail|] == x && (y + tail)[..|y + tail| - |tail|] == y;
    assert x == y;
    if args != "" {
      assert x[0] == '(' && x[1..|x| - 1] == args && y[1..|y| - 1] == other;
    }
  }

  lemma EndsOpen(f: Field)
    requires PlainField(f)
    ensures FirstLine(f) != "" && (FirstLine(f)[|FirstLine(f)| - 1] == '{' <==> f.fields != [])
  {
  }

  /** A selection can be read back: the text determines the field, its arguments and everything below
      it, and where it ends. */
  lemma {:induction false} SelectionReads(f: Field, g: Field, depth: nat, more: string, more': string)
    requires PlainField(f) && PlainField(g) && Selection(f, depth) + more == Selection(g, depth) + more'
    ensures f == g && more == more'
    decreases f, 1
  {
    hide Selection, Selections, Indentation, FirstLine;
    SelectionIs(f, depth, more);
    SelectionIs(g, depth, more');
    FirstLineIsOne(f, depth);
    FirstLineIsOne(g, depth);
    SameFirstLine(Indentation(depth) + FirstLine(f), Indentation(depth) + FirstLine(g), Rest(f, depth) + more,
                  Rest(g, depth) + more');
    SameEnd(Indentation(depth), FirstLine(f), FirstLine(g));
    SameFirstLineReads(f, g);
    if f.fields == [] {
      assert "" + more == more && "" + more' == more';
    } else {
      var close := Indentation(depth) + "}\n";
      assert Rest(f, depth) + more == Selections(f.fields, depth + 1) + (close + more);
      assert Rest(g, depth) + more' == Selections(g.fields, depth + 1) + (close + more');
      ClosesThere(depth, more);
      ClosesThere(depth, more');
      SelectionsRead(f.fields, g.fields, depth + 1, close + more, close + more');
      SameEnd(close, more, more');
    }
  }

  lemma SameEnd(head: string, x: string, y: string)
    requires head + x == head + y
    ensures x == y
  {
    assert (head + x)[|head|..] == x && (head + y)[|head|..] == y;
  }

  lemma ClosesThere(depth: nat, more: string)
    ensures var text := Indentation(depth) + "}\n" + more; |text| > 2 * depth && text[2 * depth] == '}'
  {
  }

  lemma StartsIndented(fields: seq<Field>, depth: nat, more: string)
    requires fields != [] && depth > 0
    ensures var text := Selections(fields, depth) + more; |text| > 2 * depth - 2 && text[2 * depth - 2] == ' '
  {
    var first := Selection(fields[0], depth);
    assert first[2 * depth - 2] == Indentation(depth)[2 * depth - 2];
    assert Selections(fields, depth) + more == first + (Selections(fields[1..], depth) + more);
  }

  lemma {:induction false} SelectionsRead(fields: seq<Field>, others: seq<Field>, depth: nat, more: string,
                                          more': string)
    requires (forall f <- fields :: PlainField(f)) && (forall f <- others :: PlainField(f)) && depth > 0
    requires |more| > 2 * depth - 2 && more[2 * depth - 2] == '}'
    requires |more'| > 2 * depth - 2 && more'[2 * depth - 2] == '}'
    requires Selections(fields, depth) + more == Selections(others, depth) + more'
    ensures fields == others && more == more'
    decreases fields, 0
  {
    hide Selection, PlainField;
    if fields == [] {
      assert "" + more == more && "" + more' == more';
      if others != [] {
        StartsIndented(others, depth, more');
      }
    } else if others == [] {
      assert "" + more' == more';
      StartsIndented(fields, depth, more);
    } else {
      var rest, rest' := Selections(fields[1..], depth) + more, Selections(others[1..], depth) + more';
      assert Selections(fields, depth) + more == Selection(fields[0], depth) + rest;
      assert Selections(others, depth) + more' == Selection(others[0], depth) + rest';
      SelectionReads(fields[0], others[0], depth, rest, rest');
      SelectionsRead(fields[1..], others[1..], depth, more, more');
      assert fields == [fields[0]] + fields[1..] && others == [others[0]] + others[1..];
    }
  }

  /** So the query of a field that is no entity says exactly which field, with which arguments and which
      selection below it, is asked for. */
  lemma FieldQueryReads(f: Field, g: Field)
    requires PlainField(f) && PlainField(g) && FieldQuery(f) == FieldQuery(g)
    ensures f == g
  {
    hide Selection;
    assert FieldQuery(f) == "{\n" + (Selection(f, 1) + "}") && FieldQuery(g) == "{\n" + (Selection(g, 1) + "}");
    SameEnd("{\n", Selection(f, 1) + "}", Selection(g, 1) + "}");
    SelectionReads(f, g, 1, "}", "}");
  }

  // ----- Small queries -----

  lemma PlanNothing(planner: Planner, path: Path)
    ensures PlanFields(planner, [], path).Ok? && PlanFields(planner, [], path).value == []
  {
  }

  lemma PlanLeaf(planner: Planner, name: string, args: string, path: Path)
    requires CanResolve(planner, name)
    ensures var field := Field(name, args, []);
            var r := PlanField(planner, field, path);
            r.Ok? && r.value == [OwnStep(planner, field, path + [name])]
  {
    hide CanResolve, OwnStep;
    PlanNothing(planner, path + [name]);
  }

  lemma PlanOneField(planner: Planner, field: Field, path: Path)
    requires PlanField(planner, field, path).Ok?
    ensures var r := PlanFields(planner, [field], path);
            r.Ok? && r.value == PlanField(planner, field, path).value
  {
    hide PlanField;
    PlanNothing(planner, path);
    assert [field][1..] == [];
  }

  lemma PlanTwoFields(planner: Planner, f: Field, g: Field, path: Path)
    requires PlanField(planner, f, path).Ok? && PlanField(planner, g, path).Ok?
    ensures var r := PlanFields(planner, [f, g], path);
            r.Ok? && r.value == PlanField(planner, f, path).value + PlanField(planner, g, path).value
  {
    hide PlanField;
    PlanOneField(planner, g, path);
    assert [f, g][1..] == [g];
  }

  lemma PlanOneOperation(planner: Planner, fields: seq<Field>)
    requires PlanFields(planner, fields, []).Ok?
    ensures var r := PlanOperations(planner, [fields]);
            r.Ok? && r.value == PlanFields(planner, fields, []).value
  {
    hide PlanFields;
    assert PlanOperations(planner, []).value == [];
    assert [fields][1..] == [];
  }

  /** A query of one field is planned as one step if the schemas know the field, and otherwise that
      field is reported. */
  lemma OneFieldPlannedIff(planner: Planner, name: string, args: string)
    ensures var r := PlanOperations(planner, [[Field(name, args, [])]]);
            if InSchemas(planner, name) then
              r.Ok? && |r.value| == 1 && r.value[0].id == "step_" + name && r.value[0].path == [name]
            else r.NoSubgraph? && r.field == name
  {
    hide CanResolve, QueryText, InSchemas;
    ResolvesIff(planner, name);
    var field := Field(name, args, []);
    assert [] + [name] == [name];
    if CanResolve(planner, name) {
      PlanLeaf(planner, name, args, []);
      PlanOneField(planner, field, []);
      PlanOneOperation(planner, [field]);
    } else {
      assert PlanField(planner, field, []) == NoSubgraph(name);
    }
  }

  lemma OwnStepIsFirst(planner: Planner, field: Field, path: Path)
    requires PlanField(planner, field, path).Ok?
    ensures var steps := PlanField(planner, field, path).value;
            steps != [] && steps[0] == OwnStep(planner, field, path + [field.name])
  {
    hide CanResolve, OwnStep, PlanFields;
  }

  /** A field that is no entity, with one field below it. */
  lemma NestedScalarRaces(planner: Planner, outer: string, inner: string)
    requires CanResolve(planner, outer) && CanResolve(planner, inner) && outer !in planner.entities
    ensures var planned := PlanOperations(planner, [[Field(outer, "", [Field(inner, "", [])])]]);
            planned.Ok? && !ExecutorsAgree(PlanOf(planned.value))
  {
    hide ExecutorsAgree, PlanFields, PlanOperations, QueryText, StepID, CanResolve;
    var leaf := Field(inner, "", []);
    var query := Field(outer, "", [leaf]);
    PlanLeaf(planner, inner, "", [outer]);
    PlanOneField(planner, leaf, [outer]);
    assert [] + [outer] == [outer] && [outer] + [inner] == [outer, inner];
    PlanOneField(planner, query, []);
    PlanOneOperation(planner, [query]);
    var steps := PlanOperations(planner, [[query]]).value;
    assert |steps| == 2 && steps[0].path == [outer] && steps[1].path == [outer, inner];
    assert Below(steps[0].path, steps[1].path);
    PlannedAgreeIff(planner, [[query]]);
  }

  /** Two selections of one field whose query texts differ. */
  lemma OtherTextCollides(planner: Planner, f: Field, g: Field)
    requires PlanField(planner, f, []).Ok? && PlanField(planner, g, []).Ok?
    requires f.name == g.name && QueryText(planner, f) != QueryText(planner, g)
    ensures PlanOperations(planner, [[f, g]]).Ok? && !ExecutorsAgree(PlanOf(PlanOperations(planner, [[f, g]]).value))
  {
    hide ExecutorsAgree, PlanField, PlanFields, PlanOperations, QueryText, StepID, OnlyEntitiesNest;
    var first, second := PlanField(planner, f, []).value, PlanField(planner, g, []).value;
    PlanTwoFields(planner, f, g, []);
    PlanOneOperation(planner, [f, g]);
    OwnStepIsFirst(planner, f, []);
    OwnStepIsFirst(planner, g, []);
    var steps := PlanOperations(planner, [[f, g]]).value;
    assert steps[0] == first[0] && steps[|first|] == second[0];
    PlannedAgreeIff(planner, [[f, g]]);
  }

  /** In particular a field that is no entity, selected under two aliases with different arguments. */
  lemma AliasedFieldsCollide(planner: Planner, name: string, args: string, other: string)
    requires CanResolve(planner, name) && name !in planner.entities && args != other
    ensures var planned := PlanOperations(planner, [[Field(name, args, []), Field(name, other, [])]]);
            planned.Ok? && !ExecutorsAgree(PlanOf(planned.value))
  {
    hide ExecutorsAgree, PlanField, PlanOperations, CanResolve;
    PlanLeaf(planner, name, args, []);
    PlanLeaf(planner, name, other, []);
    ArgsShow(name, args, other);
    OtherTextCollides(planner, Field(name, args, []), Field(name, other, []));
  }

  lemma ArgsShow(name: string, args: string, other: string)
    requires args != other
    ensures FieldQuery(Field(name, args, [])) != FieldQuery(Field(name, other, []))
  {
    var x, y := if args == "" then "" else "(" + args + ")", if other == "" then "" else "(" + other + ")";
    assert args != "" ==> x[1..|x| - 1] == args;
    assert other != "" ==> y[1..|y| - 1] == other;
    assert x != y;
    var head := "{\n" + (Indentation(1) + name);
    assert FieldQuery(Field(name, args, [])) == head + x + "\n}";
    assert FieldQuery(Field(name, other, [])) == head + y + "\n}";
    if head + x + "\n}" == head + y + "\n}" {
      SameMiddle(head, x, y, "\n}");
    }
  }

  /** And an entity field selected with a field below it and again without. */
  lemma BareEntityCollides(planner: Planner, name: string, inner: string)
    requires CanResolve(planner, name) && CanResolve(planner, inner) && name in planner.entities
    ensures var planned := PlanOperations(planner, [[Field(name, "", [Field(inner, "", [])]), Field(name, "", [])]]);
            planned.Ok? && !ExecutorsAgree(PlanOf(planned.value))
  {
    hide ExecutorsAgree, PlanOperations, PlanFields, CanResolve, StepID, QueryText;
    var leaf := Field(inner, "", []);
    var f, g := Field(name, "", [leaf]), Field(name, "", []);
    assert [] + [name] == [name];
    PlanLeaf(planner, inner, "", [name]);
    PlanOneField(planner, leaf, [name]);
    PlanLeaf(planner, name, "", []);
    NestingShows(planner, f, g);
    OtherTextCollides(planner, f, g);
  }

  lemma NestingShows(planner: Planner, f: Field, g: Field)
    requires f.name == g.name && f.name in planner.entities && f.fields != [] && g.fields == []
    ensures QueryText(planner, f) != QueryText(planner, g)
  {
    hide EntityQuery;
    assert |NameLines(f.fields)| > 0;
    if QueryText(planner, f) == QueryText(planner, g) {
      SameEntityQuery(planner.entities[f.name], f, g);
    }
  }

  /** The text of an entity query leaves the arguments out, so an entity field selected under two
      aliases makes the same step twice, and that is harmless. */
  lemma AliasedEntitiesAgree(planner: Planner, name: string, args: string, other: string)
    requires CanResolve(planner, name) && name in planner.entities
    ensures var planned := PlanOperations(planner, [[Field(name, args, []), Field(name, other, [])]]);
            planned.Ok? && |planned.value| == 2 && ExecutorsAgree(PlanOf(planned.value))
  {
    hide ExecutorsAgree, PlanField, PlanOperations, PlanFields, CanResolve, StepID, QueryText;
    var f, g := Field(name, args, []), Field(name, other, []);
    assert QueryText(planner, f) == QueryText(planner, g) by { ArgsAreLeftOut(planner, f, g); }
    PlanLeaf(planner, name, args, []);
    PlanLeaf(planner, name, other, []);
    PlanTwoFields(planner, f, g, []);
    PlanOneOperation(planner, [f, g]);
    var steps := PlanOperations(planner, [[f, g]]).value;
    assert steps[0] == steps[1];
    PlannedAgreeIff(planner, [[f, g]]);
  }

  lemma ArgsAreLeftOut(planner: Planner, f: Field, g: Field)
    requires f.name == g.name && f.name in planner.entities && f.fields == g.fields
    ensures QueryText(planner, f) == QueryText(planner, g)
  {
    hide NameLines;
  }
}
