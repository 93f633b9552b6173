/** Placing a step's result at its path in the response document. */
module MergeTree {
  import opened Basics
  import opened Json

  type Object = map<string, Json>

  function Merge(data: Object, stepData: Object, path: Path): Object
    decreases |path|
  {
    if path == [] then data + stepData
    else
      var key := path[0];
      if |path| == 1 then
        if key in data && data[key].Obj? then data[key := Obj(data[key].fields + stepData)]
        else data[key := Obj(stepData)]
      else if key !in data then data[key := Obj(Merge(map[], stepData, path[1..]))]
      else if data[key].Obj? then data[key := Obj(Merge(data[key].fields, stepData, path[1..]))]
      else data
  }

  /** Neither path leads to or through the other. */
  predicate Apart(p: Path, q: Path) {
    !(p <= q) && !(q <= p)
  }

  /** A path that leads further. */
  predicate Below(p: Path, q: Path) {
    p <= q && p != q
  }

  lemma {:induction false} MergesCommute(data: Object, a: Object, p: Path, b: Object, q: Path)
    requires Apart(p, q)
    ensures Merge(Merge(data, a, p), b, q) == Merge(Merge(data, b, q), a, p)
    decreases |p|
  {
    if p[0] == q[0] {
      assert p == [p[0]] + p[1..] && q == [q[0]] + q[1..];
      assert |p| > 1 && |q| > 1 && Apart(p[1..], q[1..]);
      var below := if p[0] in data && data[p[0]].Obj? then data[p[0]].fields else map[];
      MergesCommute(below, a, p[1..], b, q[1..]);
      MergeBelow(data, a, p, b, q);
      MergeBelow(data, b, q, a, p);
    } else {
      MergesAtDifferentFields(data, a, p, b, q);
    }
  }

  lemma MergeBelow(data: Object, a: Object, p: Path, b: Object, q: Path)
    requires |p| > 1 && |q| > 1 && p[0] == q[0]
    ensures Merge(Merge(data, a, p), b, q)
         == if p[0] in data && !data[p[0]].Obj? then data
            else
              var below := if p[0] in data then data[p[0]].fields else map[];
              data[p[0] := Obj(Merge(Merge(below, a, p[1..]), b, q[1..]))]
  {
    var key := p[0];
    if !(key in data && !data[key].Obj?) {
      var below := if key in data then data[key].fields else map[];
      var once := Merge(data, a, p);
      assert once == data[key := Obj(Merge(below, a, p[1..]))];
      assert once[key].fields == Merge(below, a, p[1..]);
    }
  }

  lemma MergesAtDifferentFields(data: Object, a: Object, p: Path, b: Object, q: Path)
    requires p != [] && q != [] && p[0] != q[0]
    ensures Merge(Merge(data, a, p), b, q) == Merge(Merge(data, b, q), a, p)
  {
    hide Merge;
    MergeElsewhere(data, a, p, q[0]);
    MergeElsewhere(data, b, q, p[0]);
    MergeLocal(data, Merge(data, b, q), a, p);
    MergeLocal(data, Merge(data, a, p), b, q);
    MergeLocal(data, data, a, p);
    MergeLocal(data, data, b, q);
  }

  /** A merge touches only the field its path starts with. */
  lemma MergeElsewhere(data: Object, a: Object, p: Path, key: string)
    requires p != [] && key != p[0]
    ensures key in Merge(data, a, p) <==> key in data
    ensures key in data ==> Merge(data, a, p)[key] == data[key]
  {
  }

  /** And what it makes of that field depends on that field alone. */
  lemma MergeLocal(data: Object, other: Object, a: Object, p: Path)
    requires p != [] && (p[0] in data <==> p[0] in other) && (p[0] in data ==> data[p[0]] == other[p[0]])
    ensures Merge(other, a, p)
         == if p[0] in Merge(data, a, p) then other[p[0] := Merge(data, a, p)[p[0]]] else other
  {
    if p[0] in other && !other[p[0]].Obj? && |p| > 1 {
      assert other[p[0] := other[p[0]]] == other;
    }
  }

  /** The fields of the object at a key, none if there is no object. */
  function FieldsAt(data: Object, key: string): Object {
    if key in data && data[key].Obj? then data[key].fields else map[]
  }

  lemma MergeInto(data: Object, a: Object, p: Path)
    requires p != [] && (p[0] in data ==> data[p[0]].Obj?)
    ensures Merge(data, a, p) == data[p[0] := Obj(Merge(FieldsAt(data, p[0]), a, p[1..]))]
  {
    if |p| == 1 {
      assert map[] + a == a;
    }
  }

  lemma {:induction false} MergeTwice(data: Object, a: Object, p: Path)
    ensures Merge(Merge(data, a, p), a, p) == Merge(data, a, p)
    decreases |p|
  {
    if p == [] {
      assert data + a + a == data + a;
    } else if p[0] in data && !data[p[0]].Obj? {
      assert a + a == a;
    } else {
      MergeTwice(FieldsAt(data, p[0]), a, p[1..]);
      MergeInto(data, a, p);
      MergeInto(Merge(data, a, p), a, p);
    }
  }

  /** After a merge further up, an earlier merge is either overwritten or might as well come now. */
  lemma {:induction false} MergeAbove(data: Object, a: Object, p: Path, b: Object, q: Path)
    requires Below(q, p)
    ensures var both, upper := Merge(Merge(data, a, p), b, q), Merge(data, b, q);
            both == upper || both == Merge(upper, a, p)
    decreases |q|
  {
    hide Merge;
    if q == [] {
      MergeUnder(data, a, p, b);
      MergeHere(data, b);
      MergeHere(Merge(data, a, p), b);
    } else {
      var key := q[0];
      assert p[0] == key && Below(q[1..], p[1..]) && |p| > 1;
      if key in data && !data[key].Obj? {
        MergeBlocked(data, a, p);
      } else {
        var below := FieldsAt(data, key);
        MergeAbove(below, a, p[1..], b, q[1..]);
        MergeInto(data, a, p);
        MergeInto(data, b, q);
        MergeInto(Merge(data, a, p), b, q);
        MergeInto(Merge(data, b, q), a, p);
      }
    }
  }

  lemma MergeHere(data: Object, a: Object)
    ensures Merge(data, a, []) == data + a
  {
  }

  lemma MergeBlocked(data: Object, a: Object, p: Path)
    requires |p| > 1 && p[0] in data && !data[p[0]].Obj?
    ensures Merge(data, a, p) == data
  {
  }

  lemma MergeUnder(data: Object, a: Object, p: Path, b: Object)
    requires p != []
    ensures Merge(data, a, p) + b == data + b || Merge(data, a, p) + b == Merge(data + b, a, p)
  {
    hide Merge;
    forall key | key != p[0]
      ensures key in Merge(data, a, p) <==> key in data
      ensures key in data ==> Merge(data, a, p)[key] == data[key]
    {
      MergeElsewhere(data, a, p, key);
    }
    if p[0] in b {
      KeptField(data, a, p);
      assert Merge(data, a, p) + b == data + b;
    } else {
      MergeLocal(data, data, a, p);
      MergeLocal(data, data + b, a, p);
      KeptField(data, a, p);
      assert Merge(data, a, p) + b == Merge(data + b, a, p);
    }
  }

  lemma KeptField(data: Object, a: Object, p: Path)
    requires p != []
    ensures p[0] in Merge(data, a, p)
  {
  }

  /** The value at a path. */
  function Find(data: Object, path: Path): Option<Json>
    requires path != []
    decreases |path|
  {
    if path[0] !in data then None
    else if |path| == 1 then Some(data[path[0]])
    else if data[path[0]].Obj? then Find(data[path[0]].fields, path[1..])
    else None
  }

  /** No value other than an object lies on the way to a path. */
  predicate Reachable(data: Object, path: Path)
    decreases |path|
  {
    |path| > 1 && path[0] in data ==> data[path[0]].Obj? && Reachable(data[path[0]].fields, path[1..])
  }

  /** A reachable path afterwards holds the step's fields on top of the object that was there, and
      an unreachable one leaves the document alone. */
  lemma {:induction false} MergeStores(data: Object, a: Object, p: Path)
    requires p != []
    ensures Reachable(data, p) ==>
              var was := Find(data, p);
              Find(Merge(data, a, p), p)
                  == Some(Obj((if was.Some? && was.value.Obj? then was.value.fields else map[]) + a))
    ensures !Reachable(data, p) ==> Merge(data, a, p) == data
    decreases |p|
  {
    var key := p[0];
    if |p| == 1 {
      assert map[] + a == a;
    } else {
      var below := if key in data && data[key].Obj? then data[key].fields else map[];
      MergeStores(below, a, p[1..]);
      if key in data && data[key].Obj? && !Reachable(below, p[1..]) {
        assert data[key := Obj(below)] == data;
      }
    }
  }

  /** Values at paths apart from it stay. */
  lemma {:induction false} MergeKeepsOthers(data: Object, a: Object, p: Path, q: Path)
    requires Apart(p, q)
    ensures Find(Merge(data, a, p), q) == Find(data, q)
    decreases |p|
  {
    if p[0] == q[0] {
      assert p == [p[0]] + p[1..] && q == [q[0]] + q[1..];
      assert |p| > 1 && |q| > 1 && Apart(p[1..], q[1..]);
      var below := if p[0] in data && data[p[0]].Obj? then data[p[0]].fields else map[];
      MergeKeepsOthers(below, a, p[1..], q[1..]);
    } else {
      MergeElsewhere(data, a, p, q[0]);
    }
  }

  /** A document that holds a text where the path ends. */
  function Nest(path: Path): Object
    requires path != []
  {
    if |path| == 1 then map[path[0] := Str("")] else map[path[0] := Obj(Nest(path[1..]))]
  }

  lemma {:induction false} NestOverwritten(path: Path)
    requires path != []
    ensures Merge(Nest(path), map[], path) != Nest(path)
  {
    if |path| > 1 {
      NestOverwritten(path[1..]);
    }
  }

  /** When one path leads to the other, two results exist whose order shows. */
  lemma {:induction false} PrefixesDoNotCommute(p: Path, q: Path) returns (a: Object, b: Object)
    requires p <= q
    ensures Merge(Merge(map[], a, p), b, q) != Merge(Merge(map[], b, q), a, p)
  {
    if p == q {
      a, b := map["" := Str("a")], map["" := Str("b")];
      SamePathLastWins(map[], a, b, p);
      SamePathLastWins(map[], b, a, p);
      assert (a + b)[""] != (b + a)[""];
      MergeInjective(a + b, b + a, p);
    } else {
      var rest := q[|p|..];
      assert q == p + rest;
      a, b := Nest(rest), map[];
      NestUnderPrefix(p, rest);
    }
  }

  lemma {:induction false} MergeInjective(a: Object, b: Object, p: Path)
    requires a != b
    ensures Merge(map[], a, p) != Merge(map[], b, p)
  {
    if p == [] {
      assert map[] + a == a && map[] + b == b;
    } else {
      var x, y := Merge(map[], a, p), Merge(map[], b, p);
      if |p| > 1 {
        MergeInjective(a, b, p[1..]);
      }
      assert x[p[0]] != y[p[0]];
    }
  }

  lemma {:induction false} SamePathLastWins(data: Object, a: Object, b: Object, p: Path)
    requires data == map[]
    ensures Merge(Merge(data, a, p), b, p) == Merge(data, a + b, p)
    decreases |p|
  {
    if |p| > 1 {
      SamePathLastWins(map[], a, b, p[1..]);
    }
  }

  lemma {:induction false} NestUnderPrefix(p: Path, rest: Path)
    requires rest != []
    ensures Merge(Merge(map[], Nest(rest), p), map[], p + rest) != Merge(Merge(map[], map[], p + rest), Nest(rest), p)
  {
    var n, q := Nest(rest), p + rest;
    if p == [] {
      assert q == rest;
      assert map[] + n == n;
      NestOverwritten(rest);
      FreshMerge(rest);
      assert Merge(map[], map[], rest) + n == n;
    } else {
      var key := p[0];
      assert q[1..] == p[1..] + rest && q[0] == key;
      var x, y := Merge(Merge(map[], n, p), map[], q), Merge(Merge(map[], map[], q), n, p);
      NestUnderPrefix(p[1..], rest);
      if |p| == 1 {
        assert p[1..] == [] && map[] + n == n;
        assert x[key] == Obj(Merge(n, map[], q[1..]));
        assert y[key] == Obj(Merge(map[], map[], q[1..]) + n);
      } else {
        assert x[key] == Obj(Merge(Merge(map[], n, p[1..]), map[], q[1..]));
        assert y[key] == Obj(Merge(Merge(map[], map[], q[1..]), n, p[1..]));
      }
      assert x[key] != y[key];
    }
  }

  lemma FreshMerge(path: Path)
    requires path != []
    ensures Merge(map[], map[], path).Keys == {path[0]}
    ensures Merge(map[], map[], path) + Nest(path) == Nest(path)
  {
  }

  /** Merging at two paths commutes for all documents and results exactly when the paths are apart. */
  lemma CommuteIffApart(p: Path, q: Path)
    ensures Apart(p, q) <==>
              forall data: Object, a: Object, b: Object ::
                Merge(Merge(data, a, p), b, q) == Merge(Merge(data, b, q), a, p)
  {
    if Apart(p, q) {
      forall data: Object, a: Object, b: Object
        ensures Merge(Merge(data, a, p), b, q) == Merge(Merge(data, b, q), a, p)
      {
        MergesCommute(data, a, p, b, q);
      }
    } else if p <= q {
      var a, b := PrefixesDoNotCommute(p, q);
    } else {
      var b, a := PrefixesDoNotCommute(q, p);
      assert Merge(Merge(map[], b, q), a, p) != Merge(Merge(map[], a, p), b, q);
    }
  }

  // ----- The same on documents that hold other results already -----

  predicate OnlyObjects(value: Json) {
    value.Obj? && forall key <- value.fields :: OnlyObjects(value.fields[key])
  }

  /** No text, number or list anywhere: what results without fields leave. */
  predicate AllObjects(data: Object) {
    forall key <- data :: OnlyObjects(data[key])
  }

  lemma {:induction false} EmptyResultsLeaveObjects(data: Object, p: Path)
    requires AllObjects(data)
    ensures AllObjects(Merge(data, map[], p))
    decreases |p|
  {
    if |p| > 1 {
      var below := if p[0] in data then data[p[0]].fields else map[];
      EmptyResultsLeaveObjects(below, p[1..]);
    } else if |p| == 1 && p[0] in data {
      assert data[p[0]].fields + map[] == data[p[0]].fields;
    }
  }

  lemma {:induction false} ObjectsAreReachable(data: Object, p: Path)
    requires AllObjects(data)
    ensures Reachable(data, p)
    decreases |p|
  {
    if |p| > 1 && p[0] in data {
      ObjectsAreReachable(data[p[0]].fields, p[1..]);
    }
  }

  /** Looking up a longer path goes through the object at the shorter one. */
  lemma {:induction false} FindThrough(data: Object, p: Path, rest: Path)
    requires p != [] && rest != [] && Find(data, p).Some? && Find(data, p).value.Obj?
    ensures Find(data, p + rest) == Find(Find(data, p).value.fields, rest)
    ensures Reachable(data, p + rest) <==> Reachable(Find(data, p).value.fields, rest)
    decreases |p|
  {
    var q := p + rest;
    assert q[0] == p[0] && q[1..] == p[1..] + rest;
    if |p| == 1 {
      assert p[1..] + rest == rest;
    } else {
      FindThrough(data[p[0]].fields, p[1..], rest);
    }
  }

  lemma {:induction false} NestHolds(data: Object, path: Path)
    requires path != [] && path[0] in data && data[path[0]] == Nest(path)[path[0]]
    ensures Find(data, path) == Some(Str("")) && Reachable(data, path)
    decreases |path|
  {
    if |path| > 1 {
      NestHolds(Nest(path[1..]), path[1..]);
    }
  }

  /** A result that nests a text lands where its path is reachable. */
  lemma NestLands(data: Object, p: Path, rest: Path)
    requires p != [] && rest != [] && Reachable(data, p)
    ensures var after := Merge(data, Nest(rest), p);
            Find(after, p + rest) == Some(Str("")) && Reachable(after, p + rest)
  {
    hide Merge, Find, Reachable;
    var after := Merge(data, Nest(rest), p);
    MergeStores(data, Nest(rest), p);
    NestHolds(Find(after, p).value.fields, rest);
    FindThrough(after, p, rest);
  }

  /** A result for `p` that nests a text at `p + rest`, and an empty one for `p + rest`: whichever
      comes last decides what is found there. */
  lemma OrderShows(data: Object, p: Path, rest: Path)
    requires AllObjects(data) && p != [] && rest != []
    ensures Merge(Merge(data, Nest(rest), p), map[], p + rest) != Merge(Merge(data, map[], p + rest), Nest(rest), p)
  {
    hide Merge, Find, Reachable, AllObjects;
    var first, second := Merge(data, Nest(rest), p), Merge(data, map[], p + rest);
    ObjectsAreReachable(data, p);
    NestLands(data, p, rest);
    MergeStores(first, map[], p + rest);
    EmptyResultsLeaveObjects(data, p + rest);
    ObjectsAreReachable(second, p);
    NestLands(second, p, rest);
  }

  /** An empty result neither removes nor creates a text anywhere else. */
  lemma {:induction false} TextStays(data: Object, q: Path, place: Path)
    requires place != [] && q != place
    ensures Find(Merge(data, map[], q), place) == Some(Str("")) <==> Find(data, place) == Some(Str(""))
    decreases |q|
  {
    if q == [] {
      assert data + map[] == data;
    } else if q[0] == place[0] {
      if |q| == 1 {
        assert q == [q[0]] && |place| > 1;
        if q[0] in data && data[q[0]].Obj? {
          assert data[q[0]].fields + map[] == data[q[0]].fields;
        }
      } else if |place| > 1 {
        assert q == [q[0]] + q[1..] && place == [place[0]] + place[1..];
        TextStays(FieldsAt(data, q[0]), q[1..], place[1..]);
      }
    } else {
      MergeElsewhere(data, map[], q, place[0]);
    }
  }

  /** Nor does it block a path. */
  lemma {:induction false} ReachableStays(data: Object, q: Path, place: Path)
    requires Reachable(data, place)
    ensures Reachable(Merge(data, map[], q), place)
    decreases |q|
  {
    if q == [] {
      assert data + map[] == data;
    } else if |place| > 1 {
      if q[0] == place[0] {
        NothingReachable(place[1..]);
        ReachableStays(FieldsAt(data, q[0]), q[1..], place[1..]);
        MergeInto(data, map[], q);
      } else {
        MergeElsewhere(data, map[], q, place[0]);
      }
    }
  }

  lemma NothingReachable(place: Path)
    ensures Reachable(map[], place)
  {
  }

  lemma {:induction false} ReachableAbove(data: Object, p: Path, rest: Path)
    requires Reachable(data, p + rest)
    ensures Reachable(data, p)
    decreases |p|
  {
    if |p| > 1 && p[0] in data {
      assert (p + rest)[0] == p[0] && (p + rest)[1..] == p[1..] + rest;
      ReachableAbove(data[p[0]].fields, p[1..], rest);
    }
  }

  /** A result with a text lands where its path is reachable. */
  lemma TextLands(data: Object, p: Path, key: string)
    requires p != [] && Reachable(data, p)
    ensures Find(Merge(data, map[key := Str("")], p), p + [key]) == Some(Str(""))
  {
    hide Merge, Reachable;
    var after := Merge(data, map[key := Str("")], p);
    MergeStores(data, map[key := Str("")], p);
    FindThrough(after, p, [key]);
  }

  /** Everything above a found value is an object. */
  lemma {:induction false} FoundIsReachable(data: Object, p: Path, key: string)
    requires p != [] && Find(data, p + [key]).Some?
    ensures Reachable(data, p)
    decreases |p|
  {
    var q := p + [key];
    assert q[0] == p[0] && q[1..] == p[1..] + [key];
    if |p| > 1 {
      FoundIsReachable(data[p[0]].fields, p[1..], key);
    }
  }

  lemma {:induction false} NoTextInObjects(data: Object, place: Path)
    requires place != [] && AllObjects(data)
    ensures Find(data, place) != Some(Str(""))
    decreases |place|
  {
    if |place| > 1 && place[0] in data {
      NoTextInObjects(data[place[0]].fields, place[1..]);
    }
  }
}
