/** Redaction of configured field paths in audited request and response bodies. The decoded
    document is fresh and unshared, so updating it in place is a function on trees. */
module Masking {
  import opened Basics
  import opened Json

  function Mask(node: Json, parts: Path, replacement: string): Json
    decreases |parts|, node
  {
    if parts == [] then node
    else
      match node
      case Obj(fields) =>
        if parts[0] !in fields then node
        else if |parts| == 1 then Obj(fields[parts[0] := Str(replacement)])
        else Obj(fields[parts[0] := Mask(fields[parts[0]], parts[1..], replacement)])
      case Arr(items) =>
        Arr(seq(|items|, i requires 0 <= i < |items| => Mask(items[i], parts, replacement)))
      case _ => node
  }

  function MaskAll(node: Json, paths: seq<Path>, replacement: string): Json {
    if paths == [] then node
    else Mask(MaskAll(node, paths[..|paths| - 1], replacement), paths[|paths| - 1], replacement)
  }

  method MaskBody(payload: Json, paths: seq<Path>, replacement: string) returns (masked: Json)
    ensures masked == Redact(payload, PathSet(paths), replacement)
  {
    masked := payload;
    for i := 0 to |paths|
      invariant masked == MaskAll(payload, paths[..i], replacement)
    {
      assert paths[..i + 1][..i] == paths[..i];
      masked := Mask(masked, paths[i], replacement);
    }
    assert paths[..|paths|] == paths;
    MaskingIsRedaction(payload, paths, replacement);
  }

  // ----- All paths at once -----

  ghost function PathSet(paths: seq<Path>): set<Path> {
    set i | 0 <= i < |paths| :: paths[i]
  }

  /** What is left of the paths below the field `name`. */
  ghost function Below(paths: set<Path>, name: string): set<Path> {
    set p | p in paths && |p| > 1 && p[0] == name :: p[1..]
  }

  /** The whole redaction in one pass, in which the order of paths cannot play a part. */
  ghost function Redact(node: Json, paths: set<Path>, replacement: string): Json {
    match node
    case Obj(fields) =>
      Obj(map k | k in fields :: if [k] in paths then Str(replacement)
          else Redact(fields[k], Below(paths, k), replacement))
    case Arr(items) => Arr(seq(|items|, i requires 0 <= i < |items| => Redact(items[i], paths, replacement)))
    case _ => node
  }

  lemma {:induction false} RedactNothing(node: Json, paths: set<Path>, r: string)
    requires paths <= {[]}
    ensures Redact(node, paths, r) == node
  {
    match node
    case Obj(fields) =>
      forall k | k in fields
        ensures [k] !in paths && Redact(fields[k], Below(paths, k), r) == fields[k]
      {
        assert Below(paths, k) == {};
        RedactNothing(fields[k], {}, r);
      }
      assert Redact(node, paths, r).fields == fields;
    case Arr(items) =>
      forall i | 0 <= i < |items|
        ensures Redact(items[i], paths, r) == items[i]
      {
        RedactNothing(items[i], paths, r);
      }
      assert Redact(node, paths, r).items == items;
    case _ =>
  }

  lemma BelowAdd(paths: set<Path>, p: Path, k: string)
    ensures Below(paths + {p}, k) == if |p| > 1 && p[0] == k then Below(paths, k) + {p[1..]} else Below(paths, k)
  {
    var grown := if |p| > 1 && p[0] == k then Below(paths, k) + {p[1..]} else Below(paths, k);
    forall q
      ensures q in Below(paths + {p}, k) <==> q in grown
    {
      if q in Below(paths + {p}, k) {
        var full :| full in paths + {p} && |full| > 1 && full[0] == k && full[1..] == q;
        assert full in paths ==> q in Below(paths, k);
      }
      if q in Below(paths, k) {
        var full :| full in paths && |full| > 1 && full[0] == k && full[1..] == q;
        assert full in paths + {p};
      }
    }
  }

  lemma {:induction false} IgnoreEmptyPath(node: Json, paths: set<Path>, r: string)
    ensures Redact(node, paths + {[]}, r) == Redact(node, paths, r)
  {
    match node
    case Obj(fields) =>
      forall k | k in fields
        ensures Below(paths + {[]}, k) == Below(paths, k) && ([k] in paths + {[]} <==> [k] in paths)
      {
        BelowAdd(paths, [], k);
      }
      assert Redact(node, paths + {[]}, r).fields == Redact(node, paths, r).fields;
    case Arr(items) =>
      forall i | 0 <= i < |items|
        ensures Redact(items[i], paths + {[]}, r) == Redact(items[i], paths, r)
      {
        IgnoreEmptyPath(items[i], paths, r);
      }
      assert Redact(node, paths + {[]}, r).items == Redact(node, paths, r).items;
    case _ =>
  }

  /** Masking one more path after a redaction is the redaction with that path added. */
  lemma {:induction false} MaskExtendsRedaction(node: Json, paths: set<Path>, p: Path, r: string)
    ensures Mask(Redact(node, paths, r), p, r) == Redact(node, paths + {p}, r)
    decreases node, 1
  {
    if p == [] {
      IgnoreEmptyPath(node, paths, r);
    } else {
      match node
      case Obj(_) => MaskExtendsFields(node, paths, p, r);
      case Arr(items) =>
        forall i | 0 <= i < |items|
          ensures Mask(Redact(items[i], paths, r), p, r) == Redact(items[i], paths + {p}, r)
        {
          MaskExtendsRedaction(items[i], paths, p, r);
        }
        assert Mask(Redact(node, paths, r), p, r).items == Redact(node, paths + {p}, r).items;
      case _ =>
    }
  }

  lemma {:induction false} MaskExtendsFields(node: Json, paths: set<Path>, p: Path, r: string)
    requires node.Obj? && p != []
    ensures Mask(Redact(node, paths, r), p, r) == Redact(node, paths + {p}, r)
    decreases node, 0
  {
    var fields := node.fields;
    var before, after := Redact(node, paths, r).fields, Redact(node, paths + {p}, r).fields;
    var masked := Mask(Obj(before), p, r).fields;
    assert masked.Keys == fields.Keys == after.Keys;
    forall k | k in fields
      ensures masked[k] == after[k]
    {
      BelowAdd(paths, p, k);
      assert before[k] == if [k] in paths then Str(r) else Redact(fields[k], Below(paths, k), r);
      assert after[k] == if [k] in paths + {p} then Str(r) else Redact(fields[k], Below(paths + {p}, k), r);
      if k != p[0] {
        assert p != [k] && masked[k] == before[k];
      } else if |p| == 1 {
        assert p == [k];
      } else {
        assert p != [k] && masked[k] == Mask(before[k], p[1..], r);
        if [k] !in paths {
          MaskExtendsRedaction(fields[k], Below(paths, k), p[1..], r);
        }
      }
    }
    assert masked == after;
  }

  /** Masking the paths one after another is the one-pass redaction. */
  lemma {:induction false} MaskingIsRedaction(node: Json, paths: seq<Path>, r: string)
    ensures MaskAll(node, paths, r) == Redact(node, PathSet(paths), r)
  {
    if paths == [] {
      RedactNothing(node, {}, r);
      assert PathSet(paths) == {};
    } else {
      var n := |paths| - 1;
      MaskingIsRedaction(node, paths[..n], r);
      MaskExtendsRedaction(node, PathSet(paths[..n]), paths[n], r);
      assert PathSet(paths) == PathSet(paths[..n]) + {paths[n]};
    }
  }

  /** Any two lists with the same paths, in any order and with any repetitions, mask alike. */
  lemma OrderIsIrrelevant(node: Json, ps: seq<Path>, qs: seq<Path>, r: string)
    requires PathSet(ps) == PathSet(qs)
    ensures MaskAll(node, ps, r) == MaskAll(node, qs, r)
  {
    MaskingIsRedaction(node, ps, r);
    MaskingIsRedaction(node, qs, r);
  }

  lemma {:induction false} MaskAllConcat(node: Json, ps: seq<Path>, qs: seq<Path>, r: string)
    ensures MaskAll(node, ps + qs, r) == MaskAll(MaskAll(node, ps, r), qs, r)
  {
    if qs == [] {
      assert ps + qs == ps;
    } else {
      var n := |qs| - 1;
      MaskAllConcat(node, ps, qs[..n], r);
      assert (ps + qs)[..|ps + qs| - 1] == ps + qs[..n];
    }
  }

  lemma MaskingTwiceIsMaskingOnce(node: Json, ps: seq<Path>, r: string)
    ensures MaskAll(MaskAll(node, ps, r), ps, r) == MaskAll(node, ps, r)
  {
    MaskAllConcat(node, ps, ps, r);
    assert PathSet(ps + ps) == PathSet(ps) by {
      assert forall i :: 0 <= i < |ps| ==> (ps + ps)[i] == ps[i];
    }
    OrderIsIrrelevant(node, ps + ps, ps, r);
  }

  // ----- Which values are replaced -----

  /** One step down a document. */
  datatype Hop = Field(name: string) | Item(index: nat)

  type Location = seq<Hop>

  ghost function At(node: Json, loc: Location): Option<Json>
    decreases |loc|
  {
    if loc == [] then Some(node)
    else
      match loc[0]
      case Field(k) => if node.Obj? && k in node.fields then At(node.fields[k], loc[1..]) else None
      case Item(i) => if node.Arr? && i < |node.items| then At(node.items[i], loc[1..]) else None
  }

  /** The field names on the way; positions in arrays do not count. */
  ghost function Names(loc: Location): Path {
    if loc == [] then [] else (if loc[0].Field? then [loc[0].name] else []) + Names(loc[1..])
  }

  /** A configured path leads exactly to this field. */
  ghost predicate Reached(loc: Location, paths: set<Path>) {
    loc != [] && loc[|loc| - 1].Field? && Names(loc) in paths
  }

  ghost predicate ReachedAbove(loc: Location, paths: set<Path>) {
    exists i :: 0 < i < |loc| && Reached(loc[..i], paths)
  }

  /** The same value, except possibly further down. */
  ghost predicate SameSurface(v: Json, w: Json) {
    match v
    case Obj(fields) => w.Obj? && w.fields.Keys == fields.Keys
    case Arr(items) => w.Arr? && |w.items| == |items|
    case _ => w == v
  }

  lemma ReachedBelow(loc: Location, paths: set<Path>, i: nat)
    requires loc != [] && 0 < i <= |loc|
    ensures match loc[0]
            case Item(_) => Reached(loc[..i], paths) <==> i > 1 && Reached(loc[1..][..i - 1], paths)
            case Field(k) => Reached(loc[..i], paths) <==>
                if i == 1 then [k] in paths else Reached(loc[1..][..i - 1], Below(paths, k))
  {
    var here, rest := loc[..i], loc[1..][..i - 1];
    assert here[0] == loc[0] && here[1..] == rest;
    assert i > 1 ==> rest[|rest| - 1] == here[|here| - 1];
    assert loc[0].Item? ==> Names(here) == Names(rest);
    if loc[0].Field? {
      var k := loc[0].name;
      assert Names(here) == [k] + Names(rest);
      if i == 1 {
        assert rest == [] && Names(here) == [k];
        return;
      }
      if rest[|rest| - 1].Field? {
        LastNamed(rest);
        BelowMember(paths, k, Names(rest));
      }
    }
  }

  lemma {:induction false} LastNamed(loc: Location)
    requires loc != [] && loc[|loc| - 1].Field?
    ensures Names(loc) != []
  {
    if |loc| > 1 {
      LastNamed(loc[1..]);
    }
  }

  lemma BelowMember(paths: set<Path>, k: string, q: Path)
    requires q != []
    ensures q in Below(paths, k) <==> [k] + q in paths
  {
    var full := [k] + q;
    assert full[0] == k && full[1..] == q;
    if q in Below(paths, k) {
      var p :| p in paths && |p| > 1 && p[0] == k && p[1..] == q;
      assert p == full;
    }
  }

  /** The paths that still matter below a location. */
  ghost function PathsFrom(paths: set<Path>, hop: Hop): set<Path> {
    if hop.Field? then Below(paths, hop.name) else paths
  }

  lemma ReachedAboveStep(loc: Location, paths: set<Path>)
    requires loc != []
    ensures Reached(loc, paths) <==> if |loc| == 1 then loc[0].Field? && [loc[0].name] in paths
                                     else Reached(loc[1..], PathsFrom(paths, loc[0]))
    ensures ReachedAbove(loc, paths) <==>
              |loc| > 1 && ((loc[0].Field? && [loc[0].name] in paths)
                            || ReachedAbove(loc[1..], PathsFrom(paths, loc[0])))
  {
    var rest, paths' := loc[1..], PathsFrom(paths, loc[0]);
    assert loc[..|loc|] == loc && rest[..|rest|] == rest;
    ReachedBelow(loc, paths, |loc|);
    if ReachedAbove(loc, paths) {
      var i :| 0 < i < |loc| && Reached(loc[..i], paths);
      ReachedBelow(loc, paths, i);
      assert i > 1 ==> Reached(rest[..i - 1], paths');
    }
    if |loc| > 1 {
      ReachedBelow(loc, paths, 1);
      if ReachedAbove(rest, paths') {
        var i :| 0 < i < |rest| && Reached(rest[..i], paths');
        ReachedBelow(loc, paths, i + 1);
      }
    }
  }

  /** For every place in a document: nothing appears that was not there; what lies below a replaced
      field is gone; a reached field holds the replacement; everything else keeps its value. */
  lemma {:induction false} RedactionAt(node: Json, paths: set<Path>, r: string, loc: Location)
    ensures var v, w := At(node, loc), At(Redact(node, paths, r), loc);
            if v.None? || ReachedAbove(loc, paths) then w == None
            else if Reached(loc, paths) then w == Some(Str(r))
            else w.Some? && SameSurface(v.value, w.value)
    decreases |loc|
  {
    if loc == [] {
      SurfaceKept(node, paths, r);
    } else {
      var hop, rest := loc[0], loc[1..];
      ReachedAboveStep(loc, paths);
      match hop
      case Field(k) =>
        if node.Obj? && k in node.fields {
          if [k] in paths {
            assert At(Str(r), rest) == if rest == [] then Some(Str(r)) else None;
          } else {
            RedactionAt(node.fields[k], Below(paths, k), r, rest);
            assert rest == [] ==> !Reached(rest, Below(paths, k));
          }
        }
      case Item(i) =>
        if node.Arr? && i < |node.items| {
          RedactionAt(node.items[i], paths, r, rest);
          assert rest == [] ==> !Reached(rest, paths);
        }
    }
  }

  lemma SurfaceKept(node: Json, paths: set<Path>, r: string)
    ensures SameSurface(node, Redact(node, paths, r))
  {
  }

  /** The same, of the masker as it runs. */
  lemma MaskingAt(node: Json, paths: seq<Path>, r: string, loc: Location)
    ensures var v, w := At(node, loc), At(MaskAll(node, paths, r), loc);
            if v.None? || ReachedAbove(loc, PathSet(paths)) then w == None
            else if Reached(loc, PathSet(paths)) then w == Some(Str(r))
            else w.Some? && SameSurface(v.value, w.value)
  {
    MaskingIsRedaction(node, paths, r);
    RedactionAt(node, PathSet(paths), r, loc);
  }
}
