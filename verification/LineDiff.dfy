/** The configuration diff of the command line: a longest-common-subsequence table filled from
    the bottom right corner, and a greedy walk over it. */
module LineDiff {

  /** An output line is a marker followed by the text of the line. */
  predicate IsLine(line: string) {
    |line| > 0 && line[0] in {' ', '-', '+'}
  }

  predicate IsScript(script: seq<string>) {
    forall i :: 0 <= i < |script| ==> IsLine(script[i])
  }

  /** The texts of the lines of `script` whose marker is in `marks`. */
  function Project(script: seq<string>, marks: set<char>): seq<string>
    requires IsScript(script)
  {
    if script == [] then []
    else
      var rest := Project(script[1..], marks);
      if script[0][0] in marks then [script[0][1..]] + rest else rest
  }

  function OldSide(script: seq<string>): seq<string>
    requires IsScript(script)
  {
    Project(script, {' ', '-'})
  }

  function NewSide(script: seq<string>): seq<string>
    requires IsScript(script)
  {
    Project(script, {' ', '+'})
  }

  function Kept(script: seq<string>): seq<string>
    requires IsScript(script)
  {
    Project(script, {' '})
  }

  function Changes(script: seq<string>): nat
    requires IsScript(script)
  {
    |Project(script, {'-', '+'})|
  }

  ghost predicate Converts(script: seq<string>, a: seq<string>, b: seq<string>) {
    IsScript(script) && OldSide(script) == a && NewSide(script) == b
  }

  ghost predicate IsSubsequence(c: seq<string>, a: seq<string>) {
    || c == []
    || (a != [] && c[0] == a[0] && IsSubsequence(c[1..], a[1..]))
    || (a != [] && IsSubsequence(c, a[1..]))
  }

  ghost predicate IsLongestCommon(c: seq<string>, a: seq<string>, b: seq<string>) {
    && IsSubsequence(c, a) && IsSubsequence(c, b)
    && forall d :: IsSubsequence(d, a) && IsSubsequence(d, b) ==> |d| <= |c|
  }

  /** What cell (i, j) of the table holds, for the suffixes from i and j. */
  function Lcs(a: seq<string>, b: seq<string>): nat
    decreases |a| + |b|
  {
    if a == [] || b == [] then 0
    else if a[0] == b[0] then 1 + Lcs(a[1..], b[1..])
    else if Lcs(a[1..], b) >= Lcs(a, b[1..]) then Lcs(a[1..], b)
    else Lcs(a, b[1..])
  }

  /** What the walk still appends when the suffixes `a` and `b` are left. */
  function Walk(a: seq<string>, b: seq<string>): seq<string>
    decreases |a| + |b|
  {
    if a == [] && b == [] then []
    else if a != [] && b != [] && a[0] == b[0] then [" " + a[0]] + Walk(a[1..], b[1..])
    else if a != [] && (b == [] || Lcs(a[1..], b) >= Lcs(a, b[1..])) then ["-" + a[0]] + Walk(a[1..], b)
    else ["+" + b[0]] + Walk(a, b[1..])
  }

  /** Keep before delete before insert. */
  function Rank(line: string): nat
    requires IsLine(line)
  {
    if line[0] == ' ' then 0 else if line[0] == '-' then 1 else 2
  }

  ghost predicate LexLeq(s: seq<string>, t: seq<string>)
    requires IsScript(s) && IsScript(t)
  {
    || s == []
    || (t != [] && Rank(s[0]) < Rank(t[0]))
    || (t != [] && s[0] == t[0] && LexLeq(s[1..], t[1..]))
  }

  lemma {:induction false} TailSubsequence(c: seq<string>, a: seq<string>)
    requires c != [] && IsSubsequence(c, a)
    ensures a != [] && IsSubsequence(c[1..], a[1..])
    decreases |a|
  {
    if !(c[0] == a[0] && IsSubsequence(c[1..], a[1..])) {
      TailSubsequence(c, a[1..]);
      assert IsSubsequence(c[1..], a[1..]);
    }
  }

  /** No common subsequence is longer than the table says. */
  lemma {:induction false} CommonSubsequenceBound(c: seq<string>, a: seq<string>, b: seq<string>)
    requires IsSubsequence(c, a) && IsSubsequence(c, b)
    ensures |c| <= Lcs(a, b)
    decreases |a| + |b|
  {
    if c != [] {
      TailSubsequence(c, a);
      TailSubsequence(c, b);
      if a[0] == b[0] {
        CommonSubsequenceBound(c[1..], a[1..], b[1..]);
      } else if c[0] == a[0] {
        CommonSubsequenceBound(c, a, b[1..]);
      } else {
        CommonSubsequenceBound(c, a[1..], b);
      }
    }
  }

  /** The kept lines of any conversion are a common subsequence, and determine its cost. */
  lemma {:induction false} ConversionShape(s: seq<string>, a: seq<string>, b: seq<string>)
    requires Converts(s, a, b)
    ensures IsSubsequence(Kept(s), a) && IsSubsequence(Kept(s), b)
    ensures Changes(s) + 2 * |Kept(s)| == |a| + |b|
    ensures |Kept(s)| <= Lcs(a, b)
    decreases |s|
  {
    if s != [] {
      var a' := if s[0][0] == '+' then a else a[1..];
      var b' := if s[0][0] == '-' then b else b[1..];
      ConversionShape(s[1..], a', b');
    }
    CommonSubsequenceBound(Kept(s), a, b);
  }

  /** The walk is a conversion that keeps as many lines as the table promises. */
  lemma {:induction false} WalkConverts(a: seq<string>, b: seq<string>)
    ensures Converts(Walk(a, b), a, b)
    ensures |Kept(Walk(a, b))| == Lcs(a, b)
    decreases |a| + |b|
  {
    if a == [] && b == [] {
    } else if a != [] && b != [] && a[0] == b[0] {
      WalkConverts(a[1..], b[1..]);
      assert Walk(a, b)[1..] == Walk(a[1..], b[1..]);
    } else if a != [] && (b == [] || Lcs(a[1..], b) >= Lcs(a, b[1..])) {
      WalkConverts(a[1..], b);
      assert Walk(a, b)[1..] == Walk(a[1..], b);
    } else {
      WalkConverts(a, b[1..]);
      assert Walk(a, b)[1..] == Walk(a, b[1..]);
    }
  }

  /** Optimality against every script, not only those the walk could have produced. */
  lemma WalkIsOptimal(a: seq<string>, b: seq<string>)
    ensures Converts(Walk(a, b), a, b)
    ensures IsLongestCommon(Kept(Walk(a, b)), a, b)
    ensures forall s :: Converts(s, a, b) ==> Changes(Walk(a, b)) <= Changes(s)
  {
    WalkConverts(a, b);
    ConversionShape(Walk(a, b), a, b);
    forall d | IsSubsequence(d, a) && IsSubsequence(d, b)
      ensures |d| <= |Kept(Walk(a, b))|
    {
      CommonSubsequenceBound(d, a, b);
    }
    forall s | Converts(s, a, b)
      ensures Changes(Walk(a, b)) <= Changes(s)
    {
      ConversionShape(s, a, b);
    }
  }

  lemma {:induction false} WalkLeastAmongLongest(s: seq<string>, a: seq<string>, b: seq<string>)
    requires Converts(s, a, b) && |Kept(s)| == Lcs(a, b)
    requires IsScript(Walk(a, b))
    ensures LexLeq(Walk(a, b), s)
    decreases |s|
  {
    if s != [] {
      var a' := if s[0][0] == '+' then a else a[1..];
      var b' := if s[0][0] == '-' then b else b[1..];
      var w := Walk(a, b);
      ConversionShape(s[1..], a', b');
      assert s[0][1..] == (if s[0][0] == '+' then b[0] else a[0]);
      if Rank(w[0]) >= Rank(s[0]) {
        assert w[0] == s[0];
        assert w[1..] == Walk(a', b');
        WalkLeastAmongLongest(s[1..], a', b');
      }
    }
  }

  /** Of all cheapest conversions the walk is the least one when keeping a line comes before
      deleting one and deleting before inserting, so the output is determined completely. */
  lemma WalkIsLeastOptimal(a: seq<string>, b: seq<string>, s: seq<string>)
    requires Converts(s, a, b)
    requires forall t :: Converts(t, a, b) ==> Changes(s) <= Changes(t)
    ensures IsScript(Walk(a, b)) && LexLeq(Walk(a, b), s)
  {
    WalkConverts(a, b);
    ConversionShape(Walk(a, b), a, b);
    ConversionShape(s, a, b);
    assert Changes(s) <= Changes(Walk(a, b));
    WalkLeastAmongLongest(s, a, b);
  }

  /** One iteration of the walk's loops, at positions i and j of the two files. */
  lemma WalkStep(a: seq<string>, b: seq<string>, i: nat, j: nat, out: seq<string>)
    requires i <= |a| && j <= |b| && (i < |a| || j < |b|)
    ensures
      var rest := Walk(a[i..], b[j..]);
      if i < |a| && j < |b| && a[i] == b[j] then
        out + rest == (out + [" " + a[i]]) + Walk(a[i + 1..], b[j + 1..])
      else if i < |a| && (j == |b| || Lcs(a[i + 1..], b[j..]) >= Lcs(a[i..], b[j + 1..])) then
        out + rest == (out + ["-" + a[i]]) + Walk(a[i + 1..], b[j..])
      else
        out + rest == (out + ["+" + b[j]]) + Walk(a[i..], b[j + 1..])
  {
    if i < |a| { assert a[i..][1..] == a[i + 1..]; }
    if j < |b| { assert b[j..][1..] == b[j + 1..]; }
  }

  method UnifiedDiff(a: seq<string>, b: seq<string>) returns (out: seq<string>)
    ensures out == Walk(a, b)
    ensures Converts(out, a, b)
    ensures IsLongestCommon(Kept(out), a, b)
    ensures forall s :: Converts(s, a, b) ==> Changes(out) <= Changes(s)
  {
    var dp := FillTable(a, b);
    out := WalkTable(a, b, dp);
    WalkIsOptimal(a, b);
  }

  method WalkTable(a: seq<string>, b: seq<string>, dp: array2<nat>) returns (out: seq<string>)
    requires dp.Length0 == |a| + 1 && dp.Length1 == |b| + 1
    requires forall i, j :: 0 <= i <= |a| && 0 <= j <= |b| ==> dp[i, j] == Lcs(a[i..], b[j..])
    ensures out == Walk(a, b)
  {
    hide Walk, Lcs;
    var n, m := |a|, |b|;
    var i, j := 0, 0;
    out := [];
    assert a[0..] == a && b[0..] == b;
    while i < n && j < m
      invariant 0 <= i <= n && 0 <= j <= m
      invariant out + Walk(a[i..], b[j..]) == Walk(a, b)
      decreases n - i + m - j
    {
      WalkStep(a, b, i, j, out);
      if a[i] == b[j] {
        out := out + [" " + a[i]];
        i, j := i + 1, j + 1;
      } else if dp[i + 1, j] >= dp[i, j + 1] {
        out := out + ["-" + a[i]];
        i := i + 1;
      } else {
        out := out + ["+" + b[j]];
        j := j + 1;
      }
    }
    while i < n
      invariant 0 <= i <= n && 0 <= j <= m && (i < n ==> j == m)
      invariant out + Walk(a[i..], b[j..]) == Walk(a, b)
    {
      WalkStep(a, b, i, j, out);
      out := out + ["-" + a[i]];
      i := i + 1;
    }
    while j < m
      invariant i == n && 0 <= j <= m
      invariant out + Walk(a[i..], b[j..]) == Walk(a, b)
    {
      WalkStep(a, b, i, j, out);
      out := out + ["+" + b[j]];
      j := j + 1;
    }
    assert a[n..] == [] && b[m..] == [];
    WalkEnds();
  }

  lemma WalkEnds()
    ensures Walk([], []) == []
  {
  }

  /** How a cell follows from its neighbours below and to the right. */
  lemma CellStep(a: seq<string>, b: seq<string>, i: nat, j: nat)
    requires i <= |a| && j <= |b|
    ensures i == |a| || j == |b| ==> Lcs(a[i..], b[j..]) == 0
    ensures i < |a| && j < |b| ==>
              var down, right := Lcs(a[i + 1..], b[j..]), Lcs(a[i..], b[j + 1..]);
              Lcs(a[i..], b[j..]) == if a[i] == b[j] then 1 + Lcs(a[i + 1..], b[j + 1..])
                                     else if down >= right then down else right
  {
    if i < |a| { assert a[i..][1..] == a[i + 1..]; }
    if j < |b| { assert b[j..][1..] == b[j + 1..]; }
  }

  method FillTable(a: seq<string>, b: seq<string>) returns (dp: array2<nat>)
    ensures fresh(dp) && dp.Length0 == |a| + 1 && dp.Length1 == |b| + 1
    ensures forall i, j :: 0 <= i <= |a| && 0 <= j <= |b| ==> dp[i, j] == Lcs(a[i..], b[j..])
  {
    hide Lcs;
    var n, m := |a|, |b|;
    dp := new nat[n + 1, m + 1]((_, _) => 0);
    forall q | 0 <= q <= m ensures Lcs(a[n..], b[q..]) == 0 { CellStep(a, b, n, q); }
    var i := n - 1;
    while i >= 0
      invariant -1 <= i <= n - 1
      invariant forall p, q :: i < p <= n && 0 <= q <= m ==> dp[p, q] == Lcs(a[p..], b[q..])
      invariant forall p, q :: 0 <= p <= i && 0 <= q <= m ==> dp[p, q] == 0
    {
      CellStep(a, b, i, m);
      var j := m - 1;
      while j >= 0
        invariant -1 <= j <= m - 1
        invariant forall p, q :: i < p <= n && 0 <= q <= m ==> dp[p, q] == Lcs(a[p..], b[q..])
        invariant forall q :: j < q <= m ==> dp[i, q] == Lcs(a[i..], b[q..])
        invariant forall p, q :: 0 <= p < i && 0 <= q <= m ==> dp[p, q] == 0
      {
        CellStep(a, b, i, j);
        if a[i] == b[j] {
          dp[i, j] := dp[i + 1, j + 1] + 1;
        } else if dp[i + 1, j] >= dp[i, j + 1] {
          dp[i, j] := dp[i + 1, j];
        } else {
          dp[i, j] := dp[i, j + 1];
        }
        j := j - 1;
      }
      i := i - 1;
    }
  }
}
