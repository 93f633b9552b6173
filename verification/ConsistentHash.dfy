/** The consistent-hash balancer: a sorted ring of virtual nodes, searched by bisection and then
    walked past unhealthy targets. The checksum is an arbitrary function. */
module ConsistentHash {
  import opened Text
  import opened Basics
  import opened Cycle
  import opened Targets

  const DEFAULT_REPLICAS: int := 120

  datatype Entry = Entry(hash: nat, target: Target)

  type Ring = seq<Entry>

  ghost predicate Sorted(ring: Ring) {
    forall i, j :: 0 <= i < j < |ring| ==> ring[i].hash <= ring[j].hash
  }

  /** The virtual nodes of one target, from replica `from` on. */
  function Replicas(crc: string -> nat, t: Target, from: nat, replicas: nat): Ring
    requires from <= replicas
    decreases replicas - from
  {
    if from == replicas then []
    else [Entry(crc(Key(t) + "#" + Itoa(from)), t)] + Replicas(crc, t, from + 1, replicas)
  }

  /** All virtual nodes, before sorting. */
  function Tokens(crc: string -> nat, targets: seq<Target>, replicas: nat): Ring {
    if targets == [] then [] else Replicas(crc, targets[0], 0, replicas) + Tokens(crc, targets[1..], replicas)
  }

  /** Any result the unstable sort may leave. */
  ghost predicate IsRing(ring: Ring, tokens: Ring) {
    Sorted(ring) && multiset(ring) == multiset(tokens)
  }

  function FirstAtOrAfter(ring: Ring, hash: nat): (i: nat)
    ensures i <= |ring|
  {
    if ring == [] || ring[0].hash >= hash then 0 else 1 + FirstAtOrAfter(ring[1..], hash)
  }

  /** The textbook lookup: the first node clockwise from the hash. */
  function Owner(ring: Ring, hash: nat): Option<Target> {
    if ring == [] then None
    else
      var i := FirstAtOrAfter(ring, hash);
      Some(ring[if i < |ring| then i else 0].target)
  }

  function UpOnly(ring: Ring, health: Health): Ring {
    if ring == [] then []
    else if Up(health, Key(ring[0].target)) then [ring[0]] + UpOnly(ring[1..], health)
    else UpOnly(ring[1..], health)
  }

  function RoutingKey(clientIP: string, path: string): string {
    if clientIP != "" then clientIP
    else if Trim(path) != "" then Trim(path)
    else "default"
  }

  lemma {:induction false} FirstAtOrAfterIs(ring: Ring, hash: nat, i: nat)
    requires i <= |ring|
    requires forall k :: 0 <= k < i ==> ring[k].hash < hash
    requires i < |ring| ==> ring[i].hash >= hash
    ensures FirstAtOrAfter(ring, hash) == i
  {
    if i > 0 {
      forall k | 0 <= k < i - 1
        ensures ring[1..][k].hash < hash
      {
        assert ring[1..][k] == ring[k + 1];
      }
      FirstAtOrAfterIs(ring[1..], hash, i - 1);
    }
  }

  lemma {:induction false} FirstAtOrAfterSplits(ring: Ring, hash: nat)
    requires Sorted(ring)
    ensures var i := FirstAtOrAfter(ring, hash);
            && (forall k :: 0 <= k < i ==> ring[k].hash < hash)
            && (forall k :: i <= k < |ring| ==> ring[k].hash >= hash)
  {
    if ring != [] && ring[0].hash < hash {
      FirstAtOrAfterSplits(ring[1..], hash);
      assert forall k :: 1 <= k < |ring| ==> ring[k] == ring[1..][k - 1];
    }
  }

  lemma {:induction false} UpOnlyConcat(r: Ring, s: Ring, health: Health)
    ensures UpOnly(r + s, health) == UpOnly(r, health) + UpOnly(s, health)
  {
    if r == [] {
      assert r + s == s;
    } else {
      assert (r + s)[1..] == r[1..] + s;
      UpOnlyConcat(r[1..], s, health);
    }
  }

  lemma {:induction false} UpOnlyCounts(ring: Ring, health: Health, e: Entry)
    ensures multiset(UpOnly(ring, health))[e] == if Up(health, Key(e.target)) then multiset(ring)[e] else 0
  {
    if ring != [] {
      UpOnlyCounts(ring[1..], health, e);
      assert ring == [ring[0]] + ring[1..];
    }
  }

  lemma {:induction false} UpOnlyMember(ring: Ring, health: Health, e: Entry)
    ensures e in UpOnly(ring, health) <==> e in ring && Up(health, Key(e.target))
  {
    UpOnlyCounts(ring, health, e);
    assert e in UpOnly(ring, health) <==> e in multiset(UpOnly(ring, health));
    assert e in ring <==> e in multiset(ring);
  }

  lemma {:induction false} UpOnlySorted(ring: Ring, health: Health)
    requires Sorted(ring)
    ensures Sorted(UpOnly(ring, health))
  {
    if ring != [] {
      var rest := UpOnly(ring[1..], health);
      UpOnlySorted(ring[1..], health);
      forall j | 0 <= j < |rest|
        ensures ring[0].hash <= rest[j].hash
      {
        UpOnlyMember(ring[1..], health, rest[j]);
        var k :| 0 <= k < |ring[1..]| && ring[1..][k] == rest[j];
        assert ring[k + 1] == rest[j];
      }
    }
  }

  function HeadTarget(ring: Ring): Option<Target> {
    if ring == [] then None else Some(ring[0].target)
  }

  /** Walking clockwise from the bisection point and skipping unhealthy nodes finds the owner on
      the ring from which the unhealthy nodes were deleted. */
  lemma OwnerIsFirstHealthyClockwise(ring: Ring, health: Health, hash: nat, i: nat)
    requires i <= |ring|
    requires forall k :: 0 <= k < i ==> ring[k].hash < hash
    requires forall k :: i <= k < |ring| ==> ring[k].hash >= hash
    ensures Owner(UpOnly(ring, health), hash) == HeadTarget(UpOnly(ring[i..] + ring[..i], health))
  {
    var low, high := UpOnly(ring[..i], health), UpOnly(ring[i..], health);
    assert ring == ring[..i] + ring[i..];
    UpOnlyConcat(ring[..i], ring[i..], health);
    UpOnlyConcat(ring[i..], ring[..i], health);
    forall k | 0 <= k < |low|
      ensures low[k].hash < hash
    {
      UpOnlyMember(ring[..i], health, low[k]);
    }
    if high != [] {
      UpOnlyMember(ring[i..], health, high[0]);
    }
    FirstAtOrAfterIs(low + high, hash, |low|);
  }

  class Balancer {
    const crc: string -> nat
    var targets: seq<Target>
    var health: Health
    var ring: Ring
    var replicas: int

    ghost predicate Valid()
      reads this
    {
      replicas > 0 && IsRing(ring, Tokens(crc, targets, replicas))
    }

    constructor (crc: string -> nat, targets: seq<Target>)
      ensures Valid() && this.crc == crc && this.targets == targets
      ensures health == Carried(targets, map[]) && replicas == 120
    {
      this.crc := crc;
      this.targets, health, ring, replicas := [], map[], [], DEFAULT_REPLICAS;
      new;
      UpdateTargets(targets);
    }

    /** A client's requests all go to the owner of its address, whatever they ask for; without an
        address the trimmed path decides, and without either a fixed key. */
    method Next(clientIP: string, path: string) returns (r: Option<Target>)
      requires Valid()
      ensures clientIP != "" ==> r == Owner(UpOnly(ring, health), crc(clientIP))
      ensures clientIP == "" && !Blank(path) ==> r == Owner(UpOnly(ring, health), crc(Trim(path)))
      ensures clientIP == "" && Blank(path) ==> r == Owner(UpOnly(ring, health), crc("default"))
    {
      BlankTrims(path);
      if |ring| == 0 { return None; }
      var hash := crc(RoutingKey(clientIP, path));
      var idx := Search(ring, hash);
      FirstAtOrAfterSplits(ring, hash);
      OwnerIsFirstHealthyClockwise(ring, health, hash, idx);
      if idx >= |ring| {
        assert ring[idx..] + ring[..idx] == ring[0..] + ring[..0];
        idx := 0;
      }
      r := FirstHealthyFrom(ring, health, idx);
    }

    method UpdateTargets(targets: seq<Target>)
      requires replicas > 0
      modifies this
      ensures Valid() && replicas == old(replicas)
      ensures this.targets == targets && health == Carried(targets, old(health))
    {
      this.targets := targets;
      health := CarryHealth(targets, health);
      RebuildRing();
    }

    method ReportHealth(targetID: string, healthy: bool)
      modifies this`health
      ensures health == old(health)[targetID := healthy]
    {
      health := health[targetID := healthy];
    }

    method RebuildRing()
      modifies this`ring, this`replicas
      ensures Valid()
      ensures replicas == if old(replicas) <= 0 then 120 else old(replicas)
    {
      if replicas <= 0 { replicas := DEFAULT_REPLICAS; }
      var tokens := BuildTokens(crc, targets, replicas);
      ring := SortByHash(tokens);
    }
  }

  lemma ClockwiseIndex(ring: Ring, idx: nat, i: nat)
    requires idx < |ring| && i < |ring|
    ensures ring[(idx + i) % |ring|] == (ring[idx..] + ring[..idx])[i]
  {
    if idx + i < |ring| {
      SmallRemainder(idx + i, |ring|);
    } else {
      NextLap(idx + i - |ring|, |ring|);
      SmallRemainder(idx + i - |ring|, |ring|);
    }
  }

  lemma UpOnlySuffix(ring: Ring, health: Health, i: nat)
    requires i < |ring|
    ensures UpOnly(ring[i..], health)
         == (if Up(health, Key(ring[i].target)) then [ring[i]] else []) + UpOnly(ring[i + 1..], health)
  {
    assert ring[i..][1..] == ring[i + 1..];
  }

  /** The skip-unhealthy walk. */
  method FirstHealthyFrom(ring: Ring, health: Health, idx: nat) returns (r: Option<Target>)
    requires idx < |ring|
    ensures r == HeadTarget(UpOnly(ring[idx..] + ring[..idx], health))
  {
    ghost var clockwise := ring[idx..] + ring[..idx];
    for i := 0 to |ring|
      invariant UpOnly(clockwise, health) == UpOnly(clockwise[i..], health)
    {
      var entry := ring[(idx + i) % |ring|];
      ClockwiseIndex(ring, idx, i);
      UpOnlySuffix(clockwise, health, i);
      var targetID := Key(entry.target);
      if !(targetID in health && !health[targetID]) {
        return Some(entry.target);
      }
    }
    r := None;
  }

  method BuildReplicas(crc: string -> nat, t: Target, replicas: nat) returns (own: Ring)
    ensures own == Replicas(crc, t, 0, replicas)
  {
    hide Key, Itoa;
    own := [];
    for j := 0 to replicas
      invariant own + Replicas(crc, t, j, replicas) == Replicas(crc, t, 0, replicas)
    {
      own := own + [Entry(crc(Key(t) + "#" + Itoa(j)), t)];
    }
  }

  lemma NextTokens(crc: string -> nat, targets: seq<Target>, replicas: nat, i: nat, tokens: Ring)
    requires i < |targets|
    ensures tokens + Tokens(crc, targets[i..], replicas)
         == (tokens + Replicas(crc, targets[i], 0, replicas)) + Tokens(crc, targets[i + 1..], replicas)
  {
    hide Replicas;
    assert targets[i..][1..] == targets[i + 1..];
  }

  method BuildTokens(crc: string -> nat, targets: seq<Target>, replicas: nat) returns (tokens: Ring)
    ensures tokens == Tokens(crc, targets, replicas)
  {
    hide Tokens, Replicas;
    tokens := [];
    assert targets[0..] == targets;
    for i := 0 to |targets|
      invariant tokens + Tokens(crc, targets[i..], replicas) == Tokens(crc, targets, replicas)
    {
      var own := BuildReplicas(crc, targets[i], replicas);
      NextTokens(crc, targets, replicas, i, tokens);
      tokens := tokens + own;
    }
    NoTokens(crc, targets[|targets|..], replicas);
  }

  lemma NoTokens(crc: string -> nat, targets: seq<Target>, replicas: nat)
    requires targets == []
    ensures Tokens(crc, targets, replicas) == []
  {
  }

  method Search(ring: Ring, hash: nat) returns (idx: nat)
    requires Sorted(ring)
    ensures idx == FirstAtOrAfter(ring, hash)
  {
    var lo, hi := 0, |ring|;
    while lo < hi
      invariant 0 <= lo <= hi <= |ring|
      invariant forall k :: 0 <= k < lo ==> ring[k].hash < hash
      invariant forall k :: hi <= k < |ring| ==> ring[k].hash >= hash
    {
      var mid := (lo + hi) / 2;
      if ring[mid].hash >= hash { hi := mid; } else { lo := mid + 1; }
    }
    FirstAtOrAfterIs(ring, hash, lo);
    idx := lo;
  }

  lemma InsertKeepsSorted(low: Ring, e: Entry, high: Ring)
    requires Sorted(low) && Sorted(high)
    requires forall i :: 0 <= i < |low| ==> low[i].hash < e.hash
    requires forall i :: 0 <= i < |high| ==> e.hash <= high[i].hash
    ensures Sorted(low + [e] + high)
  {
  }

  lemma InsertKeepsRing(ring: Ring, tokens: Ring, e: Entry, pos: nat)
    requires IsRing(ring, tokens) && pos == FirstAtOrAfter(ring, e.hash)
    ensures IsRing(ring[..pos] + [e] + ring[pos..], tokens + [e])
  {
    hide FirstAtOrAfter;
    var low, high := ring[..pos], ring[pos..];
    assert ring == low + high;
    InsertKeepsNodes(low, e, high, tokens);
    FirstAtOrAfterSplits(ring, e.hash);
    InsertKeepsSorted(low, e, high);
  }

  lemma InsertKeepsNodes(low: Ring, e: Entry, high: Ring, tokens: Ring)
    requires multiset(low + high) == multiset(tokens)
    ensures multiset(low + [e] + high) == multiset(tokens + [e])
  {
    assert multiset(low + [e] + high) == multiset(low) + multiset{e} + multiset(high);
  }

  lemma EmptyRing()
    ensures IsRing([], [])
  {
  }

  lemma RingIsSorted(ring: Ring, tokens: Ring)
    requires IsRing(ring, tokens)
    ensures Sorted(ring)
  {
  }

  method SortByHash(tokens: Ring) returns (ring: Ring)
    ensures IsRing(ring, tokens)
  {
    hide IsRing, Sorted;
    ring := [];
    EmptyRing();
    for i := 0 to |tokens|
      invariant IsRing(ring, tokens[..i])
    {
      RingIsSorted(ring, tokens[..i]);
      var pos := Search(ring, tokens[i].hash);
      InsertKeepsRing(ring, tokens[..i], tokens[i], pos);
      assert tokens[..i + 1] == tokens[..i] + [tokens[i]];
      ring := ring[..pos] + [tokens[i]] + ring[pos..];
    }
    assert tokens[..|tokens|] == tokens;
  }

  /** Replica `j` of a target. */
  function Node(crc: string -> nat, t: Target, j: nat): Entry {
    Entry(crc(Key(t) + "#" + Itoa(j)), t)
  }

  lemma {:induction false} ReplicaNodes(crc: string -> nat, t: Target, from: nat, replicas: nat, j: nat)
    requires from <= replicas
    ensures |Replicas(crc, t, from, replicas)| == replicas - from
    ensures from <= j < replicas ==> Replicas(crc, t, from, replicas)[j - from] == Node(crc, t, j)
    decreases replicas - from
  {
    hide Key, Itoa;
    if from < replicas {
      ReplicaNodes(crc, t, from + 1, replicas, j);
    }
  }

  /** Each target has its replicas 0, 1, ... side by side, before sorting. */
  lemma {:induction false} TokenNodes(crc: string -> nat, targets: seq<Target>, replicas: nat, i: nat, j: nat)
    ensures |Tokens(crc, targets, replicas)| == Times(|targets|, replicas)
    ensures i < |targets| && j < replicas ==>
              Times(i, replicas) + j < Times(|targets|, replicas)
              && Tokens(crc, targets, replicas)[Times(i, replicas) + j] == Node(crc, targets[i], j)
  {
    hide Replicas, Node;
    if targets != [] {
      ReplicaNodes(crc, targets[0], 0, replicas, j);
      TokenNodes(crc, targets[1..], replicas, if i > 0 then i - 1 else 0, j);
    }
  }

  // ----- Remapping -----

  /** Two nodes with one hash belong to one target. */
  ghost predicate NoTies(tokens: Ring) {
    forall d, e :: d in tokens && e in tokens && d.hash == e.hash ==> d.target == e.target
  }

  /** The node that Owner picks: it is on the ring, and nothing lies between the hash and it. */
  lemma OwnerIsNearest(ring: Ring, hash: nat) returns (e: Entry)
    requires Sorted(ring) && ring != []
    ensures e in ring && Owner(ring, hash) == Some(e.target)
    ensures e.hash >= hash ==> forall d :: d in ring && d.hash >= hash ==> e.hash <= d.hash
    ensures e.hash < hash ==> forall d :: d in ring ==> e.hash <= d.hash < hash
  {
    FirstAtOrAfterSplits(ring, hash);
    var i := FirstAtOrAfter(ring, hash);
    e := ring[if i < |ring| then i else 0];
  }

  /** Without ties the owner does not depend on how the sort orders equal hashes. */
  lemma RingsAgree(r: Ring, s: Ring, hash: nat)
    requires Sorted(r) && Sorted(s) && multiset(r) == multiset(s) && NoTies(r)
    ensures Owner(r, hash) == Owner(s, hash)
  {
    assert forall e :: e in r <==> e in multiset(r);
    assert forall e :: e in s <==> e in multiset(s);
    if r != [] {
      assert r[0] in s;
      var d := OwnerIsNearest(r, hash);
      var e := OwnerIsNearest(s, hash);
    } else {
      assert |multiset(s)| == 0;
    }
  }

  lemma SwapKeepsRing(r: Ring, i: nat, j: nat)
    requires Sorted(r) && i < |r| && j < |r| && r[i].hash == r[j].hash
    ensures IsRing(r[i := r[j]][j := r[i]], r)
  {
    assert multiset(r[i := r[j]][j := r[i]]) == multiset(r);
  }

  /** With a tie between two targets the owner does depend on it. */
  lemma TiesAreAmbiguous(r: Ring, i: nat, j: nat) returns (s: Ring, hash: nat)
    requires Sorted(r) && i < j < |r|
    requires r[i].hash == r[j].hash && r[i].target != r[j].target
    ensures IsRing(s, r) && hash == r[i].hash && Owner(r, hash) != Owner(s, hash)
  {
    hide FirstAtOrAfter;
    hash := r[i].hash;
    FirstAtOrAfterSplits(r, hash);
    var f := FirstAtOrAfter(r, hash);
    var other := if r[f].target != r[i].target then i else j;
    s := r[f := r[other]][other := r[f]];
    SwapKeepsRing(r, f, other);
    FirstAtOrAfterIs(s, hash, f);
  }

  /** The mapping is determined by the virtual nodes exactly when there are no ties. */
  lemma DeterminedIffNoTies(tokens: Ring, r: Ring)
    requires IsRing(r, tokens)
    ensures NoTies(tokens) <==> forall s, hash :: IsRing(s, tokens) ==> Owner(r, hash) == Owner(s, hash)
  {
    hide Owner, IsRing, Sorted;
    if NoTies(tokens) {
      forall s, hash | IsRing(s, tokens)
        ensures Owner(r, hash) == Owner(s, hash)
      {
        SameNodes(tokens, r, s);
        RingsAgree(r, s, hash);
      }
    } else {
      var d, e :| d in tokens && e in tokens && d.hash == e.hash && d.target != e.target;
      SameNodes(tokens, r, r);
      var i :| 0 <= i < |r| && r[i] == d;
      var j :| 0 <= j < |r| && r[j] == e;
      var s, hash := TiesAreAmbiguous(r, if i < j then i else j, if i < j then j else i);
      assert IsRing(s, tokens) by { SameRing(tokens, r, s); }
    }
  }

  /** Two arrangements of the same nodes arrange each other's nodes. */
  lemma SameNodes(tokens: Ring, r: Ring, s: Ring)
    requires IsRing(r, tokens) && IsRing(s, tokens)
    ensures Sorted(r) && Sorted(s) && multiset(r) == multiset(s)
    ensures (forall e :: e in r <==> e in tokens) && (NoTies(tokens) ==> NoTies(r))
  {
    assert forall e :: e in r <==> e in multiset(r);
    assert forall e :: e in tokens <==> e in multiset(tokens);
  }

  lemma SameRing(tokens: Ring, r: Ring, s: Ring)
    requires IsRing(r, tokens) && IsRing(s, r)
    ensures IsRing(s, tokens)
  {
  }

  /** Two targets listed under one key always tie, replica by replica. */
  lemma SameKeyTies(crc: string -> nat, targets: seq<Target>, replicas: nat, i: nat, j: nat)
    requires i < |targets| && j < |targets| && Key(targets[i]) == Key(targets[j]) && targets[i] != targets[j]
             && replicas > 0
    ensures !NoTies(Tokens(crc, targets, replicas))
  {
    hide Key, Itoa, Tokens;
    TokenNodes(crc, targets, replicas, i, 0);
    TokenNodes(crc, targets, replicas, j, 0);
    var d, e := Node(crc, targets[i], 0), Node(crc, targets[j], 0);
    var tokens := Tokens(crc, targets, replicas);
    assert tokens[Times(i, replicas)] == d && tokens[Times(j, replicas)] == e;
    assert d in tokens && e in tokens && d.hash == e.hash && d.target != e.target;
  }

  /** So a list with one id at two addresses leaves the owner of a routing key to the order of the
      sort: the key that is the text of their first virtual nodes. */
  lemma SameKeyIsAmbiguous(crc: string -> nat, targets: seq<Target>, replicas: nat, i: nat, j: nat, r: Ring)
      returns (s: Ring, key: string)
    requires i < |targets| && j < |targets| && Key(targets[i]) == Key(targets[j]) && targets[i] != targets[j]
             && replicas > 0
    requires IsRing(r, Tokens(crc, targets, replicas))
    ensures IsRing(s, Tokens(crc, targets, replicas)) && Owner(r, crc(key)) != Owner(s, crc(key))
  {
    hide Key, Itoa, Tokens, Owner;
    var tokens := Tokens(crc, targets, replicas);
    TokenNodes(crc, targets, replicas, i, 0);
    TokenNodes(crc, targets, replicas, j, 0);
    var d, e := Node(crc, targets[i], 0), Node(crc, targets[j], 0);
    assert tokens[Times(i, replicas)] == d && tokens[Times(j, replicas)] == e;
    assert d in multiset(tokens) && e in multiset(tokens);
    var a :| 0 <= a < |r| && r[a] == d;
    var b :| 0 <= b < |r| && r[b] == e;
    key := Key(targets[i]) + "#" + Itoa(0);
    var hash;
    s, hash := TiesAreAmbiguous(r, if a < b then a else b, if a < b then b else a);
  }

  /** Marking a target unhealthy moves exactly the keys it owned, and none of them back to it. */
  lemma MarkDownRemapsOnlyItsKeys(ring: Ring, health: Health, key: string, hash: nat)
    requires Sorted(ring)
    ensures var before := Owner(UpOnly(ring, health), hash);
            var after := Owner(UpOnly(ring, health[key := false]), hash);
            && (before.None? || Key(before.value) != key ==> after == before)
            && (after.Some? ==> Key(after.value) != key)
  {
    var down := health[key := false];
    var r, s := UpOnly(ring, health), UpOnly(ring, down);
    UpOnlySorted(ring, health);
    UpOnlySorted(ring, down);
    forall e
      ensures e in s <==> e in r && Key(e.target) != key
    {
      UpOnlyMember(ring, health, e);
      UpOnlyMember(ring, down, e);
    }
    if s != [] {
      var e := OwnerIsNearest(s, hash);
      FirstAtOrAfterSplits(r, hash);
      if Key(Owner(r, hash).value) != key {
        MarkDownKeepsOwner(ring, health, key, hash);
      }
    } else if r != [] {
      var e := OwnerIsNearest(r, hash);
      assert Key(e.target) == key;
    }
  }

  /** Deleting nodes of other targets does not change who is first clockwise. */
  lemma {:induction false} MarkDownKeepsOwner(ring: Ring, health: Health, key: string, hash: nat)
    requires Sorted(ring)
    requires var o := Owner(UpOnly(ring, health), hash); o.Some? && Key(o.value) != key
    ensures Owner(UpOnly(ring, health[key := false]), hash) == Owner(UpOnly(ring, health), hash)
  {
    var down := health[key := false];
    FirstAtOrAfterSplits(ring, hash);
    var i := FirstAtOrAfter(ring, hash);
    OwnerIsFirstHealthyClockwise(ring, health, hash, i);
    OwnerIsFirstHealthyClockwise(ring, down, hash, i);
    MarkDownKeepsHead(ring[i..] + ring[..i], health, key);
  }

  lemma {:induction false} MarkDownKeepsHead(ring: Ring, health: Health, key: string)
    requires var h := HeadTarget(UpOnly(ring, health)); h.Some? && Key(h.value) != key
    ensures HeadTarget(UpOnly(ring, health[key := false])) == HeadTarget(UpOnly(ring, health))
  {
    if !Up(health, Key(ring[0].target)) {
      MarkDownKeepsHead(ring[1..], health, key);
    }
  }

  /** Marking it healthy again restores the mapping of a health map in which it was healthy. */
  lemma {:induction false} MarkUpRestores(ring: Ring, health: Health, key: string)
    requires Up(health, key)
    ensures UpOnly(ring, health[key := false][key := true]) == UpOnly(ring, health)
  {
    if ring != [] {
      MarkUpRestores(ring[1..], health, key);
    }
  }

  function Without(targets: seq<Target>, key: string): seq<Target> {
    if targets == [] then []
    else if Key(targets[0]) == key then Without(targets[1..], key)
    else [targets[0]] + Without(targets[1..], key)
  }

  lemma {:induction false} UpOnlyReplicas(crc: string -> nat, t: Target, from: nat, replicas: nat, health: Health)
    requires from <= replicas
    ensures UpOnly(Replicas(crc, t, from, replicas), health)
            == if Up(health, Key(t)) then Replicas(crc, t, from, replicas) else []
    decreases replicas - from
  {
    if from < replicas {
      UpOnlyReplicas(crc, t, from + 1, replicas, health);
      assert Replicas(crc, t, from, replicas)[1..] == Replicas(crc, t, from + 1, replicas);
    }
  }

  lemma {:induction false} UpOnlyTokens(crc: string -> nat, targets: seq<Target>, replicas: nat, health: Health)
    ensures UpOnly(Tokens(crc, targets, replicas), health) == Tokens(crc, HealthyTargets(targets, health), replicas)
  {
    if targets != [] {
      var head := Replicas(crc, targets[0], 0, replicas);
      UpOnlyReplicas(crc, targets[0], 0, replicas, health);
      UpOnlyConcat(head, Tokens(crc, targets[1..], replicas), health);
      UpOnlyTokens(crc, targets[1..], replicas, health);
      if Up(health, Key(targets[0])) {
        assert HealthyTargets(targets, health)[1..] == HealthyTargets(targets[1..], health);
      }
    }
  }

  /** Two rings over the same healthy targets map every key alike. */
  lemma SameHealthySameOwners(crc: string -> nat, replicas: nat, t1: seq<Target>, h1: Health, r1: Ring,
                              t2: seq<Target>, h2: Health, r2: Ring, hash: nat)
    requires IsRing(r1, Tokens(crc, t1, replicas)) && IsRing(r2, Tokens(crc, t2, replicas))
    requires HealthyTargets(t1, h1) == HealthyTargets(t2, h2)
    requires NoTies(Tokens(crc, HealthyTargets(t1, h1), replicas))
    ensures Owner(UpOnly(r1, h1), hash) == Owner(UpOnly(r2, h2), hash)
  {
    var common := Tokens(crc, HealthyTargets(t1, h1), replicas);
    FilteredRing(crc, replicas, t1, h1, r1);
    FilteredRing(crc, replicas, t2, h2, r2);
    assert forall e :: e in common <==> e in multiset(common);
    assert forall e :: e in UpOnly(r1, h1) <==> e in multiset(UpOnly(r1, h1));
    RingsAgree(UpOnly(r1, h1), UpOnly(r2, h2), hash);
  }

  lemma FilteredRing(crc: string -> nat, replicas: nat, targets: seq<Target>, health: Health, ring: Ring)
    requires IsRing(ring, Tokens(crc, targets, replicas))
    ensures IsRing(UpOnly(ring, health), Tokens(crc, HealthyTargets(targets, health), replicas))
  {
    var tokens := Tokens(crc, targets, replicas);
    UpOnlySorted(ring, health);
    UpOnlyTokens(crc, targets, replicas, health);
    forall e
      ensures multiset(UpOnly(ring, health))[e] == multiset(UpOnly(tokens, health))[e]
    {
      UpOnlyCounts(ring, health, e);
      UpOnlyCounts(tokens, health, e);
    }
    assert multiset(UpOnly(ring, health)) == multiset(UpOnly(tokens, health));
  }

  lemma {:induction false} CarriedSameHealthy(targets: seq<Target>, rest: seq<Target>, health: Health)
    requires forall i :: 0 <= i < |rest| ==> HasKey(targets, Key(rest[i]))
    ensures HealthyTargets(rest, Carried(targets, health)) == HealthyTargets(rest, health)
  {
    if rest != [] {
      CarriedLookup(targets, health, Key(rest[0]));
      assert Up(Carried(targets, health), Key(rest[0])) <==> Up(health, Key(rest[0]));
      CarriedSameHealthy(targets, rest[1..], health);
    }
  }

  lemma {:induction false} HealthyWithout(targets: seq<Target>, health: Health, key: string)
    ensures HealthyTargets(Without(targets, key), health) == HealthyTargets(targets, health[key := false])
  {
    if targets != [] {
      HealthyWithout(targets[1..], health, key);
      if Key(targets[0]) != key {
        assert Without(targets, key)[1..] == Without(targets[1..], key);
      }
    }
  }

  /** Removing a target from the list is, for every key, the same as marking it unhealthy. */
  lemma RemovalIsMarkDown(crc: string -> nat, replicas: nat, targets: seq<Target>, health: Health, ring: Ring,
                          key: string, ring': Ring, hash: nat)
    requires IsRing(ring, Tokens(crc, targets, replicas)) && NoTies(Tokens(crc, targets, replicas))
    requires IsRing(ring', Tokens(crc, Without(targets, key), replicas))
    ensures Owner(UpOnly(ring', Carried(Without(targets, key), health)), hash)
         == Owner(UpOnly(ring, health[key := false]), hash)
  {
    var rest, down := Without(targets, key), health[key := false];
    forall i | 0 <= i < |rest|
      ensures HasKey(rest, Key(rest[i]))
    {
    }
    CarriedSameHealthy(rest, rest, health);
    HealthyWithout(targets, health, key);
    HealthyNoTies(crc, replicas, targets, down);
    SameHealthySameOwners(crc, replicas, rest, Carried(rest, health), ring', targets, down, ring, hash);
  }

  lemma HealthyNoTies(crc: string -> nat, replicas: nat, targets: seq<Target>, health: Health)
    requires NoTies(Tokens(crc, targets, replicas))
    ensures NoTies(Tokens(crc, HealthyTargets(targets, health), replicas))
  {
    var tokens := Tokens(crc, targets, replicas);
    UpOnlyTokens(crc, targets, replicas, health);
    forall e | e in UpOnly(tokens, health)
      ensures e in tokens
    {
      UpOnlyMember(tokens, health, e);
    }
  }

  /** Removing a target moves only the keys it owned. */
  lemma RemovalRemapsOnlyItsKeys(crc: string -> nat, replicas: nat, targets: seq<Target>, health: Health, ring: Ring,
                                 key: string, ring': Ring, hash: nat)
    requires IsRing(ring, Tokens(crc, targets, replicas)) && NoTies(Tokens(crc, targets, replicas))
    requires IsRing(ring', Tokens(crc, Without(targets, key), replicas))
    ensures var before := Owner(UpOnly(ring, health), hash);
            var after := Owner(UpOnly(ring', Carried(Without(targets, key), health)), hash);
            && (before.None? || Key(before.value) != key ==> after == before)
            && (after.Some? ==> Key(after.value) != key)
  {
    RemovalIsMarkDown(crc, replicas, targets, health, ring, key, ring', hash);
    MarkDownRemapsOnlyItsKeys(ring, health, key, hash);
  }

  /** Putting the list back forgets that the target was unhealthy: the mapping returns to what it
      is with that target healthy, hence to the old one if the target was healthy. */
  lemma ReinsertionRestores(crc: string -> nat, replicas: nat, targets: seq<Target>, health: Health, ring: Ring,
                            key: string, ring'': Ring, hash: nat)
    requires IsRing(ring, Tokens(crc, targets, replicas)) && NoTies(Tokens(crc, targets, replicas))
    requires IsRing(ring'', Tokens(crc, targets, replicas))
    ensures var restored := Owner(UpOnly(ring'', Carried(targets, Carried(Without(targets, key), health))), hash);
            && restored == Owner(UpOnly(ring, health[key := true]), hash)
            && (Up(health, key) ==> restored == Owner(UpOnly(ring, health), hash))
  {
    var rest, up := Without(targets, key), health[key := true];
    var again := Carried(rest, health);
    ReinsertedHealth(targets, targets, health, key);
    assert forall i :: 0 <= i < |targets| ==> HasKey(targets, Key(targets[i]));
    CarriedSameHealthy(targets, targets, again);
    HealthyNoTies(crc, replicas, targets, up);
    SameHealthySameOwners(crc, replicas, targets, Carried(targets, again), ring'', targets, up, ring, hash);
    if Up(health, key) {
      SameUpSameRing(ring, health, up);
    }
  }

  lemma {:induction false} SameUpSameRing(ring: Ring, health: Health, other: Health)
    requires forall k :: Up(health, k) <==> Up(other, k)
    ensures UpOnly(ring, health) == UpOnly(ring, other)
  {
    if ring != [] {
      SameUpSameRing(ring[1..], health, other);
    }
  }

  lemma {:induction false} WithoutKeys(targets: seq<Target>, key: string, k: string)
    ensures HasKey(Without(targets, key), k) <==> k != key && HasKey(targets, k)
  {
    if targets != [] {
      WithoutKeys(targets[1..], key, k);
      HasKeyCons(targets, k);
      if Key(targets[0]) != key {
        assert Without(targets, key)[1..] == Without(targets[1..], key);
        HasKeyCons(Without(targets, key), k);
      }
    }
  }

  lemma HasKeyCons(targets: seq<Target>, k: string)
    requires targets != []
    ensures HasKey(targets, k) <==> Key(targets[0]) == k || HasKey(targets[1..], k)
  {
    if HasKey(targets, k) && Key(targets[0]) != k {
      var i :| 0 <= i < |targets| && Key(targets[i]) == k;
      assert Key(targets[1..][i - 1]) == k;
    }
    if HasKey(targets[1..], k) {
      var i :| 0 <= i < |targets[1..]| && Key(targets[1..][i]) == k;
      assert Key(targets[i + 1]) == k;
    }
  }

  lemma {:induction false} ReinsertedHealth(targets: seq<Target>, rest: seq<Target>, health: Health, key: string)
    requires forall i :: 0 <= i < |rest| ==> HasKey(targets, Key(rest[i]))
    ensures HealthyTargets(rest, Carried(Without(targets, key), health)) == HealthyTargets(rest, health[key := true])
  {
    if rest != [] {
      WithoutKeys(targets, key, Key(rest[0]));
      CarriedLookup(Without(targets, key), health, Key(rest[0]));
      ReinsertedHealth(targets, rest[1..], health, key);
    }
  }
}
