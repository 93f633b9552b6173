/** The two rotating balancers: an atomic cursor taken modulo the list of healthy targets, in the
    weighted one after every target has been repeated by its weight. */
module Rotation {
  import opened Basics
  import opened Targets
  import opened Cycle
  import opened Occurrences

  const MAX_WEIGHT := 1000
  /** Above this the cursor's conversion to a signed integer turns negative. */
  const CURSOR_LIMIT: nat := 0x8000_0000_0000_0000

  function ClampedWeight(t: Target): (w: nat)
    ensures 1 <= t.weight <= 1000 ==> w == t.weight
    ensures t.weight < 1 ==> w == 1
    ensures t.weight > 1000 ==> w == 1000
  {
    var weight := if t.weight <= 0 then 1 else t.weight;
    if weight > MAX_WEIGHT then MAX_WEIGHT else weight
  }

  function Repeat(t: Target, n: nat): seq<Target> {
    seq(n, _ => t)
  }

  function Expanded(targets: seq<Target>, health: Health): seq<Target> {
    if targets == [] then []
    else if Up(health, Key(targets[0])) then
      Repeat(targets[0], ClampedWeight(targets[0])) + Expanded(targets[1..], health)
    else Expanded(targets[1..], health)
  }

  /** The selections of n consecutive calls whose first one reads the cursor at c. */
  function Picks(pool: seq<Target>, c: nat, n: nat): (picks: seq<Target>)
    requires pool != []
    ensures |picks| == n
  {
    if n == 0 then [] else Picks(pool, c, n - 1) + [pool[Wrap(c + n - 1, |pool|)]]
  }

  lemma {:induction false} PicksSplit(pool: seq<Target>, c: nat, m: nat, n: nat)
    requires pool != []
    ensures Picks(pool, c, m + n) == Picks(pool, c, m) + Picks(pool, c + m, n)
  {
    if n > 0 {
      PicksSplit(pool, c, m, n - 1);
      assert m + n - 1 == m + (n - 1);
    }
  }

  lemma {:induction false} FirstRotation(pool: seq<Target>, n: nat)
    requires pool != [] && n <= |pool|
    ensures Picks(pool, 0, n) == pool[..n]
  {
    if n > 0 {
      FirstRotation(pool, n - 1);
      assert pool[..n] == pool[..n - 1] + [pool[n - 1]];
    }
  }

  /** One full rotation selects every element of the pool, wherever the cursor starts. */
  lemma {:induction false} FullRotation(pool: seq<Target>, c: nat, t: Target)
    requires pool != []
    ensures Occurs(Picks(pool, c, |pool|), t) == Occurs(pool, t)
  {
    var n := |pool|;
    if c == 0 {
      FirstRotation(pool, n);
      assert pool[..n] == pool;
    } else {
      var x := pool[Wrap(c - 1, n)];
      FullRotation(pool, c - 1, t);
      PicksSplit(pool, c - 1, 1, n - 1);
      PicksSplit(pool, c, n - 1, 1);
      OnePick(pool, c - 1);
      OnePick(pool, c + (n - 1));
      OccursConcat([x], Picks(pool, c, n - 1), t);
      OccursConcat(Picks(pool, c, n - 1), [x], t);
    }
  }

  lemma OnePick(pool: seq<Target>, c: nat)
    requires pool != []
    ensures Picks(pool, c, 1) == [pool[Wrap(c, |pool|)]]
  {
    assert Picks(pool, c, 0) == [];
  }

  lemma {:induction false} ManyRotations(pool: seq<Target>, c: nat, q: nat, t: Target)
    requires pool != []
    ensures Occurs(Picks(pool, c, Times(q, |pool|)), t) == Times(q, Occurs(pool, t))
  {
    if q > 0 {
      var m := Times(q - 1, |pool|);
      ManyRotations(pool, c, q - 1, t);
      PicksSplit(pool, c, m, |pool|);
      OccursConcat(Picks(pool, c, m), Picks(pool, c + m, |pool|), t);
      FullRotation(pool, c + m, t);
    }
  }

  lemma {:induction false} RepeatCount(t: Target, n: nat, u: Target)
    ensures Occurs(Repeat(t, n), u) == if u == t then n else 0
  {
    if n > 0 {
      RepeatCount(t, n - 1, u);
      assert Repeat(t, n)[1..] == Repeat(t, n - 1);
    }
  }

  /** How often a target occurs in the expanded pool. */
  lemma {:induction false} ExpandedCount(targets: seq<Target>, health: Health, t: Target)
    ensures Occurs(Expanded(targets, health), t)
         == if Up(health, Key(t)) then Times(Occurs(targets, t), ClampedWeight(t)) else 0
  {
    if targets != [] {
      var head, rest := targets[0], targets[1..];
      ExpandedCount(rest, health, t);
      if Up(health, Key(head)) {
        var own := Repeat(head, ClampedWeight(head));
        RepeatCount(head, ClampedWeight(head), t);
        OccursConcat(own, Expanded(rest, health), t);
      }
    }
  }

  lemma WindowShare(pool: seq<Target>, c: nat, q: nat, rest: nat, t: Target)
    requires rest < |pool|
    ensures var chosen, share := Occurs(Picks(pool, c, Times(q, |pool|) + rest), t), Occurs(pool, t);
            && Times(q, share) <= chosen <= Times(q, share) + share
            && (rest == 0 ==> chosen == Times(q, share))
  {
    var whole := Times(q, |pool|);
    var mid, tail := Picks(pool, c + whole, rest), Picks(pool, c + whole + rest, |pool| - rest);
    ManyRotations(pool, c, q, t);
    PicksSplit(pool, c, whole, rest);
    OccursConcat(Picks(pool, c, whole), mid, t);
    PicksSplit(pool, c + whole, rest, |pool| - rest);
    OccursConcat(mid, tail, t);
    FullRotation(pool, c + whole, t);
  }

  /** The selections a target is due per rotation: its clamped weight for each time it is listed. */
  function Share(targets: seq<Target>, health: Health, t: Target): nat {
    if Up(health, Key(t)) then Occurs(targets, t) * ClampedWeight(t) else 0
  }

  lemma ExpandedShare(targets: seq<Target>, health: Health, t: Target)
    ensures Occurs(Expanded(targets, health), t) == Share(targets, health, t)
  {
    ExpandedCount(targets, health, t);
    TimesIsProduct(Occurs(targets, t), ClampedWeight(t));
  }

  lemma WindowFairness(pool: seq<Target>, c: nat, n: nat, t: Target, share: nat)
    requires pool != [] && Occurs(pool, t) == share
    ensures var q, chosen := n / |pool|, Occurs(Picks(pool, c, n), t);
            && q * share <= chosen <= q * share + share
            && (n % |pool| == 0 ==> chosen == q * share)
  {
    var size := |pool|;
    var q, rest := n / size, n % size;
    DivisionLaw(n, size);
    TimesIsProduct(q, size);
    WindowShare(pool, c, q, rest, t);
    TimesIsProduct(q, share);
  }

  /** In any window of n calls, wherever the cursor starts, a target gets its share once per whole
      rotation, and at most once more when the window ends inside a rotation. */
  lemma WeightedFairness(targets: seq<Target>, health: Health, c: nat, n: nat, t: Target)
    requires Expanded(targets, health) != []
    ensures var pool, share := Expanded(targets, health), Share(targets, health, t);
            var q, chosen := n / |pool|, Occurs(Picks(pool, c, n), t);
            && q * share <= chosen <= q * share + share
            && (n % |pool| == 0 ==> chosen == q * share)
  {
    ExpandedShare(targets, health, t);
    WindowFairness(Expanded(targets, health), c, n, t, Share(targets, health, t));
  }

  /** Plain round robin is the weighted one with every weight at most one. */
  lemma {:induction false} RoundRobinIsAllOnes(targets: seq<Target>, health: Health)
    requires forall t :: t in targets ==> t.weight <= 1
    ensures Expanded(targets, health) == HealthyTargets(targets, health)
  {
    if targets != [] {
      RoundRobinIsAllOnes(targets[1..], health);
      assert targets[0] in targets;
      assert Repeat(targets[0], 1) == [targets[0]];
    }
  }

  class WeightedRoundRobin {
    var targets: seq<Target>
    var health: Health
    var counter: nat

    constructor (targets: seq<Target>)
      ensures this.targets == targets && health == Carried(targets, map[]) && counter == 0
    {
      this.targets, health, counter := [], map[], 0;
      new;
      UpdateTargets(targets);
    }

    method Next() returns (r: Option<Target>)
      requires counter < CURSOR_LIMIT
      modifies this`counter
      ensures var pool := Expanded(targets, health);
              if pool == [] then r == None && counter == old(counter)
              else r == Some(pool[Wrap(old(counter), |pool|)]) && counter == old(counter) + 1
    {
      var expanded := ExpandedHealthyTargets();
      if |expanded| == 0 { return None; }
      counter := counter + 1;
      var idx := Slot(counter - 1, |expanded|);
      r := Some(expanded[idx]);
    }

    method UpdateTargets(targets: seq<Target>)
      modifies this`targets, this`health
      ensures this.targets == targets && health == Carried(targets, old(health))
    {
      this.targets := targets;
      health := CarryHealth(targets, health);
    }

    method ReportHealth(targetID: string, healthy: bool)
      modifies this`health
      ensures health == old(health)[targetID := healthy]
    {
      health := health[targetID := healthy];
    }

    method ExpandedHealthyTargets() returns (expanded: seq<Target>)
      ensures expanded == Expanded(targets, health)
    {
      expanded := [];
      for i := 0 to |targets|
        invariant expanded + Expanded(targets[i..], health) == Expanded(targets, health)
      {
        var t := targets[i];
        assert targets[i..][1..] == targets[i + 1..];
        if !(Key(t) in health && !health[Key(t)]) {
          var weight := if t.weight <= 0 then 1 else t.weight;
          if weight > MAX_WEIGHT { weight := MAX_WEIGHT; }
          ghost var before := expanded;
          for j := 0 to weight
            invariant expanded == before + Repeat(t, j)
          {
            expanded := expanded + [t];
          }
        }
      }
    }

    /** Consecutive calls with an unchanged healthy set: any window that is a whole number of
        rotations selects every healthy target in proportion to its weight. */
    method Window(n: nat) returns (picks: seq<Target>)
      requires counter + n <= CURSOR_LIMIT
      requires Expanded(targets, health) != []
      modifies this`counter
      ensures picks == Picks(Expanded(targets, health), old(counter), n) && counter == old(counter) + n
      ensures n % |Expanded(targets, health)| == 0 ==>
                forall t :: Occurs(picks, t) == n / |Expanded(targets, health)| * Share(targets, health, t)
    {
      picks := [];
      for i := 0 to n
        invariant counter == old(counter) + i
        invariant picks == Picks(Expanded(targets, health), old(counter), i)
      {
        var r := Next();
        picks := picks + [r.value];
      }
      forall t
        ensures n % |Expanded(targets, health)| == 0 ==>
          Occurs(picks, t) == n / |Expanded(targets, health)| * Share(targets, health, t)
      {
        WeightedFairness(targets, health, old(counter), n, t);
      }
    }
  }

  class RoundRobin {
    var targets: seq<Target>
    var health: Health
    var counter: nat

    constructor (targets: seq<Target>)
      ensures this.targets == targets && health == Carried(targets, map[]) && counter == 0
    {
      this.targets, health, counter := [], map[], 0;
      new;
      UpdateTargets(targets);
    }

    method Next() returns (r: Option<Target>)
      requires counter < CURSOR_LIMIT
      modifies this`counter
      ensures var pool := HealthyTargets(targets, health);
              if pool == [] then r == None && counter == old(counter)
              else r == Some(pool[Wrap(old(counter), |pool|)]) && counter == old(counter) + 1
    {
      var healthy := FilterHealthy(targets, health);
      if |healthy| == 0 { return None; }
      counter := counter + 1;
      var idx := Slot(counter - 1, |healthy|);
      r := Some(healthy[idx]);
    }

    method UpdateTargets(targets: seq<Target>)
      modifies this`targets, this`health
      ensures this.targets == targets && health == Carried(targets, old(health))
    {
      this.targets := targets;
      health := CarryHealth(targets, health);
    }

    method ReportHealth(targetID: string, healthy: bool)
      modifies this`health
      ensures health == old(health)[targetID := healthy]
    {
      health := health[targetID := healthy];
    }
  }
}
