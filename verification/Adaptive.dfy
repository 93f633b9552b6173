/** The latency-based balancer and the adaptive one, which drives three inner balancers. */
module Adaptive {
  import opened Basics
  import opened Targets
  import opened Cycle
  import opened Rotation
  import LeastConn

  const COUNT_LIMIT: nat := 50_000
  const MIN_SAMPLES: nat := 20
  /** 200 milliseconds, in nanoseconds. */
  const SLOW: int := 200_000_000

  type Latencies = map<string, int>

  function Mean(w: real, a: real, b: real): real {
    w * a + (1.0 - w) * b
  }

  lemma ScaledSign(w: real, x: real)
    requires 0.0 <= w
    ensures 0.0 <= x ==> 0.0 <= w * x
    ensures x <= 0.0 ==> w * x <= 0.0
  {
  }

  lemma MeanIsBetween(w: real, a: real, b: real)
    requires 0.0 <= w <= 1.0
    ensures a <= b ==> a <= Mean(w, a, b) <= b
    ensures b <= a ==> b <= Mean(w, a, b) <= a
  {
    ScaledSign(w, a - b);
    ScaledSign(1.0 - w, b - a);
    assert Mean(w, a, b) == b + w * (a - b) == a + (1.0 - w) * (b - a);
  }

  /** The exponentially weighted mean with weight w for the new observation, truncated. */
  function Smoothed(w: real, latency: int, previous: int): (updated: int)
    requires 0.0 <= w <= 1.0 && latency > 0 && previous > 0
    ensures latency <= updated <= previous || previous <= updated <= latency
    ensures updated as real <= w * latency as real + (1.0 - w) * previous as real < updated as real + 1.0
  {
    var mean := Mean(w, latency as real, previous as real);
    MeanIsBetween(w, latency as real, previous as real);
    FloorIsBetween(mean, latency, previous);
    mean.Floor
  }

  lemma FloorIsBetween(x: real, a: int, b: int)
    ensures a as real <= x <= b as real ==> a <= x.Floor <= b
    ensures b as real <= x <= a as real ==> b <= x.Floor <= a
  {
  }

  function Known(latency: Latencies, t: Target): int {
    if Key(t) in latency then latency[Key(t)] else 0
  }

  /** The targets with the least observed latency, in list order. */
  function Fastest(pool: seq<Target>, latency: Latencies): seq<Target> {
    if pool == [] then []
    else
      var t, earlier := pool[|pool| - 1], Fastest(pool[..|pool| - 1], latency);
      if Known(latency, t) <= 0 then earlier
      else if earlier == [] || Known(latency, t) < Known(latency, earlier[0]) then [t]
      else if Known(latency, t) == Known(latency, earlier[0]) then earlier + [t]
      else earlier
  }

  lemma {:induction false} FastestShareLatency(pool: seq<Target>, latency: Latencies)
    ensures var best := Fastest(pool, latency);
            forall t :: t in best ==>
              t in pool && 0 < Known(latency, t) && Known(latency, t) == Known(latency, best[0])
  {
    hide Key;
    if pool != [] {
      FastestShareLatency(pool[..|pool| - 1], latency);
    }
  }

  /** No measured target of the pool beats those selected, and those that match them are selected. */
  lemma {:induction false} FastestIsLeast(pool: seq<Target>, latency: Latencies, u: Target)
    requires u in pool && 0 < Known(latency, u)
    ensures var best := Fastest(pool, latency);
            && best != [] && Known(latency, best[0]) <= Known(latency, u)
            && (Known(latency, best[0]) == Known(latency, u) ==> u in best)
  {
    hide Key, Known;
    var n := |pool| - 1;
    FastestShareLatency(pool[..n], latency);
    if u in pool[..n] {
      FastestIsLeast(pool[..n], latency, u);
    } else {
      assert u == pool[n];
    }
  }

  /** The target has a positive measurement. */
  predicate Measured(latency: Latencies, t: Target) {
    Key(t) in latency && latency[Key(t)] > 0
  }

  /** Selected are exactly the measured targets than which no measured one is faster. */
  lemma FastestIff(pool: seq<Target>, latency: Latencies, t: Target)
    ensures t in Fastest(pool, latency) <==>
              && t in pool && Measured(latency, t)
              && forall u <- pool :: Measured(latency, u) ==> latency[Key(t)] <= latency[Key(u)]
  {
    hide Key, Fastest;
    FastestShareLatency(pool, latency);
    forall u | u in pool && Measured(latency, u)
      ensures var best := Fastest(pool, latency);
              && best != [] && Known(latency, best[0]) <= Known(latency, u)
              && (Known(latency, best[0]) == Known(latency, u) ==> u in best)
    {
      FastestIsLeast(pool, latency, u);
    }
    if t in pool && Measured(latency, t) {
      var best := Fastest(pool, latency);
      assert best[0] in best && best[0] in pool && Measured(latency, best[0]);
    }
  }

  /** The latencies after the target list is replaced: those of dropped targets are forgotten. */
  function CarriedLatency(targets: seq<Target>, latency: Latencies): Latencies {
    if targets == [] then map[]
    else
      var key, earlier := Key(targets[|targets| - 1]), CarriedLatency(targets[..|targets| - 1], latency);
      if key in latency then earlier[key := latency[key]] else earlier
  }

  /** Measurements of listed keys stay as they are, the others are forgotten. */
  lemma {:induction false} CarriedLatencyLookup(targets: seq<Target>, latency: Latencies, key: string)
    ensures key in CarriedLatency(targets, latency) <==> key in latency && HasKey(targets, key)
    ensures key in CarriedLatency(targets, latency) ==> CarriedLatency(targets, latency)[key] == latency[key]
  {
    hide Key;
    if targets != [] {
      var n := |targets| - 1;
      CarriedLatencyLookup(targets[..n], latency, key);
      if HasKey(targets, key) && Key(targets[n]) != key {
        var i :| 0 <= i < |targets| && Key(targets[i]) == key;
        assert Key(targets[..n][i]) == key;
      }
    }
  }

  lemma {:induction false} NothingCarried(targets: seq<Target>)
    ensures CarriedLatency(targets, map[]) == map[]
  {
    if targets != [] {
      NothingCarried(targets[..|targets| - 1]);
    }
  }

  class LeastLatency {
    var targets: seq<Target>
    var health: Health
    var latency: Latencies
    var counter: nat

    constructor (targets: seq<Target>)
      ensures this.targets == targets && health == Carried(targets, map[]) && latency == map[] && counter == 0
    {
      this.targets, health, latency, counter := [], map[], map[], 0;
      new;
      UpdateTargets(targets);
      NothingCarried(targets);
    }

    method Next() returns (r: Option<Target>)
      requires counter < CURSOR_LIMIT
      modifies this`counter
      ensures var pool := HealthyTargets(targets, health);
              var best := Fastest(pool, latency);
              var from := if best == [] then pool else best;
              if pool == [] then r == None && counter == old(counter)
              else r == Some(from[Wrap(old(counter), |from|)]) && counter == old(counter) + 1
    {
      hide HealthyTargets, Key, Wrap;
      var healthy := FilterHealthy(targets, health);
      if |healthy| == 0 { return None; }
      var best: seq<Target> := [];
      var bestLat, hasBest := 0, false;
      for i := 0 to |healthy|
        invariant best == Fastest(healthy[..i], latency)
        invariant hasBest == (best != []) && (hasBest ==> bestLat == Known(latency, best[0]))
      {
        assert healthy[..i + 1][..i] == healthy[..i];
        var t := healthy[i];
        if Key(t) !in latency || latency[Key(t)] <= 0 { continue; }
        var lat := latency[Key(t)];
        if !hasBest || lat < bestLat {
          hasBest, bestLat, best := true, lat, [t];
        } else if lat == bestLat {
          best := best + [t];
        }
      }
      assert healthy[..|healthy|] == healthy;
      counter := counter + 1;
      if !hasBest || |best| == 0 {
        var idx := Slot(counter - 1, |healthy|);
        return Some(healthy[idx]);
      }
      var idx := Slot(counter - 1, |best|);
      r := Some(best[idx]);
    }

    method UpdateTargets(targets: seq<Target>)
      modifies this`targets, this`health, this`latency
      ensures this.targets == targets && health == Carried(targets, old(health))
      ensures latency == CarriedLatency(targets, old(latency))
    {
      this.targets := targets;
      health := CarryHealth(targets, health);
      var newLatency: Latencies := map[];
      for i := 0 to |targets|
        invariant newLatency == CarriedLatency(targets[..i], latency)
      {
        assert targets[..i + 1][..i] == targets[..i];
        var key := Key(targets[i]);
        if key in latency { newLatency := newLatency[key := latency[key]]; }
      }
      assert targets[..|targets|] == targets;
      latency := newLatency;
    }

    method ReportHealth(targetID: string, healthy: bool, observed: int)
      modifies this`health, this`latency
      ensures health == old(health)[targetID := healthy]
      ensures observed <= 0 ==> latency == old(latency)
      ensures observed > 0 ==> latency == old(latency)[targetID :=
                if targetID in old(latency) && old(latency)[targetID] > 0
                then Smoothed(0.3, observed, old(latency)[targetID]) else observed]
    {
      health := health[targetID := healthy];
      if observed <= 0 { return; }
      if targetID !in latency || latency[targetID] <= 0 {
        latency := latency[targetID := observed];
        return;
      }
      var updated := Smoothed(0.3, observed, latency[targetID]);
      latency := latency[targetID := updated];
    }
  }

  function Tallied(total: nat, errors: nat, healthy: bool): (nat, nat) {
    var errors' := if healthy then errors else errors + 1;
    if total + 1 > COUNT_LIMIT then ((total + 1) / 2, errors' / 2) else (total + 1, errors')
  }

  datatype Mode = ByConnections | ByLatency | ByRotation

  /** The tally of a whole run of reports. */
  function TallyAll(reports: seq<bool>): (nat, nat) {
    if reports == [] then (0, 0)
    else
      var (total, errors) := TallyAll(reports[..|reports| - 1]);
      Tallied(total, errors, reports[|reports| - 1])
  }

  function Failures(reports: seq<bool>): nat {
    if reports == [] then 0 else Failures(reports[..|reports| - 1]) + if reports[|reports| - 1] then 0 else 1
  }

  /** Up to fifty thousand reports both counts are exact; with the next one both are halved, and however
      long the run, failures never exceed reports nor these fifty thousand. */
  lemma {:induction false} TalliesAre(reports: seq<bool>)
    ensures TallyAll(reports).1 <= TallyAll(reports).0 <= 50_000
    ensures |reports| <= 50_000 ==> TallyAll(reports) == (|reports|, Failures(reports))
    ensures |reports| == 50_001 ==> TallyAll(reports) == (25_000, Failures(reports) / 2)
  {
    if reports != [] {
      TalliesAre(reports[..|reports| - 1]);
    }
  }

  class Balancer {
    const rr: RoundRobin
    const leastConn: LeastConn.Balancer
    const leastLat: LeastLatency
    var errorCount: nat
    var totalCount: nat
    var latencyEWMA: int
    /** Requests handed out and not yet done, whichever inner balancer chose them. */
    ghost var inFlight: multiset<string>

    /** The three inner balancers agree on targets and health, and the connection counters never
        exceed the requests in flight. */
    ghost predicate Valid()
      reads this, rr, leastConn, leastLat
    {
      && leastConn.Valid()
      && rr.targets == leastConn.targets == leastLat.targets
      && rr.health == leastConn.health == leastLat.health
      && LeastConn.Accounted(leastConn.active, inFlight)
      && errorCount <= totalCount <= COUNT_LIMIT
    }

    constructor (targets: seq<Target>)
      ensures Valid() && fresh(rr) && fresh(leastConn) && fresh(leastLat)
      ensures rr.targets == targets && rr.health == Carried(targets, map[]) && inFlight == multiset{}
    {
      rr := new RoundRobin(targets);
      leastConn := new LeastConn.Balancer(targets);
      leastLat := new LeastLatency(targets);
      errorCount, totalCount, latencyEWMA, inFlight := 0, 0, 0, multiset{};
      new;
      LeastConn.StepKeepsAccount(map[], multiset{}, LeastConn.Replace(targets));
    }

    /** A quarter of at least twenty reports failed; or else the mean latency is 200 milliseconds. */
    method CurrentMode() returns (mode: Mode)
      ensures mode.ByConnections? <==> totalCount >= 20 && 4 * errorCount >= totalCount
      ensures mode.ByLatency? <==> !(totalCount >= 20 && 4 * errorCount >= totalCount) && latencyEWMA >= 200_000_000
    {
      if totalCount >= MIN_SAMPLES {
        var errorRate := (errorCount as real) / (totalCount as real);
        assert errorRate >= 0.25 <==> 4 * errorCount >= totalCount by {
          assert errorRate * (totalCount as real) == errorCount as real;
        }
        if errorRate >= 0.25 { return ByConnections; }
      }
      if latencyEWMA >= SLOW { return ByLatency; }
      mode := ByRotation;
    }

    /** Whichever strategy is active, a target comes back exactly when one is healthy, and then it
        is a healthy one. */
    method Next() returns (r: Option<Target>)
      requires Valid()
      requires rr.counter < CURSOR_LIMIT && leastConn.counter < CURSOR_LIMIT && leastLat.counter < CURSOR_LIMIT
      requires forall key :: key in leastConn.active ==> leastConn.active[key] < LeastConn.MAX_INT64
      modifies this`inFlight, rr`counter, leastConn`active, leastConn`counter, leastLat`counter
      ensures Valid()
      ensures r.None? <==> HealthyTargets(rr.targets, rr.health) == []
      ensures r.Some? ==> r.value in rr.targets && Up(rr.health, Key(r.value))
      ensures inFlight == old(inFlight) + if r.Some? then multiset{Key(r.value)} else multiset{}
      ensures var pool := HealthyTargets(rr.targets, rr.health);
              if totalCount >= 20 && 4 * errorCount >= totalCount then
                && rr.counter == old(rr.counter) && leastLat.counter == old(leastLat.counter)
                && (r.Some? ==> && r.value in LeastConn.Candidates(pool, old(leastConn.active))
                                && leastConn.active == LeastConn.Acquire(old(leastConn.active), Key(r.value)))
              else
                && leastConn.active == old(leastConn.active) && leastConn.counter == old(leastConn.counter)
                && (latencyEWMA >= 200_000_000 && r.Some? ==>
                      && rr.counter == old(rr.counter)
                      && (Fastest(pool, leastLat.latency) == [] || r.value in Fastest(pool, leastLat.latency)))
                && (latencyEWMA < 200_000_000 && r.Some? ==>
                      && leastLat.counter == old(leastLat.counter)
                      && r.value == pool[Wrap(old(rr.counter), |pool|)])
    {
      hide Key, HealthyTargets, Wrap, Fastest, LeastConn.Candidates;
      ghost var pool := HealthyTargets(rr.targets, rr.health);
      HealthyMembers(rr.targets, rr.health);
      var mode := CurrentMode();
      match mode {
        case ByConnections =>
          LeastConn.CandidatesShareLoad(pool, leastConn.active);
          r := leastConn.Next();
          if r.Some? {
            assert r.value in LeastConn.Candidates(pool, old(leastConn.active));
          }
        case ByLatency =>
          FastestShareLatency(pool, leastLat.latency);
          r := leastLat.Next();
        case ByRotation =>
          r := rr.Next();
      }
      if r.Some? {
        inFlight := inFlight + multiset{Key(r.value)};
      }
    }

    method UpdateTargets(targets: seq<Target>)
      requires Valid()
      modifies rr, leastConn, leastLat
      ensures Valid()
      ensures rr.targets == targets && rr.health == Carried(targets, old(rr.health))
    {
      hide Key, Carried, LeastConn.CarriedActive;
      rr.UpdateTargets(targets);
      LeastConn.StepKeepsAccount(leastConn.active, inFlight, LeastConn.Replace(targets));
      leastConn.UpdateTargets(targets);
      leastLat.UpdateTargets(targets);
    }

    /** The counters of all reports and of failed ones, halved together at the limit. */
    method Tally(healthy: bool, latency: int)
      requires errorCount <= totalCount <= COUNT_LIMIT
      modifies this`errorCount, this`totalCount, this`latencyEWMA
      ensures errorCount <= totalCount <= COUNT_LIMIT
      ensures (totalCount, errorCount) == Tallied(old(totalCount), old(errorCount), healthy)
      ensures latencyEWMA == if latency <= 0 then old(latencyEWMA)
                             else if old(latencyEWMA) <= 0 then latency
                             else Smoothed(0.25, latency, old(latencyEWMA))
    {
      hide Smoothed;
      totalCount := totalCount + 1;
      if !healthy { errorCount := errorCount + 1; }
      if latency > 0 {
        if latencyEWMA <= 0 {
          latencyEWMA := latency;
        } else {
          latencyEWMA := Smoothed(0.25, latency, latencyEWMA);
        }
      }
      if totalCount > COUNT_LIMIT {
        totalCount := totalCount / 2;
        errorCount := errorCount / 2;
      }
    }

    method ReportHealth(targetID: string, healthy: bool, latency: int)
      requires Valid()
      modifies this`errorCount, this`totalCount, this`latencyEWMA
      modifies rr`health, leastConn`health, leastLat`health, leastLat`latency
      ensures Valid()
      ensures rr.health == old(rr.health)[targetID := healthy]
      ensures (totalCount, errorCount) == Tallied(old(totalCount), old(errorCount), healthy)
      ensures latencyEWMA == if latency <= 0 then old(latencyEWMA)
                             else if old(latencyEWMA) <= 0 then latency
                             else Smoothed(0.25, latency, old(latencyEWMA))
    {
      hide Smoothed, Tallied;
      Tally(healthy, latency);
      rr.ReportHealth(targetID, healthy);
      leastConn.ReportHealth(targetID, healthy);
      leastLat.ReportHealth(targetID, healthy, latency);
    }

    method Done(targetID: string)
      requires Valid()
      modifies this`inFlight, leastConn`active
      ensures Valid() && inFlight == old(inFlight) - multiset{targetID}
      ensures leastConn.active == LeastConn.Release(old(leastConn.active), targetID)
    {
      leastConn.Done(targetID);
      LeastConn.StepKeepsAccount(old(leastConn.active), inFlight, LeastConn.Finish(targetID));
      inFlight := inFlight - multiset{targetID};
    }
  }
}
