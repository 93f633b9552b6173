/** Upstream pools: a health map of their own, and the balancer they report to. */
module Pools {
  import opened Targets
  import opened Rotation
  import LeastConn
  import ConsistentHash
  import Adaptive

  datatype Algorithm = InTurn | ByWeight | ByConnections | ByHash | ByLatency | Adapting

  datatype Strategy =
    | Turns(rr: RoundRobin)
    | Weights(wrr: WeightedRoundRobin)
    | Connections(leastConn: LeastConn.Balancer)
    | Hashes(ring: ConsistentHash.Balancer)
    | Latencies(leastLat: Adaptive.LeastLatency)
    | Mixed(adaptive: Adaptive.Balancer)

  ghost function Objects(b: Strategy): set<object> {
    match b
    case Turns(rr) => {rr}
    case Weights(wrr) => {wrr}
    case Connections(leastConn) => {leastConn}
    case Hashes(ring) => {ring}
    case Latencies(leastLat) => {leastLat}
    case Mixed(adaptive) => {adaptive, adaptive.rr, adaptive.leastConn, adaptive.leastLat}
  }

  /** The balancer's own invariant. */
  ghost predicate Sound(b: Strategy)
    reads Objects(b)
  {
    match b
    case Turns(_) => true
    case Weights(_) => true
    case Connections(leastConn) => leastConn.Valid()
    case Hashes(ring) => ring.Valid()
    case Latencies(_) => true
    case Mixed(adaptive) => adaptive.Valid()
  }

  /** Every health map in the balancer: one, or those of the three inner balancers. */
  ghost function HealthMaps(b: Strategy): (maps: seq<Health>)
    reads Objects(b)
    ensures |maps| > 0
  {
    match b
    case Turns(rr) => [rr.health]
    case Weights(wrr) => [wrr.health]
    case Connections(leastConn) => [leastConn.health]
    case Hashes(ring) => [ring.health]
    case Latencies(leastLat) => [leastLat.health]
    case Mixed(adaptive) => [adaptive.rr.health, adaptive.leastConn.health, adaptive.leastLat.health]
  }

  /** All of them hold the same flags. */
  ghost predicate Hold(b: Strategy, health: Health)
    reads Objects(b)
  {
    forall i :: 0 <= i < |HealthMaps(b)| ==> HealthMaps(b)[i] == health
  }

  method NewBalancer(algorithm: Algorithm, crc: string -> nat, targets: seq<Target>) returns (b: Strategy)
    ensures fresh(Objects(b)) && Sound(b) && Hold(b, Carried(targets, map[]))
    ensures algorithm.InTurn? <==> b.Turns?
    ensures algorithm.ByWeight? <==> b.Weights?
    ensures algorithm.ByConnections? <==> b.Connections?
    ensures algorithm.ByHash? <==> b.Hashes?
    ensures algorithm.ByLatency? <==> b.Latencies?
    ensures algorithm.Adapting? <==> b.Mixed?
  {
    match algorithm
    case InTurn =>
      var rr := new RoundRobin(targets);
      b := Turns(rr);
    case ByWeight =>
      var wrr := new WeightedRoundRobin(targets);
      b := Weights(wrr);
    case ByConnections =>
      var leastConn := new LeastConn.Balancer(targets);
      b := Connections(leastConn);
    case ByHash =>
      var ring := new ConsistentHash.Balancer(crc, targets);
      b := Hashes(ring);
    case ByLatency =>
      var leastLat := new Adaptive.LeastLatency(targets);
      b := Latencies(leastLat);
    case Adapting =>
      var adaptive := new Adaptive.Balancer(targets);
      b := Mixed(adaptive);
  }

  method ReportTo(b: Strategy, id: string, healthy: bool, latency: int, ghost health: Health)
    requires Sound(b) && Hold(b, health)
    modifies Objects(b)
    ensures Sound(b) && Hold(b, health[id := healthy])
  {
    assert HealthMaps(b)[0] == health;
    match b
    case Turns(rr) => rr.ReportHealth(id, healthy);
    case Weights(wrr) => wrr.ReportHealth(id, healthy);
    case Connections(leastConn) => leastConn.ReportHealth(id, healthy);
    case Hashes(ring) => ring.ReportHealth(id, healthy);
    case Latencies(leastLat) => leastLat.ReportHealth(id, healthy, latency);
    case Mixed(adaptive) => adaptive.ReportHealth(id, healthy, latency);
  }

  method UpdateBalancer(b: Strategy, targets: seq<Target>, ghost health: Health)
    requires Sound(b) && Hold(b, health)
    modifies Objects(b)
    ensures Sound(b) && Hold(b, Carried(targets, health))
  {
    hide Carried;
    assert HealthMaps(b)[0] == health;
    match b
    case Turns(rr) => rr.UpdateTargets(targets);
    case Weights(wrr) => wrr.UpdateTargets(targets);
    case Connections(leastConn) => leastConn.UpdateTargets(targets);
    case Hashes(ring) => ring.UpdateTargets(targets);
    case Latencies(leastLat) => leastLat.UpdateTargets(targets);
    case Mixed(adaptive) => adaptive.UpdateTargets(targets);
  }

  class UpstreamPool {
    const balancer: Strategy
    var targets: seq<Target>
    var health: Health

    ghost function Repr(): set<object> {
      {this} + Objects(balancer)
    }

    /** Every map of the balancer is the pool's own. */
    ghost predicate Valid()
      reads Repr()
    {
      this !in Objects(balancer) && Sound(balancer) && Hold(balancer, health)
    }

    constructor (algorithm: Algorithm, crc: string -> nat, targets: seq<Target>)
      ensures Valid() && fresh(Repr())
      ensures this.targets == targets && health == Carried(targets, map[])
    {
      this.targets := targets;
      var b := NewBalancer(algorithm, crc, targets);
      balancer := b;
      var all: Health := map[];
      for i := 0 to |targets|
        invariant all == Carried(targets[..i], map[])
      {
        assert targets[..i + 1][..i] == targets[..i];
        all := all[Key(targets[i]) := true];
      }
      assert targets[..|targets|] == targets;
      health := all;
    }

    method ReportHealth(targetID: string, healthy: bool, latency: int)
      requires Valid()
      modifies Repr()
      ensures Valid() && targets == old(targets) && health == old(health)[targetID := healthy]
    {
      ghost var before := health;
      health := health[targetID := healthy];
      ReportTo(balancer, targetID, healthy, latency, before);
    }

    method UpdateTargets(targets: seq<Target>)
      requires Valid()
      modifies Repr()
      ensures Valid() && this.targets == targets && health == Carried(targets, old(health))
    {
      hide Key, Sound, Hold;
      ghost var before, carried := health, Carried(targets, health);
      this.targets := targets;
      UpdateBalancer(balancer, targets, before);
      var newHealth: Health := map[];
      for i := 0 to |targets|
        invariant this.targets == targets && health == before
        invariant newHealth == Carried(targets[..i], before)
        invariant Sound(balancer) && Hold(balancer, carried)
      {
        assert targets[..i + 1][..i] == targets[..i];
        var key := Key(targets[i]);
        var healthy := if key in health then health[key] else true;
        newHealth := newHealth[key := healthy];
        CarriedLookup(targets, before, key);
        ReportTo(balancer, key, healthy, 0, carried);
        assert carried[key := healthy] == carried;
      }
      assert targets[..|targets|] == targets;
      health := newHealth;
    }
  }
}
