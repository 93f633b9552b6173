/** The health checker's flags, the pools' health maps and the balancers' health maps: three layers
    that ought to hold the same flag for every target. */
module HealthLayers {
  import opened Basics
  import opened Text
  import opened Targets
  import opened Pools
  import opened Health

  type Flags = Targets.Health

  datatype UpstreamHealth = UpstreamHealth(targets: map<string, TargetHealth>, passive: PassiveConfig,
                                           passiveState: map<string, PassiveState>)
  datatype UpstreamConfig = UpstreamConfig(id: string, name: string, algorithm: Algorithm, targets: seq<Target>,
                                           active: ActiveConfig)

  function StateOf(uh: UpstreamHealth, id: string): TargetState
    requires id in uh.targets
  {
    TargetState(uh.targets[id], if id in uh.passiveState then uh.passiveState[id] else FRESH)
  }

  function WithState(uh: UpstreamHealth, id: string, s: TargetState): UpstreamHealth {
    uh.(targets := uh.targets[id := s.health], passiveState := uh.passiveState[id := s.passive])
  }

  /** An upstream's records after an event at one target; a probe leaves the passive record alone. */
  function Reported(uh: UpstreamHealth, id: string, e: Event, cfg: ActiveConfig): UpstreamHealth
    requires id in uh.targets
  {
    var s := After(StateOf(uh, id), e, cfg, uh.passive);
    if e.Probe? then uh.(targets := uh.targets[id := s.health]) else WithState(uh, id, s)
  }

  ghost predicate WellKept(uh: UpstreamHealth) {
    uh.passive.window > 0 && forall id :: id in uh.targets ==> OneStreak(uh.targets[id])
  }

  // ----- The layers as values -----

  /** The checker's records, which pool each name stands for, and each pool's health map. */
  datatype Net = Net(upstreams: map<string, UpstreamHealth>, pools: map<string, UpstreamPool>,
                     health: map<UpstreamPool, Flags>)

  /** The checker's flags and a pool's health map agree on every target of the upstream. */
  ghost predicate Agrees(uh: UpstreamHealth, health: Flags) {
    forall id :: id in uh.targets ==> id in health && health[id] == uh.targets[id].healthy
  }

  ghost predicate Covered(net: Net) {
    forall name <- net.pools :: net.pools[name] in net.health
  }

  ghost predicate Agreed(net: Net) {
    Covered(net) && forall name :: name in net.upstreams && name in net.pools ==>
        Agrees(net.upstreams[name], net.health[net.pools[name]])
  }

  predicate Watches(upstreams: map<string, UpstreamHealth>, name: string, id: string) {
    name in upstreams && id in upstreams[name].targets
  }

  /** One event at one target of an upstream. */
  datatype Call = Call(name: string, id: string, event: Event)

  /** The event turns the target's flag. */
  predicate Flips(upstreams: map<string, UpstreamHealth>, call: Call, cfg: ActiveConfig) {
    Watches(upstreams, call.name, call.id) &&
    var uh := upstreams[call.name];
    Reported(uh, call.id, call.event, cfg).targets[call.id].healthy != uh.targets[call.id].healthy
  }

  /** The records change, and a flag that turned is reported to the pool of that name. */
  function AfterCall(net: Net, call: Call, cfg: ActiveConfig): Net {
    if !Watches(net.upstreams, call.name, call.id) then net
    else
      var Call(name, id, event) := call;
      var updated := Reported(net.upstreams[name], id, event, cfg);
      Stored(net, name, id, updated, Flips(net.upstreams, call, cfg))
  }

  function Stored(net: Net, name: string, id: string, updated: UpstreamHealth, report: bool): Net {
    Net(net.upstreams[name := updated], net.pools,
        if report && name in net.pools && net.pools[name] in net.health && id in updated.targets then
          net.health[net.pools[name] := net.health[net.pools[name]][id := updated.targets[id].healthy]]
        else net.health)
  }

  /** The target keys each upstream watches. */
  ghost function Watched(upstreams: map<string, UpstreamHealth>): map<string, set<string>> {
    map name | name in upstreams :: upstreams[name].targets.Keys
  }

  /** Another upstream reports the same target key to the same pool. */
  ghost predicate SharedTarget(pools: map<string, UpstreamPool>, watched: map<string, set<string>>, name: string,
                               id: string)
  {
    && name in pools && name in watched && id in watched[name]
    && exists n :: n in watched && n != name && n in pools && pools[n] == pools[name] && id in watched[n]
  }

  ghost predicate SeparateTargets(pools: map<string, UpstreamPool>, watched: map<string, set<string>>) {
    forall name, id :: !SharedTarget(pools, watched, name, id)
  }

  lemma ReportedKeys(uh: UpstreamHealth, id: string, e: Event, cfg: ActiveConfig)
    requires id in uh.targets
    ensures var updated := Reported(uh, id, e, cfg);
            && updated.targets.Keys == uh.targets.Keys && updated.passive == uh.passive
            && updated.targets == uh.targets[id := updated.targets[id]]
  {
    hide After;
  }

  lemma ReportedIsKept(uh: UpstreamHealth, id: string, e: Event, cfg: ActiveConfig)
    requires id in uh.targets && WellKept(uh)
    ensures WellKept(Reported(uh, id, e, cfg))
  {
    ReportedKeys(uh, id, e, cfg);
    assert OneStreak(uh.targets[id]);
    assert OneStreak(Reported(uh, id, e, cfg).targets[id]);
  }

  lemma WatchedStays(net: Net, call: Call, cfg: ActiveConfig)
    ensures Watched(AfterCall(net, call, cfg).upstreams) == Watched(net.upstreams)
    ensures AfterCall(net, call, cfg).pools == net.pools
  {
    if Watches(net.upstreams, call.name, call.id) {
      hide Reported, Flips;
      ReportedKeys(net.upstreams[call.name], call.id, call.event, cfg);
    }
  }

  /** An upstream of another name agrees after a reported flip unless it shares pool and key. */
  lemma OthersAgree(uh: UpstreamHealth, id: string, health: Flags, healthy: bool)
    requires Agrees(uh, health) && id in health && health[id] != healthy
    ensures Agrees(uh, health[id := healthy]) <==> id !in uh.targets
  {
    if id in uh.targets {
      assert health[id := healthy][id] != uh.targets[id].healthy;
    }
  }

  /** A call leaves the layers agreed if and only if it turns no flag or no other upstream reports
      the key to the same pool. */
  lemma CallAgreesIff(net: Net, call: Call, cfg: ActiveConfig)
    requires Agreed(net)
    ensures Agreed(AfterCall(net, call, cfg)) <==>
              !Flips(net.upstreams, call, cfg) || !SharedTarget(net.pools, Watched(net.upstreams), call.name, call.id)
  {
    hide Reported, Agrees;
    var Call(name, id, event) := call;
    if Watches(net.upstreams, name, id) {
      var uh := net.upstreams[name];
      var updated := Reported(uh, id, event, cfg);
      ReportedKeys(uh, id, event, cfg);
      if name in net.pools {
        StoredAgreesIff(net, name, id, updated);
      } else {
        OutsiderAgrees(net, name, updated);
      }
    }
  }

  lemma OutsiderAgrees(net: Net, name: string, updated: UpstreamHealth)
    requires Agreed(net) && name !in net.pools
    ensures Agreed(Net(net.upstreams[name := updated], net.pools, net.health))
  {
    hide Agrees;
  }

  lemma OwnAgrees(uh: UpstreamHealth, updated: UpstreamHealth, id: string, health: Flags)
    requires id in uh.targets && id in updated.targets && updated.targets == uh.targets[id := updated.targets[id]]
             && Agrees(uh, health)
    ensures Agrees(updated, health[id := updated.targets[id].healthy])
    ensures updated.targets[id].healthy == uh.targets[id].healthy ==> Agrees(updated, health)
    ensures id in health && health[id] == uh.targets[id].healthy
  {
  }

  lemma StoredAgreesIff(net: Net, name: string, id: string, updated: UpstreamHealth)
    requires Agreed(net) && Watches(net.upstreams, name, id) && name in net.pools
    requires id in updated.targets && updated.targets == net.upstreams[name].targets[id := updated.targets[id]]
    ensures var flips := updated.targets[id].healthy != net.upstreams[name].targets[id].healthy;
            Agreed(Stored(net, name, id, updated, flips)) <==>
              !flips || !SharedTarget(net.pools, Watched(net.upstreams), name, id)
  {
    hide Agrees;
    var uh, pool, healthy := net.upstreams[name], net.pools[name], updated.targets[id].healthy;
    var flips := healthy != uh.targets[id].healthy;
    var health := net.health[pool];
    var after := Stored(net, name, id, updated, flips);
    OwnAgrees(uh, updated, id, health);
    if flips {
      forall n | n in net.upstreams && n in net.pools && n != name
        ensures Agrees(after.upstreams[n], after.health[after.pools[n]]) <==>
                  net.pools[n] != pool || id !in net.upstreams[n].targets
      {
        if net.pools[n] == pool {
          OthersAgree(net.upstreams[n], id, health, healthy);
        }
      }
    }
  }

  // ----- Runs of calls -----

  function RunCalls(net: Net, calls: seq<Call>, configs: string -> ActiveConfig): Net {
    if calls == [] then net
    else
      var call := calls[|calls| - 1];
      AfterCall(RunCalls(net, calls[..|calls| - 1], configs), call, configs(call.name))
  }

  /** What happened at one target of one upstream. */
  ghost function EventsAt(calls: seq<Call>, name: string, id: string): seq<Event> {
    if calls == [] then []
    else
      var earlier, call := EventsAt(calls[..|calls| - 1], name, id), calls[|calls| - 1];
      if call.name == name && call.id == id then earlier + [call.event] else earlier
  }

  /** In every run of the checker the record of each target is that of a target alone with its own
      events, so all results about one target hold of each of them. */
  lemma {:induction false} TargetsKeepApart(net: Net, calls: seq<Call>, configs: string -> ActiveConfig, name: string,
                                            id: string)
    requires Watches(net.upstreams, name, id)
    requires StateOf(net.upstreams[name], id) == Unseen(net.upstreams[name].targets[id].address)
    ensures var after, p := RunCalls(net, calls, configs).upstreams, net.upstreams[name].passive;
            && Watches(after, name, id) && after[name].passive == p
            && StateOf(after[name], id)
               == Run(EventsAt(calls, name, id), net.upstreams[name].targets[id].address, configs(name), p)
  {
    hide After;
    if calls != [] {
      var n := |calls| - 1;
      var before, call := RunCalls(net, calls[..n], configs), calls[n];
      TargetsKeepApart(net, calls[..n], configs, name, id);
      var events := EventsAt(calls[..n], name, id);
      if Watches(before.upstreams, call.name, call.id) {
        ReportedState(before.upstreams[call.name], call.id, call.event, configs(call.name), id);
      }
      if call.name == name && call.id == id {
        assert (events + [call.event])[..|events|] == events;
      }
    }
  }

  /** A target as the checker starts with it. */
  function Unseen(address: string): TargetState {
    TargetState(TargetHealth(true, 0, 0, 0, 0, address), FRESH)
  }

  lemma ReportedState(uh: UpstreamHealth, id: string, e: Event, cfg: ActiveConfig, other: string)
    requires id in uh.targets
    ensures var updated := Reported(uh, id, e, cfg);
            && id in updated.targets && StateOf(updated, id) == After(StateOf(uh, id), e, cfg, uh.passive)
            && updated.passive == uh.passive
            && (other in uh.targets && other != id ==>
                other in updated.targets && StateOf(updated, other) == StateOf(uh, other))
  {
  }

  lemma {:induction false} RunsWatchTheSame(net: Net, calls: seq<Call>, configs: string -> ActiveConfig)
    ensures var after := RunCalls(net, calls, configs);
            Watched(after.upstreams) == Watched(net.upstreams) && after.pools == net.pools
  {
    hide AfterCall, Watched;
    if calls != [] {
      var n := |calls| - 1;
      RunsWatchTheSame(net, calls[..n], configs);
      WatchedStays(RunCalls(net, calls[..n], configs), calls[n], configs(calls[n].name));
    }
  }

  lemma {:induction false} SeparateRunsAgree(net: Net, calls: seq<Call>, configs: string -> ActiveConfig)
    requires Agreed(net) && SeparateTargets(net.pools, Watched(net.upstreams))
    ensures Agreed(RunCalls(net, calls, configs))
  {
    hide AfterCall, Agreed, Watched, SharedTarget, Flips;
    if calls != [] {
      var n := |calls| - 1;
      SeparateRunsAgree(net, calls[..n], configs);
      RunsWatchTheSame(net, calls[..n], configs);
      CallAgreesIff(RunCalls(net, calls[..n], configs), calls[n], configs(calls[n].name));
    }
  }

  lemma RunSnoc(net: Net, calls: seq<Call>, call: Call, configs: string -> ActiveConfig)
    ensures RunCalls(net, calls + [call], configs) == AfterCall(RunCalls(net, calls, configs), call, configs(call.name))
  {
    hide AfterCall;
    assert (calls + [call])[..|calls|] == calls;
  }

  /** How many more probes of the opposite result turn the flag. */
  function ProbesToFlip(h: TargetHealth, cfg: ActiveConfig): int {
    if h.healthy then cfg.unhealthyThreshold - h.consecutiveFail else cfg.healthyThreshold - h.consecutiveOK
  }

  lemma OppositeProbe(net: Net, name: string, id: string, cfg: ActiveConfig)
    requires Watches(net.upstreams, name, id)
    ensures var h := net.upstreams[name].targets[id];
            var call := Call(name, id, Probe(!h.healthy, 0, 0));
            var after := AfterCall(net, call, cfg);
            && Watches(after.upstreams, name, id)
            && (Flips(net.upstreams, call, cfg) <==> ProbesToFlip(h, cfg) <= 1)
            && (!Flips(net.upstreams, call, cfg) ==>
                ProbesToFlip(after.upstreams[name].targets[id], cfg) == ProbesToFlip(h, cfg) - 1)
  {
  }

  /** A shared target is brought out of step by nothing but probes. */
  lemma {:induction false} SharedTargetBreaks(net: Net, calls: seq<Call>, configs: string -> ActiveConfig,
                                              name: string, id: string)
      returns (longer: seq<Call>)
    requires Agreed(RunCalls(net, calls, configs)) && SharedTarget(net.pools, Watched(net.upstreams), name, id)
    requires Watches(RunCalls(net, calls, configs).upstreams, name, id)
    ensures !Agreed(RunCalls(net, longer, configs))
    decreases ProbesToFlip(RunCalls(net, calls, configs).upstreams[name].targets[id], configs(name))
  {
    hide AfterCall, Agreed, Watched, SharedTarget, Flips, RunCalls;
    var now, cfg := RunCalls(net, calls, configs), configs(name);
    var call := Call(name, id, Probe(!now.upstreams[name].targets[id].healthy, 0, 0));
    RunsWatchTheSame(net, calls, configs);
    CallAgreesIff(now, call, cfg);
    OppositeProbe(now, name, id, cfg);
    RunSnoc(net, calls, call, configs);
    longer := calls + [call];
    if !Flips(now.upstreams, call, cfg) {
      longer := SharedTargetBreaks(net, longer, configs, name, id);
    }
  }

  /** Every run of calls keeps the layers agreed if and only if no two upstreams report one target
      key to one pool. */
  lemma RunsAgreeIffSeparate(net: Net, configs: string -> ActiveConfig)
    requires Agreed(net)
    ensures (forall calls :: Agreed(RunCalls(net, calls, configs)))
            <==> SeparateTargets(net.pools, Watched(net.upstreams))
  {
    hide AfterCall, Agreed, SharedTarget;
    if SeparateTargets(net.pools, Watched(net.upstreams)) {
      forall calls
        ensures Agreed(RunCalls(net, calls, configs))
      {
        SeparateRunsAgree(net, calls, configs);
      }
    } else {
      var name, id :| SharedTarget(net.pools, Watched(net.upstreams), name, id);
      assert RunCalls(net, [], configs) == net;
      SharedIsWatched(net, name, id);
      var calls := SharedTargetBreaks(net, [], configs, name, id);
    }
  }

  lemma SharedIsWatched(net: Net, name: string, id: string)
    requires SharedTarget(net.pools, Watched(net.upstreams), name, id)
    ensures Watches(net.upstreams, name, id)
  {
  }

  // ----- The checker -----

  /** Different pools have different balancers. */
  ghost predicate Apart(pools: map<string, UpstreamPool>) {
    forall n, m :: n in pools && m in pools && pools[n] != pools[m] ==> pools[n].Repr() !! pools[m].Repr()
  }

  /** Each pool agrees with its own balancer, and all of them live in `region`. */
  ghost predicate PoolsKept(pools: map<string, UpstreamPool>, region: set<object>)
    reads region
  {
    Apart(pools) && forall name <- pools :: pools[name].Repr() <= region && pools[name].Valid()
  }

  ghost function HealthNow(pools: map<string, UpstreamPool>): map<UpstreamPool, Flags>
    reads pools.Values
  {
    map pool | pool in pools.Values :: pool.health
  }

  /** A report reaches one pool with its balancer, under all the names it has, and no other. */
  method ReportToPool(pools: map<string, UpstreamPool>, name: string, id: string, healthy: bool, latency: int,
                      ghost region: set<object>)
    requires name in pools && PoolsKept(pools, region)
    modifies pools[name].Repr()
    ensures PoolsKept(pools, region)
    ensures pools[name].health == old(pools[name].health)[id := healthy]
    ensures forall n <- pools :: pools[n] != pools[name] ==> pools[n].health == old(pools[n].health)
  {
    hide Sound, Hold;
    pools[name].ReportHealth(id, healthy, latency);
    forall n | n in pools && pools[n] != pools[name]
      ensures pools[n].Valid() && pools[n].health == old(pools[n].health)
    {
      assert pools[n].Repr() !! pools[name].Repr() && pools[n] in pools[n].Repr();
      assert old(pools[n].Valid());
    }
  }

  lemma HealthIsNow(pools: map<string, UpstreamPool>, before: map<UpstreamPool, Flags>, name: string, flags: Flags)
    requires name in pools && before.Keys == pools.Values && pools[name].health == flags
    requires forall n <- pools :: pools[n] != pools[name] ==> pools[n].health == before[pools[n]]
    ensures HealthNow(pools) == before[pools[name] := flags]
  {
    forall pool | pool in pools.Values && pool != pools[name]
      ensures pool.health == before[pool]
    {
      var n :| n in pools && pools[n] == pool;
    }
  }

  function KeysOf(targets: seq<Target>): set<string> {
    set i | 0 <= i < |targets| :: Key(targets[i])
  }

  /** The keys that each configured upstream name watches; of upstreams with one name the last. */
  ghost function WatchedBy(configs: seq<UpstreamConfig>): map<string, set<string>> {
    if configs == [] then map[]
    else WatchedBy(configs[..|configs| - 1])[configs[|configs| - 1].name := KeysOf(configs[|configs| - 1].targets)]
  }

  ghost predicate AllUp(uh: UpstreamHealth) {
    WellKept(uh) && forall id <- uh.targets :: StateOf(uh, id) == Unseen(uh.targets[id].address)
  }

  ghost predicate KnownUp(uh: UpstreamHealth, flags: Flags) {
    forall id <- uh.targets :: id in flags && flags[id]
  }

  /** No flag goes down. */
  ghost predicate StillUp(before: Flags, after: Flags) {
    forall id <- before :: before[id] ==> id in after && after[id]
  }

  lemma KnownStaysUp(uh: UpstreamHealth, before: Flags, after: Flags)
    requires KnownUp(uh, before) && StillUp(before, after)
    ensures KnownUp(uh, after)
  {
  }

  /** The inner loop of the checker's construction: one upstream, every target reported healthy. No
      flag in any pool goes down. */
  method WatchTargets(config: UpstreamConfig, pools: map<string, UpstreamPool>, ghost region: set<object>)
      returns (uh: UpstreamHealth)
    requires PoolsKept(pools, region)
    modifies region
    ensures PoolsKept(pools, region)
    ensures uh.passive == DerivePassiveConfig(config.active) && uh.targets.Keys == KeysOf(config.targets) && AllUp(uh)
    ensures config.name in pools ==> KnownUp(uh, pools[config.name].health)
    ensures forall name <- pools :: StillUp(old(pools[name].health), pools[name].health)
  {
    hide Key, DerivePassiveConfig, Apart, UpstreamPool.Valid, UpstreamPool.Repr;
    uh := UpstreamHealth(map[], DerivePassiveConfig(config.active), map[]);
    for i := 0 to |config.targets|
      invariant PoolsKept(pools, region)
      invariant uh.passive == DerivePassiveConfig(config.active) && uh.targets.Keys == KeysOf(config.targets[..i])
                && AllUp(uh)
      invariant config.name in pools ==> KnownUp(uh, pools[config.name].health)
      invariant forall name <- pools :: StillUp(old(pools[name].health), pools[name].health)
    {
      var t := config.targets[i];
      var id := Key(t);
      KeysSnoc(config.targets, i);
      uh := WithState(uh, id, TargetState(TargetHealth(true, 0, 0, 0, 0, t.address), FRESH));
      if config.name in pools {
        ReportToPool(pools, config.name, id, true, 0, region);
      }
    }
    assert config.targets[..|config.targets|] == config.targets;
  }

  method WatchAll(configs: seq<UpstreamConfig>, pools: map<string, UpstreamPool>, ghost region: set<object>)
      returns (ups: map<string, UpstreamHealth>)
    requires PoolsKept(pools, region)
    modifies region
    ensures PoolsKept(pools, region) && Watched(ups) == WatchedBy(configs)
    ensures forall name <- ups :: AllUp(ups[name]) && (name in pools ==> KnownUp(ups[name], pools[name].health))
  {
    hide KeysOf, DerivePassiveConfig, PoolsKept, AllUp, KnownUp, StillUp;
    ups := map[];
    for i := 0 to |configs|
      modifies region
      invariant PoolsKept(pools, region)
      invariant Watched(ups) == WatchedBy(configs[..i])
      invariant forall name <- ups :: AllUp(ups[name]) && (name in pools ==> KnownUp(ups[name], pools[name].health))
    {
      assert configs[..i + 1][..i] == configs[..i];
      label before:
      var uh := WatchTargets(configs[i], pools, region);
      forall name | name in ups && name in pools
        ensures KnownUp(ups[name], pools[name].health)
      {
        KnownStaysUp(ups[name], old@before(pools[name].health), pools[name].health);
      }
      ups := ups[configs[i].name := uh];
    }
    assert configs[..|configs|] == configs;
  }

  lemma KeysSnoc(targets: seq<Target>, i: nat)
    requires i < |targets|
    ensures KeysOf(targets[..i + 1]) == KeysOf(targets[..i]) + {Key(targets[i])}
  {
    hide Key;
    forall key
      ensures key in KeysOf(targets[..i + 1]) <==> key in KeysOf(targets[..i]) + {Key(targets[i])}
    {
      if key in KeysOf(targets[..i]) {
        var k :| 0 <= k < i && key == Key(targets[..i][k]);
        assert targets[..i + 1][k] == targets[..i][k];
      }
      assert targets[..i + 1][i] == targets[i];
    }
  }

  class Checker {
    var upstreams: map<string, UpstreamHealth>
    const pools: map<string, UpstreamPool>
    ghost const region: set<object>

    ghost function View(): Net
      reads this, pools.Values
    {
      Net(upstreams, pools, HealthNow(pools))
    }

    ghost predicate Kept()
      reads this, region
    {
      this !in region && PoolsKept(pools, region) && forall name <- upstreams :: WellKept(upstreams[name])
    }

    /** The checker agrees with every pool. */
    ghost predicate Valid()
      reads this, region, pools.Values
    {
      Kept() && Agreed(View())
    }

    ghost predicate Shared(name: string, id: string)
      reads this
    {
      SharedTarget(pools, Watched(upstreams), name, id)
    }

    /** No two upstreams report one target key to one pool. */
    ghost predicate Separate()
      reads this
    {
      SeparateTargets(pools, Watched(upstreams))
    }

    constructor (configs: seq<UpstreamConfig>, pools: map<string, UpstreamPool>, ghost region: set<object>)
      requires PoolsKept(pools, region)
      modifies region
      ensures Valid() && this.pools == pools && this.region == region
      ensures Watched(upstreams) == WatchedBy(configs)
      ensures forall name, id :: Watches(upstreams, name, id) ==>
                StateOf(upstreams[name], id) == Unseen(upstreams[name].targets[id].address)
    {
      hide PoolsKept, WatchedBy;
      this.pools := pools;
      this.region := region;
      var ups := WatchAll(configs, pools, region);
      upstreams := ups;
      new;
      assert View().health == HealthNow(pools);
    }

    /** Hence every health map of every balancer holds the checker's flag, for the adaptive one those
        of all three inner balancers. */
    lemma LayersAgree(name: string, id: string, i: nat)
      requires Valid() && Watches(upstreams, name, id) && name in pools && i < |HealthMaps(pools[name].balancer)|
      ensures var map' := HealthMaps(pools[name].balancer)[i];
              id in map' && map'[id] == upstreams[name].targets[id].healthy
    {
      var pool := pools[name];
      assert pool.Valid() && HealthMaps(pool.balancer)[i] == pool.health;
      assert View().health[pool] == pool.health;
      assert Agrees(upstreams[name], pool.health);
    }

    /** Stores the new record of one target and reports a changed flag to the pool. */
    method Commit(name: string, id: string, updated: UpstreamHealth, latency: int)
      requires Kept() && Watches(upstreams, name, id) && id in updated.targets && WellKept(updated)
      modifies this`upstreams, region
      ensures Kept()
      ensures View() == Stored(old(View()), name, id, updated,
                               updated.targets[id].healthy != old(upstreams)[name].targets[id].healthy)
    {
      hide WellKept, Apart, UpstreamPool.Valid, UpstreamPool.Repr;
      ghost var before := HealthNow(pools);
      var previous, healthy := upstreams[name].targets[id].healthy, updated.targets[id].healthy;
      if previous != healthy && name in pools {
        assert pools[name] in pools.Values && pools[name].Repr() <= region;
        ReportToPool(pools, name, id, healthy, latency, region);
        HealthIsNow(pools, before, name, before[pools[name]][id := healthy]);
      }
      upstreams := upstreams[name := updated];
    }

    method ApplyHealthResult(name: string, id: string, ok: bool, latency: int, now: int, cfg: ActiveConfig)
      requires Kept()
      modifies this`upstreams, region
      ensures Kept() && View() == AfterCall(old(View()), Call(name, id, Probe(ok, latency, now)), cfg)
      ensures old(Valid()) ==>
                (Valid() <==>
                   || !old(Flips(upstreams, Call(name, id, Probe(ok, latency, now)), cfg))
                   || !old(Shared(name, id)))
      ensures old(Separate()) ==> Separate() && (old(Valid()) ==> Valid())
    {
      hide Agreed, WellKept, PoolsKept, HealthNow, SharedTarget, Watched, Stored, OnError, OnSuccess;
      ghost var call := Call(name, id, Probe(ok, latency, now));
      if Agreed(View()) {
        CallAgreesIff(View(), call, cfg);
      }
      WatchedStays(View(), call, cfg);
      if name !in upstreams || id !in upstreams[name].targets { return; }
      var upstream := upstreams[name];
      var target := upstream.targets[id].(lastCheck := now, lastLatency := latency);
      if ok {
        target := target.(consecutiveOK := target.consecutiveOK + 1, consecutiveFail := 0);
        if !target.healthy && target.consecutiveOK >= cfg.healthyThreshold {
          target := target.(healthy := true);
        }
      } else {
        target := target.(consecutiveFail := target.consecutiveFail + 1, consecutiveOK := 0);
        if target.healthy && target.consecutiveFail >= cfg.unhealthyThreshold {
          target := target.(healthy := false);
        }
      }
      ReportedIsKept(upstream, id, call.event, cfg);
      Commit(name, id, upstream.(targets := upstream.targets[id := target]), latency);
    }

    method ReportError(name: string, id: string, now: int, ghost cfg: ActiveConfig)
      requires Kept()
      modifies this`upstreams, region
      ensures Kept() && View() == AfterCall(old(View()), Call(name, id, Failure(now)), cfg)
      ensures old(Valid()) ==>
                (Valid() <==> !old(Flips(upstreams, Call(name, id, Failure(now)), cfg)) || !old(Shared(name, id)))
      ensures old(Separate()) ==> Separate() && (old(Valid()) ==> Valid())
    {
      hide Agreed, PoolsKept, HealthNow, SharedTarget, Watched, Stored, OnProbe, OnSuccess, Prune;
      ghost var call := Call(name, id, Failure(now));
      if Agreed(View()) {
        CallAgreesIff(View(), call, cfg);
      }
      WatchedStays(View(), call, cfg);
      if name !in upstreams || id !in upstreams[name].targets { return; }
      var upstream := upstreams[name];
      var target := upstream.targets[id];
      var state := if id in upstream.passiveState then upstream.passiveState[id] else FRESH;
      var times := PruneOldErrors(state.errorTimes + [now], now, upstream.passive.window);
      if |times| >= upstream.passive.errorThreshold && target.healthy {
        target := target.(healthy := false, consecutiveFail := |times|, consecutiveOK := 0, lastCheck := now);
      }
      ReportedIsKept(upstream, id, call.event, cfg);
      Commit(name, id, WithState(upstream, id, TargetState(target, PassiveState(times, 0))), 0);
    }

    method ReportSuccess(name: string, id: string, now: int, ghost cfg: ActiveConfig)
      requires Kept()
      modifies this`upstreams, region
      ensures Kept() && View() == AfterCall(old(View()), Call(name, id, Success(now)), cfg)
      ensures old(Valid()) ==>
                (Valid() <==> !old(Flips(upstreams, Call(name, id, Success(now)), cfg)) || !old(Shared(name, id)))
      ensures old(Separate()) ==> Separate() && (old(Valid()) ==> Valid())
    {
      hide Agreed, PoolsKept, HealthNow, SharedTarget, Watched, Stored, OnProbe, OnError, Prune;
      ghost var call := Call(name, id, Success(now));
      if Agreed(View()) {
        CallAgreesIff(View(), call, cfg);
      }
      WatchedStays(View(), call, cfg);
      if name !in upstreams || id !in upstreams[name].targets { return; }
      var upstream := upstreams[name];
      var target := upstream.targets[id];
      var state := if id in upstream.passiveState then upstream.passiveState[id] else FRESH;
      var times := PruneOldErrors(state.errorTimes, now, upstream.passive.window);
      var n := state.consecutiveSuccess + 1;
      if !target.healthy && n >= upstream.passive.successThreshold {
        target := target.(healthy := true, consecutiveOK := n, consecutiveFail := 0, lastCheck := now);
        times := [];
      }
      ReportedIsKept(upstream, id, call.event, cfg);
      Commit(name, id, WithState(upstream, id, TargetState(target, PassiveState(times, n))), 0);
    }
  }

  // ----- How pools come to be shared -----

  predicate Files(config: UpstreamConfig, key: string) {
    Trim(key) != "" && (key == config.name || key == config.id)
  }

  /** The last upstream that is filed under a key, by its name or by its id. */
  function FiledUnder(configs: seq<UpstreamConfig>, key: string): (i: Option<nat>)
    ensures i.Some? ==> i.value < |configs|
  {
    if configs == [] then None
    else if Files(configs[|configs| - 1], key) then Some(|configs| - 1)
    else FiledUnder(configs[..|configs| - 1], key)
  }

  /** Pools that agree with their balancers and have nothing in common. */
  ghost predicate BuiltKept(built: seq<UpstreamPool>, region: set<object>)
    reads region
  {
    && (forall k :: 0 <= k < |built| ==> built[k].Repr() <= region && built[k].Valid())
    && (forall j, k :: 0 <= j < k < |built| ==> built[j].Repr() !! built[k].Repr())
  }

  ghost predicate FiledRight(pools: map<string, UpstreamPool>, configs: seq<UpstreamConfig>, built: seq<UpstreamPool>) {
    && |built| == |configs|
    && (forall key :: key in pools <==> FiledUnder(configs, key).Some?)
    && (forall key <- pools :: pools[key] == built[FiledUnder(configs, key).value])
  }

  function FiledToo(pools: map<string, UpstreamPool>, up: UpstreamConfig, pool: UpstreamPool)
    : map<string, UpstreamPool>
  {
    var named := if Trim(up.name) != "" then pools[up.name := pool] else pools;
    if Trim(up.id) != "" then named[up.id := pool] else named
  }

  lemma FilingIsRight(pools: map<string, UpstreamPool>, configs: seq<UpstreamConfig>, built: seq<UpstreamPool>,
                      up: UpstreamConfig, pool: UpstreamPool)
    requires FiledRight(pools, configs, built)
    ensures FiledRight(FiledToo(pools, up, pool), configs + [up], built + [pool])
  {
    hide Trim;
    var longer := configs + [up];
    assert longer[..|configs|] == configs;
    forall key
      ensures FiledUnder(longer, key) == if Files(up, key) then Some(|configs|) else FiledUnder(configs, key)
    {
    }
  }

  method AddPool(ghost built: seq<UpstreamPool>, ghost region: set<object>, up: UpstreamConfig, crc: string -> nat)
      returns (pool: UpstreamPool, ghost larger: set<object>)
    requires BuiltKept(built, region)
    ensures region <= larger && fresh(larger - region) && BuiltKept(built + [pool], larger)
  {
    hide Sound, Hold, Objects;
    pool := new UpstreamPool(up.algorithm, crc, up.targets);
    larger := region + pool.Repr();
  }

  lemma BuiltArePools(pools: map<string, UpstreamPool>, configs: seq<UpstreamConfig>, built: seq<UpstreamPool>,
                      region: set<object>)
    requires FiledRight(pools, configs, built) && BuiltKept(built, region)
    ensures PoolsKept(pools, region)
    ensures forall a, b :: a in pools && b in pools ==>
            (pools[a] == pools[b] <==> FiledUnder(configs, a) == FiledUnder(configs, b))
  {
    hide Sound, Hold, Objects, FiledUnder, UpstreamPool.Valid;
    forall j, k | 0 <= j < k < |built|
      ensures built[j] != built[k]
    {
      assert built[j] in built[j].Repr();
    }
  }

  /** Every upstream gets a pool; two keys have one pool exactly when one upstream was filed last
      under both. */
  method BuildUpstreamPools(configs: seq<UpstreamConfig>, crc: string -> nat)
      returns (pools: map<string, UpstreamPool>, ghost region: set<object>)
    ensures fresh(region) && PoolsKept(pools, region)
    ensures forall key :: key in pools <==> FiledUnder(configs, key).Some?
    ensures forall a, b :: a in pools && b in pools ==>
            (pools[a] == pools[b] <==> FiledUnder(configs, a) == FiledUnder(configs, b))
  {
    hide Trim, FiledUnder, BuiltKept, PoolsKept;
    pools, region := map[], {};
    ghost var built: seq<UpstreamPool> := [];
    NothingBuilt();
    for i := 0 to |configs|
      invariant fresh(region) && BuiltKept(built, region) && FiledRight(pools, configs[..i], built)
    {
      var up := configs[i];
      var pool;
      ghost var larger;
      pool, larger := AddPool(built, region, up, crc);
      FilingIsRight(pools, configs[..i], built, up, pool);
      assert configs[..i + 1] == configs[..i] + [up];
      built, region := built + [pool], larger;
      if Trim(up.name) != "" {
        pools := pools[up.name := pool];
      }
      if Trim(up.id) != "" {
        pools := pools[up.id := pool];
      }
    }
    assert configs[..|configs|] == configs;
    BuiltArePools(pools, configs, built, region);
  }

  lemma NothingBuilt()
    ensures BuiltKept([], {}) && FiledRight(map[], [], [])
  {
  }

  /** One upstream's id is another one's name, listed before it: both then report to one pool, and a
      target key of both is shared. */
  method SharedByConfiguration(first: UpstreamConfig, second: UpstreamConfig, crc: string -> nat)
      returns (checker: Checker)
    requires Trim(first.name) != "" && Trim(second.name) != "" && second.id == first.name && second.name != first.name
    requires KeysOf(first.targets) * KeysOf(second.targets) != {}
    ensures checker.Valid() && !checker.Separate()
  {
    hide Trim, KeysOf, PoolsKept, Agreed, WellKept;
    var configs := [first, second];
    var pools;
    ghost var region;
    pools, region := BuildUpstreamPools(configs, crc);
    checker := new Checker(configs, pools, region);
    assert configs[..1] == [first] && [first][..0] == [];
    var id :| id in KeysOf(first.targets) * KeysOf(second.targets);
    assert WatchedBy([first]) == map[first.name := KeysOf(first.targets)] by {
      assert WatchedBy([]) == map[];
    }
    assert WatchedBy(configs) == map[first.name := KeysOf(first.targets), second.name := KeysOf(second.targets)];
    assert FiledUnder(configs, first.name) == Some(1) && FiledUnder(configs, second.name) == Some(1);
    assert checker.Shared(first.name, id);
  }
}
