/** Active and passive health checking of one target. */
module Health {

  const SECOND: int := 1_000_000_000
  const MILLISECOND: int := 1_000_000

  datatype ActiveConfig = ActiveConfig(interval: int, healthyThreshold: int, unhealthyThreshold: int)
  datatype PassiveConfig = PassiveConfig(window: int, errorThreshold: int, successThreshold: int)

  datatype TargetHealth = TargetHealth(healthy: bool, consecutiveOK: int, consecutiveFail: int,
                                       lastCheck: int, lastLatency: int, address: string)
  datatype PassiveState = PassiveState(errorTimes: seq<int>, consecutiveSuccess: int)
  datatype TargetState = TargetState(health: TargetHealth, passive: PassiveState)

  const FRESH := PassiveState([], 0)

  /** A duration product as a 64-bit integer computes it. */
  function Wrap64(x: int): (w: int)
    ensures -0x8000_0000_0000_0000 <= w < 0x8000_0000_0000_0000
    ensures -0x8000_0000_0000_0000 <= x < 0x8000_0000_0000_0000 ==> w == x
    ensures (x - w) % 0x1_0000_0000_0000_0000 == 0
  {
    (x + 0x8000_0000_0000_0000) % 0x1_0000_0000_0000_0000 - 0x8000_0000_0000_0000
  }

  /** Thresholds are positive and the window is never shorter than 200 milliseconds, even for
      intervals whose product overflows. */
  function DerivePassiveConfig(active: ActiveConfig): (p: PassiveConfig)
    ensures p.errorThreshold >= 1 && p.successThreshold >= 1
    ensures active.unhealthyThreshold > 0 ==> p.errorThreshold == active.unhealthyThreshold
    ensures active.healthyThreshold > 0 ==> p.successThreshold == active.healthyThreshold
    ensures active.unhealthyThreshold <= 0 ==> p.errorThreshold == 3
    ensures active.healthyThreshold <= 0 ==> p.successThreshold == 2
    ensures var product := Wrap64(active.interval * (if p.errorThreshold >= 3 then p.errorThreshold else 3));
            && (product >= 200_000_000 ==> p.window == product)
            && (0 < product < 200_000_000 ==> p.window == 200_000_000)
            && (product <= 0 ==> p.window == 30_000_000_000)
  {
    var errorThreshold := if active.unhealthyThreshold <= 0 then 3 else active.unhealthyThreshold;
    var successThreshold := if active.healthyThreshold <= 0 then 2 else active.healthyThreshold;
    var product := Wrap64(active.interval * (if errorThreshold > 3 then errorThreshold else 3));
    var window := if product <= 0 then 30 * SECOND else product;
    PassiveConfig(if window < 200 * MILLISECOND then 200 * MILLISECOND else window, errorThreshold, successThreshold)
  }

  // ----- One target -----

  function OnProbe(h: TargetHealth, ok: bool, latency: int, now: int, cfg: ActiveConfig): TargetHealth {
    var seen := h.(lastCheck := now, lastLatency := latency);
    if ok then
      var n := h.consecutiveOK + 1;
      seen.(consecutiveOK := n, consecutiveFail := 0, healthy := h.healthy || n >= cfg.healthyThreshold)
    else
      var n := h.consecutiveFail + 1;
      seen.(consecutiveFail := n, consecutiveOK := 0, healthy := h.healthy && n < cfg.unhealthyThreshold)
  }

  /** The prefix of times before the threshold is dropped. */
  function Prune(times: seq<int>, threshold: int): seq<int> {
    if times != [] && times[0] < threshold then Prune(times[1..], threshold) else times
  }

  function OnError(s: TargetState, now: int, p: PassiveConfig): TargetState {
    var times := Prune(s.passive.errorTimes + [now], now - p.window);
    var passive := PassiveState(times, 0);
    if |times| >= p.errorThreshold && s.health.healthy then
      TargetState(s.health.(healthy := false, consecutiveFail := |times|, consecutiveOK := 0, lastCheck := now),
                  passive)
    else TargetState(s.health, passive)
  }

  predicate Recovers(s: TargetState, p: PassiveConfig) {
    !s.health.healthy && s.passive.consecutiveSuccess + 1 >= p.successThreshold
  }

  function OnSuccess(s: TargetState, now: int, p: PassiveConfig): TargetState {
    var n := s.passive.consecutiveSuccess + 1;
    if Recovers(s, p) then
      TargetState(s.health.(healthy := true, consecutiveOK := n, consecutiveFail := 0, lastCheck := now),
                  PassiveState([], n))
    else TargetState(s.health, PassiveState(Prune(s.passive.errorTimes, now - p.window), n))
  }

  /** At most one of the two streak counters is running. */
  predicate OneStreak(h: TargetHealth) {
    h.consecutiveOK == 0 || h.consecutiveFail == 0
  }

  method PruneOldErrors(times: seq<int>, now: int, window: int) returns (kept: seq<int>)
    ensures window > 0 ==> kept == Prune(times, now - window)
    ensures window <= 0 ==> kept == []
  {
    if |times| == 0 { return times; }
    if window <= 0 { return []; }
    var threshold := now - window;
    var keepFrom := 0;
    while keepFrom < |times| && times[keepFrom] < threshold
      invariant 0 <= keepFrom <= |times|
      invariant Prune(times, threshold) == Prune(times[keepFrom..], threshold)
    {
      assert times[keepFrom..][1..] == times[keepFrom + 1..];
      keepFrom := keepFrom + 1;
    }
    if keepFrom <= 0 { return times; }
    kept := times[keepFrom..];
  }

  // ----- Every run of one target under a clock that never goes back -----

  datatype Event =
    | Probe(ok: bool, latency: int, now: int)
    | Failure(now: int)
    | Success(now: int)

  function After(s: TargetState, e: Event, cfg: ActiveConfig, p: PassiveConfig): TargetState {
    match e
    case Probe(ok, latency, now) => s.(health := OnProbe(s.health, ok, latency, now, cfg))
    case Failure(now) => OnError(s, now, p)
    case Success(now) => OnSuccess(s, now, p)
  }

  function Run(events: seq<Event>, address: string, cfg: ActiveConfig, p: PassiveConfig): TargetState {
    if events == [] then TargetState(TargetHealth(true, 0, 0, 0, 0, address), FRESH)
    else After(Run(events[..|events| - 1], address, cfg, p), events[|events| - 1], cfg, p)
  }

  ghost predicate Clocked(events: seq<Event>) {
    forall i, j :: 0 <= i < j < |events| ==> events[i].now <= events[j].now
  }

  /** The successes reported since the last passive error, told by the events alone. */
  ghost function SuccessesInARow(events: seq<Event>): nat {
    if events == [] then 0
    else
      var earlier := SuccessesInARow(events[..|events| - 1]);
      match events[|events| - 1]
      case Probe(_, _, _) => earlier
      case Failure(_) => 0
      case Success(_) => earlier + 1
  }

  lemma {:induction false} SuccessesAreCounted(events: seq<Event>, address: string, cfg: ActiveConfig, p: PassiveConfig)
    ensures Run(events, address, cfg, p).passive.consecutiveSuccess == SuccessesInARow(events)
  {
    hide OnProbe, Prune;
    if events != [] {
      SuccessesAreCounted(events[..|events| - 1], address, cfg, p);
    }
  }

  /** A passive success brings a target up exactly when it was down and, this one included, enough
      successes have come in a row since the last passive error; it then forgets the errors. */
  lemma PassiveUpIff(events: seq<Event>, now: int, address: string, cfg: ActiveConfig, p: PassiveConfig)
    ensures var before, after := Run(events, address, cfg, p), Run(events + [Success(now)], address, cfg, p);
            var enough := SuccessesInARow(events) + 1 >= p.successThreshold;
            && after.health.healthy == (before.health.healthy || enough)
            && (!before.health.healthy && enough ==> after.passive.errorTimes == [])
  {
    hide OnProbe, Prune;
    var all := events + [Success(now)];
    assert all[..|all| - 1] == events;
    SuccessesAreCounted(events, address, cfg, p);
  }

  /** The times of the errors reported since the last passive recovery. */
  ghost function ErrorsSinceRecovery(events: seq<Event>, address: string, cfg: ActiveConfig,
                                     p: PassiveConfig): seq<int>
  {
    if events == [] then []
    else
      var earlier, e := events[..|events| - 1], events[|events| - 1];
      var errors := ErrorsSinceRecovery(earlier, address, cfg, p);
      if e.Failure? then errors + [e.now]
      else if e.Success? && !Run(earlier, address, cfg, p).health.healthy
              && SuccessesInARow(events) >= p.successThreshold then []
      else errors
  }

  /** The times that are not before the threshold. */
  ghost function NotBefore(times: seq<int>, threshold: int): seq<int> {
    if times == [] then []
    else if times[0] >= threshold then [times[0]] + NotBefore(times[1..], threshold)
    else NotBefore(times[1..], threshold)
  }

  ghost predicate Ascending(times: seq<int>) {
    forall i, j :: 0 <= i < j < |times| ==> times[i] <= times[j]
  }

  lemma {:induction false} NotBeforeAll(times: seq<int>, threshold: int)
    requires forall i :: 0 <= i < |times| ==> times[i] >= threshold
    ensures NotBefore(times, threshold) == times
  {
    if times != [] {
      NotBeforeAll(times[1..], threshold);
    }
  }

  /** On ascending times dropping a prefix is the same as filtering. */
  lemma {:induction false} PruneFilters(times: seq<int>, threshold: int)
    requires Ascending(times)
    ensures Prune(times, threshold) == NotBefore(times, threshold)
    ensures Ascending(Prune(times, threshold))
  {
    if times != [] {
      if times[0] < threshold {
        PruneFilters(times[1..], threshold);
      } else {
        NotBeforeAll(times, threshold);
      }
    }
  }

  lemma {:induction false} NotBeforeTwice(times: seq<int>, a: int, b: int)
    requires a <= b
    ensures NotBefore(NotBefore(times, a), b) == NotBefore(times, b)
  {
    if times != [] {
      NotBeforeTwice(times[1..], a, b);
      if times[0] >= a {
        assert NotBefore(times, a)[1..] == NotBefore(times[1..], a);
      }
    }
  }

  lemma {:induction false} NotBeforeSnoc(times: seq<int>, t: int, threshold: int)
    requires t >= threshold
    ensures NotBefore(times + [t], threshold) == NotBefore(times, threshold) + [t]
  {
    if times == [] {
      assert times + [t] == [t];
    } else {
      assert (times + [t])[1..] == times[1..] + [t];
      NotBeforeSnoc(times[1..], t, threshold);
    }
  }

  /** The time of the last passive event, at or after which nothing was pruned. */
  ghost function LastPassive(events: seq<Event>, start: int): int {
    if events == [] then start
    else if events[|events| - 1].Probe? then LastPassive(events[..|events| - 1], start)
    else events[|events| - 1].now
  }

  ghost predicate NoneAfter(times: seq<int>, now: int) {
    forall i :: 0 <= i < |times| ==> times[i] <= now
  }

  lemma FailureStep(stored: seq<int>, errors: seq<int>, a: int, b: int, now: int)
    requires Ascending(stored) && NoneAfter(stored, now) && stored == NotBefore(errors, a) && a <= b <= now
    ensures var kept := Prune(stored + [now], b);
            kept == NotBefore(errors + [now], b) && Ascending(kept) && NoneAfter(kept, now)
  {
    PruneFilters(stored + [now], b);
    NotBeforeSnoc(stored, now, b);
    NotBeforeSnoc(errors, now, b);
    NotBeforeTwice(errors, a, b);
    PruneKeeps(stored + [now], b, now);
  }

  lemma SuccessStep(stored: seq<int>, errors: seq<int>, a: int, b: int, now: int)
    requires Ascending(stored) && NoneAfter(stored, now) && stored == NotBefore(errors, a) && a <= b
    ensures var kept := Prune(stored, b);
            kept == NotBefore(errors, b) && Ascending(kept) && NoneAfter(kept, now)
  {
    PruneFilters(stored, b);
    NotBeforeTwice(errors, a, b);
    PruneKeeps(stored, b, now);
  }

  /** The stored error times are the errors since the last passive recovery that were inside the
      window at the last passive event. */
  lemma {:induction false} StoredErrors(events: seq<Event>, address: string, cfg: ActiveConfig, p: PassiveConfig,
                                        start: int)
    requires Clocked(events) && p.window > 0 && (events != [] ==> start <= events[0].now)
    ensures var stored := Run(events, address, cfg, p).passive.errorTimes;
            var errors := ErrorsSinceRecovery(events, address, cfg, p);
            var last := if events == [] then start else events[|events| - 1].now;
            && stored == NotBefore(errors, LastPassive(events, start) - p.window)
            && Ascending(stored) && NoneAfter(stored, last) && LastPassive(events, start) <= last
  {
    hide OnProbe, Prune, NotBefore;
    if events == [] {
      NothingNotBefore(start - p.window);
    } else {
      var n := |events| - 1;
      var earlier, e := events[..n], events[n];
      StoredErrors(earlier, address, cfg, p, start);
      var before := Run(earlier, address, cfg, p);
      var stored := before.passive.errorTimes;
      var errors := ErrorsSinceRecovery(earlier, address, cfg, p);
      var a, b := LastPassive(earlier, start) - p.window, e.now - p.window;
      assert NoneAfter(stored, e.now);
      if e.Failure? {
        FailureStep(stored, errors, a, b, e.now);
      } else if e.Success? {
        SuccessesAreCounted(earlier, address, cfg, p);
        SuccessStep(stored, errors, a, b, e.now);
        NothingNotBefore(b);
      }
    }
  }

  lemma NothingNotBefore(threshold: int)
    ensures NotBefore([], threshold) == []
  {
  }

  lemma {:induction false} PruneKeeps(times: seq<int>, threshold: int, now: int)
    requires NoneAfter(times, now)
    ensures NoneAfter(Prune(times, threshold), now)
  {
    if times != [] && times[0] < threshold {
      PruneKeeps(times[1..], threshold, now);
    }
  }

  /** A passive error takes a target down exactly when it was up and at least the threshold of
      errors since the last passive recovery lie inside the window that ends now. */
  lemma PassiveDownIff(events: seq<Event>, now: int, address: string, cfg: ActiveConfig, p: PassiveConfig)
    requires Clocked(events + [Failure(now)]) && p.window > 0
    ensures var before := Run(events, address, cfg, p).health.healthy;
            var after := Run(events + [Failure(now)], address, cfg, p);
            var recent := NotBefore(ErrorsSinceRecovery(events + [Failure(now)], address, cfg, p), now - p.window);
            && after.passive.errorTimes == recent
            && after.health.healthy == (before && |recent| < p.errorThreshold)
  {
    var all := events + [Failure(now)];
    assert all[..|all| - 1] == events;
    StoredErrors(all, address, cfg, p, all[0].now);
  }

  /** The last probe, and the last event that looked at the target's flag or turned it. */
  ghost predicate Stamped(events: seq<Event>, address: string, cfg: ActiveConfig, p: PassiveConfig) {
    var h := Run(events, address, cfg, p).health;
    h.address == address &&
    if events == [] then h.lastCheck == 0 && h.lastLatency == 0
    else
      var e, before := events[|events| - 1], Run(events[..|events| - 1], address, cfg, p).health;
      if e.Probe? then h.lastCheck == e.now && h.lastLatency == e.latency
      else
        && h.lastLatency == before.lastLatency
        && h.lastCheck == (if h.healthy != before.healthy then e.now else before.lastCheck)
        && (h.healthy == before.healthy ==>
            h.consecutiveOK == before.consecutiveOK && h.consecutiveFail == before.consecutiveFail)
  }

  /** Probes are always noted; passive reports only when they turn the flag, and then the streak
      counter of the new flag tells what turned it. */
  lemma {:induction false} RunsAreStamped(events: seq<Event>, address: string, cfg: ActiveConfig, p: PassiveConfig)
    ensures Stamped(events, address, cfg, p)
    ensures var h := Run(events, address, cfg, p).health;
            && events != [] && !events[|events| - 1].Probe?
            && h.healthy != Run(events[..|events| - 1], address, cfg, p).health.healthy ==>
              if h.healthy then h.consecutiveOK == SuccessesInARow(events) && h.consecutiveFail == 0
              else h.consecutiveFail == |Run(events, address, cfg, p).passive.errorTimes| && h.consecutiveOK == 0
  {
    hide Prune;
    if events != [] {
      RunsAreStamped(events[..|events| - 1], address, cfg, p);
      SuccessesAreCounted(events[..|events| - 1], address, cfg, p);
    }
  }

  lemma {:induction false} RunsKeepOneStreak(events: seq<Event>, address: string, cfg: ActiveConfig, p: PassiveConfig)
    ensures OneStreak(Run(events, address, cfg, p).health)
  {
    if events != [] {
      RunsKeepOneStreak(events[..|events| - 1], address, cfg, p);
    }
  }

  /** How many probes at the end of a run had this result. */
  ghost function Trailing(events: seq<Event>, ok: bool): nat
    requires forall i :: 0 <= i < |events| ==> events[i].Probe?
  {
    if events == [] || events[|events| - 1].ok != ok then 0 else Trailing(events[..|events| - 1], ok) + 1
  }

  /** While only probes report, the streak counters are the results at the end of the run. */
  lemma {:induction false} StreaksAreTrailing(events: seq<Event>, address: string, cfg: ActiveConfig, p: PassiveConfig)
    requires forall i :: 0 <= i < |events| ==> events[i].Probe?
    ensures var h := Run(events, address, cfg, p).health;
            h.consecutiveOK == Trailing(events, true) && h.consecutiveFail == Trailing(events, false)
  {
    if events != [] {
      StreaksAreTrailing(events[..|events| - 1], address, cfg, p);
    }
  }

  /** Then a probe brings a target up exactly when the healthy threshold of probes in a row has
      succeeded, and takes it down exactly when the unhealthy threshold of them has failed. */
  lemma ActiveFlipIff(events: seq<Event>, address: string, cfg: ActiveConfig, p: PassiveConfig)
    requires events != [] && forall i :: 0 <= i < |events| ==> events[i].Probe?
    ensures var before := Run(events[..|events| - 1], address, cfg, p).health.healthy;
            var after := Run(events, address, cfg, p).health.healthy;
            && (!before && after
                <==> !before && events[|events| - 1].ok && Trailing(events, true) >= cfg.healthyThreshold)
            && (before && !after
                <==> before && !events[|events| - 1].ok && Trailing(events, false) >= cfg.unhealthyThreshold)
  {
    StreaksAreTrailing(events[..|events| - 1], address, cfg, p);
  }
}
