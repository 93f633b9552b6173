/** The balancer that picks the target with the fewest requests in flight. */
module LeastConn {
  import opened Basics
  import opened Targets
  import opened Cycle
  import opened Rotation

  const MAX_INT64: int := 0x7FFF_FFFF_FFFF_FFFF

  type Active = map<string, int>

  /** A missing counter reads as zero. */
  function Count(active: Active, key: string): int {
    if key in active then active[key] else 0
  }

  function Acquire(active: Active, key: string): Active {
    active[key := Count(active, key) + 1]
  }

  function Release(active: Active, key: string): Active {
    if Count(active, key) > 0 then active[key := Count(active, key) - 1] else active
  }

  /** The counters after the target list is replaced: those of dropped targets are forgotten. */
  function CarriedActive(targets: seq<Target>, active: Active): Active {
    if targets == [] then map[]
    else
      var key := Key(targets[|targets| - 1]);
      CarriedActive(targets[..|targets| - 1], active)[key := Count(active, key)]
  }

  /** The targets that reach the running minimum, in list order. */
  function Candidates(pool: seq<Target>, active: Active): seq<Target> {
    if pool == [] then []
    else
      var t, earlier := pool[|pool| - 1], Candidates(pool[..|pool| - 1], active);
      if earlier == [] || Load(active, t) < Load(active, earlier[0]) then [t]
      else if Load(active, t) == Load(active, earlier[0]) then earlier + [t]
      else earlier
  }

  function Load(active: Active, t: Target): int {
    Count(active, Key(t))
  }

  ghost predicate LeastLoaded(pool: seq<Target>, active: Active, t: Target) {
    t in pool && forall u :: u in pool ==> Load(active, t) <= Load(active, u)
  }

  lemma {:induction false} CandidatesShareLoad(pool: seq<Target>, active: Active)
    ensures Candidates(pool, active) == [] <==> pool == []
    ensures var cands := Candidates(pool, active);
            forall t :: t in cands ==> t in pool && Load(active, t) == Load(active, cands[0])
  {
    if pool != [] {
      CandidatesShareLoad(pool[..|pool| - 1], active);
    }
  }

  lemma {:induction false} CandidatesBelow(pool: seq<Target>, active: Active, u: Target)
    requires u in pool
    ensures var cands := Candidates(pool, active);
            && cands != [] && Load(active, cands[0]) <= Load(active, u)
            && (Load(active, cands[0]) == Load(active, u) ==> u in cands)
  {
    hide Load;
    var n := |pool| - 1;
    CandidatesShareLoad(pool[..n], active);
    if u in pool[..n] {
      CandidatesBelow(pool[..n], active, u);
    } else {
      assert u == pool[n];
    }
  }

  /** The candidates are exactly the least loaded targets of the pool. */
  lemma CandidatesAreLeastLoaded(pool: seq<Target>, active: Active, t: Target)
    ensures t in Candidates(pool, active) <==> LeastLoaded(pool, active, t)
  {
    var cands := Candidates(pool, active);
    CandidatesShareLoad(pool, active);
    if t in cands {
      forall u | u in pool
        ensures Load(active, t) <= Load(active, u)
      {
        CandidatesBelow(pool, active, u);
      }
    }
    if LeastLoaded(pool, active, t) {
      CandidatesBelow(pool, active, t);
      assert cands[0] in pool;
    }
  }

  lemma CandidatesSnoc(pool: seq<Target>, t: Target, active: Active)
    ensures Candidates(pool + [t], active)
         == var earlier := Candidates(pool, active);
            if earlier == [] || Load(active, t) < Load(active, earlier[0]) then [t]
            else if Load(active, t) == Load(active, earlier[0]) then earlier + [t]
            else earlier
  {
    assert (pool + [t])[..|pool|] == pool;
  }

  lemma NobodyYet(health: Health, active: Active)
    ensures HealthyTargets([], health) == [] && Candidates([], active) == []
  {
  }

  /** The selection loop. */
  method ScanTargets(targets: seq<Target>, health: Health, active: Active) returns (cands: seq<Target>)
    requires forall key :: key in active ==> active[key] < MAX_INT64
    ensures cands == Candidates(HealthyTargets(targets, health), active)
  {
    hide Key, HealthyTargets, Candidates;
    var minActive := MAX_INT64;
    cands := [];
    ghost var pool := [];
    NobodyYet(health, active);
    for i := 0 to |targets|
      invariant pool == HealthyTargets(targets[..i], health)
      invariant cands == Candidates(pool, active)
      invariant minActive == if cands == [] then MAX_INT64 else Load(active, cands[0])
    {
      var t := targets[i];
      assert targets[..i + 1] == targets[..i] + [t];
      HealthySnoc(targets[..i], t, health);
      CandidatesSnoc(pool, t, active);
      var key := Key(t);
      if key in health && !health[key] { continue; }
      pool := pool + [t];
      var current := Count(active, key);
      if current < minActive {
        minActive := current;
        cands := [t];
      } else if current == minActive {
        cands := cands + [t];
      }
    }
    assert targets[..|targets|] == targets;
  }

  class Balancer {
    var targets: seq<Target>
    var health: Health
    var active: Active
    var counter: nat

    ghost predicate Valid()
      reads this
    {
      forall key :: key in active ==> 0 <= active[key]
    }

    constructor (targets: seq<Target>)
      ensures Valid() && this.targets == targets && health == Carried(targets, map[])
      ensures active == CarriedActive(targets, map[]) && counter == 0
    {
      this.targets, health, active, counter := [], map[], map[], 0;
      new;
      UpdateTargets(targets);
    }

    method Next() returns (r: Option<Target>)
      requires Valid() && counter < CURSOR_LIMIT
      requires forall key :: key in active ==> active[key] < MAX_INT64
      modifies this`active, this`counter
      ensures Valid()
      ensures var pool := HealthyTargets(targets, health);
              var cands := Candidates(pool, old(active));
              if pool == [] then
                r == None && active == old(active) && counter == old(counter)
              else
                && cands != [] && r == Some(cands[Wrap(old(counter), |cands|)])
                && active == Acquire(old(active), Key(r.value)) && counter == old(counter) + 1
    {
      hide Key, Candidates, HealthyTargets, Wrap;
      var cands := ScanTargets(targets, health, active);
      CandidatesShareLoad(HealthyTargets(targets, health), active);
      if |cands| == 0 { return None; }
      counter := counter + 1;
      var idx := Slot(counter - 1, |cands|);
      var selected := cands[idx];
      active := active[Key(selected) := Count(active, Key(selected)) + 1];
      r := Some(selected);
    }

    method UpdateTargets(targets: seq<Target>)
      requires Valid()
      modifies this`targets, this`health, this`active
      ensures Valid() && this.targets == targets
      ensures health == Carried(targets, old(health)) && active == CarriedActive(targets, old(active))
    {
      this.targets := targets;
      health := CarryHealth(targets, health);
      var newActive: Active := map[];
      for i := 0 to |targets|
        invariant newActive == CarriedActive(targets[..i], active)
        invariant forall key :: key in newActive ==> 0 <= newActive[key]
      {
        newActive := newActive[Key(targets[i]) := Count(active, Key(targets[i]))];
        assert targets[..i + 1][..i] == targets[..i];
      }
      assert targets[..|targets|] == targets;
      active := newActive;
    }

    method ReportHealth(targetID: string, healthy: bool)
      modifies this`health
      ensures health == old(health)[targetID := healthy]
    {
      health := health[targetID := healthy];
    }

    method Done(targetID: string)
      requires Valid()
      modifies this`active
      ensures Valid() && active == Release(old(active), targetID)
    {
      if Count(active, targetID) > 0 {
        active := active[targetID := active[targetID] - 1];
      }
    }
  }

  // ----- In-flight accounting over whole runs -----

  /** What can happen to the counters. A selection may also be made by another strategy, as the
      adaptive balancer does: it is then in flight without having been counted. */
  datatype Event =
    | Select(key: string)
    | SelectElsewhere(key: string)
    | Finish(key: string)
    | Replace(targets: seq<Target>)

  function ActiveAfter(active: Active, e: Event): Active {
    match e
    case Select(key) => Acquire(active, key)
    case SelectElsewhere(_) => active
    case Finish(key) => Release(active, key)
    case Replace(targets) => CarriedActive(targets, active)
  }

  /** The requests truly in flight: selections not yet finished. */
  function InFlightAfter(inFlight: multiset<string>, e: Event): multiset<string> {
    match e
    case Select(key) => inFlight + multiset{key}
    case SelectElsewhere(key) => inFlight + multiset{key}
    case Finish(key) => inFlight - multiset{key}
    case Replace(_) => inFlight
  }

  function RunActive(events: seq<Event>): Active {
    if events == [] then map[] else ActiveAfter(RunActive(events[..|events| - 1]), events[|events| - 1])
  }

  function RunInFlight(events: seq<Event>): multiset<string> {
    if events == [] then multiset{} else InFlightAfter(RunInFlight(events[..|events| - 1]), events[|events| - 1])
  }

  ghost predicate Accounted(active: Active, inFlight: multiset<string>) {
    forall key :: 0 <= Count(active, key) <= inFlight[key]
  }

  lemma {:induction false} CarriedActiveCount(targets: seq<Target>, active: Active, key: string)
    ensures Count(CarriedActive(targets, active), key) == if HasKey(targets, key) then Count(active, key) else 0
  {
    if targets != [] {
      var n := |targets| - 1;
      CarriedActiveCount(targets[..n], active, key);
      if HasKey(targets, key) && Key(targets[n]) != key {
        var i :| 0 <= i < |targets| && Key(targets[i]) == key;
        assert Key(targets[..n][i]) == key;
      }
    }
  }

  lemma StepKeepsOne(active: Active, inFlight: multiset<string>, e: Event, key: string)
    requires 0 <= Count(active, key) <= inFlight[key]
    ensures 0 <= Count(ActiveAfter(active, e), key) <= InFlightAfter(inFlight, e)[key]
  {
    hide Key, CarriedActive, HasKey;
    match e
    case Select(k) =>
      assert (inFlight + multiset{k})[key] == inFlight[key] + if k == key then 1 else 0;
    case SelectElsewhere(k) =>
      assert (inFlight + multiset{k})[key] >= inFlight[key];
    case Finish(k) =>
      if k == key {
        assert (inFlight - multiset{k})[key] + 1 >= inFlight[key];
      } else {
        assert (inFlight - multiset{k})[key] == inFlight[key];
      }
    case Replace(targets) =>
      CarriedActiveCount(targets, active, key);
  }

  lemma StepKeepsAccount(active: Active, inFlight: multiset<string>, e: Event)
    requires Accounted(active, inFlight)
    ensures Accounted(ActiveAfter(active, e), InFlightAfter(inFlight, e))
  {
    hide ActiveAfter, InFlightAfter;
    forall key
      ensures 0 <= Count(ActiveAfter(active, e), key) <= InFlightAfter(inFlight, e)[key]
    {
      StepKeepsOne(active, inFlight, e, key);
    }
  }

  /** In every run a counter never exceeds the requests in flight to that target, nor drops below
      zero, whatever strategy made the selections and however the target list changed. */
  lemma {:induction false} RunsKeepAccount(events: seq<Event>)
    ensures Accounted(RunActive(events), RunInFlight(events))
  {
    if events != [] {
      var n := |events| - 1;
      RunsKeepAccount(events[..n]);
      StepKeepsAccount(RunActive(events[..n]), RunInFlight(events[..n]), events[n]);
    }
  }

  /** Every selection is counted, the list stays, and only requests in flight finish. */
  ghost predicate MatchedRun(events: seq<Event>) {
    events != [] ==>
      var earlier, e := events[..|events| - 1], events[|events| - 1];
      MatchedRun(earlier) && (e.Select? || (e.Finish? && e.key in RunInFlight(earlier)))
  }

  /** In such runs the counters are exactly the requests in flight. */
  lemma {:induction false} MatchedRunsAreExact(events: seq<Event>)
    requires MatchedRun(events)
    ensures forall key :: Count(RunActive(events), key) == RunInFlight(events)[key]
  {
    hide Key, CarriedActive;
    if events != [] {
      MatchedRunsAreExact(events[..|events| - 1]);
    }
  }

  // ----- Levelling -----

  ghost predicate DistinctKeys(pool: seq<Target>) {
    pool != [] ==> !HasKey(pool[1..], Key(pool[0])) && DistinctKeys(pool[1..])
  }

  function Loads(pool: seq<Target>, active: Active): (loads: seq<int>)
    ensures |loads| == |pool| && forall i :: 0 <= i < |pool| ==> loads[i] == Load(active, pool[i])
  {
    if pool == [] then [] else [Load(active, pool[0])] + Loads(pool[1..], active)
  }

  /** How many of the loads equal a level. */
  function AtLevel(loads: seq<int>, level: int): nat {
    if loads == [] then 0 else (if loads[0] == level then 1 else 0) + AtLevel(loads[1..], level)
  }

  /** Loads within one of each other: `ahead` of them are one above `floor`, the others on it. */
  ghost predicate Levelled(loads: seq<int>, floor: int, ahead: int) {
    && (forall i :: 0 <= i < |loads| ==> floor <= loads[i] <= floor + 1)
    && 0 <= ahead < |loads| && AtLevel(loads, floor) == |loads| - ahead
  }

  lemma {:induction false} AtLevelAfterUpdate(loads: seq<int>, k: nat, y: int, x: int)
    requires k < |loads| && loads[k] != y
    ensures AtLevel(loads[k := y], x)
         == AtLevel(loads, x) - (if loads[k] == x then 1 else 0) + (if y == x then 1 else 0)
  {
    var after := loads[k := y];
    if k == 0 {
      assert after[1..] == loads[1..];
    } else {
      assert after[1..] == loads[1..][k - 1 := y];
      AtLevelAfterUpdate(loads[1..], k - 1, y, x);
    }
  }

  lemma {:induction false} AtLevelAll(loads: seq<int>, x: int)
    ensures AtLevel(loads, x) <= |loads|
    ensures (forall i :: 0 <= i < |loads| ==> loads[i] == x) <==> AtLevel(loads, x) == |loads|
    ensures AtLevel(loads, x) == 0 ==> forall i :: 0 <= i < |loads| ==> loads[i] != x
  {
    if loads != [] {
      AtLevelAll(loads[1..], x);
      assert forall i :: 1 <= i < |loads| ==> loads[i] == loads[1..][i - 1];
      assert forall i :: 0 <= i < |loads[1..]| ==> loads[1..][i] == loads[i + 1];
    }
  }

  /** Raising a load at the bottom by one. */
  lemma RaisingKeepsLevel(loads: seq<int>, floor: int, ahead: int, k: nat)
    requires Levelled(loads, floor, ahead) && k < |loads| && loads[k] == floor
    ensures if ahead + 1 == |loads| then Levelled(loads[k := floor + 1], floor + 1, 0)
            else Levelled(loads[k := floor + 1], floor, ahead + 1)
  {
    var after := loads[k := floor + 1];
    AtLevelAfterUpdate(loads, k, floor + 1, floor);
    if ahead + 1 == |loads| {
      AtLevelAll(after, floor);
      AtLevelAll(after, floor + 1);
    }
  }

  lemma {:induction false} LoadsUntouched(pool: seq<Target>, active: Active, key: string)
    requires !HasKey(pool, key)
    ensures Loads(pool, Acquire(active, key)) == Loads(pool, active)
  {
    if pool != [] {
      assert Key(pool[0]) != key;
      assert forall i :: 0 <= i < |pool[1..]| ==> pool[1..][i] == pool[i + 1];
      LoadsUntouched(pool[1..], active, key);
    }
  }

  lemma {:induction false} AcquireRaises(pool: seq<Target>, active: Active, k: nat)
    requires DistinctKeys(pool) && k < |pool|
    ensures Loads(pool, Acquire(active, Key(pool[k]))) == Loads(pool, active)[k := Loads(pool, active)[k] + 1]
  {
    hide Key;
    var key := Key(pool[k]);
    if k == 0 {
      LoadsUntouched(pool[1..], active, key);
    } else {
      AcquireRaises(pool[1..], active, k - 1);
      assert Key(pool[1..][k - 1]) == key;
    }
  }

  lemma CandidateAtBottom(pool: seq<Target>, active: Active, floor: int, ahead: int, t: Target) returns (k: nat)
    requires Levelled(Loads(pool, active), floor, ahead) && t in Candidates(pool, active)
    ensures k < |pool| && pool[k] == t && Loads(pool, active)[k] == floor
  {
    var loads := Loads(pool, active);
    CandidatesAreLeastLoaded(pool, active, t);
    k :| 0 <= k < |pool| && pool[k] == t;
    if loads[k] != floor {
      forall i | 0 <= i < |pool|
        ensures loads[i] != floor
      {
        assert pool[i] in pool;
      }
      NoneAtLevel(loads, floor);
    }
  }

  lemma {:induction false} NoneAtLevel(loads: seq<int>, x: int)
    requires forall i :: 0 <= i < |loads| ==> loads[i] != x
    ensures AtLevel(loads, x) == 0
  {
    if loads != [] {
      NoneAtLevel(loads[1..], x);
    }
  }

  function Acquires(active: Active, picks: seq<Target>): Active {
    if picks == [] then active
    else Acquire(Acquires(active, picks[..|picks| - 1]), Key(picks[|picks| - 1]))
  }

  /** Consecutive calls of Next with nothing in between: each takes one of the candidates. */
  ghost predicate NextRun(pool: seq<Target>, active: Active, picks: seq<Target>) {
    picks != [] ==>
      var earlier := picks[..|picks| - 1];
      && NextRun(pool, active, earlier)
      && picks[|picks| - 1] in Candidates(pool, Acquires(active, earlier))
  }

  lemma SelectionKeepsLevel(pool: seq<Target>, active: Active, floor: int, ahead: int, t: Target)
    requires DistinctKeys(pool) && Levelled(Loads(pool, active), floor, ahead) && t in Candidates(pool, active)
    ensures var loads := Loads(pool, Acquire(active, Key(t)));
            if ahead + 1 == |pool| then Levelled(loads, floor + 1, 0) else Levelled(loads, floor, ahead + 1)
  {
    hide Key, Load, Loads, AtLevel, Candidates, Levelled, DistinctKeys, Acquire;
    var k := CandidateAtBottom(pool, active, floor, ahead, t);
    AcquireRaises(pool, active, k);
    RaisingKeepsLevel(Loads(pool, active), floor, ahead, k);
  }

  lemma {:induction false} RunLevels(pool: seq<Target>, active: Active, level: int, picks: seq<Target>)
      returns (laps: nat, ahead: nat)
    requires pool != [] && DistinctKeys(pool) && NextRun(pool, active, picks)
    requires Levelled(Loads(pool, active), level, 0)
    ensures |picks| == Times(laps, |pool|) + ahead
    ensures Levelled(Loads(pool, Acquires(active, picks)), level + laps, ahead)
  {
    hide Key, Load, Loads, AtLevel, Candidates;
    if picks == [] {
      return 0, 0;
    }
    var n := |picks| - 1;
    var l, a := RunLevels(pool, active, level, picks[..n]);
    var before, after := Acquires(active, picks[..n]), Acquires(active, picks);
    assert after == Acquire(before, Key(picks[n]));
    SelectionKeepsLevel(pool, before, level + l, a, picks[n]);
    if a + 1 == |pool| {
      laps, ahead := l + 1, 0;
      assert Levelled(Loads(pool, after), level + laps, ahead);
    } else {
      laps, ahead := l, a + 1;
      assert Levelled(Loads(pool, after), level + laps, ahead);
    }
  }

  /** A run of selections from level counters over a fixed healthy set of distinct keys keeps the
      counters within one of each other; after n selections over m targets each is n / m or one
      more above where it started. */
  lemma RunsStayLevel(pool: seq<Target>, active: Active, level: int, picks: seq<Target>)
    requires pool != [] && DistinctKeys(pool) && NextRun(pool, active, picks)
    requires forall i :: 0 <= i < |pool| ==> Load(active, pool[i]) == level
    ensures forall i :: 0 <= i < |pool| ==>
              var raised := Load(Acquires(active, picks), pool[i]) - level;
              |picks| / |pool| <= raised <= |picks| / |pool| + 1
  {
    AtLevelAll(Loads(pool, active), level);
    var laps, ahead := RunLevels(pool, active, level, picks);
    LapsAreQuotient(|picks|, |pool|, laps, ahead);
    assert forall i :: 0 <= i < |pool| ==>
           Loads(pool, Acquires(active, picks))[i] == Load(Acquires(active, picks), pool[i]);
  }

  lemma LapsAreQuotient(n: nat, m: nat, laps: nat, ahead: nat)
    requires ahead < m && n == Times(laps, m) + ahead
    ensures laps == n / m
  {
    TimesIsProduct(laps, m);
    DivisionLaw(n, m);
    DivisionIsUnique(m, n / m, n % m, laps, ahead);
  }
}
