/** Upstream targets and the health bookkeeping that every balancer repeats. */
module Targets {
  import opened Text

  datatype Target = Target(id: string, address: string, weight: int)

  type Health = map<string, bool>

  function Key(t: Target): string {
    if !Blank(t.id) then t.id else t.address
  }

  /** The id decides unless trimming leaves nothing of it. */
  lemma KeyByTrimming(t: Target)
    ensures Key(t) == if Trim(t.id) != "" then t.id else t.address
  {
    BlankTrims(t.id);
  }

  /** A target without a health record counts as healthy. */
  predicate Up(health: Health, key: string) {
    key in health ==> health[key]
  }

  function HealthyTargets(targets: seq<Target>, health: Health): seq<Target> {
    if targets == [] then []
    else if Up(health, Key(targets[0])) then [targets[0]] + HealthyTargets(targets[1..], health)
    else HealthyTargets(targets[1..], health)
  }

  /** The health map after the target list is replaced. */
  function Carried(targets: seq<Target>, health: Health): Health {
    if targets == [] then map[]
    else
      var key := Key(targets[|targets| - 1]);
      Carried(targets[..|targets| - 1], health)[key := Up(health, key)]
  }

  predicate HasKey(targets: seq<Target>, key: string) {
    exists i :: 0 <= i < |targets| && Key(targets[i]) == key
  }

  /** Known keys keep their flag, new keys start healthy, dropped keys are forgotten. */
  lemma {:induction false} CarriedLookup(targets: seq<Target>, health: Health, key: string)
    ensures key in Carried(targets, health) <==> HasKey(targets, key)
    ensures HasKey(targets, key) ==> Carried(targets, health)[key] == Up(health, key)
  {
    if targets != [] {
      var n := |targets| - 1;
      CarriedLookup(targets[..n], health, key);
      if HasKey(targets, key) && Key(targets[n]) != key {
        var i :| 0 <= i < |targets| && Key(targets[i]) == key;
        assert Key(targets[..n][i]) == key;
      }
    }
  }

  method CarryHealth(targets: seq<Target>, health: Health) returns (carried: Health)
    ensures carried == Carried(targets, health)
  {
    carried := map[];
    for i := 0 to |targets|
      invariant carried == Carried(targets[..i], health)
    {
      var key := Key(targets[i]);
      var healthy := if key in health then health[key] else true;
      carried := carried[key := healthy];
      assert targets[..i + 1][..i] == targets[..i];
    }
    assert targets[..|targets|] == targets;
  }

  method FilterHealthy(targets: seq<Target>, health: Health) returns (healthy: seq<Target>)
    ensures healthy == HealthyTargets(targets, health)
  {
    healthy := [];
    for i := 0 to |targets|
      invariant healthy + HealthyTargets(targets[i..], health) == HealthyTargets(targets, health)
    {
      assert targets[i..][1..] == targets[i + 1..];
      if !(Key(targets[i]) in health && !health[Key(targets[i])]) {
        healthy := healthy + [targets[i]];
      }
    }
  }

  lemma {:induction false} HealthyMembers(targets: seq<Target>, health: Health)
    ensures forall t :: t in HealthyTargets(targets, health) <==> t in targets && Up(health, Key(t))
  {
    if targets != [] {
      HealthyMembers(targets[1..], health);
      assert targets == [targets[0]] + targets[1..];
    }
  }

  lemma {:induction false} HealthySnoc(targets: seq<Target>, t: Target, health: Health)
    ensures HealthyTargets(targets + [t], health)
         == HealthyTargets(targets, health) + (if Up(health, Key(t)) then [t] else [])
  {
    if targets == [] {
      assert targets + [t] == [t];
    } else {
      assert (targets + [t])[1..] == targets[1..] + [t];
      HealthySnoc(targets[1..], t, health);
    }
  }
}
