/** Counting one status code in one bucket by several workers at once: each looks the counter up and
    adds to it, or, finding none, stores a new one that starts at one. */
module StatusCounts {
  import opened Basics

  /** Where one of the recordings of the code is; `Found` holds the counter it looked up. */
  datatype Recording = Fresh | Found(counter: nat) | Missing | Done

  /** The counters ever created, and which of them the map holds. */
  datatype State = State(recordings: seq<Recording>, counters: seq<nat>, stored: Option<nat>)

  datatype Action = LookUp(i: nat) | Record(i: nat)

  function Initial(n: nat): State {
    State(seq(n, _ => Fresh), [], None)
  }

  predicate Enabled(s: State, a: Action) {
    a.i < |s.recordings| &&
    match a
    case LookUp(i) => s.recordings[i].Fresh?
    case Record(i) => s.recordings[i].Missing? || (s.recordings[i].Found? && s.recordings[i].counter < |s.counters|)
  }

  function Next(s: State, a: Action): State
    requires Enabled(s, a)
  {
    match a
    case LookUp(i) => s.(recordings := s.recordings[i := if s.stored.Some? then Found(s.stored.value) else Missing])
    case Record(i) =>
      var recordings := s.recordings[i := Done];
      if s.recordings[i].Missing? then State(recordings, s.counters + [1], Some(|s.counters|))
      else
        var k := s.recordings[i].counter;
        s.(recordings := recordings, counters := s.counters[k := s.counters[k] + 1])
  }

  function Run(n: nat, actions: seq<Action>): Option<State> {
    if actions == [] then Some(Initial(n))
    else
      var before, a := Run(n, actions[..|actions| - 1]), actions[|actions| - 1];
      if before.Some? && Enabled(before.value, a) then Some(Next(before.value, a)) else None
  }

  /** What the bucket reports for the code. */
  function Reading(s: State): nat {
    if s.stored.Some? && s.stored.value < |s.counters| then s.counters[s.stored.value] else 0
  }

  function Sum(counters: seq<nat>): nat {
    if counters == [] then 0 else Sum(counters[..|counters| - 1]) + counters[|counters| - 1]
  }

  function HowMany(recordings: seq<Recording>, which: Recording -> bool): nat {
    if recordings == [] then 0
    else HowMany(recordings[..|recordings| - 1], which) + if which(recordings[|recordings| - 1]) then 1 else 0
  }

  function Finished(s: State): nat {
    HowMany(s.recordings, (r: Recording) => r.Done?)
  }

  lemma {:induction false} SumUpdate(counters: seq<nat>, k: nat, x: nat)
    requires k < |counters|
    ensures Sum(counters[k := x]) + counters[k] == Sum(counters) + x
  {
    var n := |counters| - 1;
    if k < n {
      assert counters[k := x][..n] == counters[..n][k := x];
      SumUpdate(counters[..n], k, x);
    } else {
      assert counters[k := x][..n] == counters[..n];
    }
  }

  lemma {:induction false} HowManyUpdate(recordings: seq<Recording>, i: nat, r: Recording, which: Recording -> bool)
    requires i < |recordings|
    ensures HowMany(recordings[i := r], which) + (if which(recordings[i]) then 1 else 0)
         == HowMany(recordings, which) + (if which(r) then 1 else 0)
  {
    var n := |recordings| - 1;
    if i < n {
      assert recordings[i := r][..n] == recordings[..n][i := r];
      HowManyUpdate(recordings[..n], i, r, which);
    } else {
      assert recordings[i := r][..n] == recordings[..n];
    }
  }

  lemma {:induction false} NoneFresh(n: nat)
    ensures HowMany(seq(n, _ => Fresh), (r: Recording) => r.Done?) == 0
  {
    if n > 0 {
      assert seq(n, _ => Fresh)[..n - 1] == seq(n - 1, _ => Fresh);
      NoneFresh(n - 1);
    }
  }

  /** Every finished recording is in some counter, no counter is empty, and the map holds the last
      one created. */
  ghost predicate Tallied(s: State) {
    && Sum(s.counters) == Finished(s)
    && (forall k :: 0 <= k < |s.counters| ==> s.counters[k] > 0)
    && s.stored == (if s.counters == [] then None else Some(|s.counters| - 1))
  }

  lemma StepFinishes(s: State, a: Action)
    requires Enabled(s, a)
    ensures Finished(Next(s, a)) == Finished(s) + if a.Record? then 1 else 0
  {
    hide HowMany;
    HowManyUpdate(s.recordings, a.i, Next(s, a).recordings[a.i], (r: Recording) => r.Done?);
  }

  lemma StepAdds(s: State, a: Action)
    requires Enabled(s, a)
    ensures Sum(Next(s, a).counters) == Sum(s.counters) + if a.Record? then 1 else 0
  {
    if a.Record? {
      if s.recordings[a.i].Missing? {
        assert Next(s, a).counters[..|s.counters|] == s.counters;
      } else {
        var k := s.recordings[a.i].counter;
        SumUpdate(s.counters, k, s.counters[k] + 1);
      }
    }
  }

  lemma StepTallies(s: State, a: Action)
    requires Tallied(s) && Enabled(s, a)
    ensures Tallied(Next(s, a)) && |Next(s, a).recordings| == |s.recordings|
  {
    hide Finished, Sum;
    StepFinishes(s, a);
    StepAdds(s, a);
  }

  lemma {:induction false} RunsTally(n: nat, actions: seq<Action>)
    ensures var r := Run(n, actions); r.Some? ==> Tallied(r.value) && |r.value.recordings| == n
  {
    hide Enabled, Next;
    if actions == [] {
      NoneFresh(n);
    } else if Run(n, actions).Some? {
      hide Tallied;
      RunsTally(n, actions[..|actions| - 1]);
      StepTallies(Run(n, actions[..|actions| - 1]).value, actions[|actions| - 1]);
    }
  }

  lemma {:induction false} SumIsPositive(counters: seq<nat>)
    requires forall k :: 0 <= k < |counters| ==> counters[k] > 0
    ensures Sum(counters) >= |counters|
  {
    if counters != [] {
      SumIsPositive(counters[..|counters| - 1]);
    }
  }

  /** The reading never exceeds the recordings finished, and what it misses is in counters that were
      replaced. */
  lemma ReadingIsBounded(n: nat, actions: seq<Action>)
    requires Run(n, actions).Some?
    ensures var s := Run(n, actions).value;
            && Reading(s) <= Finished(s)
            && (Reading(s) == Finished(s) <==> |s.counters| <= 1)
  {
    hide Run, Finished;
    RunsTally(n, actions);
    var s := Run(n, actions).value;
    if s.counters != [] {
      SumIsPositive(s.counters[..|s.counters| - 1]);
    }
  }

  // ----- When nothing is lost -----

  /** The workers that found no counter, whether or not they have stored theirs. */
  ghost function Creators(s: State): nat {
    |s.counters| + HowMany(s.recordings, (r: Recording) => r.Missing?)
  }

  /** A look that finds no counter although another worker has found none before. */
  ghost predicate LateLook(s: State, a: Action) {
    a.LookUp? && s.stored.None? && Creators(s) > 0
  }

  lemma StepCreates(s: State, a: Action)
    requires Enabled(s, a)
    ensures Creators(Next(s, a)) == Creators(s) + if a.LookUp? && s.stored.None? then 1 else 0
  {
    hide HowMany;
    HowManyUpdate(s.recordings, a.i, Next(s, a).recordings[a.i], (r: Recording) => r.Missing?);
  }

  ghost predicate NoLateLook(n: nat, actions: seq<Action>) {
    actions != [] ==>
      var before := Run(n, actions[..|actions| - 1]);
      NoLateLook(n, actions[..|actions| - 1]) && (before.Some? ==> !LateLook(before.value, actions[|actions| - 1]))
  }

  lemma {:induction false} NobodyMissing(recordings: seq<Recording>)
    ensures (forall i :: 0 <= i < |recordings| ==> !recordings[i].Missing?) ==>
            HowMany(recordings, (r: Recording) => r.Missing?) == 0
    ensures (forall i :: 0 <= i < |recordings| ==> recordings[i].Done?) ==>
            HowMany(recordings, (r: Recording) => r.Done?) == |recordings|
  {
    if recordings != [] {
      var n := |recordings| - 1;
      NobodyMissing(recordings[..n]);
      assert forall i :: 0 <= i < n ==> recordings[..n][i] == recordings[i];
    }
  }

  lemma {:induction false} CreatorsIff(n: nat, actions: seq<Action>)
    requires Run(n, actions).Some?
    ensures Creators(Run(n, actions).value) <= 1 <==> NoLateLook(n, actions)
  {
    hide Creators, Next, Enabled;
    if actions == [] {
      NobodyMissing(Initial(n).recordings);
      assert Creators(Initial(n)) == 0 by { NoCreators(n); }
    } else {
      CreatorsIff(n, actions[..|actions| - 1]);
      StepCreates(Run(n, actions[..|actions| - 1]).value, actions[|actions| - 1]);
    }
  }

  lemma NoCreators(n: nat)
    ensures Creators(Initial(n)) == 0
  {
    NobodyMissing(Initial(n).recordings);
  }

  /** In every interleaving in which all recordings finish, the bucket reports all of them if and only
      if no worker looked for the counter between another one's failed look and its store. */
  lemma NothingLostIff(n: nat, actions: seq<Action>)
    requires Run(n, actions).Some? && forall i :: 0 <= i < |Run(n, actions).value.recordings| ==>
             Run(n, actions).value.recordings[i].Done?
    ensures Reading(Run(n, actions).value) <= n
    ensures Reading(Run(n, actions).value) == n <==> NoLateLook(n, actions)
  {
    hide Run, HowMany, NoLateLook;
    RunsTally(n, actions);
    ReadingIsBounded(n, actions);
    CreatorsIff(n, actions);
    NobodyMissing(Run(n, actions).value.recordings);
  }

  lemma RunSnoc(n: nat, actions: seq<Action>, s: State, a: Action) returns (longer: seq<Action>)
    requires Run(n, actions) == Some(s) && Enabled(s, a)
    ensures longer == actions + [a] && Run(n, longer) == Some(Next(s, a))
  {
    longer := actions + [a];
    assert longer[..|actions|] == actions;
  }

  /** Two workers that both look before either stores: one of the two recordings is lost. */
  lemma TwoLooksLoseOne() returns (actions: seq<Action>)
    ensures Run(2, actions).Some?
    ensures var s := Run(2, actions).value; s.recordings == [Done, Done] && Reading(s) == 1
  {
    hide Run;
    Begin(2);
    actions := RunSnoc(2, [], Initial(2), LookUp(0));
    actions := RunSnoc(2, actions, Run(2, actions).value, LookUp(1));
    actions := RunSnoc(2, actions, Run(2, actions).value, Record(0));
    actions := RunSnoc(2, actions, Run(2, actions).value, Record(1));
  }

  lemma Begin(n: nat)
    ensures Run(n, []) == Some(Initial(n))
  {
  }
}
