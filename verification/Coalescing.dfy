/** Coalescing of identical in-flight requests: the pool's critical sections, and every interleaving
    of callers that join, lead and complete. */
module Coalescing {
  import opened Basics

  datatype Outcome = Answered(response: nat) | Failed(error: string) | TooLarge

  /** A coalesced request; requests are numbered in order of creation, so a request's number also
      names the leader that created it. `closed` counts the closings of its done channel. */
  datatype Request = Request(key: string, created: int, waiters: nat, closed: nat, outcome: Option<Outcome>)

  type Pending = map<string, nat>

  /** A Get under `key` finds a request young enough to wait on. */
  predicate Joins(pending: Pending, requests: seq<Request>, window: int, key: string, now: int) {
    key in pending && pending[key] < |requests| && now - requests[pending[key]].created < window
  }

  /** One more caller waits on request `id`. */
  function Awaited(requests: seq<Request>, id: nat): seq<Request>
    requires id < |requests|
  {
    requests[id := requests[id].(waiters := requests[id].waiters + 1)]
  }

  /** A request as its leader creates it. */
  function Created(key: string, now: int): Request {
    Request(key, now, 1, 0, None)
  }

  function Closed(r: Request, outcome: Outcome): Request {
    r.(closed := r.closed + 1, outcome := Some(outcome))
  }

  ghost predicate Unfinished(id: nat, key: string, requests: seq<Request>) {
    id < |requests| && requests[id].key == key && requests[id].closed == 0
  }

  class Pool {
    var pending: Pending
    var requests: seq<Request>
    const window: int

    ghost predicate Valid()
      reads this
    {
      forall k <- pending :: Unfinished(pending[k], k, requests)
    }

    constructor (window: int)
      ensures Valid() && pending == map[] && requests == [] && this.window == window
    {
      this.window := window;
      pending := map[];
      requests := [];
    }

    /** The caller waits on a young enough request with its key, or leads a new one. */
    method Get(key: string, now: int) returns (id: nat, isWaiter: bool)
      requires Valid()
      modifies this
      ensures Valid()
      ensures isWaiter <==> key in old(pending) && now < old(requests)[old(pending)[key]].created + window
      ensures isWaiter ==> id == old(pending)[key] && pending == old(pending) && requests == Awaited(old(requests), id)
      ensures !isWaiter ==>
                && id == |old(requests)| && pending == old(pending)[key := id]
                && requests == old(requests) + [Request(key, now, 1, 0, None)]
    {
      if key in pending {
        var req := pending[key];
        if now - requests[req].created < window {
          requests := requests[req := requests[req].(waiters := requests[req].waiters + 1)];
          return req, true;
        }
        pending := pending - {key};
      }
      id := |requests|;
      requests := requests + [Request(key, now, 1, 0, None)];
      pending := pending[key := id];
      isWaiter := false;
    }

    /** The first critical section of Complete: the request filed under the key leaves the map. */
    method Take(key: string) returns (taken: Option<nat>)
      requires Valid()
      modifies this`pending
      ensures Valid()
      ensures key !in pending && pending == old(pending) - {key}
      ensures taken == if key in old(pending) then Some(old(pending)[key]) else None
      ensures taken.Some? ==> Unfinished(taken.value, key, requests)
    {
      if key !in pending {
        return None;
      }
      taken := Some(pending[key]);
      pending := pending - {key};
    }

    /** The second one: the outcome is stored and the done channel closed, for the first time. */
    method Close(req: nat, outcome: Outcome)
      requires Valid() && req < |requests| && requests[req].closed == 0
      requires forall k <- pending :: pending[k] != req
      modifies this`requests
      ensures Valid()
      ensures requests == old(requests)[req := Closed(old(requests)[req], outcome)]
      ensures requests[req].closed == 1
    {
      requests := requests[req := requests[req].(closed := requests[req].closed + 1, outcome := Some(outcome))];
    }
  }

  // ----- Interleavings -----

  datatype Leader = Running | Closing(target: nat, own: Outcome) | Finished(own: Outcome)

  /** The pool, the leader of each request, the requests that waiters joined, and the requests that
      a Get removed because they were too old. */
  datatype State = State(pending: Pending, requests: seq<Request>, leaders: seq<Leader>, joined: seq<nat>,
                         evicted: set<nat>)

  const START := State(map[], [], [], [], {})

  datatype Action =
    | Get(key: string, now: int)
    | Take(leader: nat, outcome: Outcome)
    | Close(leader: nat)

  predicate Enabled(s: State, a: Action) {
    match a
    case Get(_, _) => true
    case Take(i, _) => i < |s.leaders| && i < |s.requests| && s.leaders[i].Running?
    case Close(i) => i < |s.leaders| && s.leaders[i].Closing? && s.leaders[i].target < |s.requests|
  }

  function Next(window: int, s: State, a: Action): State
    requires Enabled(s, a)
  {
    match a
    case Get(key, now) =>
      if Joins(s.pending, s.requests, window, key, now) then
        var id := s.pending[key];
        s.(requests := Awaited(s.requests, id), joined := s.joined + [id])
      else
        State(s.pending[key := |s.requests|], s.requests + [Created(key, now)], s.leaders + [Running], s.joined,
              if key in s.pending then s.evicted + {s.pending[key]} else s.evicted)
    case Take(i, o) =>
      var key := s.requests[i].key;
      s.(pending := s.pending - {key},
         leaders := s.leaders[i := if key in s.pending then Closing(s.pending[key], o) else Finished(o)])
    case Close(i) =>
      var Closing(t, o) := s.leaders[i];
      s.(requests := s.requests[t := Closed(s.requests[t], o)], leaders := s.leaders[i := Finished(o)])
  }

  function Run(window: int, actions: seq<Action>): Option<State> {
    if actions == [] then Some(START)
    else
      var before, a := Run(window, actions[..|actions| - 1]), actions[|actions| - 1];
      if before.Some? && Enabled(before.value, a) then Some(Next(window, before.value, a)) else None
  }

  ghost predicate Filed(s: State, t: nat) {
    t < |s.requests| && s.requests[t].key in s.pending && s.pending[s.requests[t].key] == t
  }

  ghost predicate InHand(s: State, t: nat) {
    exists i :: 0 <= i < |s.leaders| && s.leaders[i].Closing? && s.leaders[i].target == t
  }

  /** Pending requests are unfinished and filed under their own key, and no done channel is closed
      twice. */
  ghost predicate PoolSound(s: State) {
    && |s.leaders| == |s.requests|
    && (forall k <- s.pending :: Unfinished(s.pending[k], k, s.requests))
    && (forall t :: 0 <= t < |s.requests| ==> s.requests[t].closed <= 1)
    && (forall w :: 0 <= w < |s.joined| ==> s.joined[w] < |s.requests|)
  }

  /** A request in a leader's hands is unfinished, of that leader's key, no longer pending, and in
      nobody else's hands. */
  ghost predicate HandsSound(s: State) {
    && |s.leaders| == |s.requests|
    && (forall i :: 0 <= i < |s.leaders| && s.leaders[i].Closing? ==>
                      Unfinished(s.leaders[i].target, s.requests[i].key, s.requests) && !Filed(s, s.leaders[i].target))
    && (forall i, j :: 0 <= i < j < |s.leaders| && s.leaders[i].Closing? && s.leaders[j].Closing? ==>
                         s.leaders[i].target != s.leaders[j].target)
  }

  /** An evicted request is out of everybody's reach, its done channel open. */
  ghost predicate EvictedStranded(s: State) {
    forall t <- s.evicted :: t < |s.requests| && s.requests[t].closed == 0 && !Filed(s, t) && !InHand(s, t)
  }

  ghost predicate Sound(s: State) {
    PoolSound(s) && HandsSound(s) && EvictedStranded(s)
  }

  lemma StepPoolSound(window: int, s: State, a: Action)
    requires PoolSound(s) && HandsSound(s) && Enabled(s, a)
    ensures PoolSound(Next(window, s, a))
  {
  }

  lemma GetHandsSound(window: int, s: State, a: Action)
    requires PoolSound(s) && HandsSound(s) && a.Get?
    ensures HandsSound(Next(window, s, a))
  {
  }

  lemma LeaderHandsSound(window: int, s: State, a: Action)
    requires PoolSound(s) && HandsSound(s) && Enabled(s, a) && !a.Get?
    ensures HandsSound(Next(window, s, a))
  {
  }

  lemma StepStranded(window: int, s: State, a: Action)
    requires Sound(s) && Enabled(s, a)
    ensures EvictedStranded(Next(window, s, a))
  {
  }

  /** In every interleaving the pool, the leaders' hands and the evicted requests are in order. */
  lemma {:induction false} RunsAreSound(window: int, actions: seq<Action>)
    ensures var r := Run(window, actions); r.Some? ==> Sound(r.value)
  {
    hide Next, Enabled;
    if actions != [] && Run(window, actions).Some? {
      hide PoolSound, HandsSound, EvictedStranded;
      var n := |actions| - 1;
      RunsAreSound(window, actions[..n]);
      var s := Run(window, actions[..n]).value;
      StepPoolSound(window, s, actions[n]);
      StepStranded(window, s, actions[n]);
      if actions[n].Get? {
        GetHandsSound(window, s, actions[n]);
      } else {
        LeaderHandsSound(window, s, actions[n]);
      }
    }
  }

  // ----- Who gets which outcome -----

  /** No request with this key was evicted. */
  ghost predicate Undisturbed(s: State, key: string) {
    forall t <- s.evicted :: t < |s.requests| ==> s.requests[t].key != key
  }

  /** The stage of request `t` follows the stage of the leader that created it. */
  ghost predicate Follows(s: State, t: nat)
    requires t < |s.requests| && t < |s.leaders|
  {
    match s.leaders[t]
    case Running => Filed(s, t) && s.requests[t].closed == 0
    case Closing(target, _) => target == t && s.requests[t].closed == 0
    case Finished(_) => Served(s, t)
  }

  /** Request `t` was closed once, with its own leader's outcome. */
  ghost predicate Served(s: State, t: nat) {
    && t < |s.requests| && t < |s.leaders| && s.leaders[t].Finished?
    && s.requests[t].closed == 1 && s.requests[t].outcome == Some(s.leaders[t].own)
  }

  ghost predicate KeyFollows(s: State, key: string) {
    |s.leaders| == |s.requests| && forall t :: 0 <= t < |s.requests| && s.requests[t].key == key ==> Follows(s, t)
  }

  lemma StepFollows(window: int, s: State, a: Action, key: string)
    requires Sound(s) && Enabled(s, a)
    requires Undisturbed(s, key) ==> KeyFollows(s, key)
    ensures var t := Next(window, s, a); Undisturbed(t, key) ==> KeyFollows(t, key)
  {
  }

  /** In every interleaving, every request of a key without evictions is at its own leader's stage. */
  lemma {:induction false} RunsFollow(window: int, actions: seq<Action>, key: string)
    ensures var r := Run(window, actions); r.Some? && Undisturbed(r.value, key) ==> KeyFollows(r.value, key)
  {
    hide Next, Enabled;
    if actions != [] && Run(window, actions).Some? {
      hide KeyFollows, Undisturbed;
      var n := |actions| - 1;
      RunsFollow(window, actions[..n], key);
      RunsAreSound(window, actions[..n]);
      StepFollows(window, Run(window, actions[..n]).value, actions[n], key);
    }
  }

  /** In every interleaving, once a leader of a key without evictions has finished, each waiter on
      its request sees that leader's outcome. */
  lemma WaitersSeeTheirLeader(window: int, actions: seq<Action>, w: nat)
    requires Run(window, actions).Some? && w < |Run(window, actions).value.joined|
    ensures var s := Run(window, actions).value; var t := s.joined[w];
            && t < |s.requests| == |s.leaders|
            && (Undisturbed(s, s.requests[t].key) && s.requests[t].closed > 0 ==> Served(s, t))
  {
    hide Run;
    RunsAreSound(window, actions);
    var s := Run(window, actions).value;
    RunsFollow(window, actions, s.requests[s.joined[w]].key);
  }

  /** When all leaders have finished, the requests of a key were all closed, each with its own
      leader's outcome, if and only if no Get evicted one of them. */
  lemma ServedIffUndisturbed(window: int, actions: seq<Action>, key: string)
    requires Run(window, actions).Some?
    requires forall i :: 0 <= i < |Run(window, actions).value.leaders| ==>
             Run(window, actions).value.leaders[i].Finished?
    ensures var s := Run(window, actions).value;
            (forall t :: 0 <= t < |s.requests| && s.requests[t].key == key ==> Served(s, t)) <==> Undisturbed(s, key)
  {
    hide Run;
    RunsAreSound(window, actions);
    RunsFollow(window, actions, key);
  }

  // ----- Who waits, and who is evicted -----

  /** The same runs told without the pool: when the last leading Get of each key came, for keys whose
      request nobody has taken since, and the keys of all leading Gets. */
  datatype Story = Story(filed: map<string, int>, led: seq<string>)

  function Told(window: int, actions: seq<Action>): Story {
    if actions == [] then Story(map[], [])
    else
      var before := Told(window, actions[..|actions| - 1]);
      match actions[|actions| - 1]
      case Get(key, now) =>
        if key in before.filed && now < before.filed[key] + window then before
        else Story(before.filed[key := now], before.led + [key])
      case Take(i, _) => if i < |before.led| then before.(filed := before.filed - {before.led[i]}) else before
      case Close(_) => before
  }

  /** Request by request the pool is as told. */
  ghost predicate AsTold(s: State, story: Story) {
    && |s.requests| == |story.led| == |s.leaders|
    && (forall t :: 0 <= t < |s.requests| ==> s.requests[t].key == story.led[t])
    && s.pending.Keys == story.filed.Keys
    && (forall k <- s.pending :: s.pending[k] < |s.requests| && s.requests[s.pending[k]].created == story.filed[k])
  }

  lemma StepAsTold(window: int, s: State, story: Story, a: Action)
    requires AsTold(s, story) && Enabled(s, a)
    ensures var next := match a
                        case Get(key, now) =>
                          if key in story.filed && now < story.filed[key] + window then story
                          else Story(story.filed[key := now], story.led + [key])
                        case Take(i, _) => story.(filed := story.filed - {story.led[i]})
                        case Close(_) => story;
            AsTold(Next(window, s, a), next)
  {
  }

  lemma {:induction false} RunsAreAsTold(window: int, actions: seq<Action>)
    ensures var r := Run(window, actions); r.Some? ==> AsTold(r.value, Told(window, actions))
  {
    hide Next, AsTold, Enabled;
    if actions == [] {
      NothingTold();
    } else if Run(window, actions).Some? {
      var n := |actions| - 1;
      RunsAreAsTold(window, actions[..n]);
      var s, story := Run(window, actions[..n]).value, Told(window, actions[..n]);
      StepAsTold(window, s, story, actions[n]);
      LeaderIsTold(s, story, actions[n]);
    }
  }

  lemma NothingTold()
    ensures AsTold(START, Story(map[], []))
  {
  }

  lemma LeaderIsTold(s: State, story: Story, a: Action)
    requires AsTold(s, story) && Enabled(s, a)
    ensures a.Take? ==> a.leader < |story.led|
  {
  }

  /** In every run a Get becomes a waiter if and only if the last leading Get of its key came less than
      the window ago and nobody has taken that request; otherwise it leads, and evicts the request of
      its key that is still filed, if any. */
  lemma GetWaitsIff(window: int, actions: seq<Action>, key: string, now: int)
    requires Run(window, actions).Some?
    ensures var story, s := Told(window, actions), Run(window, actions).value;
            var after := Run(window, actions + [Get(key, now)]);
            && after.Some? && (key in story.filed <==> key in s.pending)
            && (key in s.pending ==> s.pending[key] < |s.requests| <= |after.value.requests|)
            && (if key in story.filed && now < story.filed[key] + window then
                  && after.value.requests[s.pending[key]].waiters == s.requests[s.pending[key]].waiters + 1
                  && after.value.joined == s.joined + [s.pending[key]] && |after.value.requests| == |s.requests|
                  && after.value.evicted == s.evicted && s.requests[s.pending[key]].key == key
                else
                  && after.value.joined == s.joined && |after.value.requests| == |s.requests| + 1
                  && after.value.requests[|s.requests|] == Request(key, now, 1, 0, None)
                  && after.value.evicted == s.evicted + if key in story.filed then {s.pending[key]} else {})
  {
    RunsAreAsTold(window, actions);
    RunsAreSound(window, actions);
    hide Run, Told;
    var s := Run(window, actions).value;
    var longer := RunSnoc(window, actions, s, Get(key, now));
  }

  /** Action j is a Get of the request's key that comes the window or more after the request was
      created and finds it filed. */
  ghost predicate EvictedBy(window: int, actions: seq<Action>, t: nat, j: nat)
    requires j < |actions| && Run(window, actions).Some? && t < |Run(window, actions).value.requests|
  {
    var r := Run(window, actions).value.requests[t];
    && actions[j].Get? && actions[j].key == r.key && actions[j].now - r.created >= window
    && var before := Run(window, actions[..j]);
       before.Some? && Filed(before.value, t)
  }

  /** In every run a request was evicted if and only if such a Get came. */
  lemma {:induction false} EvictedIff(window: int, actions: seq<Action>, t: nat)
    requires Run(window, actions).Some? && t < |Run(window, actions).value.requests|
    ensures t in Run(window, actions).value.evicted
            <==> exists j :: 0 <= j < |actions| && EvictedBy(window, actions, t, j)
  {
    RunsAreSound(window, actions);
    if actions != [] {
      var n := |actions| - 1;
      var before, after := Run(window, actions[..n]).value, Run(window, actions).value;
      RunsAreSound(window, actions[..n]);
      EvictionStep(window, before, actions[n], t);
      hide Run, Next, Sound, Filed;
      if t < |before.requests| {
        EvictedIff(window, actions[..n], t);
        forall j | 0 <= j < n
          ensures EvictedBy(window, actions, t, j) <==> EvictedBy(window, actions[..n], t, j)
        {
          assert actions[..n][..j] == actions[..j];
        }
      } else {
        forall j | 0 <= j < n
          ensures !EvictedBy(window, actions, t, j)
        {
          NotYetFiled(window, actions, n, j, t);
        }
      }
      assert t in after.evicted <==> (t < |before.requests| && t in before.evicted) || EvictedBy(window, actions, t, n);
    }
  }

  lemma EvictionStep(window: int, s: State, a: Action, t: nat)
    requires Sound(s) && Enabled(s, a) && t < |Next(window, s, a).requests|
    ensures var after := Next(window, s, a);
            && |s.requests| <= |after.requests|
            && (t < |s.requests| ==>
                after.requests[t].key == s.requests[t].key && after.requests[t].created == s.requests[t].created)
            && (t in after.evicted <==>
                  || t in s.evicted
                  || (a.Get? && a.key == after.requests[t].key && a.now - after.requests[t].created >= window
                      && Filed(s, t)))
            && (t in s.evicted ==> t < |s.requests|)
  {
  }

  lemma {:induction false} NotYetFiled(window: int, actions: seq<Action>, n: nat, j: nat, t: nat)
    requires j <= n <= |actions| && Run(window, actions[..n]).Some? && t >= |Run(window, actions[..n]).value.requests|
    ensures var before := Run(window, actions[..j]);
            before.Some? && !Filed(before.value, t) && t >= |before.value.requests|
    decreases n - j
  {
    if j < n {
      assert actions[..n][..n - 1] == actions[..n - 1];
      NotYetFiled(window, actions, n - 1, j, t);
    }
  }

  function HowOften(joined: seq<nat>, t: nat): nat {
    if joined == [] then 0
    else HowOften(joined[..|joined| - 1], t) + if joined[|joined| - 1] == t then 1 else 0
  }

  /** A request counts its leader and everybody who joined it. */
  lemma {:induction false} WaitersAreCounted(window: int, actions: seq<Action>, t: nat)
    requires Run(window, actions).Some? && t < |Run(window, actions).value.requests|
    ensures var s := Run(window, actions).value; s.requests[t].waiters == 1 + HowOften(s.joined, t)
  {
    var n := |actions| - 1;
    var before, after := Run(window, actions[..n]).value, Run(window, actions).value;
    RunsAreSound(window, actions[..n]);
    if t < |before.requests| {
      WaitersAreCounted(window, actions[..n], t);
      assert |after.joined| > |before.joined| ==> after.joined[..|before.joined|] == before.joined;
    } else {
      NobodyJoined(before.joined, t);
    }
  }

  lemma {:induction false} NobodyJoined(joined: seq<nat>, t: nat)
    requires forall w :: 0 <= w < |joined| ==> joined[w] < t
    ensures HowOften(joined, t) == 0
  {
    if joined != [] {
      NobodyJoined(joined[..|joined| - 1], t);
    }
  }

  lemma RunSnoc(window: int, actions: seq<Action>, s: State, a: Action) returns (longer: seq<Action>)
    requires Run(window, actions) == Some(s) && Enabled(s, a)
    ensures longer == actions + [a] && Run(window, longer) == Some(Next(window, s, a))
  {
    longer := actions + [a];
    assert longer[..|actions|] == actions;
  }

  /** With a slow leader and any window, a second leader's waiter is handed the first one's outcome,
      and a waiter on the first request waits for ever. */
  lemma SlowLeaderMisleads(window: int, key: string, slow: Outcome, quick: Outcome) returns (actions: seq<Action>)
    requires window > 0 && slow != quick
    ensures Run(window, actions).Some?
    ensures var s := Run(window, actions).value;
            && s.leaders == [Finished(slow), Finished(quick)] && s.joined == [0, 1]
            && |s.requests| == 2 && s.requests[0].closed == 0
            && s.requests[1].closed == 1 && s.requests[1].outcome == Some(slow)
  {
    hide Run;
    actions := TwoLeaders(window, key);
    actions := RunSnoc(window, actions, Run(window, actions).value, Take(0, slow));
    actions := RunSnoc(window, actions, Run(window, actions).value, Close(0));
    actions := RunSnoc(window, actions, Run(window, actions).value, Take(1, quick));
  }

  lemma TwoLeaders(window: int, key: string) returns (actions: seq<Action>)
    requires window > 0
    ensures Run(window, actions).Some?
    ensures var s := Run(window, actions).value;
            && s.leaders == [Running, Running] && s.joined == [0, 1] && s.pending == map[key := 1] && |s.requests| == 2
            && forall i :: 0 <= i < 2 ==> s.requests[i].key == key && s.requests[i].closed == 0
  {
    hide Run;
    EmptyRun(window);
    actions := RunSnoc(window, [], START, Get(key, 0));
    actions := RunSnoc(window, actions, Run(window, actions).value, Get(key, 0));
    actions := RunSnoc(window, actions, Run(window, actions).value, Get(key, window));
    actions := RunSnoc(window, actions, Run(window, actions).value, Get(key, window));
  }

  lemma EmptyRun(window: int)
    ensures Run(window, []) == Some(START)
  {
  }
}
