/** The WebSocket hub: connections that hold topics, and the index of subscribers by topic. Times
    are nanoseconds. */
module Hub {
  import opened Basics

  const STALE_AFTER := 2 * 60 * 1_000_000_000

  datatype Conn = Conn(topics: set<string>, lastPing: int)

  type Connections = map<string, Conn>

  /** Subscriptions as pairs of a topic and a connection. */
  type Index = set<(string, string)>

  /** The connections, and who is in which topic's subscriber set. */
  datatype State = State(connections: Connections, index: Index)

  datatype Action =
    | Subscribe(id: string, topic: string)
    | Unsubscribe(id: string, topic: string)
    | Register(id: string, conn: Conn)
    | Unregister(id: string)
    | Ping(id: string, now: int)
    | Cleanup(now: int)

  function Entered(index: Index, topics: set<string>, id: string): Index {
    index + set topic <- topics :: (topic, id)
  }

  /** The index without the topics that these connections hold. */
  function StruckOut(index: Index, gone: Connections): Index {
    set entry <- index | !(entry.1 in gone && entry.0 in gone[entry.1].topics)
  }

  function StruckOne(index: Index, topics: set<string>, id: string): Index {
    set entry <- index | !(entry.1 == id && entry.0 in topics)
  }

  function StaleOnes(connections: Connections, now: int): Connections {
    map id <- connections | now - connections[id].lastPing > STALE_AFTER :: connections[id]
  }

  function Retopic(connections: Connections, id: string, add: set<string>, remove: set<string>): Connections {
    if id !in connections then connections
    else connections[id := connections[id].(topics := connections[id].topics + add - remove)]
  }

  function Next(s: State, a: Action): State {
    match a
    case Subscribe(id, topic) => State(Retopic(s.connections, id, {topic}, {}), Entered(s.index, {topic}, id))
    case Unsubscribe(id, topic) => State(Retopic(s.connections, id, {}, {topic}), s.index - {(topic, id)})
    case Register(id, conn) => State(s.connections[id := conn], Entered(s.index, conn.topics, id))
    case Unregister(id) =>
      if id !in s.connections then s
      else State(s.connections - {id}, StruckOut(s.index, map[id := s.connections[id]]))
    case Ping(id, now) =>
      if id !in s.connections then s else s.(connections := s.connections[id := s.connections[id].(lastPing := now)])
    case Cleanup(now) =>
      var gone := StaleOnes(s.connections, now);
      State(s.connections - gone.Keys, StruckOut(s.index, gone))
  }

  type Subscribers = map<string, set<string>>

  ghost function Pairs(subscribers: Subscribers): Index {
    set topic, id | topic in subscribers && id in subscribers[topic] :: (topic, id)
  }

  class WebSocketHub {
    var connections: Connections
    var subscribers: Subscribers

    /** No topic has an empty subscriber set. */
    ghost predicate Valid()
      reads this
    {
      forall topic <- subscribers :: subscribers[topic] != {}
    }

    ghost function View(): State
      reads this
    {
      State(connections, Pairs(subscribers))
    }

    constructor ()
      ensures Valid() && View() == START
    {
      connections, subscribers := map[], map[];
    }

    method Enter(topic: string, id: string)
      requires Valid()
      modifies this`subscribers
      ensures Valid() && Pairs(subscribers) == Pairs(old(subscribers)) + {(topic, id)}
    {
      if topic !in subscribers {
        subscribers := subscribers[topic := {}];
      }
      subscribers := subscribers[topic := subscribers[topic] + {id}];
    }

    method StrikeOut(topic: string, id: string)
      requires Valid()
      modifies this`subscribers
      ensures Valid() && Pairs(subscribers) == Pairs(old(subscribers)) - {(topic, id)}
    {
      if topic in subscribers {
        subscribers := subscribers[topic := subscribers[topic] - {id}];
        if subscribers[topic] == {} {
          subscribers := subscribers - {topic};
        }
      }
      forall t, c
        ensures (t, c) in Pairs(subscribers) <==> (t, c) in Pairs(old(subscribers)) - {(topic, id)}
      {
        InPairs(subscribers, t, c);
        InPairs(old(subscribers), t, c);
        if topic in old(subscribers) {
          assert c in old(subscribers)[topic] - {id} <==> c in old(subscribers)[topic] && c != id;
        }
      }
    }

    method StrikeOutAll(topics: set<string>, id: string)
      requires Valid()
      modifies this`subscribers
      ensures Valid() && Pairs(subscribers) == StruckOne(Pairs(old(subscribers)), topics, id)
    {
      hide Pairs;
      var rest := topics;
      while rest != {}
        invariant rest <= topics && Valid()
        invariant Pairs(subscribers) == StruckOne(Pairs(old(subscribers)), topics - rest, id)
        decreases |rest|
      {
        var topic :| topic in rest;
        StrikeOut(topic, id);
        rest := rest - {topic};
      }
    }

    method DoSubscribe(id: string, topic: string)
      requires Valid()
      modifies this
      ensures Valid() && View() == Next(old(View()), Subscribe(id, topic))
    {
      hide Pairs;
      Enter(topic, id);
      if id in connections {
        assert connections[id].topics + {topic} - {} == connections[id].topics + {topic};
        connections := connections[id := connections[id].(topics := connections[id].topics + {topic})];
      }
    }

    method DoUnsubscribe(id: string, topic: string)
      requires Valid()
      modifies this
      ensures Valid() && View() == Next(old(View()), Unsubscribe(id, topic))
    {
      hide Pairs;
      StrikeOut(topic, id);
      if id in connections {
        assert connections[id].topics + {} - {topic} == connections[id].topics - {topic};
        connections := connections[id := connections[id].(topics := connections[id].topics - {topic})];
      }
    }

    method HandleRegister(id: string, conn: Conn)
      requires Valid()
      modifies this
      ensures Valid() && View() == Next(old(View()), Register(id, conn))
    {
      hide Pairs;
      connections := connections[id := conn];
      var rest := conn.topics;
      while rest != {}
        invariant rest <= conn.topics && Valid() && connections == old(connections)[id := conn]
        invariant Pairs(subscribers) == Entered(Pairs(old(subscribers)), conn.topics - rest, id)
        decreases |rest|
      {
        var topic :| topic in rest;
        Enter(topic, id);
        rest := rest - {topic};
      }
    }

    method HandleUnregister(id: string)
      requires Valid()
      modifies this
      ensures Valid() && View() == Next(old(View()), Unregister(id))
    {
      hide Pairs;
      if id in connections {
        StrikeOutAll(connections[id].topics, id);
        connections := connections - {id};
      }
    }

    /** Something was read from the connection. */
    method RefreshPing(id: string, now: int)
      requires Valid()
      modifies this
      ensures Valid() && View() == Next(old(View()), Ping(id, now))
    {
      hide Pairs;
      if id in connections {
        connections := connections[id := connections[id].(lastPing := now)];
      }
    }

    /** The connections that a message on `topic` is sent to. */
    method HandleBroadcast(topic: string, exclude: string) returns (targets: set<string>)
      ensures targets == Targets(View(), topic, exclude)
    {
      if topic !in subscribers || subscribers[topic] == {} {
        return {};
      }
      var ids := set id <- subscribers[topic] | id != exclude;
      targets := set id <- ids | id in connections;
    }

    method CleanupStaleConnections(now: int)
      requires Valid()
      modifies this
      ensures Valid() && View() == Next(old(View()), Cleanup(now))
    {
      hide Pairs, StruckOut, StruckOne, StaleOnes, Next, Sweeping;
      NoneStruck(Pairs(subscribers));
      var ids := connections.Keys;
      ghost var gone: Connections := map[];
      SweepStarts(connections, now);
      while ids != {}
        invariant ids <= connections.Keys && Valid()
        invariant Sweeping(old(connections), connections, gone, ids, now)
        invariant Pairs(subscribers) == StruckOut(Pairs(old(subscribers)), gone)
        decreases |ids|
      {
        var id :| id in ids;
        SweepOne(old(connections), connections, gone, ids, id, now);
        ids := ids - {id};
        var conn := connections[id];
        if now - conn.lastPing > STALE_AFTER {
          connections := connections - {id};
          OneMoreStruck(Pairs(old(subscribers)), gone, id, conn);
          StrikeOutAll(conn.topics, id);
          gone := gone[id := conn];
        }
      }
      CleanedUp(old(View()), connections, gone, now);
    }
  }

  /** Of the connections not in `ids`, the stale ones are gone, and no others. */
  ghost predicate Sweeping(all: Connections, left: Connections, gone: Connections, ids: set<string>, now: int) {
    && gone.Keys <= all.Keys && left == all - gone.Keys
    && (forall id <- gone :: gone[id] == all[id] && id !in ids)
    && (forall id <- all :: id in ids || (id in gone <==> now - all[id].lastPing > STALE_AFTER))
  }

  lemma SweepStarts(all: Connections, now: int)
    ensures Sweeping(all, all, map[], all.Keys, now)
  {
  }

  lemma SweepOne(all: Connections, left: Connections, gone: Connections, ids: set<string>, id: string, now: int)
    requires Sweeping(all, left, gone, ids, now) && id in ids && ids <= left.Keys
    ensures id !in gone
    ensures if now - left[id].lastPing > STALE_AFTER
            then Sweeping(all, left - {id}, gone[id := left[id]], ids - {id}, now)
            else Sweeping(all, left, gone, ids - {id}, now)
  {
  }

  lemma CleanedUp(s: State, left: Connections, gone: Connections, now: int)
    requires Sweeping(s.connections, left, gone, {}, now)
    ensures Next(s, Cleanup(now)) == State(left, StruckOut(s.index, gone))
  {
    assert gone == StaleOnes(s.connections, now);
  }

  lemma InPairs(subscribers: Subscribers, topic: string, id: string)
    ensures (topic, id) in Pairs(subscribers) <==> topic in subscribers && id in subscribers[topic]
  {
  }

  lemma NoneStruck(index: Index)
    ensures StruckOut(index, map[]) == index
  {
  }

  lemma OneMoreStruck(index: Index, gone: Connections, id: string, conn: Conn)
    requires id !in gone
    ensures StruckOut(index, gone[id := conn]) == StruckOne(StruckOut(index, gone), conn.topics, id)
  {
  }

  // ----- Runs -----

  const START := State(map[], {})

  function Run(actions: seq<Action>): State {
    if actions == [] then START else Next(Run(actions[..|actions| - 1]), actions[|actions| - 1])
  }

  predicate Holds(s: State, id: string, topic: string) {
    id in s.connections && topic in s.connections[id].topics
  }

  /** A registered connection is in the subscriber set of each topic it holds. */
  ghost predicate Covers(s: State) {
    forall id, topic :: Holds(s, id, topic) ==> (topic, id) in s.index
  }

  /** The index lists exactly what registered connections hold. */
  ghost predicate Exact(s: State) {
    forall id, topic :: Holds(s, id, topic) <==> (topic, id) in s.index
  }

  /** Subscribing a connection that is not registered, or registering one again with fewer topics. */
  predicate Leaks(s: State, a: Action) {
    || (a.Subscribe? && a.id !in s.connections)
    || (a.Register? && a.id in s.connections && !(s.connections[a.id].topics <= a.conn.topics))
  }

  lemma StepCovers(s: State, a: Action)
    requires Covers(s)
    ensures Covers(Next(s, a))
  {
    forall id, topic | Holds(Next(s, a), id, topic)
      ensures (topic, id) in Next(s, a).index
    {
      assert Holds(s, id, topic) ==> (topic, id) in s.index;
    }
  }

  /** From an exact state, the state after a step is exact if and only if the step does not leak. */
  lemma StepExactIff(s: State, a: Action)
    requires Exact(s)
    ensures Exact(Next(s, a)) <==> !Leaks(s, a)
  {
    var t := Next(s, a);
    if a.Subscribe? && a.id !in s.connections {
      assert (a.topic, a.id) in t.index && !Holds(t, a.id, a.topic);
    } else if Leaks(s, a) {
      var topic :| topic in s.connections[a.id].topics && topic !in a.conn.topics;
      assert Holds(s, a.id, topic) && (topic, a.id) in t.index && !Holds(t, a.id, topic);
    } else {
      forall id, topic
        ensures Holds(t, id, topic) <==> (topic, id) in t.index
      {
        assert Holds(s, id, topic) <==> (topic, id) in s.index;
      }
    }
  }

  /** In every run each registered connection is listed under every topic it holds. */
  lemma {:induction false} RunsCover(actions: seq<Action>)
    ensures Covers(Run(actions))
  {
    if actions != [] {
      RunsCover(actions[..|actions| - 1]);
      StepCovers(Run(actions[..|actions| - 1]), actions[|actions| - 1]);
    }
  }

  ghost predicate NoLeaks(actions: seq<Action>) {
    forall i :: 0 <= i < |actions| ==> !Leaks(Run(actions[..i]), actions[i])
  }

  /** Every state of a run is exact if and only if no step leaks. */
  lemma {:induction false} RunsExactIffNoLeaks(actions: seq<Action>)
    ensures (forall n :: 0 <= n <= |actions| ==> Exact(Run(actions[..n]))) <==> NoLeaks(actions)
  {
    hide Next, Exact, Leaks;
    if forall n :: 0 <= n <= |actions| ==> Exact(Run(actions[..n])) {
      forall i | 0 <= i < |actions|
        ensures !Leaks(Run(actions[..i]), actions[i])
      {
        assert actions[..i + 1][..i] == actions[..i];
        StepExactIff(Run(actions[..i]), actions[i]);
        assert Exact(Run(actions[..i + 1]));
      }
    }
    if NoLeaks(actions) {
      forall n | 0 <= n <= |actions|
        ensures Exact(Run(actions[..n]))
      {
        StaysExact(actions, n);
      }
    }
  }

  lemma {:induction false} StaysExact(actions: seq<Action>, n: nat)
    requires NoLeaks(actions) && n <= |actions|
    ensures Exact(Run(actions[..n]))
  {
    if n > 0 {
      StaysExact(actions, n - 1);
      assert actions[..n][..n - 1] == actions[..n - 1];
      StepExactIff(Run(actions[..n - 1]), actions[n - 1]);
    }
  }

  // ----- One connection's story -----

  /** When a connection last gave a sign of life while registered, the topics it holds, and those it is
      listed under. */
  datatype Story = Story(seen: Option<int>, topics: set<string>, listed: set<string>)

  function Gone(st: Story): Story {
    Story(None, {}, st.listed - st.topics)
  }

  /** The same told from the actions alone, for one connection and without the index. */
  function Told(actions: seq<Action>, id: string): Story {
    if actions == [] then Story(None, {}, {})
    else
      var st, a := Told(actions[..|actions| - 1], id), actions[|actions| - 1];
      match a
      case Cleanup(now) => if st.seen.Some? && now > st.seen.value + 120_000_000_000 then Gone(st) else st
      case Subscribe(i, topic) =>
        if i != id then st
        else Story(st.seen, if st.seen.Some? then st.topics + {topic} else {}, st.listed + {topic})
      case Unsubscribe(i, topic) => if i != id then st else Story(st.seen, st.topics - {topic}, st.listed - {topic})
      case Register(i, conn) =>
        if i != id then st else Story(Some(conn.lastPing), conn.topics, st.listed + conn.topics)
      case Unregister(i) => if i != id || st.seen.None? then st else Gone(st)
      case Ping(i, now) => if i != id || st.seen.None? then st else st.(seen := Some(now))
  }

  ghost predicate AsTold(s: State, id: string, st: Story) {
    && (id in s.connections <==> st.seen.Some?)
    && (id in s.connections ==> s.connections[id] == Conn(st.topics, st.seen.value))
    && (st.seen.None? ==> st.topics == {})
    && forall topic :: (topic, id) in s.index <==> topic in st.listed
  }

  /** In every run a connection is registered if and only if it was registered, not unregistered since,
      and no cleanup came more than two minutes after its last registration or read; it holds and is
      listed under just the topics told. */
  lemma {:induction false} RunsAreAsTold(actions: seq<Action>, id: string)
    ensures AsTold(Run(actions), id, Told(actions, id))
  {
    if actions != [] {
      RunsAreAsTold(actions[..|actions| - 1], id);
    }
  }

  /** Who a broadcast reaches. */
  function Targets(s: State, topic: string, exclude: string): set<string> {
    set id <- s.connections | (topic, id) in s.index && id != exclude
  }

  /** In every run a broadcast reaches all registered holders of the topic but the excluded one, and
      in a run without leaks nobody else. */
  lemma BroadcastReaches(actions: seq<Action>, topic: string, exclude: string)
    ensures var s := Run(actions); var holders := set id <- s.connections | Holds(s, id, topic) && id != exclude;
            && holders <= Targets(s, topic, exclude)
            && (NoLeaks(actions) ==> Targets(s, topic, exclude) == holders)
  {
    hide Run;
    RunsCover(actions);
    if NoLeaks(actions) {
      StaysExact(actions, |actions|);
      assert actions[..|actions|] == actions;
    }
  }

  /** Registration is queued: a subscription that overtakes it gets the connection messages on a
      topic it does not hold, and outlives it. */
  lemma EarlySubscriptionLeaks(id: string, topic: string, conn: Conn)
    requires topic !in conn.topics
    ensures var s := Run([Subscribe(id, topic), Register(id, conn)]);
            !Holds(s, id, topic) && (id != "" ==> id in Targets(s, topic, ""))
    ensures var s := Run([Subscribe(id, topic), Register(id, conn), Unregister(id)]);
            id !in s.connections && (topic, id) in s.index
  {
    var one, two := [Subscribe(id, topic)], [Subscribe(id, topic), Register(id, conn)];
    var three := two + [Unregister(id)];
    assert one[..0] == [] && two[..1] == one && three[..2] == two;
    assert Run([]) == START;
    assert Run(one) == Next(START, one[0]);
    assert Run(two) == Next(Run(one), two[1]);
    assert three == [Subscribe(id, topic), Register(id, conn), Unregister(id)];
    assert Run(three) == Next(Run(two), three[2]);
  }

  /** Listed under a topic that it does not hold as a registered connection. */
  ghost predicate Leaked(s: State, id: string, topic: string) {
    (topic, id) in s.index && !Holds(s, id, topic)
  }

  /** The connection drops the topic, or takes it up again. */
  predicate Mends(a: Action, id: string, topic: string) {
    || (a.Unsubscribe? && a.id == id && a.topic == topic)
    || (a.Subscribe? && a.id == id && a.topic == topic)
    || (a.Register? && a.id == id && topic in a.conn.topics)
  }

  lemma StepLeavesLeak(s: State, a: Action, id: string, topic: string)
    requires Leaked(s, id, topic) && !Mends(a, id, topic)
    ensures Leaked(Next(s, a), id, topic)
  {
  }

  /** Nothing else removes a leaked subscription: no unregistering, no cleanup, no other step. */
  lemma {:induction false} LeaksStay(before: seq<Action>, after: seq<Action>, id: string, topic: string)
    requires Leaked(Run(before), id, topic) && forall i :: 0 <= i < |after| ==> !Mends(after[i], id, topic)
    ensures Leaked(Run(before + after), id, topic)
  {
    hide Next, Leaked, Mends;
    if after == [] {
      assert before + after == before;
    } else {
      var n := |after| - 1;
      LeaksStay(before, after[..n], id, topic);
      assert (before + after)[..|before| + n] == before + after[..n];
      StepLeavesLeak(Run(before + after[..n]), after[n], id, topic);
    }
  }
}
