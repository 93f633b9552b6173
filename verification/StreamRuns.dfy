/** Runs in which pushes and polls overlap: a push reserves an index and stores later, a poll looks up
    how many indices are reserved and then loads slot by slot. */
module StreamRuns {
  import opened Basics
  import opened Cycle
  import opened RealtimeStream

  // ----- What a poll finds -----

  /** The found indices up to the one delivered last, which is m - 1. */
  function UpTo(found: seq<nat>, m: nat): seq<nat> {
    if found == [] || (m > 0 && found[0] == m - 1) then [] else [found[0]] + UpTo(found[1..], m)
  }

  function Down(n: nat, from: nat): (r: seq<nat>)
    requires from <= n
    ensures |r| == n - from && forall i :: 0 <= i < |r| ==> r[i] == n - 1 - i
  {
    if n == from then [] else [n - 1] + Down(n - 1, from)
  }

  function Later(m: nat, low: nat): nat {
    if m > low then m else low
  }

  /** Every load from the one of index m - 1 on comes while its slot holds its own item. */
  ghost predicate FreshFrom(stores: seq<nat>, size: nat, n: nat, loads: seq<nat>, m: nat)
    requires size > 0 && |loads| <= n && AllBelow(loads, |stores| + 1)
  {
    forall i :: 0 <= i < |loads| && n - i >= m ==> Fresh(stores[..loads[i]], n - 1 - i, size)
  }

  lemma FreshFromFirst(stores: seq<nat>, size: nat, n: nat, loads: seq<nat>, m: nat)
    requires size > 0 && 0 < |loads| <= n && AllBelow(loads, |stores| + 1) && m <= n
    ensures AllBelow(loads[1..], |stores| + 1)
    ensures FreshFrom(stores, size, n, loads, m) <==>
              Fresh(stores[..loads[0]], n - 1, size) && FreshFrom(stores, size, n - 1, loads[1..], m)
  {
    hide Fresh;
    var rest := loads[1..];
    if Fresh(stores[..loads[0]], n - 1, size) && FreshFrom(stores, size, n - 1, rest, m) {
      forall i | 0 <= i < |loads| && n - i >= m
        ensures Fresh(stores[..loads[i]], n - 1 - i, size)
      {
        if i > 0 {
          assert rest[i - 1] == loads[i];
        }
      }
    }
  }

  /** An index whose slot is not read is not found. */
  lemma {:induction false} OthersNotFound(stores: seq<nat>, size: nat, n: nat, loads: seq<nat>, x: nat)
    requires size > 0 && |loads| <= n && AllBelow(loads, |stores| + 1)
    requires forall k :: n - |loads| <= k < n ==> Wrap(k, size) != Wrap(x, size)
    ensures x !in Indices(stores, size, n, loads)
    decreases |loads|
  {
    hide Wrap, Held;
    if loads != [] {
      OthersNotFound(stores, size, n - 1, loads[1..], x);
      HeldFits(stores[..loads[0]], Wrap(n - 1, size), size);
    }
  }

  /** A poll finds exactly the indices after the one delivered last, if and only if those loads are
      fresh. */
  lemma {:induction false} FoundExactlyIff(stores: seq<nat>, size: nat, n: nat, loads: seq<nat>, m: nat)
    requires size > 0 && |loads| <= n && |loads| <= size && AllBelow(loads, |stores| + 1) && m <= n
    requires m > 0 && m > n - |loads| ==> Held(stores[..loads[n - m]], Wrap(m - 1, size), size).Some?
    ensures UpTo(Indices(stores, size, n, loads), m) == Down(n, Later(m, n - |loads|))
            <==> FreshFrom(stores, size, n, loads, m)
    decreases |loads|
  {
    hide Wrap, Held, Fresh, Indices, FreshFrom, Down;
    var low := n - |loads|;
    if loads == [] {
      NothingRead(stores, size, n);
      NothingFresh(stores, size, n, m);
    } else {
      OneRead(stores, size, n, loads);
      FreshFromFirst(stores, size, n, loads, m);
      HeldIffFresh(stores[..loads[0]], n - 1, size);
      var held, older := Held(stores[..loads[0]], Wrap(n - 1, size), size), Indices(stores, size, n - 1, loads[1..]);
      if n == m {
        SeenBefore(stores, size, n - 1, loads[1..], m);
      } else {
        FoundExactlyIff(stores, size, n - 1, loads[1..], m);
        forall k | low <= k < n - 1
          ensures Wrap(k, size) != Wrap(n - 1, size)
        {
          WrapSeparates(k, n - 1, size);
        }
        OthersNotFound(stores, size, n - 1, loads[1..], n - 1);
        NextFound(held, older, n, m, Later(m, low));
      }
    }
  }

  lemma NextFound(held: Option<nat>, older: seq<nat>, n: nat, m: nat, from: nat)
    requires m < n && from < n && n - 1 !in older
    ensures var found := if held.Some? then [held.value] + older else older;
            UpTo(found, m) == Down(n, from) <==> held == Some(n - 1) && UpTo(older, m) == Down(n - 1, from)
  {
    var found := if held.Some? then [held.value] + older else older;
    assert Down(n, from) == [n - 1] + Down(n - 1, from);
    if held == Some(n - 1) {
      assert found[1..] == older;
      assert UpTo(found, m)[1..] == UpTo(older, m) && Down(n, from)[1..] == Down(n - 1, from);
    } else if UpTo(found, m) != [] {
      assert UpTo(found, m)[0] == found[0] && found[0] != n - 1;
    }
  }

  lemma NothingFresh(stores: seq<nat>, size: nat, n: nat, m: nat)
    requires size > 0 && m <= n
    ensures FreshFrom(stores, size, n, [], m) && Down(n, Later(m, n)) == []
  {
  }

  /** Loads of indices before m - 1 do not matter. */
  lemma SeenBefore(stores: seq<nat>, size: nat, n: nat, loads: seq<nat>, m: nat)
    requires size > 0 && |loads| <= n < m && AllBelow(loads, |stores| + 1)
    ensures FreshFrom(stores, size, n, loads, m)
  {
  }

  // ----- What a poll delivers -----

  lemma {:induction false} UnseenIsUpTo<T>(sig: T -> string, items: seq<T>, found: seq<nat>, m: nat)
    requires AllBelow(found, |items|) && m <= |items| && Distinct(sig, items)
    ensures AllBelow(UpTo(found, m), |items|)
    ensures Unseen(sig, Pick(items, found), Remembered(sig, items, m)) == Pick(items, UpTo(found, m))
  {
    if found != [] {
      var rest := found[1..];
      UnseenIsUpTo(sig, items, rest, m);
      assert Pick(items, found)[1..] == Pick(items, rest);
      assert m > 0 && found[0] != m - 1 ==> sig(items[found[0]]) != sig(items[m - 1]);
    }
  }

  lemma PickIsInjective<T>(sig: T -> string, items: seq<T>, a: seq<nat>, b: seq<nat>)
    requires Distinct(sig, items) && AllBelow(a, |items|) && AllBelow(b, |items|) && Pick(items, a) == Pick(items, b)
    ensures a == b
  {
    assert |a| == |Pick(items, a)| == |b|;
    forall i | 0 <= i < |a|
      ensures a[i] == b[i]
    {
      assert Pick(items, a)[i] == items[a[i]] && Pick(items, b)[i] == items[b[i]];
    }
  }

  lemma ReversedIsInjective<T>(a: seq<T>, b: seq<T>)
    requires Reversed(a) == Reversed(b)
    ensures a == b
  {
    hide Reversed;
    assert |a| == |Reversed(a)| == |b|;
    forall i | 0 <= i < |a|
      ensures a[i] == b[i]
    {
      assert Reversed(a)[|a| - 1 - i] == a[i] && Reversed(b)[|a| - 1 - i] == b[i];
    }
  }

  /** What is due to a poll that finds n indices reserved, after one that found m. */
  function Due<T>(items: seq<T>, size: nat, m: nat, n: nat): seq<T>
    requires m <= n <= |items|
  {
    items[ResumeAt(m, n, Window(size))..n]
  }

  lemma DueIsPicked<T>(items: seq<T>, size: nat, m: nat, n: nat)
    requires m <= n <= |items|
    ensures var down := Down(n, Later(m, n - Min(n, Window(size))));
            AllBelow(down, |items|) && Due(items, size, m, n) == Reversed(Pick(items, down))
  {
    hide Down, Reversed;
  }

  /** A poll delivers what is due if and only if the loads from the last delivered index on are
      fresh. */
  lemma PollExactIff<T>(sig: T -> string, items: seq<T>, stores: seq<nat>, size: nat, n: nat, loads: seq<nat>, m: nat)
    requires Distinct(sig, items) && AllBelow(stores, |items|) && size > 0 && m <= n <= |items|
    requires |loads| == Min(n, Window(size)) && AllBelow(loads, |stores| + 1)
    requires m > 0 && m > n - |loads| ==> Held(stores[..loads[n - m]], Wrap(m - 1, size), size).Some?
    ensures var found := Indices(stores, size, n, loads);
            AllBelow(found, |items|) &&
            (Events(sig, items, found, Remembered(sig, items, m)) == Due(items, size, m, n)
             <==> FreshFrom(stores, size, n, loads, m))
  {
    hide Down, Reversed, Indices, Held, Wrap, Unseen, Distinct, FreshFrom, Due, Pick;
    var found, down := Indices(stores, size, n, loads), Down(n, Later(m, n - |loads|));
    IndicesStored(stores, size, n, loads);
    UnseenIsUpTo(sig, items, found, m);
    DueIsPicked(items, size, m, n);
    FoundExactlyIff(stores, size, n, loads, m);
    if Events(sig, items, found, Remembered(sig, items, m)) == Due(items, size, m, n) {
      ReversedIsInjective(Pick(items, UpTo(found, m)), Pick(items, down));
      PickIsInjective(sig, items, UpTo(found, m), down);
    }
  }

  // ----- Steps -----

  /** A poll: how many indices it found reserved, and after how many stores it made each load. */
  datatype Poll = Poll(upTo: nat, loads: seq<nat>)

  datatype State<T> = State(items: seq<T>, stores: seq<nat>, polling: Option<Poll>, polls: seq<Poll>,
                            delivered: seq<seq<T>>, last: string)

  datatype Action<T> = Reserve(item: T) | Store(index: nat) | Look | Load | Finish

  function Initial<T>(): State<T> {
    State([], [], None, [], [], "")
  }

  function Count(n: nat, size: nat): nat {
    Min(n, Window(size))
  }

  ghost predicate Fits(p: Poll, size: nat, stores: nat, items: nat) {
    p.upTo <= items && |p.loads| <= Count(p.upTo, size) && AllBelow(p.loads, stores + 1)
  }

  ghost predicate After(p: Poll, q: Poll) {
    p.upTo <= q.upTo && forall i, j :: 0 <= i < |p.loads| && 0 <= j < |q.loads| ==> p.loads[i] <= q.loads[j]
  }

  /** Stores are of reserved indices, polls are complete and follow each other. */
  ghost predicate Timed<T>(size: nat, st: State<T>) {
    && AllBelow(st.stores, |st.items|) && |st.delivered| == |st.polls|
    && (forall j :: 0 <= j < |st.polls| ==>
          && Fits(st.polls[j], size, |st.stores|, |st.items|) && |st.polls[j].loads| == Count(st.polls[j].upTo, size)
          && (j > 0 ==> After(st.polls[j - 1], st.polls[j])))
    && (st.polling.Some? ==>
          && Fits(st.polling.value, size, |st.stores|, |st.items|)
          && (st.polls != [] ==> After(st.polls[|st.polls| - 1], st.polling.value)))
  }

  /** One step of a push or of the poller; none if it is not possible. */
  ghost function Next<T>(sig: T -> string, size: nat, st: State<T>, a: Action<T>): (r: Option<State<T>>)
    requires size > 0 && Timed(size, st)
  {
    match a
    case Reserve(item) => Some(st.(items := st.items + [item]))
    case Store(index) =>
      if index < |st.items| && index !in st.stores then Some(st.(stores := st.stores + [index])) else None
    case Look => if st.polling.None? then Some(st.(polling := Some(Poll(|st.items|, [])))) else None
    case Load =>
      if st.polling.Some? && |st.polling.value.loads| < Count(st.polling.value.upTo, size) then
        var p := st.polling.value;
        Some(st.(polling := Some(p.(loads := p.loads + [|st.stores|]))))
      else None
    case Finish =>
      if st.polling.Some? && |st.polling.value.loads| == Count(st.polling.value.upTo, size) then
        var p := st.polling.value;
        var found := Indices(st.stores, size, p.upTo, p.loads);
        IndicesStored(st.stores, size, p.upTo, p.loads);
        var events := Events(sig, st.items, found, st.last);
        Some(State(st.items, st.stores, None, st.polls + [p], st.delivered + [events],
                   LastSignature(sig, events, st.last)))
      else None
  }

  lemma NextIsTimed<T>(sig: T -> string, size: nat, st: State<T>, a: Action<T>)
    requires size > 0 && Timed(size, st) && Next(sig, size, st, a).Some?
    ensures Timed(size, Next(sig, size, st, a).value)
  {
    hide Indices, Events, Count, LastSignature;
  }

  ghost function Run<T>(sig: T -> string, size: nat, actions: seq<Action<T>>): (r: Option<State<T>>)
    requires size > 0
    ensures r.Some? ==> Timed(size, r.value)
  {
    if actions == [] then Some(Initial())
    else
      var n := |actions| - 1;
      var before := Run(sig, size, actions[..n]);
      if before.None? then None
      else
        var after := Next(sig, size, before.value, actions[n]);
        if after.None? then None else NextIsTimed(sig, size, before.value, actions[n]); after
  }

  // ----- Whole runs -----

  function Mark(polls: seq<Poll>, j: nat): nat
    requires j <= |polls|
  {
    if j == 0 then 0 else polls[j - 1].upTo
  }

  /** Poll j delivered what was due. */
  ghost predicate GotDue<T>(size: nat, st: State<T>, j: nat)
    requires Timed(size, st) && j < |st.polls|
  {
    st.delivered[j] == Due(st.items, size, Mark(st.polls, j), st.polls[j].upTo)
  }

  /** The loads of poll j, from the last delivered index on, were fresh. */
  ghost predicate WasFresh<T>(size: nat, st: State<T>, j: nat)
    requires size > 0 && Timed(size, st) && j < |st.polls|
  {
    FreshFrom(st.stores, size, st.polls[j].upTo, st.polls[j].loads, Mark(st.polls, j))
  }

  ghost predicate AllDue<T>(size: nat, st: State<T>)
    requires Timed(size, st)
  {
    forall j :: 0 <= j < |st.polls| ==> GotDue(size, st, j)
  }

  ghost predicate AllFresh<T>(size: nat, st: State<T>)
    requires size > 0 && Timed(size, st)
  {
    forall j :: 0 <= j < |st.polls| ==> WasFresh(size, st, j)
  }

  /** So far exactly the fresh polls delivered what was due; and then the stream remembers the newest
      item of the last poll. */
  ghost predicate Accounted<T>(sig: T -> string, size: nat, st: State<T>)
    requires size > 0 && Timed(size, st)
  {
    && (AllDue(size, st) <==> AllFresh(size, st))
    && (AllDue(size, st) ==> st.last == Remembered(sig, st.items, Mark(st.polls, |st.polls|)))
  }

  lemma PushesKeepAccount<T>(sig: T -> string, size: nat, st: State<T>, next: State<T>)
    requires size > 0 && Timed(size, st) && Timed(size, next) && Accounted(sig, size, st)
    requires st.items <= next.items && st.stores <= next.stores
    requires next.polls == st.polls && next.delivered == st.delivered && next.last == st.last
    ensures Accounted(sig, size, next)
  {
    hide FreshFrom, Due, Window;
    forall j | 0 <= j < |st.polls|
      ensures GotDue(size, st, j) <==> GotDue(size, next, j)
      ensures WasFresh(size, st, j) <==> WasFresh(size, next, j)
    {
      var p, m := st.polls[j], Mark(st.polls, j);
      DueStays(st.items, next.items, size, m, p.upTo);
      FreshFromStays(st.stores, next.stores, size, p.upTo, p.loads, m);
    }
  }

  lemma DueStays<T>(items: seq<T>, more: seq<T>, size: nat, m: nat, n: nat)
    requires m <= n <= |items| && items <= more
    ensures Due(items, size, m, n) == Due(more, size, m, n)
  {
  }

  lemma FreshFromStays(stores: seq<nat>, more: seq<nat>, size: nat, n: nat, loads: seq<nat>, m: nat)
    requires size > 0 && |loads| <= n && AllBelow(loads, |stores| + 1) && stores <= more
    ensures AllBelow(loads, |more| + 1)
    ensures FreshFrom(stores, size, n, loads, m) <==> FreshFrom(more, size, n, loads, m)
  {
    hide Fresh;
    assert forall i :: 0 <= i < |loads| ==> stores[..loads[i]] == more[..loads[i]];
  }

  lemma FinishKeepsAccount<T>(sig: T -> string, size: nat, st: State<T>)
    requires size > 0 && Timed(size, st) && Accounted(sig, size, st) && Distinct(sig, st.items)
    requires Next(sig, size, st, Finish).Some?
    ensures Timed(size, Next(sig, size, st, Finish).value) && Accounted(sig, size, Next(sig, size, st, Finish).value)
  {
    hide Indices, Events, Due, FreshFrom, Distinct, LastSignature;
    NextIsTimed(sig, size, st, Finish);
    var next, p, k := Next(sig, size, st, Finish).value, st.polling.value, |st.polls|;
    forall j | 0 <= j < k
      ensures GotDue(size, st, j) <==> GotDue(size, next, j)
      ensures WasFresh(size, st, j) <==> WasFresh(size, next, j)
    {
      assert next.polls[j] == st.polls[j] && next.delivered[j] == st.delivered[j]
             && Mark(next.polls, j) == Mark(st.polls, j);
    }
    if AllDue(size, st) {
      LastPollExactIff(sig, size, st);
      LastIsRemembered(sig, st.items, size, Mark(st.polls, k), p.upTo);
    }
    assert AllDue(size, next) <==> AllDue(size, st) && GotDue(size, next, k);
    assert AllFresh(size, next) <==> AllFresh(size, st) && WasFresh(size, next, k);
  }

  lemma LastPollExactIff<T>(sig: T -> string, size: nat, st: State<T>)
    requires size > 0 && Timed(size, st) && Accounted(sig, size, st) && AllDue(size, st) && Distinct(sig, st.items)
    requires Next(sig, size, st, Finish).Some?
    ensures var p, m := st.polling.value, Mark(st.polls, |st.polls|);
            var found := Indices(st.stores, size, p.upTo, p.loads);
            && m <= p.upTo && AllBelow(found, |st.items|)
            && (Events(sig, st.items, found, st.last) == Due(st.items, size, m, p.upTo)
                <==> FreshFrom(st.stores, size, p.upTo, p.loads, m))
  {
    hide Indices, Events, Due, FreshFrom, Distinct, LastSignature, Held, Wrap, Remembered;
    var p, k := st.polling.value, |st.polls|;
    var m := Mark(st.polls, k);
    if m > 0 && m > p.upTo - |p.loads| {
      assert WasFresh(size, st, k - 1);
      DeliveredIsHeld(st.stores, size, st.polls[k - 1], Mark(st.polls, k - 1), p);
    }
    PollExactIff(sig, st.items, st.stores, size, p.upTo, p.loads, m);
  }

  /** The slot of the newest index of a fresh poll is filled ever after. */
  lemma DeliveredIsHeld(stores: seq<nat>, size: nat, p: Poll, m: nat, q: Poll)
    requires size > 0 && m <= p.upTo && |p.loads| == Count(p.upTo, size) && AllBelow(p.loads, |stores| + 1)
    requires AllBelow(q.loads, |stores| + 1) && After(p, q) && p.upTo > 0 && p.upTo > q.upTo - |q.loads|
    requires FreshFrom(stores, size, p.upTo, p.loads, m)
    ensures Held(stores[..q.loads[q.upTo - p.upTo]], Wrap(p.upTo - 1, size), size).Some?
  {
    hide Held, Wrap, Fresh;
    var i := q.upTo - p.upTo;
    assert Fresh(stores[..p.loads[0]], p.upTo - 1, size);
    HeldIffFresh(stores[..p.loads[0]], p.upTo - 1, size);
    FilledStays(stores, p.loads[0], q.loads[i], Wrap(p.upTo - 1, size), size);
  }

  lemma LastIsRemembered<T>(sig: T -> string, items: seq<T>, size: nat, m: nat, n: nat)
    requires m <= n <= |items| && size > 0
    ensures LastSignature(sig, Due(items, size, m, n), Remembered(sig, items, m)) == Remembered(sig, items, n)
  {
  }

  lemma {:induction false} RunsAreAccounted<T>(sig: T -> string, size: nat, actions: seq<Action<T>>)
    requires size > 0 && Run(sig, size, actions).Some? && Distinct(sig, Run(sig, size, actions).value.items)
    ensures Accounted(sig, size, Run(sig, size, actions).value)
  {
    hide Next, Accounted, Timed, Distinct;
    if actions == [] {
      StartIsAccounted(sig, size);
    } else {
      var n := |actions| - 1;
      var before, after := Run(sig, size, actions[..n]).value, Run(sig, size, actions).value;
      NextGrows(sig, size, before, actions[n]);
      assert Distinct(sig, before.items) by { DistinctBefore(sig, before.items, after.items); }
      RunsAreAccounted(sig, size, actions[..n]);
      if actions[n].Finish? {
        FinishKeepsAccount(sig, size, before);
      } else {
        PushesKeepAccount(sig, size, before, after);
      }
    }
  }

  lemma NextGrows<T>(sig: T -> string, size: nat, st: State<T>, a: Action<T>)
    requires size > 0 && Timed(size, st) && Next(sig, size, st, a).Some?
    ensures var next := Next(sig, size, st, a).value;
            && st.items <= next.items && st.stores <= next.stores
            && (!a.Finish? ==> next.polls == st.polls && next.delivered == st.delivered && next.last == st.last)
  {
    hide Timed, Events, Indices, Count, LastSignature;
  }

  lemma DistinctBefore<T>(sig: T -> string, items: seq<T>, more: seq<T>)
    requires Distinct(sig, more) && items <= more
    ensures Distinct(sig, items)
  {
  }

  lemma StartIsAccounted<T>(sig: T -> string, size: nat)
    requires size > 0
    ensures Timed(size, Initial<T>()) && Accounted(sig, size, Initial<T>())
  {
  }

  /** In every run of overlapping pushes and polls, with distinct signatures: every poll delivers what
      is due, which is the visible items reserved since the last poll in order, if and only if every
      load from the last delivered index on comes after the store of its own item and before any
      other store into that slot. */
  lemma RunsDeliverIff<T>(sig: T -> string, size: nat, actions: seq<Action<T>>)
    requires size > 0 && Run(sig, size, actions).Some? && Distinct(sig, Run(sig, size, actions).value.items)
    ensures var st := Run(sig, size, actions).value; AllDue(size, st) <==> AllFresh(size, st)
  {
    RunsAreAccounted(sig, size, actions);
  }

  /** In particular when pushes take turns and no poll overlaps one. */
  ghost predicate Quiet<T>(st: State<T>) {
    && (forall i :: 0 <= i < |st.stores| ==> st.stores[i] == i)
    && (forall j, i :: 0 <= j < |st.polls| && 0 <= i < |st.polls[j].loads| ==> st.polls[j].loads[i] == st.polls[j].upTo)
  }

  lemma QuietRunsAreFresh<T>(size: nat, st: State<T>)
    requires size > 0 && Timed(size, st) && Quiet(st)
    ensures AllFresh(size, st)
  {
    hide Fresh, Wrap;
    forall j, i | 0 <= j < |st.polls| && 0 <= i < |st.polls[j].loads|
      ensures Fresh(st.stores[..st.polls[j].loads[i]], st.polls[j].upTo - 1 - i, size)
    {
      var n := st.polls[j].upTo;
      assert n <= |st.stores|;
      StoredInTurn(st.stores[..n], n - 1 - i, size);
    }
  }

  lemma StoredInTurn(stores: seq<nat>, k: nat, size: nat)
    requires k < |stores| <= k + size && forall i :: 0 <= i < |stores| ==> stores[i] == i
    ensures Fresh(stores, k, size)
  {
    hide Wrap;
    forall v | k < v < |stores|
      ensures Wrap(stores[v], size) != Wrap(k, size)
    {
      WrapSeparates(k, v, size);
    }
    assert LastInSlot(stores, k, k, size);
  }
}
