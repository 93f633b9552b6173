/** What the event stream delivers over whole runs, and runs in which it loses or repeats an item. */
module StreamOutcomes {
  import opened Basics
  import opened Cycle
  import opened RealtimeStream
  import opened StreamRuns

  function Marks(polls: seq<Poll>): (marks: seq<nat>)
    ensures |marks| == |polls| && forall j :: 0 <= j < |polls| ==> marks[j] == polls[j].upTo
  {
    seq(|polls|, j requires 0 <= j < |polls| => polls[j].upTo)
  }

  function Flatten<T>(parts: seq<seq<T>>): seq<T> {
    if parts == [] then [] else Flatten(parts[..|parts| - 1]) + parts[|parts| - 1]
  }

  /** The positions of the delivered items. */
  function Positions(polls: seq<nat>, window: nat): seq<nat>
    requires Ordered(polls)
  {
    if polls == [] then []
    else
      var n := polls[|polls| - 1];
      var m := Previous(polls, |polls| - 1);
      Positions(polls[..|polls| - 1], window) + Range(ResumeAt(m, n, window), n)
  }

  function Range(from: nat, end: nat): (r: seq<nat>)
    requires from <= end
    ensures |r| == end - from && forall i :: 0 <= i < |r| ==> r[i] == from + i
    decreases end - from
  {
    if from == end then [] else [from] + Range(from + 1, end)
  }

  ghost predicate Increasing(positions: seq<nat>, bound: nat) {
    && (forall i, j :: 0 <= i < j < |positions| ==> positions[i] < positions[j])
    && (forall i :: 0 <= i < |positions| ==> positions[i] < bound)
  }

  function Previous(marks: seq<nat>, j: nat): nat
    requires j <= |marks|
  {
    if j == 0 then 0 else marks[j - 1]
  }

  ghost predicate IsDue<T>(items: seq<T>, size: nat, marks: seq<nat>, events: seq<T>, j: nat)
    requires Ordered(marks) && AllBelow(marks, |items| + 1) && j < |marks|
  {
    events == Due(items, size, Previous(marks, j), marks[j])
  }

  lemma {:induction false} DueInOrder<T>(items: seq<T>, size: nat, marks: seq<nat>, delivered: seq<seq<T>>)
    requires size > 0 && Ordered(marks) && AllBelow(marks, |items| + 1) && |delivered| == |marks|
    requires forall j :: 0 <= j < |marks| ==> IsDue(items, size, marks, delivered[j], j)
    ensures var positions := Positions(marks, Window(size));
            && Increasing(positions, Previous(marks, |marks|))
            && AllBelow(positions, |items|) && Flatten(delivered) == Pick(items, positions)
  {
    hide Range, Due, Pick;
    if marks != [] {
      var k := |marks| - 1;
      var n, m := marks[k], Previous(marks, k);
      forall j | 0 <= j < k
        ensures IsDue(items, size, marks[..k], delivered[..k][j], j)
      {
        assert IsDue(items, size, marks, delivered[j], j);
      }
      DueInOrder(items, size, marks[..k], delivered[..k]);
      assert IsDue(items, size, marks, delivered[k], k);
      DeliverNext(items, size, Positions(marks[..k], Window(size)), m, n);
    }
  }

  lemma DeliverNext<T>(items: seq<T>, size: nat, positions: seq<nat>, m: nat, n: nat)
    requires m <= n <= |items| && Increasing(positions, m)
    ensures var more := positions + Range(ResumeAt(m, n, Window(size)), n);
            && Increasing(more, n) && AllBelow(more, |items|)
            && Pick(items, more) == Pick(items, positions) + Due(items, size, m, n)
  {
    hide Range;
  }

  /** Over any run of fresh polls with distinct signatures the events are the items at strictly
      increasing positions: a subsequence of the pushes, in the order of their indices, none twice. */
  lemma RunDelivers<T>(sig: T -> string, size: nat, actions: seq<Action<T>>)
    requires size > 0 && Run(sig, size, actions).Some? && Distinct(sig, Run(sig, size, actions).value.items)
    requires AllFresh(size, Run(sig, size, actions).value)
    ensures var st := Run(sig, size, actions).value;
            && Ordered(Marks(st.polls))
            && var positions := Positions(Marks(st.polls), Window(size));
               && Increasing(positions, |st.items|) && AllBelow(positions, |st.items|)
               && Flatten(st.delivered) == Pick(st.items, positions)
  {
    hide Run, AllFresh, Due, Pick;
    var st := Run(sig, size, actions).value;
    RunsDeliverIff(sig, size, actions);
    MarksAreOrdered(size, st);
    forall j | 0 <= j < |st.polls|
      ensures IsDue(st.items, size, Marks(st.polls), st.delivered[j], j)
    {
      assert GotDue(size, st, j);
    }
    DueInOrder(st.items, size, Marks(st.polls), st.delivered);
  }

  lemma MarksAreOrdered<T>(size: nat, st: State<T>)
    requires Timed(size, st)
    ensures Ordered(Marks(st.polls)) && AllBelow(Marks(st.polls), |st.items| + 1)
  {
    hide Count;
    forall i, j | 0 <= i < j < |st.polls|
      ensures st.polls[i].upTo <= st.polls[j].upTo
    {
      PollsAreOrdered(size, st, i, j);
    }
  }

  lemma {:induction false} PollsAreOrdered<T>(size: nat, st: State<T>, i: nat, j: nat)
    requires Timed(size, st) && i <= j < |st.polls|
    ensures st.polls[i].upTo <= st.polls[j].upTo
  {
    hide Count;
    if i < j {
      PollsAreOrdered(size, st, i, j - 1);
    }
  }

  ghost predicate Ordered(polls: seq<nat>) {
    forall i, j :: 0 <= i < j < |polls| ==> polls[i] <= polls[j]
  }

  /** Everything pushed between the first and the last poll is delivered. */
  ghost predicate NoGap(polls: seq<nat>, window: nat)
    requires polls != [] && Ordered(polls)
  {
    forall p :: polls[0] <= p < polls[|polls| - 1] ==> p in Positions(polls, window)
  }

  lemma NoGapStep(polls: seq<nat>, window: nat)
    requires |polls| > 1 && Ordered(polls)
    ensures var k := |polls| - 1;
            NoGap(polls, window) <==> NoGap(polls[..k], window) && polls[k] - polls[k - 1] <= window
  {
    var k := |polls| - 1;
    var earlier, m, n := polls[..k], polls[k - 1], polls[k];
    var from := ResumeAt(m, n, window);
    PositionsBelow(earlier, window);
    RangeMembers(from, n);
    hide Range;
    var old', new' := Positions(earlier, window), Positions(polls, window);
    assert new' == old' + Range(from, n);
    assert forall p :: p in new' <==> p in old' || from <= p < n;
    if NoGap(polls, window) {
      assert n > m ==> m in new';
      assert NoGap(earlier, window);
    }
  }

  /** Nothing pushed after the first poll is missed exactly when at most a window's worth of items
      is pushed between polls. */
  lemma {:induction false} NoGapIff(polls: seq<nat>, window: nat)
    requires polls != [] && Ordered(polls)
    ensures NoGap(polls, window) <==> forall i :: 1 <= i < |polls| ==> polls[i] - polls[i - 1] <= window
  {
    hide NoGap;
    var k := |polls| - 1;
    if k > 0 {
      NoGapStep(polls, window);
      NoGapIff(polls[..k], window);
      assert forall i :: 1 <= i < k ==> polls[..k][i] - polls[..k][i - 1] == polls[i] - polls[i - 1];
    } else {
      FirstPollOnly(polls, window);
    }
  }

  lemma FirstPollOnly(polls: seq<nat>, window: nat)
    requires |polls| == 1
    ensures NoGap(polls, window)
  {
  }

  lemma RangeMembers(from: nat, end: nat)
    requires from <= end
    ensures forall p :: p in Range(from, end) <==> from <= p < end
  {
    forall p | from <= p < end
      ensures p in Range(from, end)
    {
      assert Range(from, end)[p - from] == p;
    }
  }

  lemma {:induction false} PositionsBelow(polls: seq<nat>, window: nat)
    requires polls != [] && Ordered(polls)
    ensures forall p :: p in Positions(polls, window) ==> p < polls[|polls| - 1]
  {
    var k := |polls| - 1;
    if k > 0 {
      PositionsBelow(polls[..k], window);
    }
  }

  // ----- Runs that lose or repeat an item -----

  lemma RunSnoc<T>(sig: T -> string, size: nat, actions: seq<Action<T>>, a: Action<T>) returns (longer: seq<Action<T>>)
    requires size > 0 && Run(sig, size, actions).Some? && Next(sig, size, Run(sig, size, actions).value, a).Some?
    ensures longer == actions + [a] && Run(sig, size, longer) == Next(sig, size, Run(sig, size, actions).value, a)
  {
    hide Next, Timed;
    longer := actions + [a];
    assert longer[..|actions|] == actions;
  }

  lemma RunNothing<T>(sig: T -> string, size: nat)
    requires size > 0
    ensures Run<T>(sig, size, []) == Some(Initial())
  {
  }

  lemma {:induction false} LoadAll<T>(sig: T -> string, size: nat, actions: seq<Action<T>>, count: nat)
      returns (longer: seq<Action<T>>)
    requires size > 0 && Run(sig, size, actions).Some?
    requires var p := Run(sig, size, actions).value.polling;
             p.Some? && |p.value.loads| + count <= Count(p.value.upTo, size)
    ensures Run(sig, size, longer).Some?
    ensures var st := Run(sig, size, actions).value;
            var p := st.polling.value;
            Run(sig, size, longer).value == st.(polling := Some(Poll(p.upTo, p.loads + AtOnce(|st.stores|, count))))
    decreases count
  {
    hide Run, Timed, Count;
    if count == 0 {
      longer := actions;
      var p := Run(sig, size, actions).value.polling.value;
      assert p.loads + AtOnce(|Run(sig, size, actions).value.stores|, 0) == p.loads;
    } else {
      var st := Run(sig, size, actions).value;
      var p := st.polling.value;
      longer := RunSnoc(sig, size, actions, Load);
      longer := LoadAll(sig, size, longer, count - 1);
      assert p.loads + [|st.stores|] + AtOnce(|st.stores|, count - 1) == p.loads + AtOnce(|st.stores|, count);
    }
  }

  /** A poll looks, loads as often as it has to, and finishes, all at once. */
  lemma PollAtOnce<T>(sig: T -> string, size: nat, actions: seq<Action<T>>) returns (longer: seq<Action<T>>)
    requires size > 0 && Run(sig, size, actions).Some? && Run(sig, size, actions).value.polling.None?
    ensures Run(sig, size, longer).Some?
    ensures var st, next := Run(sig, size, actions).value, Run(sig, size, longer).value;
            var loads := AtOnce(|st.stores|, Count(|st.items|, size));
            var found := Indices(st.stores, size, |st.items|, loads);
            && AllBelow(found, |st.items|) && next.items == st.items && next.stores == st.stores && next.polling.None?
            && next.delivered == st.delivered + [Events(sig, st.items, found, st.last)]
            && next.last == LastSignature(sig, Events(sig, st.items, found, st.last), st.last)
  {
    hide Run, Window, Indices, Events, LastSignature;
    var st := Run(sig, size, actions).value;
    longer := RunSnoc(sig, size, actions, Look);
    longer := LoadAll(sig, size, longer, Count(|st.items|, size));
    assert [] + AtOnce(|st.stores|, Count(|st.items|, size)) == AtOnce(|st.stores|, Count(|st.items|, size));
    IndicesStored(st.stores, size, |st.items|, AtOnce(|st.stores|, Count(|st.items|, size)));
    longer := RunSnoc(sig, size, longer, Finish);
  }

  function Of(held: Option<nat>): seq<nat> {
    if held.Some? then [held.value] else []
  }

  lemma TwoFound(stores: seq<nat>, size: nat, n: nat)
    requires size > 0 && n >= 2
    ensures var loads := AtOnce(|stores|, 2);
            AllBelow(loads, |stores| + 1) && Indices(stores, size, n, loads)
                                          == Of(Held(stores, Wrap(n - 1, size), size))
                                              + Of(Held(stores, Wrap(n - 2, size), size))
  {
    hide Wrap, Held, Indices;
    var loads := AtOnce(|stores|, 2);
    assert stores[..|stores|] == stores && loads[1..][1..] == [];
    OneRead(stores, size, n, loads);
    OneRead(stores, size, n - 1, loads[1..]);
    NothingRead(stores, size, n - 2);
  }

  lemma SlotsOfTwo(size: nat)
    requires size >= 2
    ensures Held([1], 1, size) == Some(1) && Held([1], 0, size) == None
    ensures Held([1, 0], 1, size) == Some(1) && Held([1, 0], 0, size) == Some(0)
    ensures Held([0, 1], 1, size) == Some(1) && Held([0, 1], 0, size) == Some(0)
    ensures Wrap(0, size) == 0 && Wrap(1, size) == 1 && (size == 2 ==> Wrap(2, size) == 0)
  {
    assert [1][..0] == [] && [0][..0] == [] && [1, 0][..1] == [1] && [0, 1][..1] == [0];
  }

  lemma {:induction false} EventsOfTwo<T>(sig: T -> string, items: seq<T>, i: nat, j: nat, last: string)
    requires i < |items| && j < |items| && sig(items[i]) != last
    ensures Events(sig, items, [i], last) == [items[i]]
    ensures Events(sig, items, [i, j], last)
         == if last != "" && sig(items[j]) == last then [items[i]] else [items[j], items[i]]
  {
    hide Pick, Reversed, Unseen;
    assert Pick(items, [i]) == [items[i]] && Pick(items, [i, j]) == [items[i], items[j]];
    UnseenOfTwo(sig, items[i], items[j], last);
  }

  lemma UnseenOfTwo<T>(sig: T -> string, a: T, b: T, last: string)
    requires sig(a) != last
    ensures Unseen(sig, [a], last) == [a]
    ensures Unseen(sig, [a, b], last) == if last != "" && sig(b) == last then [a] else [a, b]
  {
    assert [a][1..] == [] && [a, b][1..] == [b] && [b][1..] == [];
    assert Unseen(sig, [], last) == [];
    assert Unseen(sig, [b], last) == if last != "" && sig(b) == last then [] else [b] + [];
  }

  lemma NothingNew<T>(sig: T -> string, items: seq<T>, i: nat, j: nat)
    requires i < |items| && j < |items| && sig(items[i]) != ""
    ensures Events(sig, items, [i, j], sig(items[i])) == []
  {
    assert Pick(items, [i, j])[0] == items[i];
  }

  /** Of two overlapping pushes the later one is stored first and polled: the poll passes over the
      other, and so does the next one, though two items fit the window and signatures are distinct. */
  lemma LateStoreIsLost<T>(sig: T -> string, size: nat, a: T, b: T) returns (actions: seq<Action<T>>)
    requires size >= 2 && Distinct(sig, [a, b])
    ensures Run(sig, size, actions).Some?
    ensures var st := Run(sig, size, actions).value;
            st.items == [a, b] && st.stores == [1, 0] && st.polling.None? && st.delivered == [[b], []]
  {
    hide Run, Events, Indices, Held, Wrap, AtOnce, Distinct;
    assert [a, b][0] == a && [a, b][1] == b;
    assert sig(b) != "" by { Sigs(sig, [a, b]); }
    RunNothing<T>(sig, size);
    SlotsOfTwo(size);
    actions := RunSnoc(sig, size, [], Reserve(a));
    actions := RunSnoc(sig, size, actions, Reserve(b));
    actions := RunSnoc(sig, size, actions, Store(1));
    TwoFound([1], size, 2);
    assert Of(Some(1)) + Of(None) == [1] && Of(Some(1)) + Of(Some(0)) == [1, 0];
    EventsOfTwo(sig, [a, b], 1, 0, "");
    assert Run(sig, size, actions).value.stores == [1] && Run(sig, size, actions).value.items == [a, b];
    actions := PollAtOnce(sig, size, actions);
    assert Run(sig, size, actions).value.delivered == [[b]] && Run(sig, size, actions).value.last == sig(b);
    actions := RunSnoc(sig, size, actions, Store(0));
    assert Run(sig, size, actions).value.stores == [1, 0];
    TwoFound([1, 0], size, 2);
    NothingNew(sig, [a, b], 1, 0);
    actions := PollAtOnce(sig, size, actions);
  }

  lemma Sigs<T>(sig: T -> string, items: seq<T>)
    requires Distinct(sig, items)
    ensures forall i :: 0 <= i < |items| ==> sig(items[i]) != ""
    ensures forall i, j :: 0 <= i < j < |items| ==> sig(items[i]) != sig(items[j])
  {
  }

  /** On a full ring a reserved slot still holds the item of a lap ago, which a poll delivers again. */
  lemma OldItemComesAgain<T>(sig: T -> string, a: T, b: T, c: T) returns (actions: seq<Action<T>>)
    requires Distinct(sig, [a, b, c])
    ensures Run(sig, 2, actions).Some?
    ensures var st := Run(sig, 2, actions).value;
            st.items == [a, b, c] && st.polling.None? && st.delivered == [[a, b], [a]]
  {
    hide Run, Events, Indices, Held, Wrap, AtOnce, Distinct;
    Sigs(sig, [a, b, c]);
    assert [a, b, c][0] == a && [a, b, c][1] == b && sig([a, b, c][0]) != sig([a, b, c][1]);
    RunNothing<T>(sig, 2);
    SlotsOfTwo(2);
    actions := RunSnoc(sig, 2, [], Reserve(a));
    actions := RunSnoc(sig, 2, actions, Store(0));
    actions := RunSnoc(sig, 2, actions, Reserve(b));
    actions := RunSnoc(sig, 2, actions, Store(1));
    TwoFound([0, 1], 2, 2);
    assert Of(Some(1)) + Of(Some(0)) == [1, 0] && Of(Some(0)) + Of(Some(1)) == [0, 1];
    EventsOfTwo(sig, [a, b], 1, 0, "");
    assert Run(sig, 2, actions).value.stores == [0, 1] && Run(sig, 2, actions).value.items == [a, b];
    actions := PollAtOnce(sig, 2, actions);
    assert Run(sig, 2, actions).value.delivered == [[a, b]] && Run(sig, 2, actions).value.last == sig(b);
    actions := RunSnoc(sig, 2, actions, Reserve(c));
    assert Run(sig, 2, actions).value.items == [a, b, c];
    TwoFound([0, 1], 2, 3);
    EventsOfTwo(sig, [a, b, c], 0, 1, sig(b));
    actions := PollAtOnce(sig, 2, actions);
  }
}
