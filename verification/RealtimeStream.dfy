/** The ring buffer of recent metrics and the polling stream that turns its snapshots into events
    without repeating any. A push first reserves an index and stores its item later; what a slot
    holds is told by the order of the stores. */
module RealtimeStream {
  import opened Basics
  import opened Cycle

  const POLL_LIMIT := 32

  function Min(a: nat, b: nat): nat {
    if a < b then a else b
  }

  /** At most so many items does a poll look at. */
  function Window(size: nat): (w: nat)
    ensures w <= size && w <= 32 && (w == size || w == 32)
  {
    Min(size, POLL_LIMIT)
  }

  /** The last n items, newest first. */
  function Newest<T>(items: seq<T>, n: nat): (r: seq<T>)
    requires n <= |items|
    ensures |r| == n && forall i :: 0 <= i < n ==> r[i] == items[|items| - 1 - i]
  {
    if n == 0 then [] else [items[|items| - 1]] + Newest(items[..|items| - 1], n - 1)
  }

  /** Positions closer together than the size of the cycle fall on different slots. */
  lemma {:induction false} WrapSeparates(k: nat, k': nat, n: nat)
    requires k < k' < k + n
    ensures Wrap(k, n) != Wrap(k', n)
    decreases k
  {
    if k >= n {
      WrapSeparates(k - n, k' - n, n);
    }
  }

  predicate AllBelow(numbers: seq<nat>, n: nat) {
    forall i :: 0 <= i < |numbers| ==> numbers[i] < n
  }

  // ----- The ring -----

  /** The index whose item a slot holds after these stores. */
  function Held(stores: seq<nat>, slot: nat, size: nat): Option<nat>
    requires size > 0
  {
    if stores == [] then None
    else
      var n := |stores| - 1;
      if Wrap(stores[n], size) == slot then Some(stores[n]) else Held(stores[..n], slot, size)
  }

  lemma {:induction false} HeldFits(stores: seq<nat>, slot: nat, size: nat)
    requires size > 0
    ensures var k := Held(stores, slot, size); k.Some? ==> k.value in stores && Wrap(k.value, size) == slot
  {
    hide Wrap;
    if stores != [] {
      HeldFits(stores[..|stores| - 1], slot, size);
    }
  }

  /** Store u is that of index k, and none since went into its slot. */
  ghost predicate LastInSlot(stores: seq<nat>, u: nat, k: nat, size: nat)
    requires size > 0
  {
    u < |stores| && stores[u] == k && forall v :: u < v < |stores| ==> Wrap(stores[v], size) != Wrap(k, size)
  }

  /** Index k is stored, and nothing has been stored into its slot since. */
  ghost predicate Fresh(stores: seq<nat>, k: nat, size: nat)
    requires size > 0
  {
    exists u :: LastInSlot(stores, u, k, size)
  }

  lemma {:induction false} HeldIffFresh(stores: seq<nat>, k: nat, size: nat)
    requires size > 0
    ensures Held(stores, Wrap(k, size), size) == Some(k) <==> Fresh(stores, k, size)
  {
    hide Wrap;
    if stores != [] {
      var n := |stores| - 1;
      HeldIffFresh(stores[..n], k, size);
      if Wrap(stores[n], size) != Wrap(k, size) {
        forall u
          ensures LastInSlot(stores, u, k, size) <==> LastInSlot(stores[..n], u, k, size)
        {
          SlotUntouched(stores, u, k, size);
        }
      } else if stores[n] == k {
        assert LastInSlot(stores, n, k, size);
      }
    }
  }

  lemma SlotUntouched(stores: seq<nat>, u: nat, k: nat, size: nat)
    requires size > 0 && stores != [] && Wrap(stores[|stores| - 1], size) != Wrap(k, size)
    ensures LastInSlot(stores, u, k, size) <==> LastInSlot(stores[..|stores| - 1], u, k, size)
  {
    hide Wrap;
    var n := |stores| - 1;
    var before := stores[..n];
    assert forall v :: 0 <= v < n ==> before[v] == stores[v];
  }

  lemma {:induction false} FilledStays(stores: seq<nat>, m: nat, n: nat, slot: nat, size: nat)
    requires size > 0 && m <= n <= |stores| && Held(stores[..m], slot, size).Some?
    ensures Held(stores[..n], slot, size).Some?
    decreases n
  {
    hide Wrap;
    if m < n {
      FilledStays(stores, m, n - 1, slot, size);
      assert stores[..n][..n - 1] == stores[..n - 1];
    }
  }

  function Content<T>(items: seq<T>, index: Option<nat>): Option<T> {
    if index.Some? && index.value < |items| then Some(items[index.value]) else None
  }

  /** The indices a snapshot finds, newest first: read by read it loads the slot of the next older
      index, after so many stores, and skips an empty one. */
  function Indices(stores: seq<nat>, size: nat, upTo: nat, loads: seq<nat>): seq<nat>
    requires size > 0 && |loads| <= upTo && AllBelow(loads, |stores| + 1)
    decreases |loads|
  {
    if loads == [] then []
    else
      var older := Indices(stores, size, upTo - 1, loads[1..]);
      match Held(stores[..loads[0]], Wrap(upTo - 1, size), size)
      case Some(k) => [k] + older
      case None => older
  }

  lemma {:induction false} IndicesStored(stores: seq<nat>, size: nat, upTo: nat, loads: seq<nat>)
    requires size > 0 && |loads| <= upTo && AllBelow(loads, |stores| + 1)
    ensures forall n :: AllBelow(stores, n) ==> AllBelow(Indices(stores, size, upTo, loads), n)
    decreases |loads|
  {
    hide Wrap, Held;
    if loads != [] {
      IndicesStored(stores, size, upTo - 1, loads[1..]);
      HeldFits(stores[..loads[0]], Wrap(upTo - 1, size), size);
    }
  }

  /** Uninterrupted, every read comes after the same stores. */
  function AtOnce(stores: nat, count: nat): (loads: seq<nat>)
    ensures |loads| == count && forall i :: 0 <= i < count ==> loads[i] == stores
  {
    seq(count, _ => stores)
  }

  function Pick<T>(items: seq<T>, positions: seq<nat>): (r: seq<T>)
    requires AllBelow(positions, |items|)
    ensures |r| == |positions| && forall i :: 0 <= i < |r| ==> r[i] == items[positions[i]]
  {
    seq(|positions|, i requires 0 <= i < |positions| => items[positions[i]])
  }

  class RingBuffer<T(0)> {
    const slots: array<Option<T>>
    var written: nat
    /** The items by reserved index, and the indices in the order they were stored. */
    ghost var items: seq<T>
    ghost var stores: seq<nat>

    ghost predicate Valid()
      reads this, slots
    {
      && slots.Length > 0 && written == |items| && AllBelow(stores, written)
      && forall slot :: 0 <= slot < slots.Length ==> slots[slot] == Content(items, Held(stores, slot, slots.Length))
    }

    constructor (size: int)
      ensures Valid() && fresh(slots) && items == [] && stores == [] && slots.Length == if size <= 0 then 1 else size
    {
      slots := new Option<T>[if size <= 0 then 1 else size](_ => None);
      written, items, stores := 0, [], [];
    }

    method Reserve(ghost item: T) returns (index: nat)
      requires Valid()
      modifies this
      ensures Valid() && index == |old(items)| && items == old(items) + [item] && stores == old(stores)
    {
      hide Wrap, Held;
      index := written;
      written := written + 1;
      items := items + [item];
      forall slot | 0 <= slot < slots.Length
        ensures slots[slot] == Content(items, Held(stores, slot, slots.Length))
      {
        HeldFits(stores, slot, slots.Length);
      }
    }

    method Store(index: nat, item: T)
      requires Valid() && index < |items| && items[index] == item
      modifies this`stores, slots
      ensures Valid() && items == old(items) && stores == old(stores) + [index]
    {
      hide Wrap;
      var slot := Slot(index, slots.Length);
      slots[slot] := Some(item);
      stores := stores + [index];
      assert stores[..|stores| - 1] == old(stores);
    }

    method Push(item: T)
      requires Valid()
      modifies this, slots
      ensures Valid() && items == old(items) + [item] && stores == old(stores) + [|old(items)|]
    {
      var index := Reserve(item);
      Store(index, item);
    }

    /** What the slots of the most recent indices hold, newest first. */
    method Snapshot(limit: int) returns (out: seq<T>)
      requires Valid()
      ensures var full := Min(|items|, slots.Length);
              var count := if 0 < limit < full then limit else full;
              var found := Indices(stores, slots.Length, |items|, AtOnce(|stores|, count));
              AllBelow(found, |items|) && out == Pick(items, found)
    {
      hide Wrap, Held, Indices;
      var size := slots.Length;
      NothingRead(stores, size, written);
      if written == 0 { return []; }
      var count := written;
      if count > size { count := size; }
      if limit > 0 && limit < count { count := limit; }
      out := [];
      ghost var found: seq<nat> := [];
      ghost var loads := AtOnce(|stores|, count);
      for i := 0 to count
        invariant AllBelow(found, |items|) && out == Pick(items, found)
        invariant found + Indices(stores, size, written - i, loads[i..]) == Indices(stores, size, written, loads)
      {
        var index := Slot(written - 1 - i, size);
        var ptr := slots[index];
        ghost var held := Held(stores, index, size);
        OneRead(stores, size, written - i, loads[i..]);
        assert loads[i..][1..] == loads[i + 1..] && stores[..|stores|] == stores;
        HeldFits(stores, index, size);
        if ptr.Some? {
          out := out + [ptr.value];
          found := found + [held.value];
        }
      }
      NothingRead(stores, size, written - count);
    }
  }

  lemma NothingRead(stores: seq<nat>, size: nat, upTo: nat)
    requires size > 0
    ensures Indices(stores, size, upTo, []) == []
  {
  }

  lemma OneRead(stores: seq<nat>, size: nat, upTo: nat, loads: seq<nat>)
    requires size > 0 && 0 < |loads| <= upTo && AllBelow(loads, |stores| + 1)
    ensures var older := Indices(stores, size, upTo - 1, loads[1..]);
            var held := Held(stores[..loads[0]], Wrap(upTo - 1, size), size);
            Indices(stores, size, upTo, loads) == if held.Some? then [held.value] + older else older
  {
    hide Wrap, Held;
  }

  // ----- Polling -----

  /** The newest items up to the first one that carries the remembered signature. */
  function Unseen<T>(sig: T -> string, newestFirst: seq<T>, last: string): seq<T> {
    if newestFirst == [] || (last != "" && sig(newestFirst[0]) == last) then []
    else [newestFirst[0]] + Unseen(sig, newestFirst[1..], last)
  }

  function Reversed<T>(s: seq<T>): (r: seq<T>)
    ensures |r| == |s| && forall i :: 0 <= i < |s| ==> r[i] == s[|s| - 1 - i]
  {
    if s == [] then [] else Reversed(s[1..]) + [s[0]]
  }

  /** The events of one poll that finds these indices. */
  function Events<T>(sig: T -> string, items: seq<T>, found: seq<nat>, last: string): seq<T>
    requires AllBelow(found, |items|)
  {
    Reversed(Unseen(sig, Pick(items, found), last))
  }

  function LastSignature<T>(sig: T -> string, events: seq<T>, last: string): string {
    if events == [] then last else sig(events[|events| - 1])
  }

  class Stream<T(0)> {
    const sig: T -> string
    var lastSignature: string

    constructor (sig: T -> string)
      ensures this.sig == sig && lastSignature == ""
    {
      this.sig, lastSignature := sig, "";
    }

    method CollectEvents(ring: RingBuffer<T>) returns (events: seq<T>)
      requires ring.Valid()
      modifies this
      ensures var items, size := ring.items, ring.slots.Length;
              var found := Indices(ring.stores, size, |items|, AtOnce(|ring.stores|, Min(|items|, Window(size))));
              AllBelow(found, |items|) && events == Events(sig, items, found, old(lastSignature))
      ensures lastSignature == LastSignature(sig, events, old(lastSignature))
    {
      hide Newest, Unseen, Reversed, Indices, Pick, AtOnce;
      var latest := ring.Snapshot(POLL_LIMIT);
      if |latest| == 0 {
        NothingUnseen(sig, lastSignature);
        return [];
      }
      var pending := TakeUnseen(sig, latest, lastSignature);
      events := ReverseAll(pending);
      if |pending| == 0 { return; }
      lastSignature := sig(pending[0]);
    }
  }

  lemma NothingUnseen<T>(sig: T -> string, last: string)
    ensures Unseen(sig, [], last) == [] && Reversed(Unseen(sig, [], last)) == []
  {
  }

  method TakeUnseen<T>(sig: T -> string, latest: seq<T>, last: string) returns (pending: seq<T>)
    ensures pending == Unseen(sig, latest, last)
  {
    pending := [];
    var i := 0;
    while i < |latest| && !(last != "" && sig(latest[i]) == last)
      invariant 0 <= i <= |latest|
      invariant pending + Unseen(sig, latest[i..], last) == Unseen(sig, latest, last)
    {
      assert latest[i..][1..] == latest[i + 1..];
      pending := pending + [latest[i]];
      i := i + 1;
    }
    assert pending + [] == pending;
  }

  method ReverseAll<T>(pending: seq<T>) returns (events: seq<T>)
    ensures events == Reversed(pending)
  {
    events := [];
    var k := |pending| - 1;
    while k >= 0
      invariant -1 <= k < |pending| && |events| == |pending| - 1 - k
      invariant forall j :: 0 <= j < |events| ==> events[j] == pending[|pending| - 1 - j]
    {
      events := events + [pending[k]];
      k := k - 1;
    }
  }

  // ----- Polls of a settled ring -----

  /** The events of one poll that finds the newest items. */
  function Poll<T>(sig: T -> string, items: seq<T>, visible: nat, last: string): seq<T>
    requires visible <= |items|
  {
    Reversed(Unseen(sig, Newest(items, visible), last))
  }

  /** If every read finds its own item, the poll finds the newest ones. */
  lemma {:induction false} FreshViewIsNewest<T>(items: seq<T>, stores: seq<nat>, size: nat, upTo: nat, loads: seq<nat>)
    requires size > 0 && |loads| <= upTo <= |items| && AllBelow(loads, |stores| + 1)
    requires forall i :: 0 <= i < |loads| ==> Fresh(stores[..loads[i]], upTo - 1 - i, size)
    ensures var found := Indices(stores, size, upTo, loads);
            AllBelow(found, |items|) && Pick(items, found) == Newest(items[..upTo], |loads|)
    decreases |loads|
  {
    hide Wrap, Held, Fresh, Indices;
    if loads == [] {
      NothingRead(stores, size, upTo);
    } else {
      OneRead(stores, size, upTo, loads);
      HeldIffFresh(stores[..loads[0]], upTo - 1, size);
      FreshViewIsNewest(items, stores, size, upTo - 1, loads[1..]);
      assert items[..upTo][..upTo - 1] == items[..upTo - 1];
    }
  }

  /** Scanning stops at the newest item that carries the remembered signature. */
  lemma {:induction false} UnseenStops<T>(sig: T -> string, newestFirst: seq<T>, last: string, n: nat)
    requires n <= |newestFirst| && (last == "" ==> n == |newestFirst|)
    requires forall i :: 0 <= i < n ==> sig(newestFirst[i]) != last
    requires n < |newestFirst| ==> sig(newestFirst[n]) == last
    ensures Unseen(sig, newestFirst, last) == newestFirst[..n]
  {
    if n > 0 {
      UnseenStops(sig, newestFirst[1..], last, n - 1);
      assert newestFirst[..n] == [newestFirst[0]] + newestFirst[1..][..n - 1];
    }
  }

  ghost predicate Distinct<T>(sig: T -> string, items: seq<T>) {
    && (forall i :: 0 <= i < |items| ==> sig(items[i]) != "")
    && (forall i, j :: 0 <= i < j < |items| ==> sig(items[i]) != sig(items[j]))
  }

  /** Where a poll resumes: after the m items delivered or skipped so far, or later if not all of
      the newer ones are still visible. */
  function ResumeAt(m: nat, n: nat, window: nat): nat
    requires m <= n
  {
    if n - m <= window then m else n - window
  }

  /** The signature remembered when m items had been pushed at the last poll that found any. */
  function Remembered<T>(sig: T -> string, items: seq<T>, m: nat): string
    requires m <= |items|
  {
    if m == 0 then "" else sig(items[m - 1])
  }

  /** A poll delivers exactly the visible items pushed since, oldest first, if and only if none of
      them carries the remembered signature. */
  lemma PollDeliversIff<T>(sig: T -> string, items: seq<T>, m: nat, window: nat)
    requires 0 < m <= |items| && 0 < window && sig(items[m - 1]) != ""
    ensures var from, last := ResumeAt(m, |items|, window), sig(items[m - 1]);
            Poll(sig, items, Min(|items|, window), last) == items[from..]
            <==> forall i :: from <= i < |items| ==> sig(items[i]) != last
  {
    hide Newest, Reversed, Unseen;
    var n, last := |items|, sig(items[m - 1]);
    var from := ResumeAt(m, n, window);
    var view := Newest(items, Min(n, window));
    if forall i :: from <= i < n ==> sig(items[i]) != last {
      UnseenStops(sig, view, last, n - from);
      ReversedView(items, view, n - from);
    } else {
      var stop := NewestMatch(sig, items, from, last);
      UnseenStops(sig, view, last, n - 1 - stop);
      ReversedView(items, view, n - 1 - stop);
      assert |items[stop + 1..]| < |items[from..]|;
    }
  }

  lemma ReversedView<T>(items: seq<T>, view: seq<T>, k: nat)
    requires k <= |view| <= |items| && forall i :: 0 <= i < |view| ==> view[i] == items[|items| - 1 - i]
    ensures Reversed(view[..k]) == items[|items| - k..]
  {
  }

  lemma {:induction false} NewestMatch<T>(sig: T -> string, items: seq<T>, from: nat, last: string) returns (stop: nat)
    requires from <= |items| && exists i :: from <= i < |items| && sig(items[i]) == last
    ensures from <= stop < |items| && sig(items[stop]) == last
    ensures forall i :: stop < i < |items| ==> sig(items[i]) != last
  {
    stop := |items| - 1;
    while sig(items[stop]) != last
      invariant from <= stop < |items|
      invariant forall i :: stop < i < |items| ==> sig(items[i]) != last
      invariant exists i :: from <= i <= stop && sig(items[i]) == last
      decreases stop
    {
      stop := stop - 1;
    }
  }

  /** With distinct signatures every poll does so; the first one delivers what is visible. */
  lemma PollDelivers<T>(sig: T -> string, items: seq<T>, m: nat, window: nat)
    requires m <= |items| && 0 < window && Distinct(sig, items)
    ensures Poll(sig, items, Min(|items|, window), Remembered(sig, items, m)) == items[ResumeAt(m, |items|, window)..]
  {
    hide Newest, Reversed, Unseen;
    if m == 0 {
      var view := Newest(items, Min(|items|, window));
      UnseenStops(sig, view, "", |view|);
      ReversedView(items, view, |view|);
    } else {
      PollDeliversIff(sig, items, m, window);
    }
  }
}
