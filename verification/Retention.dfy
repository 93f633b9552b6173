/** Audit retention: expired entries are archived, then deleted, batch by batch; every call to the
    store or the archive may fail. Times are nanoseconds. */
module Retention {
  import opened Basics
  import opened Text

  const DAY := 24 * 3600 * 1_000_000_000

  datatype Entry = Entry(id: string, routeID: string, routeName: string, createdAt: int)

  /** Which entries a cleanup pass is about. */
  datatype Scope = Everything | ForRoute(route: string) | Excluding(routes: set<string>)

  /** The database's LOWER, which knows ASCII only. */
  function Lower(s: string): string {
    seq(|s|, i requires 0 <= i < |s| => if 'A' <= s[i] <= 'Z' then (s[i] as int + 32) as char else s[i])
  }

  predicate Matches(e: Entry, route: string) {
    Lower(e.routeID) == route || Lower(e.routeName) == route
  }

  predicate InScope(e: Entry, scope: Scope) {
    match scope
    case Everything => true
    case ForRoute(route) => Matches(e, route)
    case Excluding(routes) => forall route <- routes :: !Matches(e, route)
  }

  predicate Expired(e: Entry, scope: Scope, cutoff: int) {
    e.createdAt < cutoff && InScope(e, scope)
  }

  /** A text is a key once its capital ASCII letters are written small. */
  predicate Spells(text: string, key: string) {
    && |text| == |key|
    && forall i :: 0 <= i < |text| ==>
         if 'A' <= text[i] <= 'Z' then key[i] as int - 'a' as int == text[i] as int - 'A' as int else key[i] == text[i]
  }

  /** The entry's route goes by the key, as its id or as its name. */
  predicate OfRoute(e: Entry, key: string) {
    Spells(e.routeID, key) || Spells(e.routeName, key)
  }

  lemma MatchesIff(e: Entry, key: string)
    ensures Matches(e, key) <==> OfRoute(e, key)
  {
    SpellsIff(e.routeID, key);
    SpellsIff(e.routeName, key);
  }

  lemma SpellsIff(text: string, key: string)
    ensures Lower(text) == key <==> Spells(text, key)
  {
    if Spells(text, key) {
      forall i | 0 <= i < |text|
        ensures Lower(text)[i] == key[i]
      {
      }
    }
  }

  /** Created before the cutoff, and of the route the scope is about or of none it excludes. */
  ghost predicate OlderThan(e: Entry, scope: Scope, cutoff: int) {
    && e.createdAt < cutoff
    && (scope.ForRoute? ==> OfRoute(e, scope.route))
    && (scope.Excluding? ==> forall route <- scope.routes :: !OfRoute(e, route))
  }

  lemma ExpiredIff(e: Entry, scope: Scope, cutoff: int)
    ensures Expired(e, scope, cutoff) <==> OlderThan(e, scope, cutoff)
  {
    hide Matches, OfRoute;
    match scope
    case Everything =>
    case ForRoute(route) => MatchesIff(e, route);
    case Excluding(routes) =>
      forall route | route in routes
        ensures Matches(e, route) <==> OfRoute(e, route)
      {
        MatchesIff(e, route);
      }
  }

  lemma AllExpiredIff(rows: set<Entry>, scope: Scope, cutoff: int)
    ensures forall e :: e in Matching(rows, scope, cutoff) <==> e in rows && OlderThan(e, scope, cutoff)
  {
    hide Expired, OlderThan;
    forall e
      ensures e in Matching(rows, scope, cutoff) <==> e in rows && OlderThan(e, scope, cutoff)
    {
      ExpiredIff(e, scope, cutoff);
    }
  }

  function Matching(rows: set<Entry>, scope: Scope, cutoff: int): set<Entry> {
    set e <- rows | Expired(e, scope, cutoff)
  }

  /** The id is the table's primary key. */
  ghost predicate Keyed(rows: set<Entry>) {
    forall e, f :: e in rows && f in rows && e.id == f.id ==> e == f
  }

  /** The id has no white space around it, unless it is all white space. */
  predicate TidyEntry(e: Entry) {
    Trim(e.id) == "" || Trim(e.id) == e.id
  }

  ghost predicate Tidy(rows: set<Entry>) {
    forall e <- rows :: TidyEntry(e)
  }

  /** The ids that DeleteByIDs deletes when given `ids`. */
  function Normalized(ids: seq<string>): set<string> {
    set i | 0 <= i < |ids| && Trim(ids[i]) != "" :: Trim(ids[i])
  }

  function Without(rows: set<Entry>, ids: set<string>): set<Entry> {
    set e <- rows | e.id !in ids
  }

  lemma SubsetIsSmaller(a: set<Entry>, b: set<Entry>)
    requires a <= b
    ensures |a| <= |b|
    ensures |a| == |b| ==> a == b
  {
    assert b == a + (b - a);
    EmptyOrInhabited(b - a);
  }

  /** A result the lister may return when these entries match: distinct ones, ordered by age, none
      left out that is older, and as many as the limit, or else a thousand, allows. */
  ghost predicate MayList(matching: set<Entry>, limit: int, listed: seq<Entry>) {
    && (forall i :: 0 <= i < |listed| ==> listed[i] in matching)
    && (forall i, j :: 0 <= i < j < |listed| ==> listed[i] != listed[j] && listed[i].createdAt <= listed[j].createdAt)
    && (forall e, i :: e in matching && e !in listed && 0 <= i < |listed| ==> listed[i].createdAt <= e.createdAt)
    && var most := if limit <= 0 then 1000 else limit;
       if |matching| <= most then forall e <- matching :: e in listed else |listed| == most
  }

  function Limit(limit: int): (n: int)
    ensures n > 0
  {
    if limit <= 0 then 1000 else limit
  }

  lemma {:induction false} OldestExists(entries: set<Entry>) returns (e: Entry)
    requires entries != {}
    ensures e in entries && forall f <- entries :: e.createdAt <= f.createdAt
  {
    EmptyOrInhabited(entries);
    e :| e in entries;
    var rest := entries - {e};
    assert forall g <- entries :: g == e || g in rest;
    if rest != {} {
      var f := OldestExists(rest);
      if f.createdAt < e.createdAt {
        e := f;
      }
    }
  }

  /** The picked entries are the oldest, oldest first; the rest is still to be picked from. */
  ghost predicate Picked(matching: set<Entry>, rest: set<Entry>, listed: seq<Entry>) {
    && rest <= matching && |listed| + |rest| == |matching|
    && (forall e <- matching :: e in rest <==> e !in listed)
    && (forall i :: 0 <= i < |listed| ==> listed[i] in matching)
    && (forall i, j :: 0 <= i < j < |listed| ==> listed[i] != listed[j] && listed[i].createdAt <= listed[j].createdAt)
    && (forall e, i :: e in rest && 0 <= i < |listed| ==> listed[i].createdAt <= e.createdAt)
  }

  lemma PickOne(matching: set<Entry>, rest: set<Entry>, listed: seq<Entry>, e: Entry)
    requires Picked(matching, rest, listed) && e in rest && forall f <- rest :: e.createdAt <= f.createdAt
    ensures Picked(matching, rest - {e}, listed + [e])
  {
    assert |rest - {e}| == |rest| - 1;
  }

  lemma PickedMayBeListed(matching: set<Entry>, rest: set<Entry>, listed: seq<Entry>, limit: int)
    requires Picked(matching, rest, listed) && |listed| <= Limit(limit) && (rest == {} || |listed| == Limit(limit))
    ensures MayList(matching, limit, listed)
  {
  }

  method Oldest(matching: set<Entry>, limit: int) returns (listed: seq<Entry>)
    ensures MayList(matching, limit, listed)
  {
    hide Picked, MayList;
    var rest := matching;
    listed := [];
    assert Picked(matching, rest, listed) by { NonePicked(matching); }
    while rest != {} && |listed| < Limit(limit)
      invariant Picked(matching, rest, listed) && |listed| <= Limit(limit)
      decreases |rest|
    {
      ghost var oldest := OldestExists(rest);
      var e :| e in rest && forall f <- rest :: e.createdAt <= f.createdAt;
      PickOne(matching, rest, listed, e);
      rest, listed := rest - {e}, listed + [e];
    }
    PickedMayBeListed(matching, rest, listed, limit);
  }

  lemma NonePicked(matching: set<Entry>)
    ensures Picked(matching, matching, [])
  {
  }

  lemma ListedEntries(rows: set<Entry>, scope: Scope, cutoff: int, limit: int, listed: seq<Entry>)
    requires MayList(Matching(rows, scope, cutoff), limit, listed)
    ensures forall e <- listed :: e in rows && e in Matching(rows, scope, cutoff)
    ensures listed == [] ==> Matching(rows, scope, cutoff) == {}
  {
    hide Expired;
    if listed == [] {
      EmptyOrInhabited(Matching(rows, scope, cutoff));
    }
  }

  class AuditRepo {
    var rows: set<Entry>

    constructor (rows: set<Entry>)
      ensures this.rows == rows
    {
      this.rows := rows;
    }

    /** The oldest expired entries of the scope, oldest first, as many as the limit allows. */
    method ListOlderThan(scope: Scope, cutoff: int, limit: int) returns (listed: Option<seq<Entry>>)
      ensures listed.Some? ==> MayList(Matching(rows, scope, cutoff), limit, listed.value)
      ensures listed.Some? ==> forall e <- listed.value :: e in rows && OlderThan(e, scope, cutoff)
      ensures listed == Some([]) ==> forall e <- rows :: !OlderThan(e, scope, cutoff)
    {
      hide Expired, OlderThan;
      AllExpiredIff(rows, scope, cutoff);
      var broken: bool := *;
      if broken || (scope.ForRoute? && Trim(scope.route) == "") {
        return None;
      }
      var entries := Oldest(Matching(rows, scope, cutoff), limit);
      ListedEntries(rows, scope, cutoff, limit, entries);
      listed := Some(entries);
    }

    /** Deletes the rows with these ids, trimmed; blank ones are skipped. */
    method DeleteByIDs(ids: seq<string>) returns (deleted: Option<int>)
      modifies this
      ensures deleted.None? ==> rows == old(rows)
      ensures deleted.Some? ==>
                && rows == Without(old(rows), Normalized(ids))
                && deleted.value == |old(rows)| - |rows|
    {
      var normalized: set<string> := {};
      for i := 0 to |ids|
        invariant rows == old(rows) && normalized == Normalized(ids[..i])
      {
        assert ids[..i + 1] == ids[..i] + [ids[i]];
        NormalizedSnoc(ids[..i], ids[i]);
        if Trim(ids[i]) != "" {
          normalized := normalized + {Trim(ids[i])};
        }
      }
      assert ids[..|ids|] == ids;
      if normalized == {} {
        assert Without(rows, normalized) == rows;
        return Some(0);
      }
      var broken: bool := *;
      if broken {
        return None;
      }
      var before := |rows|;
      rows := Without(rows, normalized);
      deleted := Some(before - |rows|);
    }

    /** Deletes the expired entries of the scope in batches, without archiving. */
    method DeleteOlderThan(scope: Scope, cutoff: int, batchSize: int) returns (total: int, failed: bool)
      modifies this
      ensures rows <= old(rows) && total == |old(rows)| - |rows|
      ensures old(rows) - rows <= Matching(old(rows), scope, cutoff)
      ensures !failed ==> rows == old(rows) - Matching(old(rows), scope, cutoff)
      ensures forall e <- old(rows) - rows :: OlderThan(e, scope, cutoff)
      ensures !failed ==> forall e <- rows :: !OlderThan(e, scope, cutoff)
    {
      hide Expired, OlderThan, Matching;
      AllExpiredIff(rows, scope, cutoff);
      total := 0;
      if scope.ForRoute? && Trim(scope.route) == "" {
        return 0, true;
      }
      var limit := if batchSize <= 0 then 1000 else batchSize;
      while true
        invariant rows <= old(rows) && total == |old(rows)| - |rows|
        invariant old(rows) - rows <= Matching(old(rows), scope, cutoff)
        decreases |rows|
      {
        var broken: bool := *;
        if broken {
          return total, true;
        }
        AllExpiredIff(rows, scope, cutoff);
        var batch := Batch(Matching(rows, scope, cutoff), limit);
        RemovalCounts(rows, batch);
        rows := rows - batch;
        if |batch| <= 0 {
          break;
        }
        total := total + |batch|;
        if |batch| < limit {
          break;
        }
      }
      failed := false;
    }
  }

  lemma RemovalCounts(rows: set<Entry>, batch: set<Entry>)
    requires batch <= rows
    ensures |rows - batch| == |rows| - |batch|
  {
    assert rows == (rows - batch) + batch;
  }

  /** Some of these entries, at most `limit`, and none only if there are none. */
  method Batch(entries: set<Entry>, limit: int) returns (batch: set<Entry>)
    requires limit > 0
    ensures batch <= entries && |batch| <= limit && (|batch| < limit ==> batch == entries)
  {
    batch := {};
    var rest := entries;
    while rest != {} && |batch| < limit
      invariant batch + rest == entries && batch !! rest && |batch| <= limit
      decreases |rest|
    {
      EmptyOrInhabited(rest);
      var e :| e in rest;
      rest, batch := rest - {e}, batch + {e};
    }
  }

  lemma NormalizedSnoc(ids: seq<string>, id: string)
    ensures Normalized(ids + [id]) == Normalized(ids) + (if Trim(id) != "" then {Trim(id)} else {})
  {
    var all := ids + [id];
    forall x
      ensures x in Normalized(all) <==> x in Normalized(ids) + (if Trim(id) != "" then {Trim(id)} else {})
    {
      if x in Normalized(ids) {
        var i :| 0 <= i < |ids| && Trim(ids[i]) != "" && x == Trim(ids[i]);
        assert all[i] == ids[i];
      }
      assert all[|ids|] == id;
    }
  }

  /** Some expired entry is gone only if it was written to the archive before. */
  ghost predicate Archived(gone: set<Entry>, archive: seq<Entry>) {
    forall e <- gone :: e in archive
  }

  function IDs(entries: seq<Entry>): seq<string> {
    if entries == [] then []
    else
      var e := entries[|entries| - 1];
      IDs(entries[..|entries| - 1]) + if Trim(e.id) != "" then [e.id] else []
  }

  ghost function Identified(entries: seq<Entry>): set<Entry> {
    set i | 0 <= i < |entries| && Trim(entries[i].id) != "" :: entries[i]
  }

  lemma {:induction false} IDsAre(entries: seq<Entry>)
    ensures forall e <- entries :: Trim(e.id) != "" ==> e.id in IDs(entries)
    ensures forall id <- IDs(entries) :: Trim(id) != "" && exists e <- entries :: e.id == id
  {
    if entries != [] {
      IDsAre(entries[..|entries| - 1]);
    }
  }

  /** A pass over tidy entries deletes exactly the identified ones among them. */
  lemma TidyDeletesTheListed(rows: set<Entry>, entries: seq<Entry>)
    requires Keyed(rows) && forall e <- entries :: e in rows && TidyEntry(e)
    ensures Without(rows, Normalized(IDs(entries))) == rows - Identified(entries)
  {
    IDsAre(entries);
    var ids := IDs(entries);
    forall e | e in rows
      ensures e.id in Normalized(ids) <==> e in Identified(entries)
    {
      if e in Identified(entries) {
        assert e in entries && e.id in ids;
        var i :| 0 <= i < |ids| && ids[i] == e.id;
        assert Trim(ids[i]) == e.id;
      }
      if e.id in Normalized(ids) {
        var i :| 0 <= i < |ids| && Trim(ids[i]) != "" && e.id == Trim(ids[i]);
        assert ids[i] in ids;
        var f :| f in entries && f.id == ids[i];
        var k :| 0 <= k < |entries| && entries[k] == f;
        assert f in Identified(entries);
      }
    }
  }

  /** A pass over an entry whose id has white space around it does not delete that entry. It deletes
      the row with the trimmed id, archived or not, and nothing at all if there is none. */
  lemma UntrimmedPass(rows: set<Entry>, e: Entry)
    requires e in rows && !TidyEntry(e)
    ensures var after := Without(rows, Normalized(IDs([e])));
            && e in after
            && (forall f <- rows :: f !in after <==> f.id == Trim(e.id))
            && ((forall f <- rows :: f.id != Trim(e.id)) ==> after == rows)
  {
    var entries := [e];
    assert entries[..0] == [];
    assert IDs([]) == [];
    assert IDs(entries) == [] + [e.id];
    NormalizedSnoc([], e.id);
    assert Normalized([]) == {};
  }

  /** Whatever batch of expired entries a pass works on, it deletes exactly the identified ones it
      archived, if and only if no expired id has white space around it. */
  lemma PassIsExactIffTidy(rows: set<Entry>, scope: Scope, cutoff: int)
    requires Keyed(rows)
    ensures (forall entries: seq<Entry> | (forall e <- entries :: e in Matching(rows, scope, cutoff)) ::
               Without(rows, Normalized(IDs(entries))) == rows - Identified(entries))
            <==> Tidy(Matching(rows, scope, cutoff))
  {
    hide Expired;
    var matching := Matching(rows, scope, cutoff);
    if Tidy(matching) {
      forall entries: seq<Entry> | forall e <- entries :: e in matching
        ensures Without(rows, Normalized(IDs(entries))) == rows - Identified(entries)
      {
        TidyDeletesTheListed(rows, entries);
      }
    } else {
      var e :| e in matching && !TidyEntry(e);
      var entries := [e];
      UntrimmedPass(rows, e);
      assert entries[0] == e && e in Identified(entries);
    }
  }

  /** A pass makes progress if and only if some listed id, trimmed, is the id of a row. */
  lemma PassProgressIff(rows: set<Entry>, entries: seq<Entry>)
    ensures Without(rows, Normalized(IDs(entries))) != rows <==>
              exists e, f :: e in entries && f in rows && Trim(e.id) != "" && f.id == Trim(e.id)
  {
    IDsAre(entries);
    var ids := IDs(entries);
    if e, f :| e in entries && f in rows && Trim(e.id) != "" && f.id == Trim(e.id) {
      assert e.id in ids;
      var i :| 0 <= i < |ids| && ids[i] == e.id;
      assert f !in Without(rows, Normalized(ids));
    }
    if f :| f in rows && f !in Without(rows, Normalized(ids)) {
      var i :| 0 <= i < |ids| && Trim(ids[i]) != "" && f.id == Trim(ids[i]);
      assert ids[i] in ids;
      var e :| e in entries && e.id == ids[i];
    }
  }

  /** The store after n passes over the same batch. */
  ghost function Passes(rows: set<Entry>, entries: seq<Entry>, n: nat): set<Entry> {
    if n == 0 then rows else Without(Passes(rows, entries, n - 1), Normalized(IDs(entries)))
  }

  /** A batch without progress repeats for ever: after any number of passes the store is the same,
      the lister may return the same batch, and the pass neither stops nor fails. */
  lemma {:induction false} StuckBatchRepeats(rows: set<Entry>, scope: Scope, cutoff: int, limit: int,
                                             entries: seq<Entry>, n: nat)
    requires MayList(Matching(rows, scope, cutoff), limit, entries) && entries != []
    requires forall e <- entries :: Trim(e.id) != "" && forall f <- rows :: f.id != Trim(e.id)
    ensures Passes(rows, entries, n) == rows
            && MayList(Matching(Passes(rows, entries, n), scope, cutoff), limit, entries)
    ensures IDs(entries) != []
  {
    hide Matching, MayList, Without, IDs, Normalized, Trim;
    IDsAre(entries);
    assert entries[0] in entries && entries[0].id in IDs(entries);
    if n > 0 {
      StuckBatchRepeats(rows, scope, cutoff, limit, entries, n - 1);
      PassProgressIff(rows, entries);
    }
  }

  /** The smallest case: one expired entry, with a blank before its id. */
  lemma OneUntrimmedEntryRepeats(id: string, createdAt: int, cutoff: int, limit: int, n: nat)
    requires Trim(id) != "" && Trim(id) != id && createdAt < cutoff
    ensures var e := Entry(id, "", "", createdAt);
            MayList(Matching({e}, Everything, cutoff), limit, [e]) && Passes({e}, [e], n) == {e}
  {
    var e := Entry(id, "", "", createdAt);
    assert Matching({e}, Everything, cutoff) == {e};
    assert MayList({e}, limit, [e]);
    StuckBatchRepeats({e}, Everything, cutoff, limit, [e], n);
  }

  // ----- Whole loops -----

  /** The id is not empty and has no white space around it. */
  predicate ProperID(e: Entry) {
    Trim(e.id) == e.id && e.id != ""
  }

  ghost predicate ProperIDs(rows: set<Entry>) {
    forall e <- rows :: ProperID(e)
  }

  /** No deletion by ids ever removes an entry without a proper id. */
  lemma ImproperStays(rows: set<Entry>, ids: seq<string>, e: Entry)
    requires e in rows && !ProperID(e)
    ensures e in Without(rows, Normalized(ids))
  {
    forall i | 0 <= i < |ids|
      ensures Trim(ids[i]) != "" ==> Trim(ids[i]) != e.id
    {
      TrimTwice(ids[i]);
    }
  }

  /** A loop without failures so far: in each pass the lister returns a batch with ids, and the rows
      with these ids go. */
  ghost predicate Looped(states: seq<set<Entry>>, batches: seq<seq<Entry>>, scope: Scope, cutoff: int, limit: int) {
    && |states| == |batches| + 1
    && forall i :: 0 <= i < |batches| ==> OnePass(states[i], batches[i], states[i + 1], scope, cutoff, limit)
  }

  ghost predicate OnePass(rows: set<Entry>, batch: seq<Entry>, after: set<Entry>, scope: Scope, cutoff: int,
                          limit: int)
  {
    && MayList(Matching(rows, scope, cutoff), limit, batch) && IDs(batch) != []
    && after == Without(rows, Normalized(IDs(batch)))
  }

  /** The loop ends in success: nothing is listed any more. */
  ghost predicate Succeeds(rows: set<Entry>, scope: Scope, cutoff: int) {
    Matching(rows, scope, cutoff) == {}
  }

  /** The loop ends with the error for a batch without ids. */
  ghost predicate MayGiveUp(rows: set<Entry>, scope: Scope, cutoff: int, limit: int) {
    exists listed: seq<Entry> ::
        MayList(Matching(rows, scope, cutoff), limit, listed) && listed != [] && IDs(listed) == []
  }

  lemma {:induction false} ImproperStaysForGood(states: seq<set<Entry>>, batches: seq<seq<Entry>>, scope: Scope,
                                                cutoff: int, limit: int, e: Entry)
    requires Looped(states, batches, scope, cutoff, limit) && e in Matching(states[0], scope, cutoff) && !ProperID(e)
    ensures e in Matching(states[|batches|], scope, cutoff)
  {
    hide MayList, IDs, Normalized, Without, ProperID, Expired;
    var n := |batches|;
    if n > 0 {
      LoopedBefore(states, batches, scope, cutoff, limit);
      ImproperStaysForGood(states[..n], batches[..n - 1], scope, cutoff, limit, e);
      assert OnePass(states[n - 1], batches[n - 1], states[n], scope, cutoff, limit);
      ImproperStays(states[n - 1], IDs(batches[n - 1]), e);
    }
  }

  lemma LoopedBefore(states: seq<set<Entry>>, batches: seq<seq<Entry>>, scope: Scope, cutoff: int, limit: int)
    requires Looped(states, batches, scope, cutoff, limit) && batches != []
    ensures Looped(states[..|batches|], batches[..|batches| - 1], scope, cutoff, limit)
  {
    hide OnePass;
  }

  /** A pass over proper ids deletes a batch that is not empty. */
  lemma ProperPass(rows: set<Entry>, batch: seq<Entry>, after: set<Entry>, scope: Scope, cutoff: int, limit: int)
    requires Keyed(rows) && ProperIDs(Matching(rows, scope, cutoff))
             && OnePass(rows, batch, after, scope, cutoff, limit)
    ensures Keyed(after) && ProperIDs(Matching(after, scope, cutoff))
    ensures after <= rows && |Matching(after, scope, cutoff)| < |Matching(rows, scope, cutoff)|
  {
    hide Expired, Trim;
    ListedEntries(rows, scope, cutoff, limit, batch);
    assert forall e <- batch :: ProperID(e) && TidyEntry(e);
    TidyDeletesTheListed(rows, batch);
    IDsAre(batch);
    assert IDs(batch)[0] in IDs(batch);
    var e :| e in batch && e.id == IDs(batch)[0];
    var i :| 0 <= i < |batch| && batch[i] == e;
    assert e in Identified(batch);
    var before, left := Matching(rows, scope, cutoff), Matching(after, scope, cutoff);
    assert left <= before && e in before && e !in left;
    SubsetIsSmaller(left, before);
  }

  lemma {:induction false} ProperLoop(states: seq<set<Entry>>, batches: seq<seq<Entry>>, scope: Scope, cutoff: int,
                                      limit: int)
    requires Looped(states, batches, scope, cutoff, limit) && Keyed(states[0])
             && ProperIDs(Matching(states[0], scope, cutoff))
    ensures var last := states[|batches|];
            && Keyed(last) && ProperIDs(Matching(last, scope, cutoff))
            && |Matching(last, scope, cutoff)| + |batches| <= |Matching(states[0], scope, cutoff)|
  {
    hide Matching, Keyed, ProperIDs, OnePass;
    var n := |batches|;
    if n > 0 {
      LoopedBefore(states, batches, scope, cutoff, limit);
      ProperLoop(states[..n], batches[..n - 1], scope, cutoff, limit);
      ProperPass(states[n - 1], batches[n - 1], states[n], scope, cutoff, limit);
    }
  }

  lemma ProperNeverGivesUp(rows: set<Entry>, scope: Scope, cutoff: int, limit: int)
    requires ProperIDs(Matching(rows, scope, cutoff))
    ensures !MayGiveUp(rows, scope, cutoff, limit)
  {
    hide Expired, Trim;
    forall listed: seq<Entry> | MayList(Matching(rows, scope, cutoff), limit, listed) && listed != []
      ensures IDs(listed) != []
    {
      IDsAre(listed);
      assert listed[0] in listed && ProperID(listed[0]) && listed[0].id in IDs(listed);
    }
  }

  lemma {:induction false} SomeListing(matching: set<Entry>, rest: set<Entry>, picked: seq<Entry>, limit: int)
      returns (listed: seq<Entry>)
    requires Picked(matching, rest, picked) && |picked| <= Limit(limit)
    ensures MayList(matching, limit, listed)
    decreases |rest|
  {
    hide Picked, MayList;
    if rest == {} || |picked| == Limit(limit) {
      listed := picked;
      PickedMayBeListed(matching, rest, picked, limit);
    } else {
      var e := OldestExists(rest);
      PickOne(matching, rest, picked, e);
      assert |rest - {e}| < |rest|;
      listed := SomeListing(matching, rest - {e}, picked + [e], limit);
    }
  }

  lemma {:induction false} ProperLoopSucceeds(rows: set<Entry>, scope: Scope, cutoff: int, limit: int)
      returns (states: seq<set<Entry>>, batches: seq<seq<Entry>>)
    requires Keyed(rows) && ProperIDs(Matching(rows, scope, cutoff))
    ensures Looped(states, batches, scope, cutoff, limit) && states[0] == rows
    ensures Succeeds(states[|batches|], scope, cutoff)
    decreases |Matching(rows, scope, cutoff)|
  {
    hide Matching, MayList, IDs, Normalized, Without, Keyed, ProperIDs;
    var matching := Matching(rows, scope, cutoff);
    if matching == {} {
      states, batches := [rows], [];
    } else {
      NonePicked(matching);
      var listed := SomeListing(matching, matching, [], limit);
      ListedEntries(rows, scope, cutoff, limit, listed);
      ProperNeverGivesUp(rows, scope, cutoff, limit);
      var after := Without(rows, Normalized(IDs(listed)));
      ProperPass(rows, listed, after, scope, cutoff, limit);
      var later, more := ProperLoopSucceeds(after, scope, cutoff, limit);
      states, batches := [rows] + later, [listed] + more;
      assert OnePass(rows, listed, after, scope, cutoff, limit);
    }
  }

  /** Without failures the loop can end in success if and only if every expired id is proper; and then
      whatever is listed, it does so, after at most as many passes as there are expired entries and
      without giving up. */
  lemma LoopSucceedsIff(rows: set<Entry>, scope: Scope, cutoff: int, limit: int)
    requires Keyed(rows)
    ensures ProperIDs(Matching(rows, scope, cutoff)) <==>
              exists states, batches :: Looped(states, batches, scope, cutoff, limit) && states[0] == rows
                                        && Succeeds(states[|batches|], scope, cutoff)
    ensures ProperIDs(Matching(rows, scope, cutoff)) ==>
              forall states, batches :: Looped(states, batches, scope, cutoff, limit) && states[0] == rows ==>
                |batches| <= |Matching(rows, scope, cutoff)| && !MayGiveUp(states[|batches|], scope, cutoff, limit)
  {
    hide Matching, OnePass, Keyed, MayGiveUp, Expired, ProperID;
    if ProperIDs(Matching(rows, scope, cutoff)) {
      var states, batches := ProperLoopSucceeds(rows, scope, cutoff, limit);
      forall states, batches | Looped(states, batches, scope, cutoff, limit) && states[0] == rows
        ensures |batches| <= |Matching(rows, scope, cutoff)| && !MayGiveUp(states[|batches|], scope, cutoff, limit)
      {
        ProperLoop(states, batches, scope, cutoff, limit);
        ProperNeverGivesUp(states[|batches|], scope, cutoff, limit);
      }
    } else {
      var e :| e in Matching(rows, scope, cutoff) && !ProperID(e);
      forall states, batches | Looped(states, batches, scope, cutoff, limit) && states[0] == rows
        ensures !Succeeds(states[|batches|], scope, cutoff)
      {
        ImproperStaysForGood(states, batches, scope, cutoff, limit, e);
      }
    }
  }
}
