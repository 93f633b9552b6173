/** The retention scheduler's passes over the audit store. */
module RetentionRuns {
  import opened Basics
  import opened Text
  import opened Retention

  /** Older than the retention of some override the entry matches, or, matching none, than the
      default. */
  ghost predicate Stale(e: Entry, overrides: map<string, int>, retentionDays: int, now: int) {
    || (exists route <- overrides :: StaleFor(e, overrides, route, now))
    || ((forall route <- overrides :: !OfRoute(e, route)) && e.createdAt < now - retentionDays * 86_400_000_000_000)
  }

  /** Stale under one of these overrides. */
  ghost predicate StaleUnder(e: Entry, overrides: map<string, int>, routes: set<string>, now: int) {
    exists route <- routes :: StaleFor(e, overrides, route, now)
  }

  /** Of the override's route, and older than its days. */
  ghost predicate StaleFor(e: Entry, overrides: map<string, int>, route: string, now: int) {
    route in overrides && OfRoute(e, route) && e.createdAt < now - overrides[route] * 86_400_000_000_000
  }

  lemma InOverridePass(rows: set<Entry>, e: Entry, overrides: map<string, int>, route: string, now: int)
    requires route in overrides
    ensures e in Matching(rows, ForRoute(route), now - overrides[route] * DAY)
            <==> e in rows && StaleFor(e, overrides, route, now)
  {
    hide OfRoute, Matching;
    InPass(rows, e, ForRoute(route), now - overrides[route] * DAY);
    assert DAY == 86_400_000_000_000;
  }

  /** What is in a pass, in terms of routes and times. */
  lemma InPass(rows: set<Entry>, e: Entry, scope: Scope, cutoff: int)
    ensures e in Matching(rows, scope, cutoff) <==> e in rows && OlderThan(e, scope, cutoff)
  {
    hide Expired, OlderThan;
    ExpiredIff(e, scope, cutoff);
  }

  /** What a pass needs of the store: ids are keys, and those it is about are tidy. */
  ghost predicate PassReady(rows: set<Entry>, scope: Scope, cutoff: int) {
    Keyed(rows) && Tidy(Matching(rows, scope, cutoff))
  }

  ghost predicate OverridesReady(rows: set<Entry>, overrides: map<string, int>, now: int) {
    Keyed(rows) && forall e <- rows :: StaleUnder(e, overrides, overrides.Keys, now) ==> TidyEntry(e)
  }

  /** What a run needs: ids are keys, and those of stale entries are tidy. */
  ghost predicate RunReady(rows: set<Entry>, overrides: map<string, int>, retentionDays: int, now: int) {
    Keyed(rows) && forall e <- rows :: Stale(e, overrides, retentionDays, now) ==> TidyEntry(e)
  }

  lemma OverridePassReady(all: set<Entry>, rows: set<Entry>, overrides: map<string, int>, route: string, now: int)
    requires rows <= all && OverridesReady(all, overrides, now) && route in overrides
    ensures PassReady(rows, ForRoute(route), now - overrides[route] * DAY)
  {
    hide StaleFor, TidyEntry, Matching;
    forall e | e in Matching(rows, ForRoute(route), now - overrides[route] * DAY)
      ensures TidyEntry(e)
    {
      InOverridePass(rows, e, overrides, route, now);
      assert StaleUnder(e, overrides, overrides.Keys, now);
    }
  }

  lemma RunIsReady(rows: set<Entry>, overrides: map<string, int>, retentionDays: int, now: int)
    requires RunReady(rows, overrides, retentionDays, now)
    ensures OverridesReady(rows, overrides, now)
    ensures overrides == map[] ==> PassReady(rows, Everything, now - retentionDays * DAY)
  {
    hide OfRoute, TidyEntry;
    StaleOverrides(rows, overrides, retentionDays, now);
    if overrides == map[] {
      OnlyDefault(rows, overrides, retentionDays, now);
    }
  }

  lemma DefaultPassReady(all: set<Entry>, rows: set<Entry>, overrides: map<string, int>, retentionDays: int, now: int)
    requires rows <= all && RunReady(all, overrides, retentionDays, now)
    ensures PassReady(rows, Excluding(overrides.Keys), now - retentionDays * DAY)
  {
    hide OfRoute, TidyEntry;
    DefaultPass(rows, overrides, retentionDays, now);
  }

  // ----- What passes leave -----

  /** How a pass over a scope ends: nothing expired is left, a call failed, a batch had no ids, or it
      is still at it after the given number of batches. */
  datatype Outcome = Done | Broken | WithoutIDs | Running

  /** What is gone after n batches, when `written` was archived. With tidy expired ids the rows gone
      are expired and archived themselves, and each batch takes some. */
  ghost predicate Went(all: set<Entry>, rows: set<Entry>, written: seq<Entry>, scope: Scope, cutoff: int, n: nat) {
    && Cleaned(all, rows, written, true)
    && (PassReady(all, scope, cutoff) ==> WentExactly(all, rows, written, scope, cutoff, n))
  }

  ghost predicate WentExactly(all: set<Entry>, rows: set<Entry>, written: seq<Entry>, scope: Scope, cutoff: int,
                              n: nat)
  {
    && all - rows <= Matching(all, scope, cutoff) && Archived(all - rows, written)
    && |Matching(rows, scope, cutoff)| + n <= |Matching(all, scope, cutoff)|
  }

  /** Rows go only by the trimmed id of an archived entry, so rows without a proper id stay. */
  ghost predicate Cleaned(all: set<Entry>, rows: set<Entry>, written: seq<Entry>, archiving: bool) {
    && rows <= all
    && (archiving ==> (forall e <- all :: !ProperID(e) ==> e in rows) && ByArchivedIDs(all - rows, written))
  }

  ghost predicate ByArchivedIDs(gone: set<Entry>, written: seq<Entry>) {
    forall e <- gone :: exists f <- written :: Trim(f.id) == e.id
  }

  lemma NothingWent(all: set<Entry>, scope: Scope, cutoff: int)
    ensures Went(all, all, [], scope, cutoff, 0)
  {
    hide Expired;
  }

  lemma WrittenGrows(all: set<Entry>, rows: set<Entry>, written: seq<Entry>, more: seq<Entry>, scope: Scope,
                     cutoff: int, n: nat)
    requires Went(all, rows, written, scope, cutoff, n) && written <= more
    ensures Went(all, rows, more, scope, cutoff, n)
  {
    hide Expired, Trim, PassReady, ProperID;
    assert forall e <- written :: e in more;
  }

  /** One batch more. */
  lemma BatchGoes(all: set<Entry>, rows: set<Entry>, written: seq<Entry>, entries: seq<Entry>, scope: Scope,
                  cutoff: int, n: nat)
    requires Keyed(all) && Went(all, rows, written, scope, cutoff, n) && IDs(entries) != []
    requires forall e <- entries :: e in Matching(rows, scope, cutoff)
    ensures Went(all, Without(rows, Normalized(IDs(entries))), written + entries, scope, cutoff, n + 1)
  {
    hide Expired, Trim, Matching, Normalized, Without, IDs, PassReady, WentExactly, ProperID;
    var ids := IDs(entries);
    var after, more := Without(rows, Normalized(ids)), written + entries;
    WithoutShrinks(rows, Normalized(ids));
    forall e | e in all && !ProperID(e)
      ensures e in after
    {
      ImproperStays(rows, ids, e);
    }
    forall e | e in all - after
      ensures exists f <- more :: Trim(f.id) == e.id
    {
      if e in rows {
        var f := GoneByID(rows, entries, e);
        assert f in more;
      } else {
        var f :| f in written && Trim(f.id) == e.id;
        assert f in more;
      }
    }
    if PassReady(all, scope, cutoff) {
      TidyBatchGoes(all, rows, written, entries, scope, cutoff, n);
    }
  }

  lemma WithoutShrinks(rows: set<Entry>, ids: set<string>)
    ensures Without(rows, ids) <= rows
  {
  }

  lemma GoneByID(rows: set<Entry>, entries: seq<Entry>, e: Entry) returns (f: Entry)
    requires e in rows && e !in Without(rows, Normalized(IDs(entries)))
    ensures f in entries && Trim(f.id) == e.id
  {
    hide Trim, IDs;
    var ids := IDs(entries);
    IDsAre(entries);
    var i :| 0 <= i < |ids| && Trim(ids[i]) != "" && e.id == Trim(ids[i]);
    assert ids[i] in ids;
    f :| f in entries && f.id == ids[i];
  }

  lemma TidyBatchGoes(all: set<Entry>, rows: set<Entry>, written: seq<Entry>, entries: seq<Entry>, scope: Scope,
                      cutoff: int, n: nat)
    requires rows <= all && PassReady(all, scope, cutoff) && WentExactly(all, rows, written, scope, cutoff, n)
    requires IDs(entries) != [] && forall e <- entries :: e in Matching(rows, scope, cutoff)
    ensures WentExactly(all, Without(rows, Normalized(IDs(entries))), written + entries, scope, cutoff, n + 1)
  {
    hide Expired, Trim, TidyEntry, Normalized, Without, IDs;
    assert forall e <- entries :: e in rows && e in Matching(all, scope, cutoff) && TidyEntry(e);
    TidyDeletesTheListed(rows, entries);
    var after, more := rows - Identified(entries), written + entries;
    forall e | e in all - after
      ensures e in Matching(all, scope, cutoff) && e in more
    {
      if e in rows {
        var i :| 0 <= i < |entries| && entries[i] == e;
        assert entries[i] in entries;
      }
    }
    SomeExpiredGo(rows, entries, scope, cutoff);
  }

  lemma SomeExpiredGo(rows: set<Entry>, entries: seq<Entry>, scope: Scope, cutoff: int)
    requires IDs(entries) != [] && forall e <- entries :: e in Matching(rows, scope, cutoff)
    ensures |Matching(rows - Identified(entries), scope, cutoff)| < |Matching(rows, scope, cutoff)|
  {
    hide Expired, Trim, IDs;
    IDsAre(entries);
    assert IDs(entries)[0] in IDs(entries);
    var e :| e in entries && e.id == IDs(entries)[0];
    var i :| 0 <= i < |entries| && entries[i] == e;
    assert e in Identified(entries);
    var before, left := Matching(rows, scope, cutoff), Matching(rows - Identified(entries), scope, cutoff);
    assert left <= before && e in before && e !in left;
    SubsetIsSmaller(left, before);
  }

  /** What a success says about the ids there were. */
  lemma DoneMeansProper(all: set<Entry>, rows: set<Entry>, written: seq<Entry>, scope: Scope, cutoff: int, n: nat)
    requires Went(all, rows, written, scope, cutoff, n) && Matching(rows, scope, cutoff) == {}
    ensures ProperIDs(Matching(all, scope, cutoff))
    ensures PassReady(all, scope, cutoff) ==> rows == all - Matching(all, scope, cutoff)
  {
    hide Expired, Trim, PassReady;
    forall e | e in Matching(all, scope, cutoff)
      ensures ProperID(e) && e !in rows
    {
      assert e !in Matching(rows, scope, cutoff);
    }
  }

  lemma ProperBatchHasIDs(all: set<Entry>, rows: set<Entry>, entries: seq<Entry>, scope: Scope, cutoff: int)
    requires rows <= all && entries != [] && IDs(entries) == []
    requires forall e <- entries :: e in Matching(rows, scope, cutoff)
    ensures !ProperIDs(Matching(all, scope, cutoff))
  {
    hide Expired, Trim;
    IDsAre(entries);
    var e := entries[0];
    assert e in entries && e in Matching(all, scope, cutoff);
    assert !ProperID(e);
  }

  // ----- The passes for overrides -----

  /** If the ids of entries stale under overrides are tidy, or nothing is archived, only such entries
      went, all of them archived. */
  ghost predicate OnlyStaleWent(all: set<Entry>, rows: set<Entry>, written: seq<Entry>, overrides: map<string, int>,
                                now: int, archiving: bool)
  {
    !archiving || OverridesReady(all, overrides, now) ==>
      && (forall e <- all - rows :: StaleUnder(e, overrides, overrides.Keys, now))
      && (archiving ==> Archived(all - rows, written))
  }

  /** Nothing is left that is stale under the routes done, and with archiving nothing stale under them
      had an improper id. */
  ghost predicate Handled(all: set<Entry>, rows: set<Entry>, overrides: map<string, int>, done: set<string>, now: int,
                          archiving: bool)
  {
    && (forall e <- rows :: !StaleUnder(e, overrides, done, now))
    && (archiving ==> forall e <- all :: StaleUnder(e, overrides, done, now) ==> ProperID(e))
  }

  lemma NothingHandled(all: set<Entry>, overrides: map<string, int>, now: int, archiving: bool)
    ensures Cleaned(all, all, [], archiving) && OnlyStaleWent(all, all, [], overrides, now, archiving)
    ensures Handled(all, all, overrides, {}, now, archiving)
  {
  }

  lemma StaleWentMeans(all: set<Entry>, rows: set<Entry>, written: seq<Entry>, overrides: map<string, int>, now: int,
                       archiving: bool)
    requires OnlyStaleWent(all, rows, written, overrides, now, archiving)
    ensures !archiving || OverridesReady(all, overrides, now) ==>
              && (forall e :: e in all - rows ==> StaleUnder(e, overrides, overrides.Keys, now))
              && (archiving ==> Archived(all - rows, written))
  {
    hide StaleUnder, OverridesReady, Archived;
  }

  lemma HandledMeans(all: set<Entry>, rows: set<Entry>, overrides: map<string, int>, now: int, archiving: bool)
    requires Handled(all, rows, overrides, overrides.Keys, now, archiving)
    ensures forall e <- rows :: !StaleUnder(e, overrides, overrides.Keys, now)
    ensures archiving ==> forall e <- all :: StaleUnder(e, overrides, overrides.Keys, now) ==> ProperID(e)
  {
    hide StaleUnder, ProperID;
  }

  lemma RunningIsShort(all: set<Entry>, rows: set<Entry>, overrides: map<string, int>, route: string, now: int,
                       archiving: bool)
    requires rows <= all && route in overrides
    ensures |Matching(rows, ForRoute(route), now - overrides[route] * DAY)| <= |all|
    ensures OverridesReady(all, overrides, now) ==> PassReady(rows, ForRoute(route), now - overrides[route] * DAY)
  {
    hide PassReady, OverridesReady;
    FewExpired(rows, ForRoute(route), now - overrides[route] * DAY);
    SubsetIsSmaller(rows, all);
    if OverridesReady(all, overrides, now) {
      OverridePassReady(all, rows, overrides, route, now);
    }
  }

  /** What one override's pass adds. */
  lemma OverrideWent(all: set<Entry>, rows: set<Entry>, left: set<Entry>, overrides: map<string, int>, route: string,
                     now: int,
                     start: seq<Entry>, before: seq<Entry>, after: seq<Entry>, archiving: bool)
    requires start <= before <= after && route in overrides
    requires Cleaned(all, rows, before[|start|..], archiving) && Cleaned(rows, left, after[|before|..], archiving)
    requires OnlyStaleWent(all, rows, before[|start|..], overrides, now, archiving)
    requires var cutoff := now - overrides[route] * DAY;
             !archiving || PassReady(rows, ForRoute(route), cutoff) ==>
               && rows - left <= Matching(rows, ForRoute(route), cutoff)
               && (archiving ==> Archived(rows - left, after[|before|..]))
    ensures Cleaned(all, left, after[|start|..], archiving) && left <= rows <= all && |left| <= |rows| <= |all|
    ensures OnlyStaleWent(all, left, after[|start|..], overrides, now, archiving)
    ensures archiving ==> forall e <- all :: !ProperID(e) ==> e in rows
  {
    hide StaleUnder, Matching, PassReady, OverridesReady, Archived, ProperID, Cleaned;
    CleanedTogether(all, rows, left, start, before, after, archiving);
    CleanedShrinks(all, rows, before[|start|..], archiving);
    CleanedShrinks(rows, left, after[|before|..], archiving);
    RunningIsShort(all, rows, overrides, route, now, archiving);
    OverridePass(rows, overrides, {}, route, now);
    if archiving && OverridesReady(all, overrides, now) {
      ArchivedTogether(all, rows, left, start, before, after);
    }
  }

  // ----- The scheduler -----

  class RetentionScheduler {
    const repo: AuditRepo
    const retentionDays: int
    const overrides: map<string, int>
    const archiveEnabled: bool
    const batchSize: int
    var archive: seq<Entry>

    constructor (repo: AuditRepo, retentionDays: int, overrides: map<string, int>, archiveEnabled: bool, batchSize: int)
      ensures this.repo == repo && this.retentionDays == retentionDays && this.overrides == overrides
      ensures this.archiveEnabled == archiveEnabled && this.batchSize == batchSize && archive == []
    {
      this.repo, this.retentionDays, this.overrides := repo, retentionDays, overrides;
      this.archiveEnabled, this.batchSize, archive := archiveEnabled, batchSize, [];
    }

    /** A failed write may leave some of the entries in the archive file. */
    method ArchiveEntries(entries: seq<Entry>) returns (ok: bool)
      modifies this`archive
      ensures old(archive) <= archive
      ensures forall k :: |old(archive)| <= k < |archive| ==> archive[k] in entries
      ensures ok ==> archive == old(archive) + entries
    {
      for i := 0 to |entries|
        invariant archive == old(archive) + entries[..i]
      {
        var broken: bool := *;
        if broken {
          return false;
        }
        archive := archive + [entries[i]];
        assert entries[..i + 1] == entries[..i] + [entries[i]];
      }
      assert entries[..|entries|] == entries;
      ok := *;
    }

    /** At most the given number of batches, whatever the ids of the entries. Unless a call fails,
        enough batches bring success exactly when every expired id is proper. */
    method ArchiveAndDelete(scope: Scope, cutoff: int, batches: nat) returns (total: int, outcome: Outcome)
      requires Keyed(repo.rows)
      modifies repo, this`archive
      ensures total == |old(repo.rows)| - |repo.rows| && old(archive) <= archive
      ensures Cleaned(old(repo.rows), repo.rows, archive[|old(archive)|..], true)
      ensures PassReady(old(repo.rows), scope, cutoff) ==>
                && old(repo.rows) - repo.rows <= Matching(old(repo.rows), scope, cutoff)
                && Archived(old(repo.rows) - repo.rows, archive[|old(archive)|..])
                && (outcome.Running? ==> batches <= |Matching(old(repo.rows), scope, cutoff)|)
      ensures outcome.Done? ==>
              Matching(repo.rows, scope, cutoff) == {} && ProperIDs(Matching(old(repo.rows), scope, cutoff))
      ensures outcome.WithoutIDs? ==> !ProperIDs(Matching(old(repo.rows), scope, cutoff))
    {
      hide Expired, MayList, Normalized, Without, IDs, Matching, Went, PassReady, ProperIDs, Cleaned;
      ghost var all, start := repo.rows, archive;
      total := 0;
      NothingWent(all, scope, cutoff);
      assert archive[|start|..] == [];
      for n := 0 to batches
        invariant total == |all| - |repo.rows| && start <= archive
        invariant Went(all, repo.rows, archive[|start|..], scope, cutoff, n)
      {
        ghost var rows := repo.rows;
        WentMeans(all, rows, archive[|start|..], scope, cutoff, n);
        var listed := repo.ListOlderThan(scope, cutoff, batchSize);
        if listed.None? {
          return total, Broken;
        }
        var entries := listed.value;
        ListedEntries(rows, scope, cutoff, batchSize, entries);
        if entries == [] {
          DoneMeansProper(all, rows, archive[|start|..], scope, cutoff, n);
          return total, Done;
        }
        ghost var archived := archive;
        var ok := ArchiveEntries(entries);
        assert archived[|start|..] <= archive[|start|..];
        WrittenGrows(all, rows, archived[|start|..], archive[|start|..], scope, cutoff, n);
        WentMeans(all, rows, archive[|start|..], scope, cutoff, n);
        if !ok {
          return total, Broken;
        }
        var ids := CollectIDs(entries);
        if ids == [] {
          ProperBatchHasIDs(all, rows, entries, scope, cutoff);
          return total, WithoutIDs;
        }
        var deleted := repo.DeleteByIDs(ids);
        if deleted.None? {
          return total, Broken;
        }
        total := total + deleted.value;
        BatchGoes(all, rows, archived[|start|..], entries, scope, cutoff, n);
        assert archived[|start|..] + entries == archive[|start|..];
      }
      outcome := Running;
      WentMeans(all, repo.rows, archive[|start|..], scope, cutoff, batches);
    }

    method CollectIDs(entries: seq<Entry>) returns (ids: seq<string>)
      ensures ids == IDs(entries)
    {
      ids := [];
      for i := 0 to |entries|
        invariant ids == IDs(entries[..i])
      {
        assert entries[..i + 1][..i] == entries[..i];
        if Trim(entries[i].id) != "" {
          ids := ids + [entries[i].id];
        }
      }
      assert entries[..|entries|] == entries;
    }

    method DeleteWithOptionalArchive(scope: Scope, cutoff: int, batches: nat) returns (total: int, outcome: Outcome)
      requires Keyed(repo.rows)
      modifies repo, this`archive
      ensures total == |old(repo.rows)| - |repo.rows| && old(archive) <= archive
      ensures Cleaned(old(repo.rows), repo.rows, archive[|old(archive)|..], archiveEnabled)
      ensures !archiveEnabled || PassReady(old(repo.rows), scope, cutoff) ==>
                && old(repo.rows) - repo.rows <= Matching(old(repo.rows), scope, cutoff)
                && (archiveEnabled ==> Archived(old(repo.rows) - repo.rows, archive[|old(archive)|..]))
                && (outcome.Running? ==> batches <= |Matching(old(repo.rows), scope, cutoff)|)
      ensures outcome.Done? ==> Matching(repo.rows, scope, cutoff) == {}
      ensures outcome.Done? && archiveEnabled ==> ProperIDs(Matching(old(repo.rows), scope, cutoff))
    {
      hide PassReady, Keyed, ProperIDs, Archived, Expired;
      if !archiveEnabled {
        ghost var all := repo.rows;
        var failed;
        total, failed := repo.DeleteOlderThan(scope, cutoff, batchSize);
        outcome := if failed then Broken else Done;
        if !failed {
          NoneExpired(all, scope, cutoff);
        }
      } else {
        hide Cleaned;
        total, outcome := ArchiveAndDelete(scope, cutoff, batches);
      }
    }

    /** The passes for the overrides, in any order. */
    method RunOverrides(now: int, batches: nat) returns (total: int, outcome: Outcome)
      requires Keyed(repo.rows)
      modifies repo, this`archive
      ensures old(archive) <= archive && Cleaned(old(repo.rows), repo.rows, archive[|old(archive)|..], archiveEnabled)
      ensures !archiveEnabled || OverridesReady(old(repo.rows), overrides, now) ==>
                && (forall e :: e in old(repo.rows) - repo.rows ==> StaleUnder(e, overrides, overrides.Keys, now))
                && (archiveEnabled ==> Archived(old(repo.rows) - repo.rows, archive[|old(archive)|..]))
                && (outcome.Running? ==> batches <= |old(repo.rows)|)
      ensures outcome.Done? ==> forall e <- repo.rows :: !StaleUnder(e, overrides, overrides.Keys, now)
      ensures outcome.Done? && archiveEnabled ==>
                forall e <- old(repo.rows) :: StaleUnder(e, overrides, overrides.Keys, now) ==> ProperID(e)
      ensures 0 <= total <= |old(repo.rows)| - |repo.rows|
      ensures outcome.Done? ==> total == |old(repo.rows)| - |repo.rows|
    {
      hide StaleUnder, Matching, PassReady, OverridesReady, Cleaned, Archived, ProperIDs, ProperID, Keyed,
          OnlyStaleWent, Handled;
      ghost var all, start := repo.rows, archive;
      var routes, done: set<string> := overrides.Keys, {};
      total := 0;
      NothingHandled(all, overrides, now, archiveEnabled);
      assert archive[|start|..] == [];
      while routes != {}
        invariant routes + done == overrides.Keys && start <= archive && total == |all| - |repo.rows|
        invariant Cleaned(all, repo.rows, archive[|start|..], archiveEnabled)
        invariant OnlyStaleWent(all, repo.rows, archive[|start|..], overrides, now, archiveEnabled)
        invariant Handled(all, repo.rows, overrides, done, now, archiveEnabled)
        decreases |routes|
      {
        var route :| route in routes;
        ghost var rows, archived := repo.rows, archive;
        CleanedShrinks(all, rows, archived[|start|..], archiveEnabled);
        var deleted, ended := DeleteWithOptionalArchive(ForRoute(route), now - overrides[route] * DAY, batches);
        OverrideWent(all, rows, repo.rows, overrides, route, now, start, archived, archive, archiveEnabled);
        RunningIsShort(all, rows, overrides, route, now, archiveEnabled);
        if !ended.Done? {
          outcome := ended;
          StaleWentMeans(all, repo.rows, archive[|start|..], overrides, now, archiveEnabled);
          return;
        }
        OverrideDone(all, rows, repo.rows, overrides, done, route, now, archiveEnabled);
        total := total + deleted;
        routes, done := routes - {route}, done + {route};
      }
      assert done == overrides.Keys;
      outcome := Done;
      CleanedShrinks(all, repo.rows, archive[|start|..], archiveEnabled);
      StaleWentMeans(all, repo.rows, archive[|start|..], overrides, now, archiveEnabled);
      HandledMeans(all, repo.rows, overrides, now, archiveEnabled);
    }

    /** Whatever fails and whatever the ids, with archiving rows go only by the trimmed id of an archived
        entry; and if the ids of stale entries are tidy, only stale entries go, all of them archived.
        On success no stale entry is left, and with archiving their ids were proper. On failure the
        count is that of the completed scopes. */
    method RunOnce(now: int, batches: nat) returns (total: int, outcome: Outcome)
      requires Keyed(repo.rows)
      modifies repo, this`archive
      ensures old(archive) <= archive && Cleaned(old(repo.rows), repo.rows, archive[|old(archive)|..], archiveEnabled)
      ensures retentionDays <= 0 ==> repo.rows == old(repo.rows) && total == 0 && outcome.Done?
      ensures !archiveEnabled || RunReady(old(repo.rows), overrides, retentionDays, now) ==>
                && (forall e :: e in old(repo.rows) - repo.rows ==> Stale(e, overrides, retentionDays, now))
                && (archiveEnabled ==> Archived(old(repo.rows) - repo.rows, archive[|old(archive)|..]))
                && (outcome.Running? ==> batches <= |old(repo.rows)|)
      ensures retentionDays > 0 && outcome.Done? ==> forall e <- repo.rows :: !Stale(e, overrides, retentionDays, now)
      ensures retentionDays > 0 && outcome.Done?
              && (!archiveEnabled || RunReady(old(repo.rows), overrides, retentionDays, now)) ==>
                forall e <- old(repo.rows) :: e in repo.rows <==> !Stale(e, overrides, retentionDays, now)
      ensures retentionDays > 0 && outcome.Done? && archiveEnabled ==>
                forall e <- old(repo.rows) :: Stale(e, overrides, retentionDays, now) ==> ProperID(e)
      ensures 0 <= total <= |old(repo.rows)| - |repo.rows|
      ensures outcome.Done? || overrides == map[] ==> total == |old(repo.rows)| - |repo.rows|
    {
      hide Stale, StaleUnder, Matching, PassReady, OverridesReady, RunReady, Cleaned, Archived, ProperIDs, ProperID;
      ghost var start, began := repo.rows, archive;
      NothingCleaned(start, archiveEnabled);
      assert archive[|began|..] == [];
      if retentionDays <= 0 {
        NoneGone(start);
        return 0, Done;
      }
      ghost var ready := !archiveEnabled || RunReady(start, overrides, retentionDays, now);
      if ready && archiveEnabled {
        RunIsReady(start, overrides, retentionDays, now);
      }
      if overrides == map[] {
        total, outcome := DeleteWithOptionalArchive(Everything, now - retentionDays * DAY, batches);
        CleanedShrinks(start, repo.rows, archive[|began|..], archiveEnabled);
        SubsetIsSmaller(repo.rows, start);
        OnlyDefault(start, overrides, retentionDays, now);
        FewExpired(start, Everything, now - retentionDays * DAY);
        DefaultDone(start, repo.rows, overrides, retentionDays, now, archiveEnabled, outcome);
        return;
      }
      total, outcome := RunOverrides(now, batches);
      StaleOverrides(start, overrides, retentionDays, now);
      if !outcome.Done? {
        return;
      }
      ghost var rows, archived := repo.rows, archive;
      CleanedShrinks(start, rows, archived[|began|..], archiveEnabled);
      if ready && archiveEnabled {
        DefaultPassReady(start, rows, overrides, retentionDays, now);
      }
      var deleted;
      deleted, outcome := DeleteWithOptionalArchive(Excluding(overrides.Keys), now - retentionDays * DAY, batches);
      CleanedShrinks(rows, repo.rows, archive[|archived|..], archiveEnabled);
      CleanedTogether(start, rows, repo.rows, began, archived, archive, archiveEnabled);
      SubsetIsSmaller(repo.rows, rows);
      FewExpired(rows, Excluding(overrides.Keys), now - retentionDays * DAY);
      if ready && archiveEnabled {
        ArchivedTogether(start, rows, repo.rows, began, archived, archive);
      }
      DefaultPass(rows, overrides, retentionDays, now);
      if !outcome.Done? {
        return;
      }
      AllDone(start, rows, repo.rows, overrides, retentionDays, now, archiveEnabled);
      total := total + deleted;
    }
  }

  lemma WentMeans(all: set<Entry>, rows: set<Entry>, written: seq<Entry>, scope: Scope, cutoff: int, n: nat)
    requires Went(all, rows, written, scope, cutoff, n)
    ensures rows <= all && Cleaned(all, rows, written, true)
    ensures PassReady(all, scope, cutoff) ==>
              all - rows <= Matching(all, scope, cutoff) && Archived(all - rows, written)
                  && n <= |Matching(all, scope, cutoff)|
  {
    hide PassReady, Matching;
  }

  lemma NothingCleaned(all: set<Entry>, archiving: bool)
    ensures Cleaned(all, all, [], archiving)
  {
  }

  lemma NoneGone(all: set<Entry>)
    ensures Archived(all - all, [])
  {
  }

  lemma CleanedShrinks(all: set<Entry>, rows: set<Entry>, written: seq<Entry>, archiving: bool)
    requires Cleaned(all, rows, written, archiving)
    ensures rows <= all && |rows| <= |all| && (Keyed(all) ==> Keyed(rows))
    ensures archiving ==> forall e <- all :: !ProperID(e) ==> e in rows
  {
    hide ProperID, ByArchivedIDs;
    SubsetIsSmaller(rows, all);
  }

  lemma ArchivedFor(gone: set<Entry>, written: seq<Entry>, e: Entry) returns (f: Entry)
    requires ByArchivedIDs(gone, written) && e in gone
    ensures f in written && Trim(f.id) == e.id
  {
    hide Trim;
    f :| f in written && Trim(f.id) == e.id;
  }

  lemma CleanedTogether(all: set<Entry>, rows: set<Entry>, left: set<Entry>,
                        start: seq<Entry>, before: seq<Entry>, after: seq<Entry>, archiving: bool)
    requires start <= before <= after
    requires Cleaned(all, rows, before[|start|..], archiving) && Cleaned(rows, left, after[|before|..], archiving)
    ensures Cleaned(all, left, after[|start|..], archiving)
  {
    hide ProperID, Trim;
    assert after[|start|..] == before[|start|..] + after[|before|..];
    if archiving {
      forall e | e in all - left
        ensures exists f <- after[|start|..] :: Trim(f.id) == e.id
      {
        if e in rows {
          var f := ArchivedFor(rows - left, after[|before|..], e);
          assert f in after[|start|..];
        } else {
          var f := ArchivedFor(all - rows, before[|start|..], e);
          assert f in after[|start|..];
        }
      }
    }
  }

  lemma NoneExpired(all: set<Entry>, scope: Scope, cutoff: int)
    ensures Matching(all - Matching(all, scope, cutoff), scope, cutoff) == {}
  {
    hide Expired;
  }

  lemma FewExpired(rows: set<Entry>, scope: Scope, cutoff: int)
    ensures |Matching(rows, scope, cutoff)| <= |rows|
  {
    hide Expired;
    SubsetIsSmaller(Matching(rows, scope, cutoff), rows);
  }

  /** A completed override pass takes care of its route. */
  lemma OverrideDone(all: set<Entry>, rows: set<Entry>, left: set<Entry>, overrides: map<string, int>,
                     done: set<string>,
                     route: string, now: int, archiving: bool)
    requires left <= rows <= all && route in overrides
    requires Matching(left, ForRoute(route), now - overrides[route] * DAY) == {}
    requires archiving ==> ProperIDs(Matching(rows, ForRoute(route), now - overrides[route] * DAY))
    requires archiving ==> forall e <- all :: !ProperID(e) ==> e in rows
    requires Handled(all, rows, overrides, done, now, archiving)
    ensures Handled(all, left, overrides, done + {route}, now, archiving)
  {
    hide StaleFor, ProperID, Matching;
    forall e | e in left
      ensures !StaleUnder(e, overrides, done + {route}, now)
    {
      InOverridePass(left, e, overrides, route, now);
    }
    forall e | e in all && archiving && StaleUnder(e, overrides, done + {route}, now)
      ensures ProperID(e)
    {
      if e in rows && !StaleUnder(e, overrides, done, now) {
        InOverridePass(rows, e, overrides, route, now);
      }
    }
  }

  /** The same of the pass without overrides. */
  lemma DefaultDone(all: set<Entry>, left: set<Entry>, overrides: map<string, int>, retentionDays: int, now: int,
                    archiving: bool, outcome: Outcome)
    requires overrides == map[] && left <= all
    requires outcome.Done? ==> Matching(left, Everything, now - retentionDays * DAY) == {}
    requires outcome.Done? && archiving ==> ProperIDs(Matching(all, Everything, now - retentionDays * DAY))
    ensures outcome.Done? ==> forall e <- left :: !Stale(e, overrides, retentionDays, now)
    ensures outcome.Done? && archiving ==> forall e <- all :: Stale(e, overrides, retentionDays, now) ==> ProperID(e)
  {
    hide Matching, Stale, ProperID;
    OnlyDefault(left, overrides, retentionDays, now);
    OnlyDefault(all, overrides, retentionDays, now);
  }

  /** And of the override passes and the default pass together. */
  lemma AllDone(all: set<Entry>, rows: set<Entry>, left: set<Entry>, overrides: map<string, int>, retentionDays: int,
                now: int,
                archiving: bool)
    requires left <= rows <= all
    requires forall e <- rows :: !StaleUnder(e, overrides, overrides.Keys, now)
    requires archiving ==> forall e <- all :: StaleUnder(e, overrides, overrides.Keys, now) ==> ProperID(e)
    requires archiving ==> forall e <- all :: !ProperID(e) ==> e in rows
    requires Matching(left, Excluding(overrides.Keys), now - retentionDays * DAY) == {}
    requires archiving ==> ProperIDs(Matching(rows, Excluding(overrides.Keys), now - retentionDays * DAY))
    ensures forall e <- left :: !Stale(e, overrides, retentionDays, now)
    ensures archiving ==> forall e <- all :: Stale(e, overrides, retentionDays, now) ==> ProperID(e)
  {
    hide Stale, StaleUnder, Matching, ProperID;
    DefaultPass(left, overrides, retentionDays, now);
    DefaultPass(rows, overrides, retentionDays, now);
    forall e | e in all && archiving && Stale(e, overrides, retentionDays, now)
      ensures ProperID(e)
    {
      assert e in rows || ProperID(e);
    }
  }

  lemma NoneUnder(rows: set<Entry>, overrides: map<string, int>, now: int)
    ensures forall e <- rows :: !StaleUnder(e, overrides, {}, now)
  {
  }

  /** What one override's pass means for the overrides done so far. */
  lemma OverridePass(rows: set<Entry>, overrides: map<string, int>, done: set<string>, route: string, now: int)
    requires route in overrides
    ensures forall e <- Matching(rows, ForRoute(route), now - overrides[route] * DAY) ::
            StaleUnder(e, overrides, overrides.Keys, now)
    ensures forall e <- rows ::
              e !in Matching(rows, ForRoute(route), now - overrides[route] * DAY)
                  && !StaleUnder(e, overrides, done, now)
              ==> !StaleUnder(e, overrides, done + {route}, now)
  {
    hide StaleFor, Matching;
    forall e
      ensures e in Matching(rows, ForRoute(route), now - overrides[route] * DAY)
              <==> e in rows && StaleFor(e, overrides, route, now)
    {
      InOverridePass(rows, e, overrides, route, now);
    }
  }

  lemma StaleOverrides(rows: set<Entry>, overrides: map<string, int>, retentionDays: int, now: int)
    ensures forall e <- rows :: StaleUnder(e, overrides, overrides.Keys, now) ==>
            Stale(e, overrides, retentionDays, now)
  {
    hide StaleFor;
  }

  lemma DefaultPass(rows: set<Entry>, overrides: map<string, int>, retentionDays: int, now: int)
    ensures var expired := Matching(rows, Excluding(overrides.Keys), now - retentionDays * DAY);
            && (forall e <- expired :: Stale(e, overrides, retentionDays, now))
            && (forall e <- rows - expired :: !StaleUnder(e, overrides, overrides.Keys, now) ==>
                                                !Stale(e, overrides, retentionDays, now))
  {
    hide Stale, StaleUnder, Matching;
    var expired := Matching(rows, Excluding(overrides.Keys), now - retentionDays * DAY);
    forall e | e in expired
      ensures Stale(e, overrides, retentionDays, now)
    {
      StaleByDefault(rows, e, overrides, retentionDays, now);
    }
    forall e | e in rows - expired
      ensures !StaleUnder(e, overrides, overrides.Keys, now) ==> !Stale(e, overrides, retentionDays, now)
    {
      StaleByDefault(rows, e, overrides, retentionDays, now);
    }
  }

  lemma StaleByDefault(rows: set<Entry>, e: Entry, overrides: map<string, int>, retentionDays: int, now: int)
    requires e in rows || e in Matching(rows, Excluding(overrides.Keys), now - retentionDays * DAY)
    ensures var expired := e in Matching(rows, Excluding(overrides.Keys), now - retentionDays * DAY);
            && (expired ==> Stale(e, overrides, retentionDays, now))
            && (!expired && !StaleUnder(e, overrides, overrides.Keys, now) ==> !Stale(e, overrides, retentionDays, now))
  {
    hide StaleFor, OfRoute, Matching;
    InPass(rows, e, Excluding(overrides.Keys), now - retentionDays * DAY);
    assert DAY == 86_400_000_000_000;
  }

  lemma OnlyDefault(rows: set<Entry>, overrides: map<string, int>, retentionDays: int, now: int)
    requires overrides == map[]
    ensures forall e <- rows ::
              e in Matching(rows, Everything, now - retentionDays * DAY) <==> Stale(e, overrides, retentionDays, now)
  {
    hide OfRoute, Matching;
    forall e | e in rows
      ensures e in Matching(rows, Everything, now - retentionDays * DAY) <==> Stale(e, overrides, retentionDays, now)
    {
      InPass(rows, e, Everything, now - retentionDays * DAY);
    }
  }

  lemma ArchivedTogether(all: set<Entry>, rows: set<Entry>, left: set<Entry>,
                         start: seq<Entry>, before: seq<Entry>, after: seq<Entry>)
    requires left <= rows <= all && start <= before <= after
    requires Archived(all - rows, before[|start|..]) && Archived(rows - left, after[|before|..])
    ensures Archived(all - left, after[|start|..])
  {
    ArchivedGrows(all - rows, start, before, after);
    forall e | e in rows - left
      ensures e in after[|start|..]
    {
      var k :| 0 <= k < |after| - |before| && after[|before|..][k] == e;
      assert after[|start|..][|before| - |start| + k] == e;
    }
  }

  lemma ArchivedGrows(gone: set<Entry>, start: seq<Entry>, before: seq<Entry>, after: seq<Entry>)
    requires start <= before <= after && Archived(gone, before[|start|..])
    ensures Archived(gone, after[|start|..])
  {
    forall e | e in gone
      ensures e in after[|start|..]
    {
      var k :| 0 <= k < |before| - |start| && before[|start|..][k] == e;
      assert after[|start|..][k] == e;
    }
  }
}
