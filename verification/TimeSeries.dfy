/** The per-minute aggregate stores: one that records metrics singly, and one that records them in
    batches grouped by minute. Times are in nanoseconds. */
module TimeSeries {
  import opened Basics

  const MINUTE: int := 60_000_000_000
  const MAX_SAMPLES: nat := 10_000
  const MAX_BUCKETS: nat := 10_000

  datatype Metric = Metric(timestamp: int, statusCode: int, latency: int, bytesIn: int, bytesOut: int, credits: int,
                           error: bool)

  datatype Bucket = Bucket(requests: nat, errors: nat, latencySum: int, latencies: seq<int>,
                           statusCodes: map<int, nat>, bytesIn: int, bytesOut: int, credits: int)

  const EMPTY := Bucket(0, 0, 0, [], map[], 0, 0, 0)

  type Buckets = map<int, Bucket>

  /** The state of a store; no cleanup has happened while `lastCleanup` is none. */
  datatype Store = Store(buckets: Buckets, lastCleanup: Option<int>)

  const INITIAL := Store(map[], None)

  function Minute(t: int): int {
    t / MINUTE
  }

  /** The minute that starts k times sixty seconds after the epoch. */
  predicate InMinute(t: int, k: int) {
    k * 60_000_000_000 <= t < (k + 1) * 60_000_000_000
  }

  lemma MinuteIff(t: int, k: int)
    ensures Minute(t) == k <==> InMinute(t, k)
  {
  }

  predicate IsError(m: Metric) {
    m.error || m.statusCode >= 500
  }

  function CodeCounted(codes: map<int, nat>, code: int): map<int, nat> {
    if code > 0 then codes[code := (if code in codes then codes[code] else 0) + 1] else codes
  }

  /** Everything a metric adds to its bucket, except the latency sample. */
  function Counted(b: Bucket, m: Metric): Bucket {
    b.(requests := b.requests + 1,
       errors := b.errors + (if IsError(m) then 1 else 0),
       latencySum := b.latencySum + m.latency,
       statusCodes := CodeCounted(b.statusCodes, m.statusCode),
       bytesIn := b.bytesIn + m.bytesIn, bytesOut := b.bytesOut + m.bytesOut, credits := b.credits + m.credits)
  }

  /** Reservoir sampling: beyond the cap a random earlier sample may be replaced. */
  function Sampled(latencies: seq<int>, latency: int, total: nat, roll: nat): seq<int>
    requires total > 0
  {
    if |latencies| < MAX_SAMPLES then latencies + [latency]
    else
      var idx := roll % total;
      if idx < MAX_SAMPLES then latencies[idx := latency] else latencies
  }

  method SampleOne(before: seq<int>, latency: int, total: nat, roll: nat) returns (latencies: seq<int>)
    requires total > 0
    ensures latencies == Sampled(before, latency, total, roll)
  {
    latencies := before;
    if |latencies| < MAX_SAMPLES {
      latencies := latencies + [latency];
    } else {
      var idx := roll % total;
      if idx < MAX_SAMPLES {
        latencies := latencies[idx := latency];
      }
    }
  }

  function Expired(buckets: Buckets, now: int, retention: int): Buckets {
    map k | k in buckets && k >= Minute(now - retention) :: buckets[k]
  }

  /** A minute over by the time the retention reaches back to. */
  predicate TooOld(k: int, now: int, retention: int) {
    (k + 1) * 60_000_000_000 <= now - retention
  }

  /** A cleanup removes exactly these, and leaves the others as they are. */
  lemma ExpiredIff(buckets: Buckets, now: int, retention: int, k: int)
    ensures k in Expired(buckets, now, retention) <==> k in buckets && !TooOld(k, now, retention)
    ensures k in Expired(buckets, now, retention) ==> Expired(buckets, now, retention)[k] == buckets[k]
  {
    MinuteIff(now - retention, Minute(now - retention));
  }

  // ----- One at a time -----

  function Recorded(s: Store, retention: int, m: Metric, roll: nat): Store {
    var ts, key := m.timestamp, Minute(m.timestamp);
    var full := |s.buckets| >= MAX_BUCKETS;
    var s1 := if full then Store(Expired(s.buckets, ts, retention), Some(ts)) else s;
    if full && |s1.buckets| >= MAX_BUCKETS then s1
    else
      var b := if key in s1.buckets then s1.buckets[key] else EMPTY;
      var b' := Counted(b, m).(latencies := Sampled(b.latencies, m.latency, b.requests + 1, roll));
      var buckets := s1.buckets[key := b'];
      if s1.lastCleanup.None?
          || ts - s1.lastCleanup.value >= MINUTE then Store(Expired(buckets, ts, retention), Some(ts))
      else Store(buckets, s1.lastCleanup)
  }

  method Add(before: Bucket, m: Metric, roll: nat) returns (b: Bucket)
    ensures b == Counted(before, m).(latencies := Sampled(before.latencies, m.latency, before.requests + 1, roll))
  {
    hide Sampled;
    b := before.(requests := before.requests + 1);
    if m.error || m.statusCode >= 500 {
      b := b.(errors := b.errors + 1);
    }
    b := b.(latencySum := b.latencySum + m.latency);
    var latencies := SampleOne(b.latencies, m.latency, b.requests, roll);
    b := b.(latencies := latencies);
    if m.statusCode > 0 {
      var count := if m.statusCode in b.statusCodes then b.statusCodes[m.statusCode] else 0;
      b := b.(statusCodes := b.statusCodes[m.statusCode := count + 1]);
    }
    b := b.(bytesIn := b.bytesIn + m.bytesIn, bytesOut := b.bytesOut + m.bytesOut, credits := b.credits + m.credits);
  }

  /** The store is full, has never been cleaned, or was cleaned a minute ago or more. */
  predicate CleanupDue(s: Store, now: int) {
    |s.buckets| >= 10_000 || s.lastCleanup.None? || now - s.lastCleanup.value >= 60_000_000_000
  }

  /** What recording a metric does to the buckets of other minutes. */
  lemma RecordedOthers(s: Store, retention: int, m: Metric, roll: nat)
    ensures var after := Recorded(s, retention, m, roll).buckets;
            && (forall k :: k in after ==> k in s.buckets || InMinute(m.timestamp, k))
            && (forall k :: k in s.buckets && !InMinute(m.timestamp, k) ==>
                  (k in after <==> !(CleanupDue(s, m.timestamp) && TooOld(k, m.timestamp, retention))))
            && (forall k :: k in s.buckets && k in after && !InMinute(m.timestamp, k) ==> after[k] == s.buckets[k])
    ensures Recorded(s, retention, m, roll).lastCleanup
            == if CleanupDue(s, m.timestamp) then Some(m.timestamp) else s.lastCleanup
  {
    hide Counted, Sampled;
    var ts := m.timestamp;
    MinuteIff(ts, Minute(ts));
    var cutoff := Minute(ts - retention);
    MinuteIff(ts - retention, cutoff);
  }

  class TimeSeriesStore {
    var state: Store
    const retention: int

    constructor (retention: int)
      ensures state == INITIAL && this.retention == if retention <= 0 then 1440 * MINUTE
              else if retention < MINUTE then MINUTE else retention
    {
      state := INITIAL;
      this.retention := if retention <= 0 then 1440 * MINUTE else if retention < MINUTE then MINUTE else retention;
    }

    /** `roll` stands for the random number of the reservoir. */
    method Record(m: Metric, roll: nat)
      modifies this
      ensures state == Recorded(old(state), retention, m, roll)
      ensures forall k :: k in state.buckets ==> k in old(state).buckets || InMinute(m.timestamp, k)
      ensures forall k :: k in old(state).buckets && !InMinute(m.timestamp, k) ==>
                (k in state.buckets <==> !(CleanupDue(old(state), m.timestamp) && TooOld(k, m.timestamp, retention)))
      ensures forall k :: k in old(state).buckets && k in state.buckets && !InMinute(m.timestamp, k) ==>
                state.buckets[k] == old(state).buckets[k]
      ensures state.lastCleanup
              == if CleanupDue(old(state), m.timestamp) then Some(m.timestamp) else old(state).lastCleanup
    {
      hide Counted, Sampled;
      RecordedOthers(state, retention, m, roll);
      var ts := m.timestamp;
      var key := Minute(ts);
      if |state.buckets| >= MAX_BUCKETS {
        state := Store(Expired(state.buckets, ts, retention), Some(ts));
        if |state.buckets| >= MAX_BUCKETS { return; }
      }
      var b := if key in state.buckets then state.buckets[key] else EMPTY;
      b := Add(b, m, roll);
      state := state.(buckets := state.buckets[key := b]);
      if state.lastCleanup.None? || ts - state.lastCleanup.value >= MINUTE {
        state := Store(Expired(state.buckets, ts, retention), Some(ts));
      }
    }
  }

  // ----- In batches -----

  function CountedAll(b: Bucket, ms: seq<Metric>): Bucket {
    if ms == [] then b else Counted(CountedAll(b, ms[..|ms| - 1]), ms[|ms| - 1])
  }

  function SampledAll(latencies: seq<int>, ms: seq<Metric>, total: nat, draw: nat -> nat): seq<int>
    requires total > 0
  {
    if ms == [] then latencies
    else Sampled(SampledAll(latencies, ms[..|ms| - 1], total, draw), ms[|ms| - 1].latency, total, draw(|ms| - 1))
  }

  /** The metrics of one minute, in their order. */
  function OfMinute(ms: seq<Metric>, k: int): seq<Metric> {
    if ms == [] then []
    else
      var m, earlier := ms[|ms| - 1], OfMinute(ms[..|ms| - 1], k);
      if Minute(m.timestamp) == k then earlier + [m] else earlier
  }

  function Minutes(ms: seq<Metric>): set<int> {
    set i | 0 <= i < |ms| :: Minute(ms[i].timestamp)
  }

  function GroupAdded(b: Bucket, ms: seq<Metric>, draw: nat -> nat): Bucket
    requires ms != []
  {
    CountedAll(b, ms).(latencies := SampledAll(b.latencies, ms, b.requests + |ms|, draw))
  }

  lemma {:induction false} MinuteInhabited(ms: seq<Metric>, k: int)
    ensures k in Minutes(ms) <==> OfMinute(ms, k) != []
  {
    if ms != [] {
      var n := |ms| - 1;
      MinuteInhabited(ms[..n], k);
      MinutesSnoc(ms[..n], ms[n]);
      assert ms == ms[..n] + [ms[n]];
    }
  }

  lemma MinutesSnoc(ms: seq<Metric>, m: Metric)
    ensures Minutes(ms + [m]) == Minutes(ms) + {Minute(m.timestamp)}
  {
    var more := ms + [m];
    assert more[|ms|] == m;
    assert forall i :: 0 <= i < |ms| ==> more[i] == ms[i];
    assert forall k :: k in Minutes(ms) ==> k in Minutes(more);
  }

  function DrawFor(draw: (int, nat) -> nat, k: int): nat -> nat {
    i => draw(k, i)
  }

  function BatchedBucket(buckets: Buckets, batch: seq<Metric>, k: int, draw: (int, nat) -> nat): Bucket {
    var b := if k in buckets then buckets[k] else EMPTY;
    var group := OfMinute(batch, k);
    if group == [] then b else GroupAdded(b, group, DrawFor(draw, k))
  }

  function BatchedBuckets(buckets: Buckets, batch: seq<Metric>, draw: (int, nat) -> nat): Buckets {
    map k | k in buckets.Keys + Minutes(batch) :: BatchedBucket(buckets, batch, k, draw)
  }

  function Batched(s: Store, retention: int, batch: seq<Metric>, now: int, draw: (int, nat) -> nat): Store {
    if batch == [] then s
    else
      var buckets := BatchedBuckets(s.buckets, batch, draw);
      if s.lastCleanup.None?
          || now - s.lastCleanup.value > MINUTE then Store(Expired(buckets, now, retention), Some(now))
      else Store(buckets, s.lastCleanup)
  }

  class OptimizedTimeSeriesStore {
    var state: Store
    const retention: int

    constructor (retention: int)
      ensures state == INITIAL && this.retention == if retention <= 0 then 1440 * MINUTE else retention
    {
      state := INITIAL;
      this.retention := if retention <= 0 then 1440 * MINUTE else retention;
    }

    /** `now` is the wall clock, `draw(k, i)` the random number for the i-th sample of minute k. */
    method RecordBatch(batch: seq<Metric>, now: int, draw: (int, nat) -> nat)
      modifies this
      ensures state == Batched(old(state), retention, batch, now, draw)
    {
      if |batch| == 0 { return; }
      var buckets := RecordGroups(state.buckets, batch, draw);
      state := state.(buckets := buckets);
      if state.lastCleanup.None? || now - state.lastCleanup.value > MINUTE {
        state := Store(Expired(state.buckets, now, retention), Some(now));
      }
    }
  }

  lemma SomeMinuteLeft(minutes: set<int>)
    ensures minutes == {} || exists k :: k in minutes
  {
    if forall k: int :: k !in minutes {
      assert minutes == {};
    }
  }

  /** Each group goes to its bucket; the groups come in any order. */
  method RecordGroups(before: Buckets, batch: seq<Metric>, draw: (int, nat) -> nat) returns (buckets: Buckets)
    ensures buckets == BatchedBuckets(before, batch, draw)
  {
    hide OfMinute, GroupAdded, Minutes, DrawFor, BatchedBucket, BatchedBuckets;
    var groups := Group(batch);
    buckets := before;
    var todo := groups.Keys;
    while todo != {}
      invariant todo <= groups.Keys
      invariant buckets.Keys == before.Keys + (groups.Keys - todo)
      invariant forall k :: k in buckets && (k !in groups || k in todo) ==> buckets[k] == before[k]
      invariant forall k :: k in groups && k !in todo ==> buckets[k] == BatchedBucket(before, batch, k, draw)
    {
      SomeMinuteLeft(todo);
      var k :| k in todo;
      var b := if k in buckets then buckets[k] else EMPTY;
      BucketOf(before, batch, k, draw);
      b := RecordToBucket(b, groups[k], DrawFor(draw, k));
      buckets := buckets[k := b];
      todo := todo - {k};
    }
    forall k | k in buckets && k !in groups
      ensures buckets[k] == BatchedBucket(before, batch, k, draw)
    {
      MinuteInhabited(batch, k);
      BucketOf(before, batch, k, draw);
    }
    BucketsOf(buckets, before, batch, draw);
  }

  lemma BucketOf(before: Buckets, batch: seq<Metric>, k: int, draw: (int, nat) -> nat)
    ensures var b, group := if k in before then before[k] else EMPTY, OfMinute(batch, k);
            BatchedBucket(before, batch, k, draw) == if group == [] then b else GroupAdded(b, group, DrawFor(draw, k))
  {
  }

  lemma BucketsOf(buckets: Buckets, before: Buckets, batch: seq<Metric>, draw: (int, nat) -> nat)
    requires buckets.Keys == before.Keys + Minutes(batch)
    requires forall k :: k in buckets ==> buckets[k] == BatchedBucket(before, batch, k, draw)
    ensures buckets == BatchedBuckets(before, batch, draw)
  {
    hide Minutes, BatchedBucket;
  }

  method Group(batch: seq<Metric>) returns (groups: map<int, seq<Metric>>)
    ensures groups.Keys == Minutes(batch)
    ensures forall k :: k in groups ==> groups[k] == OfMinute(batch, k) && groups[k] != []
  {
    groups := map[];
    for i := 0 to |batch|
      invariant groups.Keys == Minutes(batch[..i])
      invariant forall k :: k in groups ==> groups[k] == OfMinute(batch[..i], k) && groups[k] != []
    {
      hide Minutes;
      var m := batch[i];
      var k := Minute(m.timestamp);
      assert batch[..i + 1] == batch[..i] + [m] && batch[..i + 1][..i] == batch[..i];
      MinutesSnoc(batch[..i], m);
      MinuteInhabited(batch[..i], k);
      groups := groups[k := (if k in groups then groups[k] else []) + [m]];
    }
    assert batch[..|batch|] == batch;
  }

  method RecordToBucket(b: Bucket, ms: seq<Metric>, draw: nat -> nat) returns (r: Bucket)
    requires ms != []
    ensures r == GroupAdded(b, ms, draw)
  {
    hide Counted, Sampled;
    r := CountAll(b, ms);
    CountedAllFacts(b, ms);
    var latencies := SampleAll(r.latencies, ms, r.requests, draw);
    r := r.(latencies := latencies);
  }

  method CountAll(b: Bucket, ms: seq<Metric>) returns (r: Bucket)
    ensures r == CountedAll(b, ms)
  {
    hide CodeCounted;
    var latencySum, errors := 0, 0;
    r := b;
    for i := 0 to |ms|
      invariant errors >= 0
      invariant r.(errors := r.errors + errors, latencySum := r.latencySum + latencySum) == CountedAll(b, ms[..i])
    {
      assert ms[..i + 1][..i] == ms[..i];
      var m := ms[i];
      r := r.(requests := r.requests + 1, bytesIn := r.bytesIn + m.bytesIn, bytesOut := r.bytesOut + m.bytesOut,
              credits := r.credits + m.credits);
      latencySum := latencySum + m.latency;
      if m.error || m.statusCode >= 500 {
        errors := errors + 1;
      }
      var codes := CountCode(r.statusCodes, m.statusCode);
      r := r.(statusCodes := codes);
    }
    assert ms[..|ms|] == ms;
    r := r.(latencySum := r.latencySum + latencySum, errors := r.errors + errors);
  }

  method CountCode(before: map<int, nat>, code: int) returns (codes: map<int, nat>)
    ensures codes == CodeCounted(before, code)
  {
    codes := before;
    if code > 0 {
      if code in codes {
        codes := codes[code := codes[code] + 1];
      } else {
        codes := codes[code := 1];
      }
    }
  }

  method SampleAll(before: seq<int>, ms: seq<Metric>, total: nat, draw: nat -> nat) returns (latencies: seq<int>)
    requires total > 0
    ensures latencies == SampledAll(before, ms, total, draw)
  {
    hide Sampled;
    latencies := before;
    for i := 0 to |ms|
      invariant latencies == SampledAll(before, ms[..i], total, draw)
    {
      assert ms[..i + 1][..i] == ms[..i];
      latencies := SampleOne(latencies, ms[i].latency, total, draw(i));
    }
    assert ms[..|ms|] == ms;
  }

  lemma {:induction false} CountedAllFacts(b: Bucket, ms: seq<Metric>)
    ensures CountedAll(b, ms).requests == b.requests + |ms| && CountedAll(b, ms).latencies == b.latencies
  {
    if ms != [] {
      CountedAllFacts(b, ms[..|ms| - 1]);
    }
  }

  // ----- What both stores hold -----

  function Total(ms: seq<Metric>, amount: Metric -> int): int {
    if ms == [] then 0 else Total(ms[..|ms| - 1], amount) + amount(ms[|ms| - 1])
  }

  function HowMany(ms: seq<Metric>, which: Metric -> bool): nat {
    if ms == [] then 0 else HowMany(ms[..|ms| - 1], which) + if which(ms[|ms| - 1]) then 1 else 0
  }

  /** The counters of a bucket that has seen the metrics ms, each on its own. */
  lemma {:induction false} CountersAreTotals(ms: seq<Metric>)
    ensures var b := CountedAll(EMPTY, ms);
            && b.requests == |ms| && b.errors == HowMany(ms, (m: Metric) => m.error || m.statusCode >= 500)
            && b.latencySum == Total(ms, (m: Metric) => m.latency)
            && b.bytesIn == Total(ms, (m: Metric) => m.bytesIn) && b.bytesOut == Total(ms, (m: Metric) => m.bytesOut)
            && b.credits == Total(ms, (m: Metric) => m.credits)
            && forall code: int ::
               (code in b.statusCodes <==> code > 0 && HowMany(ms, (m: Metric) => m.statusCode == code) > 0)
                                   && (code in b.statusCodes ==>
                                       b.statusCodes[code] == HowMany(ms, (m: Metric) => m.statusCode == code))
  {
    if ms != [] {
      CountersAreTotals(ms[..|ms| - 1]);
    }
  }

  function Latencies(ms: seq<Metric>): seq<int> {
    if ms == [] then [] else Latencies(ms[..|ms| - 1]) + [ms[|ms| - 1].latency]
  }

  /** A bucket that has seen exactly the metrics ms: every counter is exact, there are as many
      samples as the cap allows, and below the cap the samples are all the latencies in order. */
  ghost predicate Matches(b: Bucket, ms: seq<Metric>) {
    && b.(latencies := []) == CountedAll(EMPTY, ms)
    && |b.latencies| == (if |ms| < 10_000 then |ms| else 10_000)
    && (|ms| <= 10_000 ==> b.latencies == Latencies(ms))
  }

  /** The same, counter by counter. */
  ghost predicate Summary(b: Bucket, ms: seq<Metric>) {
    && b.requests == |ms| && b.errors == HowMany(ms, (m: Metric) => m.error || m.statusCode >= 500)
    && b.latencySum == Total(ms, (m: Metric) => m.latency)
    && b.bytesIn == Total(ms, (m: Metric) => m.bytesIn) && b.bytesOut == Total(ms, (m: Metric) => m.bytesOut)
    && b.credits == Total(ms, (m: Metric) => m.credits)
    && (forall code: int ::
          && (code in b.statusCodes <==> code > 0 && HowMany(ms, (m: Metric) => m.statusCode == code) > 0)
          && (code in b.statusCodes ==> b.statusCodes[code] == HowMany(ms, (m: Metric) => m.statusCode == code)))
    && |b.latencies| == (if |ms| < 10_000 then |ms| else 10_000)
    && (|ms| <= 10_000 ==> b.latencies == Latencies(ms))
  }

  lemma MatchesIsSummary(b: Bucket, ms: seq<Metric>)
    requires Matches(b, ms)
    ensures Summary(b, ms)
  {
    hide CountedAll, Latencies;
    CountersAreTotals(ms);
  }

  lemma CountedIgnoresSamples(b: Bucket, m: Metric)
    ensures Counted(b, m).(latencies := []) == Counted(b.(latencies := []), m)
  {
  }

  lemma SampledMatches(latencies: seq<int>, ms: seq<Metric>, m: Metric, total: nat, roll: nat)
    requires total > 0 && |latencies| == (if |ms| < MAX_SAMPLES then |ms| else MAX_SAMPLES)
    requires |ms| <= MAX_SAMPLES ==> latencies == Latencies(ms)
    ensures var after := Sampled(latencies, m.latency, total, roll);
            && |after| == (if |ms| + 1 < MAX_SAMPLES then |ms| + 1 else MAX_SAMPLES)
            && (|ms| + 1 <= MAX_SAMPLES ==> after == Latencies(ms + [m]))
  {
    assert (ms + [m])[..|ms|] == ms;
  }

  /** At the cap every slot is equally likely to go: of as many rolls as there were requests, just one
      puts the new latency there. */
  lemma SampledSlot(latencies: seq<int>, latency: int, total: nat, roll: nat, i: nat)
    requires |latencies| == 10_000 && roll < total && i < 10_000
    ensures Sampled(latencies, latency, total, roll)[i] == if roll == i then latency else latencies[i]
  {
    assert roll % total == roll;
  }

  lemma MatchesOneMore(b: Bucket, ms: seq<Metric>, m: Metric, roll: nat)
    requires Matches(b, ms)
    ensures Matches(Counted(b, m).(latencies := Sampled(b.latencies, m.latency, b.requests + 1, roll)), ms + [m])
  {
    hide Counted, Sampled, Latencies;
    CountedIgnoresSamples(b, m);
    SampledMatches(b.latencies, ms, m, b.requests + 1, roll);
    assert (ms + [m])[..|ms|] == ms;
    assert CountedAll(EMPTY, ms + [m]) == Counted(CountedAll(EMPTY, ms), m);
  }

  lemma {:induction false} MatchesGroup(b: Bucket, ms: seq<Metric>, more: seq<Metric>, total: nat, draw: nat -> nat)
    requires Matches(b, ms) && total > 0
    ensures Matches(CountedAll(b, more).(latencies := SampledAll(b.latencies, more, total, draw)), ms + more)
  {
    hide Counted, Sampled, Latencies;
    if more == [] {
      assert ms + more == ms;
    } else {
      var n := |more| - 1;
      MatchesGroup(b, ms, more[..n], total, draw);
      var b' := CountedAll(b, more[..n]).(latencies := SampledAll(b.latencies, more[..n], total, draw));
      var seen := ms + more[..n];
      assert ms + more == seen + [more[n]] && (seen + [more[n]])[..|seen|] == seen;
      CountedIgnoresSamples(b', more[n]);
      CountedIgnoresSamples(CountedAll(b, more[..n]), more[n]);
      SampledMatches(b'.latencies, seen, more[n], total, draw(n));
      assert CountedAll(EMPTY, ms + more) == Counted(CountedAll(EMPTY, seen), more[n]);
    }
  }

  /** The store holds, minute by minute, exactly the metrics ms. */
  ghost predicate Holds(buckets: Buckets, ms: seq<Metric>) {
    buckets.Keys == Minutes(ms) && forall k :: k in buckets ==> Matches(buckets[k], OfMinute(ms, k))
  }

  lemma NothingExpires(buckets: Buckets, now: int, retention: int)
    requires forall k :: k in buckets ==> k >= Minute(now - retention)
    ensures Expired(buckets, now, retention) == buckets
  {
  }

  lemma EmptyBucketMatches()
    ensures Matches(EMPTY, [])
  {
  }

  // ----- Recording one by one -----

  function RecordAll(retention: int, ms: seq<Metric>, rolls: nat -> nat): Store {
    if ms == [] then INITIAL
    else Recorded(RecordAll(retention, ms[..|ms| - 1], rolls), retention, ms[|ms| - 1], rolls(|ms| - 1))
  }

  /** As each metric is recorded, the bucket cap is not reached and its cleanup reaches no minute
      recorded by then. */
  ghost predicate Retained(ms: seq<Metric>, retention: int) {
    ms != [] ==>
      var n := |ms| - 1;
      && Retained(ms[..n], retention) && |Minutes(ms[..n])| < MAX_BUCKETS
      && forall k :: k in Minutes(ms) ==> k >= Minute(ms[n].timestamp - retention)
  }

  lemma OfMinuteSnoc(ms: seq<Metric>, m: Metric, k: int)
    ensures OfMinute(ms + [m], k) == OfMinute(ms, k) + if Minute(m.timestamp) == k then [m] else []
  {
    assert (ms + [m])[..|ms|] == ms;
  }

  lemma AddedHolds(buckets: Buckets, ms: seq<Metric>, m: Metric, b: Bucket)
    requires Holds(buckets, ms) && Matches(b, OfMinute(ms + [m], Minute(m.timestamp)))
    ensures Holds(buckets[Minute(m.timestamp) := b], ms + [m])
  {
    hide Minutes, Matches, OfMinute, Minute;
    var key := Minute(m.timestamp);
    var after := buckets[key := b];
    MinutesSnoc(ms, m);
    forall k | k in after
      ensures Matches(after[k], OfMinute(ms + [m], k))
    {
      OfMinuteSnoc(ms, m, k);
      assert k != key ==> OfMinute(ms, k) + [] == OfMinute(ms, k);
    }
  }

  lemma BucketSoFar(buckets: Buckets, ms: seq<Metric>, k: int)
    requires Holds(buckets, ms)
    ensures Matches(if k in buckets then buckets[k] else EMPTY, OfMinute(ms, k))
  {
    hide Matches, OfMinute;
    MinuteInhabited(ms, k);
    EmptyBucketMatches();
  }

  lemma RecordHolds(s: Store, ms: seq<Metric>, m: Metric, retention: int, roll: nat)
    requires Holds(s.buckets, ms) && |s.buckets| < MAX_BUCKETS
    requires forall k :: k in Minutes(ms + [m]) ==> k >= Minute(m.timestamp - retention)
    ensures Holds(Recorded(s, retention, m, roll).buckets, ms + [m])
  {
    hide Minutes, Matches, OfMinute, Minute, Counted, Sampled, Expired;
    var key := Minute(m.timestamp);
    var b := if key in s.buckets then s.buckets[key] else EMPTY;
    BucketSoFar(s.buckets, ms, key);
    MatchesOneMore(b, OfMinute(ms, key), m, roll);
    OfMinuteSnoc(ms, m, key);
    var b' := Counted(b, m).(latencies := Sampled(b.latencies, m.latency, b.requests + 1, roll));
    AddedHolds(s.buckets, ms, m, b');
    NothingExpires(s.buckets[key := b'], m.timestamp, retention);
  }

  lemma {:induction false} SimpleStoreHolds(retention: int, ms: seq<Metric>, rolls: nat -> nat)
    requires Retained(ms, retention)
    ensures Holds(RecordAll(retention, ms, rolls).buckets, ms)
  {
    hide Matches, OfMinute, Minute, Recorded;
    if ms != [] {
      var n := |ms| - 1;
      SimpleStoreHolds(retention, ms[..n], rolls);
      var s := RecordAll(retention, ms[..n], rolls);
      assert |s.buckets| == |s.buckets.Keys| == |Minutes(ms[..n])|;
      assert ms == ms[..n] + [ms[n]];
      RecordHolds(s, ms[..n], ms[n], retention, rolls(n));
    }
  }

  // ----- Every run, expired buckets included -----

  /** The store stays full even after a cleanup, so the metric is dropped, whatever its minute. */
  ghost predicate Dropped(s: Store, retention: int, m: Metric) {
    |s.buckets| >= 10_000 && |set k <- s.buckets | !TooOld(k, m.timestamp, retention)| >= 10_000
  }

  /** The metrics of minute k recorded since its bucket was last missing. */
  ghost function Since(retention: int, ms: seq<Metric>, rolls: nat -> nat, k: int): seq<Metric> {
    if ms == [] || k !in RecordAll(retention, ms, rolls).buckets then []
    else
      var n := |ms| - 1;
      var earlier, m := Since(retention, ms[..n], rolls, k), ms[n];
      if InMinute(m.timestamp, k) && !Dropped(RecordAll(retention, ms[..n], rolls), retention, m) then earlier + [m]
      else earlier
  }

  lemma DroppedIff(s: Store, retention: int, m: Metric)
    ensures Dropped(s, retention, m) <==>
              |s.buckets| >= MAX_BUCKETS && |Expired(s.buckets, m.timestamp, retention)| >= MAX_BUCKETS
  {
    var left := Expired(s.buckets, m.timestamp, retention);
    forall k
      ensures k in left <==> k in s.buckets && !TooOld(k, m.timestamp, retention)
    {
      ExpiredIff(s.buckets, m.timestamp, retention, k);
    }
    assert left.Keys == set k <- s.buckets | !TooOld(k, m.timestamp, retention);
  }

  /** What recording a metric does to the bucket of its own minute. */
  lemma RecordedOwn(s: Store, retention: int, m: Metric, roll: nat, k: int)
    requires retention >= 0 && InMinute(m.timestamp, k)
    ensures var after, was := Recorded(s, retention, m, roll).buckets, if k in s.buckets then s.buckets[k] else EMPTY;
            if Dropped(s, retention, m) then (k in after <==> k in s.buckets) && (k in after ==> after[k] == was)
            else
              && k in after
              && after[k] == Counted(was, m).(latencies := Sampled(was.latencies, m.latency, was.requests + 1, roll))
  {
    hide Counted, Sampled;
    MinuteIff(m.timestamp, k);
    DroppedIff(s, retention, m);
    hide Dropped;
    var ts := m.timestamp;
    assert !TooOld(k, ts, retention);
    forall b: Buckets
      ensures k in Expired(b, ts, retention) <==> k in b
      ensures k in b ==> Expired(b, ts, retention)[k] == b[k]
    {
      ExpiredIff(b, ts, retention, k);
    }
  }

  /** In every run, whatever expires and however full the store gets, each bucket is the summary of
      exactly the metrics of its minute that were recorded since it was last missing. */
  lemma {:induction false} EveryBucketSummarises(retention: int, ms: seq<Metric>, rolls: nat -> nat, k: int)
    requires retention >= 0 && k in RecordAll(retention, ms, rolls).buckets
    ensures var b, since := RecordAll(retention, ms, rolls).buckets[k], Since(retention, ms, rolls, k);
            Matches(b, since) && Summary(b, since)
  {
    hide Recorded, Matches, Summary, Dropped, Counted, Sampled;
    var n := |ms| - 1;
    var s, m := RecordAll(retention, ms[..n], rolls), ms[n];
    var was, before := if k in s.buckets then s.buckets[k] else EMPTY, Since(retention, ms[..n], rolls, k);
    if k in s.buckets {
      EveryBucketSummarises(retention, ms[..n], rolls, k);
    } else {
      EmptyBucketMatches();
    }
    if InMinute(m.timestamp, k) {
      RecordedOwn(s, retention, m, rolls(n), k);
      if !Dropped(s, retention, m) {
        MatchesOneMore(was, before, m, rolls(n));
      }
    } else {
      RecordedOthers(s, retention, m, rolls(n));
    }
    MatchesIsSummary(RecordAll(retention, ms, rolls).buckets[k], Since(retention, ms, rolls, k));
  }

  // ----- Recording in batches -----

  function Flatten(batches: seq<seq<Metric>>): seq<Metric> {
    if batches == [] then [] else Flatten(batches[..|batches| - 1]) + batches[|batches| - 1]
  }

  function BatchAll(retention: int, batches: seq<seq<Metric>>, clock: nat -> int,
                    draws: nat -> ((int, nat) -> nat)): Store
  {
    if batches == [] then INITIAL
    else
      var n := |batches| - 1;
      Batched(BatchAll(retention, batches[..n], clock, draws), retention, batches[n], clock(n), draws(n))
  }

  /** As each batch is recorded, the wall clock has not expired any minute recorded by then. */
  ghost predicate ClockRetains(batches: seq<seq<Metric>>, retention: int, clock: nat -> int) {
    batches != [] ==>
      var n := |batches| - 1;
      && ClockRetains(batches[..n], retention, clock)
      && forall k :: k in Minutes(Flatten(batches)) ==> k >= Minute(clock(n) - retention)
  }

  lemma {:induction false} OfMinuteConcat(ms: seq<Metric>, more: seq<Metric>, k: int)
    ensures OfMinute(ms + more, k) == OfMinute(ms, k) + OfMinute(more, k)
  {
    if more == [] {
      assert ms + more == ms;
    } else {
      var n := |more| - 1;
      assert (ms + more)[..|ms| + n] == ms + more[..n];
      OfMinuteConcat(ms, more[..n], k);
    }
  }

  lemma MinutesConcat(ms: seq<Metric>, more: seq<Metric>)
    ensures Minutes(ms + more) == Minutes(ms) + Minutes(more)
  {
    forall k
      ensures k in Minutes(ms + more) <==> k in Minutes(ms) || k in Minutes(more)
    {
      MinuteInhabited(ms + more, k);
      MinuteInhabited(ms, k);
      MinuteInhabited(more, k);
      OfMinuteConcat(ms, more, k);
    }
  }

  lemma BatchedBucketMatches(buckets: Buckets, ms: seq<Metric>, batch: seq<Metric>, k: int, draw: (int, nat) -> nat)
    requires Holds(buckets, ms)
    ensures Matches(BatchedBucket(buckets, batch, k, draw), OfMinute(ms + batch, k))
  {
    hide Minutes, Matches, OfMinute, Counted, Sampled, CountedAll, SampledAll;
    var b := if k in buckets then buckets[k] else EMPTY;
    var group := OfMinute(batch, k);
    BucketSoFar(buckets, ms, k);
    OfMinuteConcat(ms, batch, k);
    if group == [] {
      assert OfMinute(ms, k) + group == OfMinute(ms, k);
    } else {
      MatchesGroup(b, OfMinute(ms, k), group, b.requests + |group|, DrawFor(draw, k));
    }
  }

  lemma NoMinutes()
    ensures Minutes([]) == {}
  {
  }

  lemma BatchHolds(s: Store, ms: seq<Metric>, batch: seq<Metric>, retention: int, now: int, draw: (int, nat) -> nat)
    requires Holds(s.buckets, ms)
    requires forall k :: k in Minutes(ms + batch) ==> k >= Minute(now - retention)
    ensures Holds(Batched(s, retention, batch, now, draw).buckets, ms + batch)
  {
    hide Minutes, Matches, OfMinute, BatchedBucket;
    if batch == [] {
      assert ms + batch == ms;
    } else {
      MinutesConcat(ms, batch);
      var after := BatchedBuckets(s.buckets, batch, draw);
      forall k | k in after
        ensures Matches(after[k], OfMinute(ms + batch, k))
      {
        BatchedBucketMatches(s.buckets, ms, batch, k, draw);
      }
      assert Holds(after, ms + batch);
      NothingExpires(after, now, retention);
    }
  }

  lemma {:induction false} BatchStoreHolds(retention: int, batches: seq<seq<Metric>>, clock: nat -> int,
                                           draws: nat -> ((int, nat) -> nat))
    requires ClockRetains(batches, retention, clock)
    ensures Holds(BatchAll(retention, batches, clock, draws).buckets, Flatten(batches))
  {
    hide Matches, OfMinute, Batched, Minute, Minutes;
    if batches == [] {
      NoMinutes();
    } else {
      var n := |batches| - 1;
      assert Flatten(batches) == Flatten(batches[..n]) + batches[n];
      BatchStoreHolds(retention, batches[..n], clock, draws);
      BatchHolds(BatchAll(retention, batches[..n], clock, draws), Flatten(batches[..n]), batches[n], retention,
                 clock(n), draws(n));
    }
  }

  /** What a batch does to one bucket. */
  lemma BatchedAt(s: Store, retention: int, batch: seq<Metric>, now: int, draw: (int, nat) -> nat, k: int)
    requires batch != []
    ensures var after := Batched(s, retention, batch, now, draw).buckets;
            var due := s.lastCleanup.None? || now - s.lastCleanup.value > 60_000_000_000;
            && (k in after <==> (k in s.buckets || OfMinute(batch, k) != []) && !(due && TooOld(k, now, retention)))
            && (k in after ==> after[k] == BatchedBucket(s.buckets, batch, k, draw))
            && Batched(s, retention, batch, now, draw).lastCleanup == if due then Some(now) else s.lastCleanup
  {
    hide BatchedBucket, OfMinute, Minutes;
    MinuteInhabited(batch, k);
    ExpiredIff(BatchedBuckets(s.buckets, batch, draw), now, retention, k);
    hide Expired;
  }

  /** The metrics of minute k in batches recorded since its bucket was last missing. */
  ghost function BatchedSince(retention: int, batches: seq<seq<Metric>>, clock: nat -> int,
                              draws: nat -> ((int, nat) -> nat), k: int): seq<Metric>
  {
    if batches == [] || k !in BatchAll(retention, batches, clock, draws).buckets then []
    else
      var n := |batches| - 1;
      BatchedSince(retention, batches[..n], clock, draws, k) + InOrder(batches[n], k)
  }

  /** The metrics whose time is in minute k, in their order. */
  ghost function InOrder(ms: seq<Metric>, k: int): seq<Metric> {
    if ms == [] then []
    else InOrder(ms[..|ms| - 1], k) + if InMinute(ms[|ms| - 1].timestamp, k) then [ms[|ms| - 1]] else []
  }

  lemma {:induction false} OfMinuteIs(ms: seq<Metric>, k: int)
    ensures OfMinute(ms, k) == InOrder(ms, k)
  {
    if ms != [] {
      OfMinuteIs(ms[..|ms| - 1], k);
      MinuteIff(ms[|ms| - 1].timestamp, k);
    }
  }

  /** The same of the batching store, for every run. */
  lemma {:induction false} EveryBatchedBucketSummarises(retention: int, batches: seq<seq<Metric>>, clock: nat -> int,
                                                        draws: nat -> ((int, nat) -> nat), k: int)
    requires k in BatchAll(retention, batches, clock, draws).buckets
    ensures var b := BatchAll(retention, batches, clock, draws).buckets[k];
            var since := BatchedSince(retention, batches, clock, draws, k);
            Matches(b, since) && Summary(b, since)
  {
    hide Batched, Matches, Summary, OfMinute, InOrder, GroupAdded;
    var n := |batches| - 1;
    var s, batch := BatchAll(retention, batches[..n], clock, draws), batches[n];
    var was := if k in s.buckets then s.buckets[k] else EMPTY;
    var before := BatchedSince(retention, batches[..n], clock, draws, k);
    if k in s.buckets {
      EveryBatchedBucketSummarises(retention, batches[..n], clock, draws, k);
    } else {
      EmptyBucketMatches();
    }
    OfMinuteIs(batch, k);
    var group := OfMinute(batch, k);
    if batch == [] {
      NoBatch(s, retention, clock(n), draws(n), k);
      assert before + [] == before;
    } else {
      BatchedAt(s, retention, batch, clock(n), draws(n), k);
      if group == [] {
        assert before + group == before;
      } else {
        GroupMatches(was, before, group, DrawFor(draws(n), k));
      }
    }
    MatchesIsSummary(BatchAll(retention, batches, clock, draws).buckets[k], before + group);
  }

  lemma NoBatch(s: Store, retention: int, now: int, draw: (int, nat) -> nat, k: int)
    ensures Batched(s, retention, [], now, draw) == s && InOrder([], k) == []
  {
  }

  lemma GroupMatches(b: Bucket, ms: seq<Metric>, group: seq<Metric>, draw: nat -> nat)
    requires Matches(b, ms) && group != []
    ensures Matches(GroupAdded(b, group, draw), ms + group)
  {
    hide Matches, CountedAll, SampledAll;
    MatchesGroup(b, ms, group, b.requests + |group|, draw);
  }

  /** However a sequence is cut into batches, both stores end up with the same minutes, the same
      counters in each, and the same latency samples wherever the sample cap was not passed. */
  lemma BatchingAgrees(retention: int, retention': int, batches: seq<seq<Metric>>, rolls: nat -> nat,
                       clock: nat -> int, draws: nat -> ((int, nat) -> nat))
    requires Retained(Flatten(batches), retention) && ClockRetains(batches, retention', clock)
    ensures var ms := Flatten(batches);
            var single, batched := RecordAll(retention, ms, rolls).buckets,
                BatchAll(retention', batches, clock, draws).buckets;
            && single.Keys == batched.Keys
            && forall k :: k in single ==>
                 && single[k].(latencies := []) == batched[k].(latencies := [])
                 && |single[k].latencies| == |batched[k].latencies|
                 && (|OfMinute(ms, k)| <= MAX_SAMPLES ==> single[k] == batched[k])
  {
    hide Minutes, CountedAll, Latencies, RecordAll, BatchAll, Retained, ClockRetains, OfMinute, Flatten;
    SimpleStoreHolds(retention, Flatten(batches), rolls);
    BatchStoreHolds(retention', batches, clock, draws);
  }
}
