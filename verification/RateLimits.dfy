/** The admin server's two limiters: credit operations per key, and failed logins per address. Times
    are nanoseconds. */
module RateLimits {
  import opened Basics

  const SECOND := 1_000_000_000
  const MINUTE := 60 * SECOND
  const MAX_CREDIT_OPS := 30
  const MAX_ATTEMPTS := 5

  ghost predicate Sorted(times: seq<int>) {
    forall i, j :: 0 <= i <= j < |times| ==> times[i] <= times[j]
  }

  // ----- Credit operations -----

  datatype CreditEntry = CreditEntry(count: int, lastSeen: int)

  type CreditEntries = map<string, CreditEntry>

  function Counted(entries: CreditEntries, key: string, now: int): CreditEntry {
    if key !in entries || now - entries[key].lastSeen > MINUTE then CreditEntry(1, now)
    else CreditEntry(entries[key].count + 1, now)
  }

  ghost function CreditSwept(entries: CreditEntries, now: int): CreditEntries {
    map key <- entries | now - entries[key].lastSeen <= 5 * MINUTE :: entries[key]
  }

  class CreditLimiter {
    var entries: CreditEntries

    constructor ()
      ensures entries == map[]
    {
      entries := map[];
    }

    method CheckCreditRateLimit(key: string, now: int) returns (limited: bool)
      modifies this
      ensures entries == old(entries)[key := Counted(old(entries), key, now)]
      ensures limited <==> entries[key].count > MAX_CREDIT_OPS
    {
      if key !in entries {
        entries := entries[key := CreditEntry(1, now)];
        return false;
      }
      var entry := entries[key];
      if now - entry.lastSeen > MINUTE {
        entries := entries[key := CreditEntry(1, now)];
        return false;
      }
      entries := entries[key := CreditEntry(entry.count + 1, now)];
      limited := entries[key].count > MAX_CREDIT_OPS;
    }

    method CleanupCreditEntries(now: int)
      modifies this
      ensures entries == CreditSwept(old(entries), now)
      ensures forall k :: k in entries <==> k in old(entries) && now - old(entries)[k].lastSeen <= 300 * 1_000_000_000
    {
      var keys := entries.Keys;
      while keys != {}
        invariant keys <= entries.Keys <= old(entries).Keys
        invariant forall k <- entries :: entries[k] == old(entries)[k]
        invariant forall k <- old(entries) ::
                  k in keys || (k in entries <==> now - old(entries)[k].lastSeen <= 5 * MINUTE)
        invariant forall k <- keys :: k in entries
        decreases |keys|
      {
        var key :| key in keys;
        keys := keys - {key};
        if now - entries[key].lastSeen > 5 * MINUTE {
          entries := entries - {key};
        }
      }
    }
  }

  datatype CreditOp = Check(key: string, time: int) | CreditCleanup(time: int)

  ghost function CreditRun(ops: seq<CreditOp>): CreditEntries {
    if ops == [] then map[]
    else
      var before, op := CreditRun(ops[..|ops| - 1]), ops[|ops| - 1];
      if op.Check? then before[op.key := Counted(before, op.key, op.time)] else CreditSwept(before, op.time)
  }

  /** When operations were checked under `key`. */
  ghost function CheckTimes(ops: seq<CreditOp>, key: string): seq<int> {
    if ops == [] then []
    else
      var before, op := CheckTimes(ops[..|ops| - 1], key), ops[|ops| - 1];
      if op.Check? && op.key == key then before + [op.time] else before
  }

  ghost predicate CreditClock(ops: seq<CreditOp>) {
    forall i, j :: 0 <= i <= j < |ops| ==> ops[i].time <= ops[j].time
  }

  /** The length of the burst ending at the last of these times: operations no more than a minute
      apart. */
  ghost function Burst(times: seq<int>): nat {
    if times == [] then 0
    else if |times| == 1 || times[|times| - 1] - times[|times| - 2] > MINUTE then 1
    else Burst(times[..|times| - 1]) + 1
  }

  /** The operation at `i` comes after at least thirty others, none of them more than a minute
      before the next. */
  ghost predicate CreditLimited(times: seq<int>, i: nat)
    requires i < |times|
  {
    i >= 30 && forall j :: i - 30 < j <= i ==> times[j] - times[j - 1] <= 60_000_000_000
  }

  /** A key's entry is its last operation and burst, unless a cleanup removed it long after. */
  ghost predicate EntryFits(entries: CreditEntries, key: string, times: seq<int>, clock: int) {
    if key in entries then times != [] && entries[key] == CreditEntry(Burst(times), times[|times| - 1])
    else times == [] || clock - times[|times| - 1] > 5 * MINUTE
  }

  lemma {:induction false} RunsFitCredit(ops: seq<CreditOp>, key: string)
    requires CreditClock(ops)
    ensures forall clock | ops != [] ==> clock >= ops[|ops| - 1].time ::
              EntryFits(CreditRun(ops), key, CheckTimes(ops, key), clock)
  {
    if ops != [] {
      var n := |ops| - 1;
      var op, times := ops[n], CheckTimes(ops[..n], key);
      assert CreditClock(ops[..n]);
      RunsFitCredit(ops[..n], key);
      assert EntryFits(CreditRun(ops[..n]), key, times, op.time);
      if op.Check? && op.key == key {
        assert (times + [op.time])[..|times|] == times;
      }
    }
  }

  lemma {:induction false} BurstIsLong(times: seq<int>)
    requires times != []
    ensures 1 <= Burst(times) <= |times|
    ensures forall j :: |times| - Burst(times) < j < |times| ==> times[j] - times[j - 1] <= MINUTE
    ensures Burst(times) < |times| ==> var j := |times| - Burst(times); times[j] - times[j - 1] > MINUTE
  {
    var n := |times| - 1;
    if n > 0 && times[n] - times[n - 1] <= MINUTE {
      BurstIsLong(times[..n]);
      assert forall j :: 0 <= j < n ==> times[..n][j] == times[j];
    }
  }

  /** In every run, cleanups included, an operation is refused if and only if it and the thirty
      before it under its key form one burst. */
  lemma CreditAnswer(ops: seq<CreditOp>, key: string, now: int)
    requires CreditClock(ops) && (ops != [] ==> now >= ops[|ops| - 1].time)
    ensures var times := CheckTimes(ops, key);
            Counted(CreditRun(ops), key, now).count > MAX_CREDIT_OPS <==> CreditLimited(times + [now], |times|)
  {
    hide CreditRun, CheckTimes;
    var times := CheckTimes(ops, key);
    RunsFitCredit(ops, key);
    assert EntryFits(CreditRun(ops), key, times, now);
    assert (times + [now])[..|times|] == times;
    assert Counted(CreditRun(ops), key, now).count == Burst(times + [now]);
    BurstIsLong(times + [now]);
  }

  lemma {:induction false} CleanupIsNoCheck(before: seq<CreditOp>, time: int, after: seq<CreditOp>, key: string)
    ensures CheckTimes(before + [CreditCleanup(time)] + after, key) == CheckTimes(before + after, key)
  {
    var with, without := before + [CreditCleanup(time)] + after, before + after;
    if after == [] {
      assert with[..|with| - 1] == before == without;
    } else {
      var n := |after| - 1;
      assert with[..|with| - 1] == before + [CreditCleanup(time)] + after[..n];
      assert without[..|without| - 1] == before + after[..n];
      CleanupIsNoCheck(before, time, after[..n], key);
    }
  }

  /** A cleanup inserted anywhere in a run changes no later answer. */
  lemma CreditCleanupIsInvisible(before: seq<CreditOp>, time: int, after: seq<CreditOp>, key: string, now: int)
    requires CreditClock(before + [CreditCleanup(time)] + after + [Check(key, now)])
    ensures Counted(CreditRun(before + [CreditCleanup(time)] + after), key, now).count > MAX_CREDIT_OPS
       <==> Counted(CreditRun(before + after), key, now).count > MAX_CREDIT_OPS
  {
    hide CreditRun, CheckTimes, Counted, CreditLimited;
    var with, without := before + [CreditCleanup(time)] + after, before + after;
    var all := with + [Check(key, now)];
    assert forall i :: 0 <= i < |with| ==> with[i] == all[i];
    assert forall i :: 0 <= i < |without| ==> without[i] == all[if i < |before| then i else i + 1];
    assert all[|with|] == Check(key, now);
    CleanupIsNoCheck(before, time, after, key);
    CreditAnswer(with, key, now);
    CreditAnswer(without, key, now);
  }

  // ----- Thirty a minute -----

  ghost predicate Within(time: int, start: int) {
    start <= time <= start + 60_000_000_000
  }

  /** How many of the first `n` operations fell in the minute from `start` and were allowed. */
  ghost function AllowedWithin(times: seq<int>, start: int, n: nat): nat
    requires n <= |times|
  {
    if n == 0 then 0
    else
      var last := if Within(times[n - 1], start) && !CreditLimited(times, n - 1) then 1 else 0;
      AllowedWithin(times, start, n - 1) + last
  }

  /** How many of the first `n` operations came at `start` or later. */
  ghost function Since(times: seq<int>, start: int, n: nat): nat
    requires n <= |times|
  {
    if n == 0 then 0 else Since(times, start, n - 1) + if times[n - 1] >= start then 1 else 0
  }

  lemma {:induction false} SinceIsSuffix(times: seq<int>, start: int, n: nat)
    requires Sorted(times) && n <= |times|
    ensures Since(times, start, n) <= n
    ensures forall i :: 0 <= i < n ==> (times[i] >= start <==> i >= n - Since(times, start, n))
  {
    if n > 0 {
      SinceIsSuffix(times, start, n - 1);
      if times[n - 1] < start {
        assert forall i :: 0 <= i < n ==> times[i] <= times[n - 1];
      }
    }
  }

  /** At most thirty operations of a key are allowed in any one minute. */
  lemma {:induction false} ThirtyAMinute(times: seq<int>, start: int, n: nat)
    requires Sorted(times) && n <= |times|
    ensures AllowedWithin(times, start, n) <= 30
    ensures AllowedWithin(times, start, n) <= Since(times, start, n)
  {
    if n > 0 {
      ThirtyAMinute(times, start, n - 1);
      SinceIsSuffix(times, start, n - 1);
      if Within(times[n - 1], start) && Since(times, start, n - 1) >= MAX_CREDIT_OPS {
        assert CreditLimited(times, n - 1);
      }
    }
  }

  lemma {:induction false} CheckTimesSorted(ops: seq<CreditOp>, key: string)
    requires CreditClock(ops)
    ensures var times := CheckTimes(ops, key);
            Sorted(times) && (times != [] ==> ops != [] && times[|times| - 1] <= ops[|ops| - 1].time)
  {
    if ops != [] {
      assert CreditClock(ops[..|ops| - 1]);
      CheckTimesSorted(ops[..|ops| - 1], key);
    }
  }

  lemma {:induction false} AllowedEarlier(times: seq<int>, more: seq<int>, start: int, n: nat)
    requires n <= |times|
    ensures AllowedWithin(times + more, start, n) == AllowedWithin(times, start, n)
  {
    if n > 0 {
      AllowedEarlier(times, more, start, n - 1);
      assert forall i :: 0 <= i < n ==> (times + more)[i] == times[i];
      assert CreditLimited(times + more, n - 1) <==> CreditLimited(times, n - 1);
    }
  }

  /** The limiter lets the operation at the end of this run through. */
  ghost predicate LetsThrough(ops: seq<CreditOp>, key: string, now: int) {
    Counted(CreditRun(ops), key, now).count <= MAX_CREDIT_OPS
  }

  /** How many operations of a key the limiter let through in the minute from `start`. */
  ghost function LetThrough(ops: seq<CreditOp>, key: string, start: int): nat {
    if ops == [] then 0
    else
      var before, op := ops[..|ops| - 1], ops[|ops| - 1];
      LetThrough(before, key, start) +
      if op.Check? && op.key == key && Within(op.time, start) && LetsThrough(before, key, op.time) then 1 else 0
  }

  lemma {:induction false} LetThroughIsAllowed(ops: seq<CreditOp>, key: string, start: int)
    requires CreditClock(ops)
    ensures LetThrough(ops, key, start) == AllowedWithin(CheckTimes(ops, key), start, |CheckTimes(ops, key)|)
  {
    hide CreditRun, CreditLimited, Within;
    if ops != [] {
      var before, op := ops[..|ops| - 1], ops[|ops| - 1];
      assert CreditClock(before);
      LetThroughIsAllowed(before, key, start);
      if op.Check? && op.key == key {
        var times := CheckTimes(before, key);
        AllowedEarlier(times, [op.time], start, |times|);
        CreditAnswer(before, key, op.time);
      }
    }
  }

  /** In every run, cleanups and other keys included, the limiter lets at most thirty operations of a
      key through in any one minute. */
  lemma RunsAllowThirtyAMinute(ops: seq<CreditOp>, key: string, start: int)
    requires CreditClock(ops)
    ensures LetThrough(ops, key, start) <= 30
  {
    hide LetThrough, CheckTimes, AllowedWithin;
    LetThroughIsAllowed(ops, key, start);
    CheckTimesSorted(ops, key);
    ThirtyAMinute(CheckTimes(ops, key), start, |CheckTimes(ops, key)|);
  }

  /** A run of operations of one key at these times. */
  function Checks(times: seq<int>, key: string): (ops: seq<CreditOp>)
    ensures |ops| == |times| && forall i :: 0 <= i < |times| ==> ops[i] == Check(key, times[i])
  {
    seq(|times|, i requires 0 <= i < |times| => Check(key, times[i]))
  }

  lemma {:induction false} ChecksHaveTimes(times: seq<int>, key: string)
    ensures CheckTimes(Checks(times, key), key) == times
  {
    if times != [] {
      var n := |times| - 1;
      assert Checks(times, key)[..n] == Checks(times[..n], key);
      ChecksHaveTimes(times[..n], key);
    }
  }

  lemma SteadyTimes() returns (times: seq<int>)
    ensures Sorted(times) && |times| == 31 && CreditLimited(times, 30)
    ensures forall start, i, j :: 0 <= i < j < |times| && Within(times[i], start) && Within(times[j], start) ==>
            j == i + 1
  {
    times := seq(31, i => i * (50 * SECOND));
  }

  /** It is not thirty a minute that are allowed, though: with one operation every fifty seconds, at
      most two in any minute, the thirty-first is refused. */
  lemma SteadyUseIsRefused(key: string) returns (times: seq<int>)
    ensures Sorted(times) && |times| == 31
    ensures forall start, i, j :: 0 <= i < j < |times| && Within(times[i], start) && Within(times[j], start) ==>
            j == i + 1
    ensures !LetsThrough(Checks(times[..30], key), key, times[30])
  {
    hide Checks, CreditRun, CreditLimited, Within;
    times := SteadyTimes();
    ChecksHaveTimes(times[..30], key);
    CreditAnswer(Checks(times[..30], key), key, times[30]);
    assert times[..30] + [times[30]] == times;
  }

  // ----- Failed logins -----

  datatype Attempts = Attempts(count: int, firstSeen: int, lastSeen: int, blocked: bool)

  type AttemptEntries = map<string, Attempts>

  /** Seconds to wait, rounded up, and whether the address is limited. */
  function Info(entry: Option<Attempts>, now: int): (int, bool) {
    if entry.None? then (0, false)
    else
      var Attempts(count, firstSeen, lastSeen, blocked) := entry.value;
      if blocked then
        if now - lastSeen > 30 * MINUTE then (0, false)
        else ((30 * MINUTE - (now - lastSeen) + SECOND - 1) / SECOND, true)
      else if now - firstSeen <= 15 * MINUTE && count >= MAX_ATTEMPTS then
        ((15 * MINUTE - (now - firstSeen) + SECOND - 1) / SECOND, true)
      else
        (0, false)
  }

  function Lookup(entries: AttemptEntries, ip: string): Option<Attempts> {
    if ip in entries then Some(entries[ip]) else None
  }

  function Failed(entry: Option<Attempts>, now: int): Attempts {
    if entry.None? || now - entry.value.firstSeen > 15 * MINUTE then Attempts(1, now, now, false)
    else
      var count := entry.value.count + 1;
      Attempts(count, entry.value.firstSeen, now, entry.value.blocked || count >= MAX_ATTEMPTS)
  }

  ghost function AttemptsSwept(entries: AttemptEntries, now: int): AttemptEntries {
    map ip <- entries | now - entries[ip].lastSeen <= 30 * MINUTE :: entries[ip]
  }

  class AuthLimiter {
    var entries: AttemptEntries

    constructor ()
      ensures entries == map[]
    {
      entries := map[];
    }

    method RateLimitInfo(ip: string, now: int) returns (retryAfter: int, limited: bool)
      requires forall k <- entries :: entries[k].firstSeen <= now && entries[k].lastSeen <= now
      ensures (retryAfter, limited) == Info(Lookup(entries, ip), now)
      ensures !limited ==> retryAfter == 0
      ensures limited ==> 0 <= retryAfter <= 30 * 60
      ensures limited <==> && ip in entries
                           && if entries[ip].blocked then now - entries[ip].lastSeen <= 1800 * 1_000_000_000
                              else now - entries[ip].firstSeen <= 900 * 1_000_000_000 && entries[ip].count >= 5
      ensures limited ==>
                var left := if entries[ip].blocked then 1800 * 1_000_000_000 - (now - entries[ip].lastSeen)
                            else 900 * 1_000_000_000 - (now - entries[ip].firstSeen);
                (retryAfter - 1) * 1_000_000_000 < left <= retryAfter * 1_000_000_000
    {
      if ip !in entries {
        return 0, false;
      }
      var attempts := entries[ip];
      if attempts.blocked {
        var elapsed := now - attempts.lastSeen;
        if elapsed > 30 * MINUTE {
          return 0, false;
        }
        return (30 * MINUTE - elapsed + SECOND - 1) / SECOND, true;
      }
      if now - attempts.firstSeen <= 15 * MINUTE && attempts.count >= MAX_ATTEMPTS {
        return (15 * MINUTE - (now - attempts.firstSeen) + SECOND - 1) / SECOND, true;
      }
      return 0, false;
    }

    method RecordFailedAuth(ip: string, now: int)
      modifies this
      ensures entries == old(entries)[ip := Failed(Lookup(old(entries), ip), now)]
    {
      if ip !in entries || now - entries[ip].firstSeen > 15 * MINUTE {
        entries := entries[ip := Attempts(1, now, now, false)];
        return;
      }
      var attempts := entries[ip];
      attempts := attempts.(count := attempts.count + 1, lastSeen := now);
      if attempts.count >= MAX_ATTEMPTS {
        attempts := attempts.(blocked := true);
      }
      entries := entries[ip := attempts];
    }

    method ClearFailedAuth(ip: string)
      modifies this
      ensures entries == old(entries) - {ip}
    {
      entries := entries - {ip};
    }

    method CleanupAttempts(now: int)
      modifies this
      ensures entries == AttemptsSwept(old(entries), now)
      ensures forall k :: k in entries <==> k in old(entries) && now - old(entries)[k].lastSeen <= 1800 * 1_000_000_000
    {
      var ips := entries.Keys;
      while ips != {}
        invariant ips <= entries.Keys <= old(entries).Keys
        invariant forall k <- entries :: entries[k] == old(entries)[k]
        invariant forall k <- old(entries) ::
                  k in ips || (k in entries <==> now - old(entries)[k].lastSeen <= 30 * MINUTE)
        decreases |ips|
      {
        var ip :| ip in ips;
        ips := ips - {ip};
        if now - entries[ip].lastSeen > 30 * MINUTE {
          entries := entries - {ip};
        }
      }
    }
  }

  /** A login passes the gate, and later its failure or its success is recorded, each in a critical
      section of its own. */
  datatype AuthOp =
    | Pass(ip: string, time: int)
    | Fail(ip: string, time: int)
    | Clear(ip: string, time: int)
    | AuthCleanup(time: int)

  ghost function AuthRun(ops: seq<AuthOp>): AttemptEntries {
    if ops == [] then map[]
    else
      var before := AuthRun(ops[..|ops| - 1]);
      match ops[|ops| - 1]
      case Pass(_, _) => before
      case Fail(ip, now) => before[ip := Failed(Lookup(before, ip), now)]
      case Clear(ip, _) => before - {ip}
      case AuthCleanup(now) => AttemptsSwept(before, now)
  }

  /** When logins from `ip` failed, since they were last cleared. */
  ghost function FailTimes(ops: seq<AuthOp>, ip: string): seq<int> {
    if ops == [] then []
    else
      var before, op := FailTimes(ops[..|ops| - 1], ip), ops[|ops| - 1];
      if op.Fail? && op.ip == ip then before + [op.time]
      else if op.Clear? && op.ip == ip then []
      else before
  }

  ghost predicate AuthClock(ops: seq<AuthOp>) {
    forall i, j :: 0 <= i <= j < |ops| ==> ops[i].time <= ops[j].time
  }

  /** Failures are counted in rounds: a round ends with the first failure more than a quarter of an
      hour after it started. The index at which the last failure's round started. */
  ghost function RoundStart(times: seq<int>): (r: nat)
    requires times != []
    ensures r < |times|
  {
    if |times| == 1 then 0
    else
      var n := |times| - 1;
      var start := RoundStart(times[..n]);
      if times[n] - times[start] > 900 * 1_000_000_000 then n else start
  }

  /** Five failures in the round, and the last at most half an hour ago. */
  ghost predicate AuthLimited(times: seq<int>, now: int) {
    times != [] && |times| - RoundStart(times) >= 5 && now - times[|times| - 1] <= 1800 * 1_000_000_000
  }

  ghost predicate AttemptsFit(entry: Option<Attempts>, times: seq<int>, clock: int) {
    if entry.None? then times == [] || clock - times[|times| - 1] > 30 * MINUTE
    else
      && times != []
      && var start := RoundStart(times);
         entry.value == Attempts(|times| - start, times[start], times[|times| - 1], |times| - start >= MAX_ATTEMPTS)
  }

  lemma {:induction false} FailTimesPast(ops: seq<AuthOp>, ip: string)
    requires AuthClock(ops)
    ensures Sorted(FailTimes(ops, ip))
    ensures FailTimes(ops, ip) != [] ==>
            ops != [] && FailTimes(ops, ip)[|FailTimes(ops, ip)| - 1] <= ops[|ops| - 1].time
  {
    if ops != [] {
      assert AuthClock(ops[..|ops| - 1]);
      FailTimesPast(ops[..|ops| - 1], ip);
    }
  }

  lemma FailFits(entry: Option<Attempts>, times: seq<int>, now: int)
    requires AttemptsFit(entry, times, now) && Sorted(times)
    ensures forall clock :: AttemptsFit(Some(Failed(entry, now)), times + [now], clock)
  {
    assert (times + [now])[..|times|] == times;
  }

  lemma {:induction false} RunsFitAttempts(ops: seq<AuthOp>, ip: string)
    requires AuthClock(ops)
    ensures forall clock | ops != [] ==> clock >= ops[|ops| - 1].time ::
              AttemptsFit(Lookup(AuthRun(ops), ip), FailTimes(ops, ip), clock)
  {
    hide Failed;
    if ops != [] {
      var n := |ops| - 1;
      var op, times := ops[n], FailTimes(ops[..n], ip);
      assert AuthClock(ops[..n]);
      RunsFitAttempts(ops[..n], ip);
      var entry := Lookup(AuthRun(ops[..n]), ip);
      assert AttemptsFit(entry, times, op.time);
      FailTimesPast(ops[..n], ip);
      if op.Fail? && op.ip == ip {
        FailFits(entry, times, op.time);
      }
    }
  }

  /** In every run, cleanups included, an address is limited if and only if its current round has
      five failures and the last was at most half an hour ago; it is told the seconds left, rounded
      up. */
  lemma AuthAnswer(ops: seq<AuthOp>, ip: string, now: int)
    requires AuthClock(ops) && (ops != [] ==> now >= ops[|ops| - 1].time)
    ensures var times, answer := FailTimes(ops, ip), Info(Lookup(AuthRun(ops), ip), now);
            && (answer.1 <==> AuthLimited(times, now))
            && (answer.1 ==>
                  var left := 1800 * 1_000_000_000 - (now - times[|times| - 1]);
                  (answer.0 - 1) * 1_000_000_000 < left <= answer.0 * 1_000_000_000)
  {
    hide AuthRun, FailTimes;
    RunsFitAttempts(ops, ip);
    assert AttemptsFit(Lookup(AuthRun(ops), ip), FailTimes(ops, ip), now);
  }

  lemma {:induction false} CleanupIsNoFailure(before: seq<AuthOp>, time: int, after: seq<AuthOp>, ip: string)
    ensures FailTimes(before + [AuthCleanup(time)] + after, ip) == FailTimes(before + after, ip)
  {
    var with, without := before + [AuthCleanup(time)] + after, before + after;
    if after == [] {
      assert with[..|with| - 1] == before == without;
    } else {
      var n := |after| - 1;
      assert with[..|with| - 1] == before + [AuthCleanup(time)] + after[..n];
      assert without[..|without| - 1] == before + after[..n];
      CleanupIsNoFailure(before, time, after[..n], ip);
    }
  }

  /** A cleanup inserted anywhere in a run changes no later answer, waiting time included. */
  lemma AuthCleanupIsInvisible(before: seq<AuthOp>, time: int, after: seq<AuthOp>, ip: string, now: int)
    requires AuthClock(before + [AuthCleanup(time)] + after + [Fail(ip, now)])
    ensures Info(Lookup(AuthRun(before + [AuthCleanup(time)] + after), ip), now)
            == Info(Lookup(AuthRun(before + after), ip), now)
  {
    hide AuthRun, FailTimes, AuthLimited;
    var with, without := before + [AuthCleanup(time)] + after, before + after;
    var all := with + [Fail(ip, now)];
    assert forall i :: 0 <= i < |with| ==> with[i] == all[i];
    assert forall i :: 0 <= i < |without| ==> without[i] == all[if i < |before| then i else i + 1];
    assert all[|with|] == Fail(ip, now);
    CleanupIsNoFailure(before, time, after, ip);
    AuthAnswer(with, ip, now);
    AuthAnswer(without, ip, now);
  }
}
