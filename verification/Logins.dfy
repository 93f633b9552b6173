/** How many failed logins of an address get through the limiter. A login passes the gate in one
    critical section and is recorded in another, so logins of one address may overlap. */
module Logins {
  import opened Basics
  import opened RateLimits

  /** Each failure happened while the address was not limited. */
  ghost predicate Gated(times: seq<int>) {
    Sorted(times) && forall i :: 0 <= i < |times| ==> !AuthLimited(times[..i], times[i])
  }

  ghost function StartOf(times: seq<int>, i: nat): nat
    requires i < |times|
  {
    RoundStart(times[..i + 1])
  }

  lemma StartStep(times: seq<int>, i: nat)
    requires 0 < i < |times|
    ensures StartOf(times, i)
            == (if times[i] - times[StartOf(times, i - 1)] > 15 * MINUTE then i else StartOf(times, i - 1))
  {
    assert times[..i + 1][..i] == times[..i];
  }

  lemma {:induction false} StartOfStart(times: seq<int>, i: nat)
    requires i < |times| && Sorted(times)
    ensures StartOf(times, i) <= i
    ensures StartOf(times, i) > 0 ==>
              times[StartOf(times, i)] - times[StartOf(times, StartOf(times, i) - 1)] > 15 * MINUTE
  {
    hide RoundStart;
    if i > 0 {
      StartStep(times, i);
      StartOfStart(times, i - 1);
    }
  }

  /** A round has at most five failures, and after the fifth comes half an hour of quiet. */
  lemma {:induction false} RoundsAreShort(times: seq<int>, i: nat)
    requires Gated(times) && i < |times|
    ensures i - StartOf(times, i) <= 4
    ensures i - StartOf(times, i) == 4 && i + 1 < |times| ==> times[i + 1] - times[i] > 30 * MINUTE
  {
    hide RoundStart;
    if i > 0 {
      RoundsAreShort(times, i - 1);
      StartStep(times, i);
    }
    if i + 1 < |times| {
      assert !AuthLimited(times[..i + 1], times[i + 1]);
    }
  }

  /** Any nine failures that get through span more than a quarter of an hour. */
  lemma EightAQuarter(times: seq<int>, i: nat)
    requires Gated(times) && i + 8 < |times|
    ensures times[i + 8] - times[i] > 15 * MINUTE
  {
    hide RoundStart;
    forall m | i <= m <= i + 7
      ensures m - StartOf(times, m) <= 3 || times[i + 8] - times[i] > 30 * MINUTE
    {
      RoundsAreShort(times, m);
    }
    StartOfStart(times, i + 7);
    var start := StartOf(times, i + 7);
    if start >= i + 4 {
      assert start - 1 - StartOf(times, start - 1) <= 3 || times[i + 8] - times[i] > 30 * MINUTE;
    }
  }

  /** The logins of an address that have passed the gate and are not yet recorded. */
  ghost function Underway(ops: seq<AuthOp>, ip: string): int {
    if ops == [] then 0
    else
      var before, op := Underway(ops[..|ops| - 1], ip), ops[|ops| - 1];
      if op.AuthCleanup? || op.ip != ip then before
      else if op.Pass? then before + 1
      else before - 1
  }

  /** What the handlers do: a login passes only while its address is not limited, and only a login
      under way is recorded. */
  ghost predicate LoginStep(ops: seq<AuthOp>, ip: string, i: nat)
    requires i < |ops|
  {
    var op := ops[i];
    && (op.Pass? && op.ip == ip ==> !Info(Lookup(AuthRun(ops[..i]), ip), op.time).1)
    && ((op.Fail? || op.Clear?) && op.ip == ip ==> Underway(ops[..i], ip) > 0)
  }

  ghost predicate LoginRun(ops: seq<AuthOp>, ip: string) {
    AuthClock(ops) && forall i :: 0 <= i < |ops| ==> LoginStep(ops, ip, i)
  }

  lemma LoginRunPrefix(ops: seq<AuthOp>, ip: string, n: nat)
    requires LoginRun(ops, ip) && n <= |ops|
    ensures LoginRun(ops[..n], ip)
  {
    hide AuthRun, Underway, Info;
    forall i | 0 <= i < n
      ensures LoginStep(ops[..n], ip, i)
    {
      assert LoginStep(ops, ip, i) && ops[..n][..i] == ops[..i];
    }
  }

  lemma {:induction false} UnderwayIsNatural(ops: seq<AuthOp>, ip: string)
    requires LoginRun(ops, ip)
    ensures Underway(ops, ip) >= 0
  {
    hide AuthRun, Info;
    if ops != [] {
      var n := |ops| - 1;
      LoginRunPrefix(ops, ip, n);
      UnderwayIsNatural(ops[..n], ip);
      assert LoginStep(ops, ip, n);
    }
  }

  // ----- Logins that overlap -----

  /** While a round of five or more is less than a quarter of an hour old, nothing passes the gate, so
      failures only take from the logins under way. */
  lemma {:induction false} RoundBalance(ops: seq<AuthOp>, ip: string, i: nat, j: nat)
    requires LoginRun(ops, ip) && i < j <= |ops|
    requires var times := FailTimes(ops[..i + 1], ip);
             && times != [] && |times| - RoundStart(times) >= MAX_ATTEMPTS
             && forall k :: i < k < j ==>
                !(ops[k].Clear? && ops[k].ip == ip) && ops[k].time - times[RoundStart(times)] <= 15 * MINUTE
    ensures var times, later := FailTimes(ops[..i + 1], ip), FailTimes(ops[..j], ip);
            && times <= later && RoundStart(later) == RoundStart(times)
            && |later| + Underway(ops[..j], ip) == |times| + Underway(ops[..i + 1], ip)
    decreases j
  {
    hide AuthRun, Info, LoginRun, RoundStart, FailTimes, Underway;
    if j > i + 1 {
      var before, op := ops[..j - 1], ops[j - 1];
      RoundBalance(ops, ip, i, j - 1);
      assert ops[..j] == before + [op];
      OneMoreOp(before, op, ip);
      var times, sofar := FailTimes(ops[..i + 1], ip), FailTimes(before, ip);
      if op.Pass? && op.ip == ip {
        PassedIsOpen(ops, ip, j - 1);
      } else if op.Fail? && op.ip == ip {
        SameRound(sofar, op.time);
      }
    }
  }

  lemma OneMoreOp(ops: seq<AuthOp>, op: AuthOp, ip: string)
    ensures var after := ops + [op];
            if op.AuthCleanup? || op.ip != ip then
              FailTimes(after, ip) == FailTimes(ops, ip) && Underway(after, ip) == Underway(ops, ip)
            else
              && FailTimes(after, ip)
                 == (if op.Fail? then FailTimes(ops, ip) + [op.time] else if op.Pass? then FailTimes(ops, ip) else [])
              && Underway(after, ip) == Underway(ops, ip) + (if op.Pass? then 1 else -1)
  {
    assert (ops + [op])[..|ops|] == ops;
  }

  lemma SameRound(times: seq<int>, now: int)
    requires times != [] && now - times[RoundStart(times)] <= 15 * MINUTE
    ensures RoundStart(times + [now]) == RoundStart(times)
  {
    assert (times + [now])[..|times|] == times;
  }

  lemma PassedIsOpen(ops: seq<AuthOp>, ip: string, k: nat)
    requires LoginRun(ops, ip) && k < |ops| && ops[k].Pass? && ops[k].ip == ip
    ensures !AuthLimited(FailTimes(ops[..k], ip), ops[k].time)
    ensures var times := FailTimes(ops[..k], ip);
            times != [] && |times| - RoundStart(times) >= MAX_ATTEMPTS ==>
                ops[k].time - times[RoundStart(times)] > 30 * MINUTE
  {
    hide AuthRun, Info, FailTimes;
    assert LoginStep(ops, ip, k);
    LoginRunPrefix(ops, ip, k);
    AuthAnswer(ops[..k], ip, ops[k].time);
    FailTimesPast(ops[..k], ip);
  }

  /** In every run, overlapping logins included: from the fifth failure of a round on, until the
      round is a quarter of an hour old or a login succeeds, the round has at most five failures
      and one for each login that was under way at the fifth. */
  lemma RoundsAreBounded(ops: seq<AuthOp>, ip: string, i: nat, j: nat)
    requires LoginRun(ops, ip) && i < j <= |ops|
    requires var times := FailTimes(ops[..i + 1], ip);
             && times != [] && |times| - RoundStart(times) == MAX_ATTEMPTS
             && forall k :: i < k < j ==>
                !(ops[k].Clear? && ops[k].ip == ip) && ops[k].time - times[RoundStart(times)] <= 15 * MINUTE
    ensures var later := FailTimes(ops[..j], ip);
            later != [] && |later| - RoundStart(later) <= MAX_ATTEMPTS + Underway(ops[..i + 1], ip)
  {
    hide AuthRun, FailTimes, LoginRun;
    RoundBalance(ops, ip, i, j);
    LoginRunPrefix(ops, ip, j);
    UnderwayIsNatural(ops[..j], ip);
  }

  // ----- Logins one at a time -----

  ghost predicate OneAtATime(ops: seq<AuthOp>, ip: string) {
    forall n :: 0 <= n <= |ops| ==> Underway(ops[..n], ip) <= 1
  }

  lemma {:induction false} RunsAreGated(ops: seq<AuthOp>, ip: string)
    requires LoginRun(ops, ip) && OneAtATime(ops, ip)
    ensures Gated(FailTimes(ops, ip))
    ensures ops != [] && Underway(ops, ip) == 1 ==> !AuthLimited(FailTimes(ops, ip), ops[|ops| - 1].time)
  {
    hide AuthRun, AuthLimited, Info, Gated;
    if ops == [] {
      NoneIsGated();
    } else {
      var n := |ops| - 1;
      var before, op := ops[..n], ops[n];
      LoginRunPrefix(ops, ip, n);
      assert OneAtATime(before, ip) by {
        assert forall k :: 0 <= k <= n ==> before[..k] == ops[..k];
      }
      RunsAreGated(before, ip);
      assert ops[..|ops|] == ops && LoginStep(ops, ip, n);
      var times := FailTimes(before, ip);
      if n > 0 && Underway(before, ip) == 1 {
        StaysOpen(times, ops[n - 1].time, op.time);
      }
      if op.Pass? && op.ip == ip {
        PassedIsOpen(ops, ip, n);
      } else if op.Fail? && op.ip == ip {
        FailTimesPast(ops, ip);
        GatedSnoc(times, op.time);
      } else if op.Clear? && op.ip == ip {
        NoneIsGated();
      }
    }
  }

  lemma NoneIsGated()
    ensures Gated([])
  {
  }

  lemma StaysOpen(times: seq<int>, earlier: int, now: int)
    requires !AuthLimited(times, earlier) && earlier <= now
    ensures !AuthLimited(times, now)
  {
  }

  lemma GatedSnoc(times: seq<int>, now: int)
    requires Gated(times) && !AuthLimited(times, now) && Sorted(times + [now])
    ensures Gated(times + [now])
  {
    hide AuthLimited;
    var all := times + [now];
    forall i | 0 <= i < |all|
      ensures !AuthLimited(all[..i], all[i])
    {
      if i < |times| {
        assert all[..i] == times[..i];
      } else {
        assert all[..i] == times;
      }
    }
  }

  /** In every run, cleanups and other addresses included, in which the logins of an address do not
      overlap: any nine failed logins since it was last cleared span more than a quarter of an hour,
      and after five in one round comes half an hour of quiet. */
  lemma RunsLetEightThrough(ops: seq<AuthOp>, ip: string, i: nat)
    requires LoginRun(ops, ip) && OneAtATime(ops, ip) && i < |FailTimes(ops, ip)|
    ensures var times := FailTimes(ops, ip);
            && (i + 8 < |times| ==> times[i + 8] - times[i] > 15 * MINUTE)
            && i - StartOf(times, i) <= 4
            && (i - StartOf(times, i) == 4 && i + 1 < |times| ==> times[i + 1] - times[i] > 30 * MINUTE)
  {
    hide FailTimes, StartOf;
    RunsAreGated(ops, ip);
    RoundsAreShort(FailTimes(ops, ip), i);
    if i + 8 < |FailTimes(ops, ip)| {
      EightAQuarter(FailTimes(ops, ip), i);
    }
  }

  // ----- Runs that reach the bounds -----

  /** Logins that fail at once, one after the other. */
  function FailingLogins(times: seq<int>, ip: string): (ops: seq<AuthOp>)
    ensures |ops| == 2 * |times|
  {
    if times == [] then []
    else
      var n := |times| - 1;
      FailingLogins(times[..n], ip) + [Pass(ip, times[n]), Fail(ip, times[n])]
  }

  lemma {:induction false} LoginsAt(times: seq<int>, ip: string, i: nat)
    requires i < |times|
    ensures FailingLogins(times, ip)[2 * i] == Pass(ip, times[i])
            && FailingLogins(times, ip)[2 * i + 1] == Fail(ip, times[i])
    ensures FailingLogins(times, ip)[..2 * i] == FailingLogins(times[..i], ip)
    decreases |times|
  {
    var n := |times| - 1;
    if i < n {
      LoginsAt(times[..n], ip, i);
      assert times[..n][..i] == times[..i];
    }
  }

  lemma {:induction false} LoginsHaveTimes(times: seq<int>, ip: string)
    ensures FailTimes(FailingLogins(times, ip), ip) == times && Underway(FailingLogins(times, ip), ip) == 0
  {
    if times != [] {
      var n := |times| - 1;
      var ops := FailingLogins(times, ip);
      LoginsHaveTimes(times[..n], ip);
      LoginsAt(times, ip, n);
      OneMoreOp(ops[..2 * n], Pass(ip, times[n]), ip);
      assert ops[..|ops| - 1] == ops[..2 * n] + [Pass(ip, times[n])];
    }
  }

  lemma GatedTimesMakeRuns(times: seq<int>, ip: string)
    requires Gated(times)
    ensures LoginRun(FailingLogins(times, ip), ip) && OneAtATime(FailingLogins(times, ip), ip)
  {
    hide AuthRun, FailTimes, AuthLimited, Info, FailingLogins, Underway;
    var ops := FailingLogins(times, ip);
    LoginsClock(times, ip);
    forall k | 0 <= k <= |ops|
      ensures 0 <= Underway(ops[..k], ip) <= 1
      ensures k < |ops| ==> LoginStep(ops, ip, k)
    {
      LoginsStep(times, ip, k);
    }
  }

  lemma LoginsClock(times: seq<int>, ip: string)
    requires Sorted(times)
    ensures AuthClock(FailingLogins(times, ip))
  {
    hide FailingLogins;
    var ops := FailingLogins(times, ip);
    forall k | 0 <= k < |ops|
      ensures ops[k].time == times[k / 2]
    {
      LoginsAt(times, ip, k / 2);
    }
  }

  lemma LoginsStep(times: seq<int>, ip: string, k: nat)
    requires Gated(times) && k <= |FailingLogins(times, ip)|
    ensures var ops := FailingLogins(times, ip);
            0 <= Underway(ops[..k], ip) <= 1 && (k < |ops| ==> LoginStep(ops, ip, k))
  {
    hide AuthRun, FailTimes, AuthLimited, Info, FailingLogins, Underway;
    var ops, i := FailingLogins(times, ip), k / 2;
    if k == |ops| {
      assert ops[..k] == ops;
      LoginsHaveTimes(times, ip);
    } else {
      LoginsAt(times, ip, i);
      LoginsHaveTimes(times[..i], ip);
      if k == 2 * i {
        LoginsClock(times[..i], ip);
        EarlierLogins(times, ip, i);
        AuthAnswer(ops[..k], ip, times[i]);
      } else {
        assert ops[..k] == ops[..2 * i] + [Pass(ip, times[i])];
        OneMoreOp(ops[..2 * i], Pass(ip, times[i]), ip);
      }
    }
  }

  lemma EarlierLogins(times: seq<int>, ip: string, i: nat)
    requires Sorted(times) && i < |times|
    ensures var before := FailingLogins(times[..i], ip); before != [] ==> times[i] >= before[|before| - 1].time
  {
    hide FailingLogins;
    if i > 0 {
      LoginsAt(times[..i], ip, i - 1);
    }
  }

  /** Eight do get through: three late in one round and five in the next. */
  lemma EightGetThrough(ip: string) returns (times: seq<int>)
    ensures |times| == 9 && times[8] - times[1] <= 15 * MINUTE
    ensures var ops := FailingLogins(times, ip); LoginRun(ops, ip) && OneAtATime(ops, ip) && FailTimes(ops, ip) == times
  {
    hide LoginRun, OneAtATime, Gated, FailingLogins;
    times := EightClose();
    GatedTimesMakeRuns(times, ip);
    LoginsHaveTimes(times, ip);
  }

  lemma EightClose() returns (times: seq<int>)
    ensures Gated(times) && |times| == 9 && times[8] - times[1] <= 15 * MINUTE
  {
    hide RoundStart, StartOf, AuthLimited;
    var quarter := 15 * MINUTE;
    var next := quarter + 1;
    times := [0, quarter, quarter, quarter, next, next, next, next, next];
    FirstRound(times);
    StartStep(times, 1);
    StartStep(times, 2);
    StartStep(times, 3);
    StartStep(times, 4);
    StartStep(times, 5);
    StartStep(times, 6);
    StartStep(times, 7);
    forall i | 0 <= i < 9
      ensures !AuthLimited(times[..i], times[i])
    {
      ShortRound(times, i);
    }
  }

  lemma ShortRound(times: seq<int>, i: nat)
    requires i < |times| && (i > 0 ==> i - StartOf(times, i - 1) < MAX_ATTEMPTS)
    ensures !AuthLimited(times[..i], times[i])
  {
  }

  lemma FirstRound(times: seq<int>)
    requires times != []
    ensures StartOf(times, 0) == 0
  {
  }

  // ----- Any number of overlapping logins -----

  function Passes(n: nat, ip: string): (ops: seq<AuthOp>)
    ensures |ops| == n && forall i :: 0 <= i < n ==> ops[i] == Pass(ip, 0)
  {
    seq(n, _ => Pass(ip, 0))
  }

  function Failures(n: nat, ip: string): (ops: seq<AuthOp>)
    ensures |ops| == n && forall i :: 0 <= i < n ==> ops[i] == Fail(ip, 0)
  {
    seq(n, _ => Fail(ip, 0))
  }

  lemma {:induction false} PassesArePassed(n: nat, ip: string)
    ensures AuthRun(Passes(n, ip)) == map[] && FailTimes(Passes(n, ip), ip) == [] && Underway(Passes(n, ip), ip) == n
  {
    if n > 0 {
      assert Passes(n, ip)[..n - 1] == Passes(n - 1, ip);
      PassesArePassed(n - 1, ip);
    }
  }

  lemma {:induction false} FailuresAreUnderway(n: nat, k: nat, ip: string)
    requires k <= n
    ensures var ops := Passes(n, ip) + Failures(k, ip);
            && Underway(ops, ip) == n - k && |FailTimes(ops, ip)| == k
            && (forall i :: 0 <= i < k ==> FailTimes(ops, ip)[i] == 0)
            && (k > 0 ==> RoundStart(FailTimes(ops, ip)) == 0)
  {
    var ops := Passes(n, ip) + Failures(k, ip);
    if k == 0 {
      assert ops == Passes(n, ip);
      PassesArePassed(n, ip);
    } else {
      assert ops[..|ops| - 1] == Passes(n, ip) + Failures(k - 1, ip);
      FailuresAreUnderway(n, k - 1, ip);
      var times := FailTimes(ops, ip);
      assert times[..k - 1] == FailTimes(ops[..|ops| - 1], ip);
    }
  }

  /** However many logins pass the gate before the first failure is recorded, all of them can fail in
      one round: five, and those under way at the fifth. */
  lemma AllUnderwayGetThrough(ip: string, more: nat)
    ensures var ops := Passes(5 + more, ip) + Failures(5 + more, ip);
            && LoginRun(ops, ip) && Underway(ops[..10 + more], ip) == more
            && |FailTimes(ops[..10 + more], ip)| == 5
            && |FailTimes(ops, ip)| - RoundStart(FailTimes(ops, ip)) == 5 + more
  {
    hide AuthRun, FailTimes, Underway, Passes, Failures;
    var n := 5 + more;
    var ops := Passes(n, ip) + Failures(n, ip);
    forall i | 0 <= i < |ops|
      ensures LoginStep(ops, ip, i)
    {
      if i < n {
        assert ops[..i] == Passes(i, ip);
        PassesArePassed(i, ip);
      } else {
        assert ops[..i] == Passes(n, ip) + Failures(i - n, ip);
        FailuresAreUnderway(n, i - n, ip);
      }
    }
    assert ops[..n + 5] == Passes(n, ip) + Failures(5, ip);
    FailuresAreUnderway(n, 5, ip);
    FailuresAreUnderway(n, n, ip);
  }
}
