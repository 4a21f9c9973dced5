/**
 The sign-in throttle (dashboard/api/internal/httpapi/support.go): at most so many failures per
 address and window, with an occasional sweep of expired records.
 */
module LoginLimiter {
  import opened Wrappers

  datatype Record = Record(count: int, first: int)

  type Attempts = map<string, Record>

  const SWEEP_SIZE: nat := 1024

  predicate Expired(r: Record, window: int, now: int) {
    now - r.first > window
  }

  // ----- the operations --------------------------------------------------------------------

  function Swept(m: Attempts, window: int, now: int): Attempts {
    if |m| < SWEEP_SIZE then m else map ip | ip in m && !Expired(m[ip], window, now) :: m[ip]
  }

  /** The record that still counts against an address, if any. */
  function Standing(m: Attempts, ip: string, window: int, now: int): Option<Record> {
    if ip in m && !Expired(m[ip], window, now) then Some(m[ip]) else None
  }

  function Allowed(m: Attempts, ip: string, max: int, window: int, now: int): bool {
    match Standing(m, ip, window, now)
    case None => true
    case Some(r) => r.count < max
  }

  function Failed(m: Attempts, ip: string, window: int, now: int): Attempts {
    match Standing(m, ip, window, now)
    case None => m[ip := Record(1, now)]
    case Some(r) => m[ip := Record(r.count + 1, r.first)]
  }

  /** What is left after a check: an expired record of the address is dropped. */
  function Checked(m: Attempts, ip: string, window: int, now: int): Attempts {
    if ip in m && Expired(m[ip], window, now) then m - {ip} else m
  }

  class Limiter {
    const max: int
    const window: int
    var attempts: Attempts

    constructor (max: int, window: int)
      ensures this.max == max && this.window == window && attempts == map[]
    {
      this.max, this.window, attempts := max, window, map[];
    }

    method Allow(ip: string, now: int) returns (ok: bool)
      modifies this
      ensures ok == Allowed(Swept(old(attempts), window, now), ip, max, window, now)
      ensures attempts == Checked(Swept(old(attempts), window, now), ip, window, now)
      ensures !ok <==> ip in old(attempts) && now - old(attempts)[ip].first <= window && old(attempts)[ip].count >= max
    {
      Sweep(now);
      if ip !in attempts {
        return true;
      }
      var record := attempts[ip];
      if now - record.first > window {
        attempts := attempts - {ip};
        return true;
      }
      ok := record.count < max;
    }

    method Fail(ip: string, now: int)
      modifies this
      ensures attempts == Failed(old(attempts), ip, window, now)
      ensures forall k :: k != ip ==> (k in attempts <==> k in old(attempts)) && (k in attempts ==> attempts[k] == old(attempts)[k])
      ensures ip in attempts
      ensures attempts[ip] ==
        if ip in old(attempts) && now - old(attempts)[ip].first <= window
        then Record(old(attempts)[ip].count + 1, old(attempts)[ip].first) else Record(1, now)
    {
      if ip !in attempts || now - attempts[ip].first > window {
        attempts := attempts[ip := Record(1, now)];
        return;
      }
      attempts := attempts[ip := attempts[ip].(count := attempts[ip].count + 1)];
    }

    method Reset(ip: string)
      modifies this
      ensures attempts == old(attempts) - {ip}
    {
      attempts := attempts - {ip};
    }

    method Sweep(now: int)
      modifies this
      ensures attempts == Swept(old(attempts), window, now)
      ensures |old(attempts)| < 1024 ==> attempts == old(attempts)
      ensures |old(attempts)| >= 1024 ==>
        forall k :: k in attempts <==> k in old(attempts) && now - old(attempts)[k].first <= window
      ensures forall k :: k in attempts ==> attempts[k] == old(attempts)[k]
    {
      if |attempts| < SWEEP_SIZE {
        return;
      }
      ghost var before := attempts;
      var left := attempts.Keys;
      while left != {}
        invariant left <= before.Keys
        invariant attempts == map ip | ip in before && (ip in left || !Expired(before[ip], window, now)) :: before[ip]
        decreases left
      {
        var ip :| ip in left;
        left := left - {ip};
        if now - attempts[ip].first > window {
          attempts := attempts - {ip};
        }
      }
    }
  }

  // ----- runs ------------------------------------------------------------------------------

  datatype Op =
    | Check(ip: string, at: int)
    | Failure(ip: string, at: int)
    | Success(ip: string, at: int)
    | Malformed(ip: string, at: int)   // checked, but the body does not decode: neither counted nor reset

  /** One operation; only a check answers, and only a check sweeps. */
  function Perform(m: Attempts, op: Op, max: int, window: int, sweeping: bool): (Option<bool>, Attempts) {
    match op
    case Check(ip, at) =>
      var swept := if sweeping then Swept(m, window, at) else m;
      (Some(Allowed(swept, ip, max, window, at)), Checked(swept, ip, window, at))
    case Failure(ip, at) => (None, Failed(m, ip, window, at))
    case Success(ip, _) => (None, m - {ip})
    case Malformed(_, _) => (None, m)
  }

  function Answers(m: Attempts, ops: seq<Op>, max: int, window: int, sweeping: bool): seq<Option<bool>>
    decreases |ops|
  {
    if ops == [] then []
    else
      var (answer, after) := Perform(m, ops[0], max, window, sweeping);
      [answer] + Answers(after, ops[1..], max, window, sweeping)
  }

  predicate InTimeOrder(ops: seq<Op>, from: int) {
    ops == [] || (from <= ops[0].at && InTimeOrder(ops[1..], ops[0].at))
  }

  // ----- sweeping never shows --------------------------------------------------------------

  predicate SameAt(m: Attempts, n: Attempts, ip: string, window: int, now: int) {
    Standing(m, ip, window, now) == Standing(n, ip, window, now)
  }

  /** From this instant on, both hold the same standing records. */
  ghost predicate SameFrom(m: Attempts, n: Attempts, window: int, from: int) {
    forall ip, now :: now >= from ==> SameAt(m, n, ip, window, now)
  }

  lemma SweptSame(m: Attempts, window: int, from: int)
    ensures SameFrom(Swept(m, window, from), m, window, from)
  {
  }

  lemma CheckedSame(m: Attempts, ip: string, window: int, from: int)
    ensures SameFrom(Checked(m, ip, window, from), m, window, from)
  {
  }

  lemma SameTransitive(a: Attempts, b: Attempts, c: Attempts, window: int, from: int)
    requires SameFrom(a, b, window, from) && SameFrom(b, c, window, from)
    ensures SameFrom(a, c, window, from) && SameFrom(b, a, window, from)
  {
    forall ip, now | now >= from ensures SameAt(a, c, ip, window, now) && SameAt(b, a, ip, window, now) {
      assert SameAt(a, b, ip, window, now) && SameAt(b, c, ip, window, now);
    }
  }

  lemma SameAfterCheck(m: Attempts, n: Attempts, ip: string, max: int, window: int, at: int)
    requires SameFrom(m, n, window, at)
    ensures var swept := Swept(m, window, at);
      && Allowed(swept, ip, max, window, at) == Allowed(n, ip, max, window, at)
      && SameFrom(Checked(swept, ip, window, at), Checked(n, ip, window, at), window, at)
  {
    var swept := Swept(m, window, at);
    SweptSame(m, window, at);
    SameTransitive(swept, m, n, window, at);
    assert SameAt(swept, n, ip, window, at);
    CheckedSame(swept, ip, window, at);
    SameTransitive(Checked(swept, ip, window, at), swept, n, window, at);
    CheckedSame(n, ip, window, at);
    SameTransitive(Checked(n, ip, window, at), n, n, window, at);
    SameTransitive(Checked(swept, ip, window, at), n, Checked(n, ip, window, at), window, at);
  }

  lemma SameAfterFailure(m: Attempts, n: Attempts, ip: string, window: int, at: int)
    requires SameFrom(m, n, window, at)
    ensures SameFrom(Failed(m, ip, window, at), Failed(n, ip, window, at), window, at)
  {
    assert SameAt(m, n, ip, window, at);
    forall j, now | now >= at ensures SameAt(Failed(m, ip, window, at), Failed(n, ip, window, at), j, window, now) {
      assert SameAt(m, n, j, window, now);
    }
  }

  lemma SameAfterSuccess(m: Attempts, n: Attempts, ip: string, window: int, at: int)
    requires SameFrom(m, n, window, at)
    ensures SameFrom(m - {ip}, n - {ip}, window, at)
  {
    forall j, now | now >= at ensures SameAt(m - {ip}, n - {ip}, j, window, now) {
      assert SameAt(m, n, j, window, now);
    }
  }

  lemma {:induction false} SameAnswers(m: Attempts, n: Attempts, ops: seq<Op>, max: int, window: int, from: int)
    requires SameFrom(m, n, window, from) && InTimeOrder(ops, from)
    ensures Answers(m, ops, max, window, true) == Answers(n, ops, max, window, false)
    decreases |ops|
  {
    if ops == [] {
    } else {
      var op := ops[0];
      assert SameFrom(m, n, window, op.at);
      match op {
        case Check(ip, at) => SameAfterCheck(m, n, ip, max, window, at);
        case Failure(ip, at) => SameAfterFailure(m, n, ip, window, at);
        case Success(ip, at) => SameAfterSuccess(m, n, ip, window, at);
        case Malformed(_, _) =>
      }
      SameAnswers(Perform(m, op, max, window, true).1, Perform(n, op, max, window, false).1, ops[1..], max, window, op.at);
    }
  }

  /** A throttle that sweeps answers every check as one that never does. */
  lemma SweepInvisible(m: Attempts, ops: seq<Op>, max: int, window: int, from: int)
    requires InTimeOrder(ops, from)
    ensures Answers(m, ops, max, window, true) == Answers(m, ops, max, window, false)
  {
    SameAnswers(m, m, ops, max, window, from);
  }

  // ----- how many failures get through -----------------------------------------------------

  function After(m: Attempts, op: Op, max: int, window: int): Attempts {
    Perform(m, op, max, window, true).1
  }

  /**
   One address x signs in and never succeeds, with at most `parallel` attempts in flight at a time:
   each of its failures ends an attempt that a check of its own let through. Operations of other
   addresses may fall anywhere in between.
   */
  predicate Guessing(m: Attempts, ops: seq<Op>, x: string, inFlight: nat, parallel: nat, max: int, window: int)
    decreases |ops|
  {
    ops == [] ||
    (var n := InFlightAfter(m, ops[0], x, inFlight, max, window);
     0 <= n <= parallel && !(ops[0].Success? && ops[0].ip == x)
     && Guessing(After(m, ops[0], max, window), ops[1..], x, n, parallel, max, window))
  }

  /** How many attempts of x are in flight after an operation; negative when none was there to end. */
  function InFlightAfter(m: Attempts, op: Op, x: string, inFlight: nat, max: int, window: int): int {
    if op.ip != x then inFlight
    else if op.Check? then inFlight + if Perform(m, op, max, window, true).0 == Some(true) then 1 else 0
    else inFlight - 1
  }

  /** When the failures of x happened. */
  function FailureTimes(ops: seq<Op>, x: string): seq<int> {
    if ops == [] then []
    else (if ops[0].Failure? && ops[0].ip == x then [ops[0].at] else []) + FailureTimes(ops[1..], x)
  }

  function CountIn(ts: seq<int>, from: int, to: int): nat {
    if ts == [] then 0
    else CountIn(ts[..|ts| - 1], from, to) + if from <= ts[|ts| - 1] <= to then 1 else 0
  }

  lemma CountSnoc(ts: seq<int>, t: int, from: int, to: int)
    ensures CountIn(ts + [t], from, to) == CountIn(ts, from, to) + if from <= t <= to then 1 else 0
  {
    assert (ts + [t])[..|ts|] == ts;
  }

  lemma {:induction false} CountSplit(ts: seq<int>, k: nat, from: int, to: int)
    requires k <= |ts|
    ensures CountIn(ts, from, to) == CountIn(ts[..k], from, to) + CountIn(ts[k..], from, to)
    decreases |ts| - k
  {
    if k == |ts| {
      assert ts[..k] == ts;
    } else {
      var n := |ts| - 1;
      CountSplit(ts[..n], k, from, to);
      assert ts[..n][..k] == ts[..k] && ts[..n][k..] == ts[k..n] && ts[k..][..n - k] == ts[k..n];
    }
  }

  lemma {:induction false} CountAtMostAll(ts: seq<int>, from: int, to: int)
    ensures CountIn(ts, from, to) <= |ts|
  {
    if ts == [] {
    } else {
      CountAtMostAll(ts[..|ts| - 1], from, to);
    }
  }

  lemma {:induction false} CountNarrower(ts: seq<int>, from: int, to: int, from': int, to': int)
    requires forall i :: 0 <= i < |ts| && from <= ts[i] <= to ==> from' <= ts[i] <= to'
    ensures CountIn(ts, from, to) <= CountIn(ts, from', to')
  {
    if ts == [] {
    } else {
      CountNarrower(ts[..|ts| - 1], from, to, from', to');
    }
  }

  lemma {:induction false} CountNone(ts: seq<int>, from: int, to: int)
    requires forall i :: 0 <= i < |ts| ==> !(from <= ts[i] <= to)
    ensures CountIn(ts, from, to) == 0
  {
    if ts == [] {
    } else {
      CountNone(ts[..|ts| - 1], from, to);
    }
  }

  /**
   How many failures one record can count: the last check to pass may find one less than the maximum
   and every attempt that may be in flight already through. A first failure is always let through.
   */
  function Cap(max: int, parallel: nat): nat
    requires parallel > 0
  {
    (if max < 1 then 1 else max) + parallel - 1
  }

  /** The failures from position k on share one record; those before are older than it. */
  ghost predicate Epoch(ts: seq<int>, k: nat, cap: nat, window: int) {
    && k < |ts| <= k + cap
    && (forall i :: 0 <= i < k ==> ts[i] < ts[k])
    && (forall i :: k <= i < |ts| ==> ts[k] <= ts[i] <= ts[k] + window)
    && CountIn(ts[..k], ts[k] - window, ts[k]) <= cap
  }

  predicate SpanHolds(ts: seq<int>, t: int, cap: nat, window: int) {
    CountIn(ts, t, t + window) <= 2 * cap
  }

  ghost predicate Bounded(ts: seq<int>, cap: nat, window: int) {
    forall t :: SpanHolds(ts, t, cap, window)
  }

  ghost predicate RecordMatches(m: Attempts, x: string, ts: seq<int>, k: nat, window: int, now: int)
    requires k < |ts|
  {
    if x in m then m[x] == Record(|ts| - k, ts[k]) else now > ts[k] + window
  }

  ghost predicate GuessInv(m: Attempts, x: string, ts: seq<int>, inFlight: nat, cap: nat, window: int, now: int) {
    && (ts == [] ==> x !in m)
    && (ts != [] ==> exists k :: 0 <= k < |ts| && Epoch(ts, k, cap, window) && RecordMatches(m, x, ts, k, window, now))
    && (forall i :: 0 <= i < |ts| ==> ts[i] <= now)
    && (x in m ==> m[x].count + inFlight <= cap)
    && Bounded(ts, cap, window)
  }

  /** An epoch with at most `cap` failures before it in reach keeps every span within twice the cap. */
  lemma EpochBounds(ts: seq<int>, k: nat, cap: nat, window: int, t: int)
    requires Epoch(ts, k, cap, window) && t + window >= ts[k]
    ensures CountIn(ts, t, t + window) <= 2 * cap
  {
    CountSplit(ts, k, t, t + window);
    CountAtMostAll(ts[k..], t, t + window);
    CountNarrower(ts[..k], t, t + window, ts[k] - window, ts[k]);
  }

  /** One more failure under a standing record. */
  lemma EpochGrows(ts: seq<int>, k: nat, cap: nat, window: int, f: int)
    requires Epoch(ts, k, cap, window) && |ts| < k + cap && ts[k] <= f <= ts[k] + window
    ensures Epoch(ts + [f], k, cap, window)
  {
    assert (ts + [f])[..k] == ts[..k];
  }

  /** A failure that opens a new record. */
  lemma EpochOpens(ts: seq<int>, k: nat, cap: nat, window: int, f: int)
    requires Epoch(ts, k, cap, window) && f > ts[k] + window && window >= 0
    ensures Epoch(ts + [f], |ts|, cap, window)
  {
    assert (ts + [f])[..|ts|] == ts;
    CountSplit(ts, k, f - window, f);
    CountNone(ts[..k], f - window, f);
    CountAtMostAll(ts[k..], f - window, f);
  }

  lemma BoundedGrows(ts: seq<int>, f: int, k: nat, cap: nat, window: int)
    requires Bounded(ts, cap, window) && Epoch(ts + [f], k, cap, window)
    ensures Bounded(ts + [f], cap, window)
  {
    var us := ts + [f];
    forall t ensures SpanHolds(us, t, cap, window) {
      if t + window >= us[k] {
        EpochBounds(us, k, cap, window, t);
      } else {
        CountSnoc(ts, f, t, t + window);
        assert SpanHolds(ts, t, cap, window);
        assert us[|ts|] == f && us[k] <= f;
      }
    }
  }

  /** An operation that counts no failure of x touches its record only to drop it once it has expired. */
  lemma RecordKept(m: Attempts, op: Op, x: string, ts: seq<int>, inFlight: nat, n: nat, max: int, cap: nat, window: int, now: int)
    requires GuessInv(m, x, ts, inFlight, cap, window, now) && now <= op.at
    requires op.ip != x || op.Check? || op.Malformed?
    requires x in After(m, op, max, window) ==> After(m, op, max, window)[x].count + n <= cap
    ensures GuessInv(After(m, op, max, window), x, ts, n, cap, window, op.at)
  {
    var after := After(m, op, max, window);
    assert x in after ==> x in m && after[x] == m[x];
    assert x in m && x !in after ==> Expired(m[x], window, op.at);
    if ts != [] {
      var k :| 0 <= k < |ts| && Epoch(ts, k, cap, window) && RecordMatches(m, x, ts, k, window, now);
      assert RecordMatches(after, x, ts, k, window, op.at);
    }
  }

  lemma CheckKeeps(m: Attempts, op: Op, x: string, ts: seq<int>, inFlight: nat, parallel: nat, max: int, window: int, now: int)
    requires parallel > 0 && GuessInv(m, x, ts, inFlight, Cap(max, parallel), window, now)
    requires op.Check? && op.ip == x && now <= op.at && InFlightAfter(m, op, x, inFlight, max, window) <= parallel
    ensures GuessInv(After(m, op, max, window), x, ts, InFlightAfter(m, op, x, inFlight, max, window),
                     Cap(max, parallel), window, op.at)
  {
    var n := InFlightAfter(m, op, x, inFlight, max, window);
    var after := After(m, op, max, window);
    assert x in after ==> x in m && after[x] == m[x];
    assert x in after && n == inFlight + 1 ==> after[x].count < max;
    RecordKept(m, op, x, ts, inFlight, n, max, Cap(max, parallel), window, now);
  }

  lemma FailureKeeps(m: Attempts, op: Op, x: string, ts: seq<int>, inFlight: nat, max: int, cap: nat, window: int, now: int)
    requires GuessInv(m, x, ts, inFlight, cap, window, now) && 0 < inFlight <= cap
    requires op.Failure? && op.ip == x && now <= op.at && window >= 0
    ensures GuessInv(After(m, op, max, window), x, ts + [op.at], inFlight - 1, cap, window, op.at)
  {
    var n, f := After(m, op, max, window), op.at;
    var us := ts + [f];
    var j: nat;
    if ts == [] {
      j := 0;
      assert us[..0] == [];
    } else {
      var k :| 0 <= k < |ts| && Epoch(ts, k, cap, window) && RecordMatches(m, x, ts, k, window, now);
      if Standing(m, x, window, f).Some? {
        j := k;
        EpochGrows(ts, k, cap, window, f);
      } else {
        j := |ts|;
        EpochOpens(ts, k, cap, window, f);
      }
    }
    assert Epoch(us, j, cap, window) && RecordMatches(n, x, us, j, window, f);
    BoundedGrows(ts, f, j, cap, window);
  }

  /** What one operation adds to the failures of x. */
  lemma TimesAfter(ops: seq<Op>, x: string, ts: seq<int>)
    requires ops != []
    ensures ts + FailureTimes(ops, x) == TimesWith(ts, ops[0], x) + FailureTimes(ops[1..], x)
  {
  }

  function TimesWith(ts: seq<int>, op: Op, x: string): seq<int> {
    if op.Failure? && op.ip == x then ts + [op.at] else ts
  }

  lemma {:induction false} GuessRun(m: Attempts, ops: seq<Op>, x: string, ts: seq<int>, inFlight: nat, parallel: nat,
                                    max: int, window: int, now: int)
    requires parallel > 0 && GuessInv(m, x, ts, inFlight, Cap(max, parallel), window, now) && window >= 0
    requires inFlight <= parallel && InTimeOrder(ops, now) && Guessing(m, ops, x, inFlight, parallel, max, window)
    ensures Bounded(ts + FailureTimes(ops, x), Cap(max, parallel), window)
    decreases |ops|
  {
    if ops == [] {
      assert ts + FailureTimes(ops, x) == ts;
    } else {
      var op, n := ops[0], InFlightAfter(m, ops[0], x, inFlight, max, window);
      GuessStep(m, op, x, ts, inFlight, parallel, max, window, now);
      GuessRun(After(m, op, max, window), ops[1..], x, TimesWith(ts, op, x), n, parallel, max, window, op.at);
      TimesAfter(ops, x, ts);
    }
  }

  lemma GuessStep(m: Attempts, op: Op, x: string, ts: seq<int>, inFlight: nat, parallel: nat, max: int, window: int, now: int)
    requires parallel > 0 && GuessInv(m, x, ts, inFlight, Cap(max, parallel), window, now)
    requires inFlight <= parallel && window >= 0 && now <= op.at && !(op.Success? && op.ip == x)
    requires 0 <= InFlightAfter(m, op, x, inFlight, max, window) <= parallel
    ensures GuessInv(After(m, op, max, window), x, TimesWith(ts, op, x),
                     InFlightAfter(m, op, x, inFlight, max, window), Cap(max, parallel), window, op.at)
  {
    var n, cap, after := InFlightAfter(m, op, x, inFlight, max, window), Cap(max, parallel), After(m, op, max, window);
    if op.ip == x && op.Check? {
      CheckKeeps(m, op, x, ts, inFlight, parallel, max, window, now);
    } else if op.ip == x && op.Failure? {
      FailureKeeps(m, op, x, ts, inFlight, max, cap, window, now);
    } else {
      assert x in after ==> x in m && after[x] == m[x];
      RecordKept(m, op, x, ts, inFlight, n, max, cap, window, now);
    }
  }

  /**
   Whatever the other addresses do, in any closed span of one window at most twice the cap of failed
   sign-ins get through from one address, for as many attempts in parallel as there may be.
   */
  lemma ParallelGuessesBounded(ops: seq<Op>, x: string, parallel: nat, max: int, window: nat, from: int, t: int)
    requires parallel > 0 && InTimeOrder(ops, from) && Guessing(map[], ops, x, 0, parallel, max, window)
    ensures CountIn(FailureTimes(ops, x), t, t + window) <= 2 * Cap(max, parallel)
  {
    forall t ensures SpanHolds([], t, Cap(max, parallel), window) {}
    GuessRun(map[], ops, x, [], 0, parallel, max, window, from);
    assert [] + FailureTimes(ops, x) == FailureTimes(ops, x);
    assert SpanHolds(FailureTimes(ops, x), t, Cap(max, parallel), window);
  }

  /** Somebody with fewer failures than the maximum under a standing record, or with none, is let through. */
  lemma FewFailuresPass(m: Attempts, ip: string, max: int, window: int, at: int)
    requires ip in m && at - m[ip].first <= window ==> m[ip].count < max
    ensures Perform(m, Check(ip, at), max, window, true).0 == Some(true)
  {
  }

  /** Attempts one after another: at most twice the maximum, which counts as at least one. */
  lemma GuessesBounded(ops: seq<Op>, x: string, max: int, window: nat, from: int, t: int)
    requires InTimeOrder(ops, from) && Guessing(map[], ops, x, 0, 1, max, window)
    ensures CountIn(FailureTimes(ops, x), t, t + window) <= 2 * if max < 1 then 1 else max
  {
    ParallelGuessesBounded(ops, x, 1, max, window, from, t);
  }

  /** One run of guesses from x keeps the promised bound in the span that starts at t. */
  predicate KeepsPromise(ops: seq<Op>, x: string, max: int, window: nat, t: int) {
    InTimeOrder(ops, t) && Guessing(map[], ops, x, 0, 1, max, window) ==>
      CountIn(FailureTimes(ops, x), t, t + window) <= 2 * max
  }

  /** The bound of twice the configured maximum holds exactly for a maximum of at least one. */
  lemma PromiseExact(max: int, window: nat)
    ensures (forall ops, x, t :: KeepsPromise(ops, x, max, window, t)) <==> max >= 1
  {
    if max >= 1 {
      forall ops, x, t ensures KeepsPromise(ops, x, max, window, t) {
        if InTimeOrder(ops, t) && Guessing(map[], ops, x, 0, 1, max, window) {
          GuessesBounded(ops, x, max, window, t, t);
        }
      }
    } else {
      var check, failure := Check("a", 0), Failure("a", 0);
      var ops := [check, failure];
      assert ops[1..] == [failure] && ops[1..][1..] == [];
      assert Guessing(After(map[], check, max, window), [failure], "a", 1, 1, max, window);
      assert Guessing(map[], ops, "a", 0, 1, max, window);
      assert FailureTimes([failure], "a") == [0] + FailureTimes([], "a") == [0];
      assert FailureTimes(ops, "a") == [] + FailureTimes([failure], "a") == [0];
      assert CountIn([0], 0, window) == CountIn([], 0, window) + 1;
      assert InTimeOrder([failure], 0) && InTimeOrder(ops, 0);
      assert !KeepsPromise(ops, "a", max, window, 0);
    }
  }
}
