/**
 Verifying a time range: the in-memory store walks a stretch of its slice, the SQL store walks the
 rows a WHERE clause selects (internal/audit/memory.go, internal/audit/postgres.go). The two agree
 as long as timestamps never decrease in append order, which the writer does not promise.
 */
module Ranges {
  import opened Wrappers
  import opened ByteStrings
  import opened AuditEntries
  import opened Chain

  /** An open bound is a zero time in the source. */
  type Bound = Option<int>

  predicate IsBefore(from: Bound, e: AuditEntry) { from.Some? && e.timestamp < from.value }
  predicate IsAfter(to: Bound, e: AuditEntry) { to.Some? && e.timestamp > to.value }
  predicate InRange(from: Bound, to: Bound, e: AuditEntry) { !IsBefore(from, e) && !IsAfter(to, e) }

  // ----- in memory -------------------------------------------------------------------------

  /** The first place at or after i that holds no entry before the range. */
  function StartFrom(log: Log, from: Bound, i: nat): (n: nat)
    requires i <= |log|
    ensures i <= n <= |log|
    ensures forall k :: i <= k < n ==> IsBefore(from, log[k])
    ensures n < |log| ==> !IsBefore(from, log[n])
    decreases |log| - i
  {
    if i == |log| || !IsBefore(from, log[i]) then i else StartFrom(log, from, i + 1)
  }

  /** The first place at or after i that holds an entry past the range, or the end of the log. */
  function StopFrom(log: Log, to: Bound, i: nat): (n: nat)
    requires i <= |log|
    ensures i <= n <= |log|
    ensures forall k :: i <= k < n ==> !IsAfter(to, log[k])
    ensures n < |log| ==> IsAfter(to, log[n])
    decreases |log| - i
  {
    if i == |log| || IsAfter(to, log[i]) then i else StopFrom(log, to, i + 1)
  }

  function Start(log: Log, from: Bound): (n: nat)
    ensures n <= |log|
  {
    StartFrom(log, from, 0)
  }

  function MemoryVerify(H: HashFn, log: Log, from: Bound, to: Bound): VerifyResult {
    var start := Start(log, from);
    Walk(H, Before(GENESIS, log, start), log[start..StopFrom(log, to, start)])
  }

  /** One step of the walk over a stretch of a log. */
  lemma WalkStretchStep(H: HashFn, prev: Bytes, position: nat, log: Log, i: nat, j: nat)
    requires i < j <= |log|
    ensures WalkFrom(H, prev, position, log[i..j])
         == match Complaint(H, prev, log[i])
            case Some(reason) => Report(log[i], position + 1, reason)
            case None => WalkFrom(H, log[i].hash, position + 1, log[i + 1..j])
  {
    assert log[i..j][0] == log[i] && log[i..j][1..] == log[i + 1..j];
  }

  /** Both bounds are inclusive, and a bound left out excludes nothing. */
  predicate Within(from: Bound, to: Bound, t: int) {
    (from == None || from.value <= t) && (to == None || t <= to.value)
  }

  lemma InRangeIsWithin(from: Bound, to: Bound, e: AuditEntry)
    ensures InRange(from, to, e) <==> Within(from, to, e.timestamp)
  {
  }

  /** The walk begins at the first entry not stamped before the range and ends before the first stamped after it. */
  lemma MemoryStretch(log: Log, from: Bound, to: Bound)
    ensures var s, n := Start(log, from), StopFrom(log, to, Start(log, from));
      && (forall i :: 0 <= i < s ==> from != None && log[i].timestamp < from.value)
      && (s < |log| ==> from == None || log[s].timestamp >= from.value)
      && (forall i :: s <= i < n ==> to == None || log[i].timestamp <= to.value)
      && (n < |log| ==> to != None && log[n].timestamp > to.value)
  {
    var s := Start(log, from);
    var n := StopFrom(log, to, s);
    assert s < |log| ==> !IsBefore(from, log[s]);
    assert n < |log| ==> IsAfter(to, log[n]);
    forall i | 0 <= i < s ensures from != None && log[i].timestamp < from.value { assert IsBefore(from, log[i]); }
    forall i | s <= i < n ensures to == None || log[i].timestamp <= to.value { assert !IsAfter(to, log[i]); }
  }

  method VerifyMemory(H: HashFn, entries: Log, from: Bound, to: Bound) returns (result: VerifyResult)
    ensures result == MemoryVerify(H, entries, from, to)
  {
    var anchor := GENESIS;
    var start := 0;
    while start < |entries| && IsBefore(from, entries[start])
      invariant start <= |entries| && anchor == Before(GENESIS, entries, start)
      invariant Start(entries, from) == StartFrom(entries, from, start)
    {
      anchor := entries[start].hash;
      start := start + 1;
    }
    result := WalkMemory(H, anchor, entries, start, to);
    WalkBetweenExact(H, AnchorOrGenesis(anchor), 0, entries, start, StopFrom(entries, to, start));
  }

  /** The walk over the entries from place i to place j, by place. */
  function WalkBetween(H: HashFn, prev: Bytes, position: nat, log: Log, i: nat, j: nat): VerifyResult
    requires i <= j <= |log|
    decreases j - i
  {
    if i == j then Intact(position)
    else
      match Complaint(H, prev, log[i])
      case Some(reason) => Report(log[i], position + 1, reason)
      case None => WalkBetween(H, log[i].hash, position + 1, log, i + 1, j)
  }

  lemma {:induction false} WalkBetweenExact(H: HashFn, prev: Bytes, position: nat, log: Log, i: nat, j: nat)
    requires i <= j <= |log|
    ensures WalkBetween(H, prev, position, log, i, j) == WalkFrom(H, prev, position, log[i..j])
    decreases j - i
  {
    if i == j {
    } else {
      WalkStretchStep(H, prev, position, log, i, j);
      WalkBetweenExact(H, log[i].hash, position + 1, log, i + 1, j);
    }
  }

  lemma BetweenStep(H: HashFn, prev: Bytes, position: nat, log: Log, i: nat, j: nat)
    requires i < j <= |log|
    ensures WalkBetween(H, prev, position, log, i, j)
         == match Complaint(H, prev, log[i])
            case Some(reason) => Report(log[i], position + 1, reason)
            case None => WalkBetween(H, log[i].hash, position + 1, log, i + 1, j)
  {
  }

  method WalkMemory(H: HashFn, anchor: Bytes, entries: Log, start: nat, to: Bound) returns (result: VerifyResult)
    requires start <= |entries|
    ensures result == WalkBetween(H, AnchorOrGenesis(anchor), 0, entries, start, StopFrom(entries, to, start))
  {
    var walker := new ChainWalker(H, anchor);
    var i := start;
    ghost var stop := StopFrom(entries, to, start);
    ghost var want := WalkBetween(H, AnchorOrGenesis(anchor), 0, entries, start, stop);
    while i < |entries| && !IsAfter(to, entries[i])
      invariant start <= i <= stop
      invariant walker.H == H
      invariant want == WalkBetween(H, walker.prev, walker.position, entries, i, stop)
    {
      BetweenStep(H, walker.prev, walker.position, entries, i, stop);
      var broken := walker.Step(entries[i]);
      if broken.Some? { return broken.value; }
      i := i + 1;
    }
    result := Intact(walker.position);
  }

  // ----- in SQL ----------------------------------------------------------------------------

  /** The rows the range clause selects, in append order. */
  function Rows(log: Log, from: Bound, to: Bound): Log {
    if log == [] then []
    else (if InRange(from, to, log[0]) then [log[0]] else []) + Rows(log[1..], from, to)
  }

  /** One more than the position of the last entry before the range among the first n, or zero. */
  function AnchorAmong(log: Log, from: Bound, n: nat): (a: nat)
    requires n <= |log|
    ensures a <= n
    ensures a > 0 ==> IsBefore(from, log[a - 1])
    ensures forall i :: a <= i < n ==> !IsBefore(from, log[i])
  {
    if n == 0 || IsBefore(from, log[n - 1]) then n else AnchorAmong(log, from, n - 1)
  }

  function AnchorPlace(log: Log, from: Bound): (a: nat)
    ensures a <= |log|
  {
    AnchorAmong(log, from, |log|)
  }

  function SqlVerify(H: HashFn, log: Log, from: Bound, to: Bound): VerifyResult {
    Walk(H, Before(GENESIS, log, AnchorPlace(log, from)), Rows(log, from, to))
  }

  /** The SQL store's walk over the rows and the anchor its two queries returned. */
  method VerifyRows(H: HashFn, anchor: Bytes, rows: Log) returns (result: VerifyResult)
    ensures result == Walk(H, anchor, rows)
  {
    var walker := new ChainWalker(H, anchor);
    result := walker.Run(rows);
  }

  predicate HeldAt(log: Log, rows: Log, k: nat)
    requires k < |rows|
  {
    rows[k] in log
  }

  lemma {:induction false} RowsComeFromLog(log: Log, from: Bound, to: Bound, k: nat)
    requires k < |Rows(log, from, to)|
    ensures HeldAt(log, Rows(log, from, to), k) && InRange(from, to, Rows(log, from, to)[k])
  {
    var d := if InRange(from, to, log[0]) then 1 else 0;
    if k >= d {
      RowsComeFromLog(log[1..], from, to, k - d);
      assert Rows(log, from, to)[k] == Rows(log[1..], from, to)[k - d];
    }
  }

  /** The rows are the entries stamped within the range, and all of them. */
  lemma {:induction false} RowsWithin(log: Log, from: Bound, to: Bound)
    ensures forall e :: e in Rows(log, from, to) <==> e in log && Within(from, to, e.timestamp)
  {
    if log == [] {
    } else {
      RowsWithin(log[1..], from, to);
      assert log == [log[0]] + log[1..];
      InRangeIsWithin(from, to, log[0]);
    }
  }

  /** The anchor is the last entry stamped before the range, or genesis. */
  lemma AnchorIsLastBefore(log: Log, from: Bound)
    ensures var a := AnchorPlace(log, from);
      && (a > 0 ==> from != None && log[a - 1].timestamp < from.value)
      && (forall i :: a <= i < |log| ==> from == None || log[i].timestamp >= from.value)
  {
    var a := AnchorPlace(log, from);
    forall i | a <= i < |log| ensures from == None || log[i].timestamp >= from.value { assert !IsBefore(from, log[i]); }
  }

  // ----- the two walks on ordered logs -----------------------------------------------------

  predicate NonDecreasing(log: Log) {
    forall i, j :: 0 <= i < j < |log| ==> log[i].timestamp <= log[j].timestamp
  }

  lemma {:induction false} RowsAllOut(log: Log, from: Bound, to: Bound)
    requires forall i :: 0 <= i < |log| ==> !InRange(from, to, log[i])
    ensures Rows(log, from, to) == []
  {
    if log == [] {
    } else {
      RowsAllOut(log[1..], from, to);
    }
  }

  /** When the entries in range are one stretch of the log, the rows are that stretch. */
  lemma {:induction false} RowsOfStretch(log: Log, from: Bound, to: Bound, a: nat, b: nat)
    requires a <= b <= |log|
    requires forall i :: 0 <= i < |log| ==> (InRange(from, to, log[i]) <==> a <= i < b)
    ensures Rows(log, from, to) == log[a..b]
    decreases |log|
  {
    if b == 0 {
      RowsAllOut(log, from, to);
    } else {
      var tail := log[1..];
      assert forall i :: 0 <= i < |tail| ==> tail[i] == log[i + 1];
      if a == 0 {
        RowsOfStretch(tail, from, to, 0, b - 1);
        assert log[0..b] == [log[0]] + tail[0..b - 1];
      } else {
        RowsOfStretch(tail, from, to, a - 1, b - 1);
        assert log[a..b] == tail[a - 1..b - 1];
      }
    }
  }

  lemma OrderedAnchor(log: Log, from: Bound)
    requires NonDecreasing(log)
    ensures AnchorPlace(log, from) == Start(log, from)
  {
    var a := AnchorPlace(log, from);
    forall k | 0 <= k < a ensures IsBefore(from, log[k]) {
      assert k < a - 1 ==> log[k].timestamp <= log[a - 1].timestamp;
    }
    var s := Start(log, from);
    assert s < |log| ==> !IsBefore(from, log[s]);
    assert a < |log| ==> !IsBefore(from, log[a]);
  }

  lemma OrderedRows(log: Log, from: Bound, to: Bound)
    requires NonDecreasing(log)
    ensures var s := Start(log, from);
      Rows(log, from, to) == log[s..StopFrom(log, to, s)]
  {
    var s := Start(log, from);
    var n := StopFrom(log, to, s);
    forall i | 0 <= i < |log| ensures InRange(from, to, log[i]) <==> s <= i < n {
      if i > s { assert log[s].timestamp <= log[i].timestamp; }
      if i > n { assert log[n].timestamp <= log[i].timestamp; }
    }
    RowsOfStretch(log, from, to, s, n);
  }

  /** On every log, broken or not, with timestamps in append order, the two walks give one answer. */
  lemma RangeWalksAgree(H: HashFn, log: Log, from: Bound, to: Bound)
    requires NonDecreasing(log)
    ensures MemoryVerify(H, log, from, to) == SqlVerify(H, log, from, to)
  {
    OrderedAnchor(log, from);
    OrderedRows(log, from, to);
  }

  // ----- splitting a walk ------------------------------------------------------------------

  lemma ChainedSplit(H: HashFn, anchor: Bytes, log: Log, n: nat)
    requires n <= |log|
    ensures Chained(H, anchor, log)
       <==> Chained(H, anchor, log[..n]) && Chained(H, Before(anchor, log, n), log[n..])
  {
    var front, back, middle := log[..n], log[n..], Before(anchor, log, n);
    forall i | 0 <= i < n ensures EntryOk(H, anchor, front, i) <==> EntryOk(H, anchor, log, i) {}
    forall i | 0 <= i < |back| ensures EntryOk(H, middle, back, i) <==> EntryOk(H, anchor, log, n + i) {}
    if Chained(H, anchor, front) && Chained(H, middle, back) {
      forall i | 0 <= i < |log| ensures EntryOk(H, anchor, log, i) {
        if i < n { assert EntryOk(H, anchor, front, i); } else { assert EntryOk(H, middle, back, i - n); }
      }
    }
  }

  /** In a chain every recorded hash is a full digest, so no anchor taken from it is empty. */
  lemma AnchorNotEmpty(H: HashFn, log: Log, n: nat)
    requires n <= |log| && Chained(H, GENESIS, log[..n])
    ensures AnchorOrGenesis(Before(GENESIS, log, n)) == Before(GENESIS, log, n)
  {
    if n > 0 { assert EntryOk(H, GENESIS, log[..n], n - 1); }
  }

  /**
   The whole log is intact exactly when the part before `from` is intact and the part from `from`
   on is intact under the anchor: range by range, nothing is left unchecked.
   */
  lemma WholeFromParts(H: HashFn, log: Log, from: Bound)
    ensures var n := Start(log, from);
      Walk(H, GENESIS, log).Intact?
      <==> Walk(H, GENESIS, log[..n]).Intact? && MemoryVerify(H, log, from, None).Intact?
  {
    var n := Start(log, from);
    var rest := log[n..];
    assert StopFrom(log, None, n) == |log| && log[n..|log|] == rest;
    ChainedSplit(H, GENESIS, log, n);
    WalkExact(H, GENESIS, log);
    WalkExact(H, GENESIS, log[..n]);
    WalkExact(H, Before(GENESIS, log, n), rest);
    if Chained(H, GENESIS, log[..n]) { AnchorNotEmpty(H, log, n); }
  }

  // ----- intact logs -----------------------------------------------------------------------

  /** Any stretch of an intact log, under the hash before it, walks as intact. */
  lemma StretchIntact(H: HashFn, log: Log, a: nat, b: nat)
    requires Verifies(H, log) && a <= b <= |log|
    ensures Walk(H, Before(GENESIS, log, a), log[a..b]) == Intact(b - a)
  {
    StretchChained(H, log, a, b);
    VerifiesFront(H, log, a);
    AnchorNotEmpty(H, log, a);
    WalkExact(H, Before(GENESIS, log, a), log[a..b]);
  }

  lemma StretchChained(H: HashFn, log: Log, a: nat, b: nat)
    requires Verifies(H, log) && a <= b <= |log|
    ensures Chained(H, Before(GENESIS, log, a), log[a..b])
  {
    forall i | 0 <= i < b - a ensures EntryOk(H, Before(GENESIS, log, a), log[a..b], i) {
      assert EntryOk(H, GENESIS, log, a + i);
    }
  }

  /** An intact log passes the in-memory walk for every range, in whatever order its timestamps are. */
  lemma MemoryNeverFalseAlarm(H: HashFn, log: Log, from: Bound, to: Bound)
    requires Verifies(H, log)
    ensures MemoryVerify(H, log, from, to).Intact?
  {
    var s := Start(log, from);
    StretchIntact(H, log, s, StopFrom(log, to, s));
  }

  function CountInRange(log: Log, from: Bound, to: Bound): nat {
    if log == [] then 0 else (if InRange(from, to, log[0]) then 1 else 0) + CountInRange(log[1..], from, to)
  }

  /** Right after the last entry before the range come all the entries in it, with none elsewhere. */
  predicate Contiguous(log: Log, from: Bound, to: Bound) {
    var a, n := AnchorPlace(log, from), CountInRange(log, from, to);
    a + n <= |log| && forall i :: a <= i < a + n ==> InRange(from, to, log[i])
  }

  lemma {:induction false} CountRows(log: Log, from: Bound, to: Bound)
    ensures CountInRange(log, from, to) == |Rows(log, from, to)|
  {
    if log == [] {
    } else {
      CountRows(log[1..], from, to);
    }
  }

  /** A stretch that holds as many entries in range as the whole log holds all of them. */
  lemma {:induction false} StretchHoldsAll(log: Log, from: Bound, to: Bound, a: nat, b: nat)
    requires a <= b <= |log| && forall i :: a <= i < b ==> InRange(from, to, log[i])
    ensures CountInRange(log, from, to) >= b - a
    ensures CountInRange(log, from, to) == b - a ==>
      forall i :: 0 <= i < |log| ==> (InRange(from, to, log[i]) <==> a <= i < b)
    decreases |log|
  {
    if log == [] {
    } else {
      var tail := log[1..];
      assert forall i :: 0 <= i < |tail| ==> tail[i] == log[i + 1];
      var a', b' := if a == 0 then 0 else a - 1, if b == 0 then 0 else b - 1;
      StretchHoldsAll(tail, from, to, a', b');
      if CountInRange(log, from, to) == b - a {
        forall i | 0 <= i < |log| ensures InRange(from, to, log[i]) <==> a <= i < b {
          if i > 0 { assert log[i] == tail[i - 1]; }
        }
      }
    }
  }

  predicate AgreeAfter(log: Log, a: nat, rows: Log, n: nat)
    requires n <= |rows|
  {
    a + n <= |log| && forall i :: 0 <= i < n ==> rows[i] == log[a + i]
  }

  lemma AgreeingAnchor(log: Log, a: nat, rows: Log, n: nat)
    requires a <= |log| && n <= |rows| && AgreeAfter(log, a, rows, n)
    ensures Before(Before(GENESIS, log, a), rows, n) == Before(GENESIS, log, a + n)
  {
  }

  lemma NextRowFollows(H: HashFn, log: Log, a: nat, rows: Log, n: nat) returns (broken: bool)
    requires Verifies(H, log) && AllStorable(log) && a <= |log| && n < |rows| && AgreeAfter(log, a, rows, n)
    requires rows[n].prevHash == Before(Before(GENESIS, log, a), rows, n) && rows[n] in log
    ensures broken ==> HashBroken(H, log, log)
    ensures !broken ==> AgreeAfter(log, a, rows, n + 1)
  {
    AgreeingAnchor(log, a, rows, n);
    PlaceByLink(H, log, a + n, rows[n]);
    broken := HashBroken(H, log, log);
    if !broken { AgreeFurtherAfter(log, a, rows, n); }
  }

  lemma AgreeFurtherAfter(log: Log, a: nat, rows: Log, n: nat)
    requires n < |rows| && AgreeAfter(log, a, rows, n) && a + n < |log| && log[a + n] == rows[n]
    ensures AgreeAfter(log, a, rows, n + 1)
  {
  }

  /** Selected rows that pass the walk sit in the log right after the anchor. */
  lemma {:induction false} RowsFollowAnchor(H: HashFn, log: Log, a: nat, rows: Log, n: nat) returns (broken: bool)
    requires Verifies(H, log) && AllStorable(log) && a <= |log| && n <= |rows|
    requires Chained(H, Before(GENESIS, log, a), rows)
    requires forall k :: 0 <= k < |rows| ==> HeldAt(log, rows, k)
    ensures broken ==> HashBroken(H, log, log)
    ensures !broken ==> AgreeAfter(log, a, rows, n)
  {
    if n == 0 {
      broken := false;
    } else {
      broken := RowsFollowAnchor(H, log, a, rows, n - 1);
      if !broken {
        assert HeldAt(log, rows, n - 1);
        LinkOf(H, Before(GENESIS, log, a), rows, n - 1);
        broken := NextRowFollows(H, log, a, rows, n - 1);
      }
    }
  }

  lemma ContiguousAccepted(H: HashFn, log: Log, from: Bound, to: Bound)
    requires Verifies(H, log) && Contiguous(log, from, to)
    ensures SqlVerify(H, log, from, to).Intact?
  {
    var b := ContiguousRows(log, from, to);
    StretchIntact(H, log, AnchorPlace(log, from), b);
  }

  lemma ContiguousRows(log: Log, from: Bound, to: Bound) returns (b: nat)
    requires Contiguous(log, from, to)
    ensures AnchorPlace(log, from) <= b <= |log| && Rows(log, from, to) == log[AnchorPlace(log, from)..b]
    ensures forall i :: AnchorPlace(log, from) <= i < b ==> InRange(from, to, log[i])
  {
    var a, n := AnchorPlace(log, from), CountInRange(log, from, to);
    b := a + n;
    StretchHoldsAll(log, from, to, a, b);
    RowsOfStretch(log, from, to, a, b);
  }

  lemma RowsHeld(log: Log, from: Bound, to: Bound)
    ensures forall k :: 0 <= k < |Rows(log, from, to)| ==> HeldAt(log, Rows(log, from, to), k)
  {
    forall k | 0 <= k < |Rows(log, from, to)| ensures HeldAt(log, Rows(log, from, to), k) {
      RowsComeFromLog(log, from, to, k);
    }
  }

  lemma RowsAfterAnchor(log: Log, from: Bound, to: Bound)
    requires AgreeAfter(log, AnchorPlace(log, from), Rows(log, from, to), |Rows(log, from, to)|)
    ensures Contiguous(log, from, to)
  {
    var a, rows := AnchorPlace(log, from), Rows(log, from, to);
    CountRows(log, from, to);
    forall i | a <= i < a + |rows| ensures InRange(from, to, log[i]) {
      RowsComeFromLog(log, from, to, i - a);
      assert rows[i - a] == log[i];
    }
  }

  lemma SqlAcceptsChained(H: HashFn, log: Log, from: Bound, to: Bound)
    requires Verifies(H, log) && SqlVerify(H, log, from, to).Intact?
    ensures Chained(H, Before(GENESIS, log, AnchorPlace(log, from)), Rows(log, from, to))
  {
    var a := AnchorPlace(log, from);
    VerifiesFront(H, log, a);
    AnchorNotEmpty(H, log, a);
    WalkExact(H, Before(GENESIS, log, a), Rows(log, from, to));
  }

  lemma AcceptedContiguous(H: HashFn, log: Log, from: Bound, to: Bound)
    requires Verifies(H, log) && AllStorable(log) && SqlVerify(H, log, from, to).Intact?
    ensures Contiguous(log, from, to) || HashBroken(H, log, log)
  {
    var a, rows := AnchorPlace(log, from), Rows(log, from, to);
    SqlAcceptsChained(H, log, from, to);
    RowsHeld(log, from, to);
    var broken := RowsFollowAnchor(H, log, a, rows, |rows|);
    if !broken { RowsAfterAnchor(log, from, to); }
  }

  /**
   The SQL walk accepts an intact log exactly when the entries in range are the stretch right after
   its anchor. With timestamps out of append order it can report tampering where there was none.
   */
  lemma SqlVerifyExact(H: HashFn, log: Log, from: Bound, to: Bound)
    requires Verifies(H, log) && AllStorable(log)
    ensures (SqlVerify(H, log, from, to).Intact? <==> Contiguous(log, from, to)) || HashBroken(H, log, log)
  {
    if Contiguous(log, from, to) {
      ContiguousAccepted(H, log, from, to);
    } else if SqlVerify(H, log, from, to).Intact? {
      AcceptedContiguous(H, log, from, to);
    }
  }

  /** A log with one more entry, stamped t and properly linked. */
  function Stamped(H: HashFn, log: Log, id: Bytes, t: int): (longer: Log)
    requires Verifies(H, log)
    ensures Verifies(H, longer)
    ensures |longer| == |log| + 1 && longer[..|log|] == log
    ensures longer[|log|].timestamp == t && longer[|log|].kind == []
  {
    var e := Sealed(H, AuditEntry(id, [], t, [], map[], [], []), HeadOf(log));
    LinkedVerifies(H, log, e);
    log + [e]
  }

  lemma LinkedVerifies(H: HashFn, log: Log, e: AuditEntry)
    requires Verifies(H, log) && e.hash == ComputeHash(H, e)
    requires e.prevHash == if HeadOf(log) == [] then GENESIS else HeadOf(log)
    ensures Verifies(H, log + [e])
  {
    var longer := log + [e];
    forall i | 0 <= i < |longer| ensures EntryOk(H, GENESIS, longer, i) {
      if i < |log| { assert EntryOk(H, GENESIS, log, i); }
      if i == |log| > 0 { assert EntryOk(H, GENESIS, log, i - 1); }
    }
  }

  /** Two entries, the second stamped before the first. */
  function OutOfOrder(H: HashFn): (log: Log)
    ensures Verifies(H, log) && |log| == 2 && log[0].timestamp == 2 && log[1].timestamp == 1
  {
    var first := Stamped(H, [], [1], 2);
    var both := Stamped(H, first, [2], 1);
    assert both[0] == both[..1][0];
    both
  }

  /** Selecting from the first of two entries on when the second is stamped earlier. */
  lemma OutOfOrderQuery(log: Log)
    requires |log| == 2 && log[0].timestamp == 2 && log[1].timestamp == 1
    ensures Rows(log, Some(2), None) == log[0..1]
    ensures AnchorPlace(log, Some(2)) == 2
  {
    RowsOfStretch(log, Some(2), None, 0, 1);
  }

  /** Nobody touched this log, and yet the SQL walk from the later stamp on reports it as broken. */
  lemma SqlFalseAlarm(H: HashFn)
    ensures var log := OutOfOrder(H);
      && Verifies(H, log)
      && MemoryVerify(H, log, Some(2), None).Intact?
      && (SqlVerify(H, log, Some(2), None).Broken? || HashesToZero(H, log[1]))
  {
    var log := OutOfOrder(H);
    MemoryNeverFalseAlarm(H, log, Some(2), None);
    OutOfOrderQuery(log);
    LinkOf(H, GENESIS, log, 0);
    assert EntryOk(H, GENESIS, log, 1);
    WalkStretchStep(H, log[1].hash, 0, log, 0, 1);
    if log[1].hash == GENESIS { GenesisMeansZero(H, log[1]); }
  }

  // ----- what the in-memory walk does not look at ------------------------------------------

  function Stop(log: Log, from: Bound, to: Bound): (n: nat)
    ensures Start(log, from) <= n <= |log|
  {
    StopFrom(log, to, Start(log, from))
  }

  /** No entry in range comes after one past it. */
  predicate NoStragglers(log: Log, from: Bound, to: Bound) {
    forall i, j :: 0 <= i < j < |log| && IsAfter(to, log[i]) ==> !InRange(from, to, log[j])
  }

  predicate NonePast(log: Log, to: Bound, k: nat)
    requires k <= |log|
  {
    forall i :: 0 <= i < k ==> !IsAfter(to, log[i])
  }

  /** An entry in range is walked exactly if no entry before it lies past the range. */
  lemma WalkedExactly(log: Log, from: Bound, to: Bound, k: nat)
    requires k < |log| && InRange(from, to, log[k])
    ensures Start(log, from) <= k
    ensures k < Stop(log, from, to) <==> NonePast(log, to, k)
  {
    var s, n := Start(log, from), Stop(log, from, to);
    assert s <= k;
    if n <= k { assert IsAfter(to, log[n]); }
  }

  lemma NoneComesLater(log: Log, from: Bound, to: Bound, i: nat, j: nat)
    requires i < j < |log| && IsAfter(to, log[i]) && (InRange(from, to, log[j]) ==> NonePast(log, to, j))
    ensures !InRange(from, to, log[j])
  {
  }

  /** The in-memory walk looks at every entry in range exactly if none of them comes after one past it. */
  lemma MemoryCoversExactly(log: Log, from: Bound, to: Bound)
    ensures (forall k :: 0 <= k < |log| && InRange(from, to, log[k]) ==> Start(log, from) <= k < Stop(log, from, to))
       <==> NoStragglers(log, from, to)
  {
    forall k | 0 <= k < |log| && InRange(from, to, log[k])
      ensures Start(log, from) <= k && (k < Stop(log, from, to) <==> NonePast(log, to, k))
    {
      WalkedExactly(log, from, to, k);
    }
    if forall k :: 0 <= k < |log| && InRange(from, to, log[k]) ==> Start(log, from) <= k < Stop(log, from, to) {
      forall i, j | 0 <= i < j < |log| && IsAfter(to, log[i]) ensures !InRange(from, to, log[j]) {
        NoneComesLater(log, from, to, i, j);
      }
    }
  }

  /** A stretch that holds an edited entry does not walk as intact. */
  lemma EditedStretchBroken(H: HashFn, anchor: Bytes, log: Log, i: nat)
    requires i < |log| && log[i].hash != ComputeHash(H, log[i])
    ensures Walk(H, anchor, log).Broken?
  {
    WalkExact(H, anchor, log);
    assert !EntryOk(H, AnchorOrGenesis(anchor), log, i);
  }

  /** An entry edited with its link and its hash left as they were. */
  predicate EditedInPlace(log: Log, k: nat, edited: AuditEntry)
    requires k < |log|
  {
    edited != log[k] && edited.prevHash == log[k].prevHash && edited.hash == log[k].hash
  }

  /** Nothing up to this place lies past the range, and not everything up to it lies before the range. */
  predicate InView(log: Log, from: Bound, to: Bound, k: nat)
    requires k < |log|
  {
    && (forall i :: 0 <= i <= k ==> !IsAfter(to, log[i]))
    && (exists i :: 0 <= i <= k && !IsBefore(from, log[i]))
  }

  /** The walk looks at a place exactly if it is in view. */
  lemma InViewExactly(log: Log, from: Bound, to: Bound, k: nat)
    requires k < |log|
    ensures InView(log, from, to, k) <==> Start(log, from) <= k < Stop(log, from, to)
  {
    var s, n := Start(log, from), Stop(log, from, to);
    if s <= k {
      assert !IsBefore(from, log[s]);
    }
    if n <= k {
      assert IsAfter(to, log[n]);
    }
    if s <= k < n {
      forall i | 0 <= i <= k ensures !IsAfter(to, log[i]) {
        assert i < s ==> IsBefore(from, log[i]);
        assert !IsAfter(to, log[s]);
      }
    }
  }

  /** An edit leaves every hash that a later entry or a range is anchored on. */
  lemma EditKeepsHashes(log: Log, k: nat, edited: AuditEntry, n: nat)
    requires k < |log| && EditedInPlace(log, k, edited) && n <= |log|
    ensures Before(GENESIS, log[k := edited], n) == Before(GENESIS, log, n)
  {
  }

  lemma EditBreaksHash(H: HashFn, log: Log, k: nat, edited: AuditEntry)
    requires Verifies(H, log) && AllStorable(log) && k < |log| && Storable(edited) && EditedInPlace(log, k, edited)
    ensures edited.hash != ComputeHash(H, edited) || Collide(H, log[k], edited)
  {
    assert EntryOk(H, GENESIS, log, k) && StorableAt(log, k);
    if edited.hash == ComputeHash(H, edited) { SameHashSameEntry(H, log[k], edited); }
  }

  /**
   In an intact log, any edit of an entry that keeps its link and its hash is noticed by the in-memory
   walk exactly if, as the log then stands, the entry is in view.
   */
  lemma MemoryNoticesExactly(H: HashFn, log: Log, from: Bound, to: Bound, k: nat, edited: AuditEntry)
    requires Verifies(H, log) && AllStorable(log) && k < |log| && Storable(edited) && EditedInPlace(log, k, edited)
    ensures || (MemoryVerify(H, log[k := edited], from, to).Broken? <==> InView(log[k := edited], from, to, k))
            || Collide(H, log[k], edited)
  {
    var other := log[k := edited];
    var s, n := Start(other, from), Stop(other, from, to);
    InViewExactly(other, from, to, k);
    EditBreaksHash(H, log, k, edited);
    if s <= k < n {
      if edited.hash != ComputeHash(H, edited) {
        assert other[s..n][k - s] == edited;
        EditedStretchBroken(H, Before(GENESIS, other, s), other[s..n], k - s);
      }
    } else {
      EditKeepsHashes(log, k, edited, s);
      StretchApart(log, k, edited, s, n);
      StretchIntact(H, log, s, n);
    }
  }

  lemma StretchApart(log: Log, k: nat, edited: AuditEntry, a: nat, b: nat)
    requires k < |log| && a <= b <= |log| && !(a <= k < b)
    ensures log[k := edited][a..b] == log[a..b]
  {
  }

  /** An edit that keeps the timestamp, of an entry in range: noticed exactly if no entry before it lies past the range. */
  lemma MemoryNoticesUnmoved(H: HashFn, log: Log, from: Bound, to: Bound, k: nat, edited: AuditEntry)
    requires Verifies(H, log) && AllStorable(log) && k < |log| && InRange(from, to, log[k]) && Storable(edited)
    requires EditedInPlace(log, k, edited) && edited.timestamp == log[k].timestamp
    ensures (MemoryVerify(H, log[k := edited], from, to).Broken? <==> NonePast(log, to, k)) || Collide(H, log[k], edited)
  {
    MemoryNoticesExactly(H, log, from, to, k, edited);
    UnmovedInView(log, from, to, k, edited);
  }

  lemma UnmovedInView(log: Log, from: Bound, to: Bound, k: nat, edited: AuditEntry)
    requires k < |log| && InRange(from, to, log[k]) && edited.timestamp == log[k].timestamp
    ensures InView(log[k := edited], from, to, k) <==> NonePast(log, to, k)
  {
    var other := log[k := edited];
    assert other[k] == edited && !IsBefore(from, other[k]) && !IsAfter(to, other[k]);
    assert forall i :: 0 <= i < k ==> other[i] == log[i];
  }

  // ----- what the SQL walk notices ---------------------------------------------------------

  lemma {:induction false} RowHolds(log: Log, from: Bound, to: Bound, k: nat) returns (p: nat)
    requires k < |log| && InRange(from, to, log[k])
    ensures p < |Rows(log, from, to)| && Rows(log, from, to)[p] == log[k]
  {
    if k == 0 {
      p := 0;
    } else {
      var q := RowHolds(log[1..], from, to, k - 1);
      p := q + if InRange(from, to, log[0]) then 1 else 0;
    }
  }

  lemma {:induction false} RowPlace(log: Log, from: Bound, to: Bound, p: nat) returns (j: nat)
    requires p < |Rows(log, from, to)|
    ensures j < |log| && log[j] == Rows(log, from, to)[p] && InRange(from, to, log[j])
  {
    var d := if InRange(from, to, log[0]) then 1 else 0;
    if p < d {
      j := 0;
    } else {
      var i := RowPlace(log[1..], from, to, p - d);
      j := i + 1;
    }
  }

  /** An edited entry whose new timestamp is in range is always noticed. */
  lemma SqlNoticesInRange(H: HashFn, log: Log, from: Bound, to: Bound, k: nat, edited: AuditEntry)
    requires Verifies(H, log) && AllStorable(log) && k < |log| && Storable(edited) && EditedInPlace(log, k, edited)
    requires InRange(from, to, edited)
    ensures SqlVerify(H, log[k := edited], from, to).Broken? || Collide(H, log[k], edited)
  {
    var other := log[k := edited];
    EditBreaksHash(H, log, k, edited);
    if edited.hash != ComputeHash(H, edited) {
      var p := RowHolds(other, from, to, k);
      EditedStretchBroken(H, Before(GENESIS, other, AnchorPlace(other, from)), Rows(other, from, to), p);
    }
  }

  lemma SqlAcceptsMovedOut(H: HashFn, log: Log, from: Bound, to: Bound, k: nat, edited: AuditEntry)
    requires Verifies(H, log) && k < |log| && EditedInPlace(log, k, edited)
    requires !InRange(from, to, edited) && Contiguous(log[k := edited], from, to)
    ensures SqlVerify(H, log[k := edited], from, to).Intact?
  {
    var other := log[k := edited];
    var a := AnchorPlace(other, from);
    var b := ContiguousRows(other, from, to);
    assert !InRange(from, to, other[k]);
    EditKeepsHashes(log, k, edited, a);
    StretchApart(log, k, edited, a, b);
    StretchIntact(H, log, a, b);
  }

  /** Rows of the edited log that pass the walk are rows of the log as it was, right after the anchor. */
  lemma MovedOutFollows(H: HashFn, log: Log, from: Bound, to: Bound, k: nat, edited: AuditEntry)
    requires Verifies(H, log) && AllStorable(log) && k < |log| && EditedInPlace(log, k, edited)
    requires !InRange(from, to, edited) && SqlVerify(H, log[k := edited], from, to).Intact?
    ensures var other := log[k := edited];
      || HashBroken(H, log, log)
      || AgreeAfter(log, AnchorPlace(other, from), Rows(other, from, to), |Rows(other, from, to)|)
  {
    var other := log[k := edited];
    var a, rows := AnchorPlace(other, from), Rows(other, from, to);
    EditKeepsHashes(log, k, edited, a);
    VerifiesFront(H, log, a);
    AnchorNotEmpty(H, log, a);
    WalkExact(H, Before(GENESIS, log, a), rows);
    forall p | 0 <= p < |rows| ensures HeldAt(log, rows, p) {
      var j := RowPlace(other, from, to, p);
      assert other[j] == log[j];
    }
    var broken := RowsFollowAnchor(H, log, a, rows, |rows|);
  }

  /** The same entry at two places of an intact log. */
  lemma TwicePlaced(H: HashFn, log: Log, i: nat, j: nat)
    requires Verifies(H, log) && AllStorable(log) && i < |log| && j < |log| && i != j && log[i] == log[j]
    ensures HashBroken(H, log, log)
  {
    LinkOf(H, GENESIS, log, j);
    PlaceOfLink(H, log, j, i);
  }

  lemma MovedOutContiguous(H: HashFn, log: Log, from: Bound, to: Bound, k: nat, edited: AuditEntry)
    requires Verifies(H, log) && AllStorable(log) && k < |log| && !InRange(from, to, edited)
    requires var other := log[k := edited];
      AgreeAfter(log, AnchorPlace(other, from), Rows(other, from, to), |Rows(other, from, to)|)
    ensures Contiguous(log[k := edited], from, to) || HashBroken(H, log, log)
  {
    var other := log[k := edited];
    var a, rows := AnchorPlace(other, from), Rows(other, from, to);
    CountRows(other, from, to);
    if a <= k < a + |rows| {
      var j := RowPlace(other, from, to, k - a);
      TwicePlaced(H, log, k, j);
    } else {
      forall i | a <= i < a + |rows| ensures InRange(from, to, other[i]) {
        var j := RowPlace(other, from, to, i - a);
        assert rows[i - a] == log[i] && other[i] == log[i];
      }
    }
  }

  /**
   In an intact log, any edit of an entry that keeps its link and its hash is noticed by the SQL walk
   exactly if its new timestamp is in range, or the rows then selected are not the stretch right after
   the anchor.
   */
  lemma SqlNoticesExactly(H: HashFn, log: Log, from: Bound, to: Bound, k: nat, edited: AuditEntry)
    requires Verifies(H, log) && AllStorable(log) && k < |log| && Storable(edited) && EditedInPlace(log, k, edited)
    ensures || (SqlVerify(H, log[k := edited], from, to).Broken?
                <==> InRange(from, to, edited) || !Contiguous(log[k := edited], from, to))
            || Collide(H, log[k], edited) || HashBroken(H, log, log)
  {
    if InRange(from, to, edited) {
      SqlNoticesInRange(H, log, from, to, k, edited);
    } else if Contiguous(log[k := edited], from, to) {
      SqlAcceptsMovedOut(H, log, from, to, k, edited);
    } else if SqlVerify(H, log[k := edited], from, to).Intact? {
      MovedOutFollows(H, log, from, to, k, edited);
      if !HashBroken(H, log, log) { MovedOutContiguous(H, log, from, to, k, edited); }
    }
  }

  /** One entry, stamped 3. */
  function Single(H: HashFn): (log: Log)
    ensures Verifies(H, log) && |log| == 1 && log[0].timestamp == 3 && log[0].kind == []
  {
    Stamped(H, [], [1], 3)
  }

  /** Given another kind and the stamp 5, it has left the range up to 4, and neither walk notices. */
  lemma RestampUnnoticed(H: HashFn)
    ensures var log := Single(H);
      var other := log[0 := log[0].(kind := [7], timestamp := 5)];
      && Verifies(H, log) && InRange(None, Some(4), log[0]) && EditedInPlace(log, 0, other[0])
      && MemoryVerify(H, other, None, Some(4)).Intact? && SqlVerify(H, other, None, Some(4)).Intact?
  {
    var log := Single(H);
    var edited := log[0].(kind := [7], timestamp := 5);
    assert edited.kind != log[0].kind;
    RestampedWalks(H, log[0 := edited]);
  }

  lemma RestampedWalks(H: HashFn, log: Log)
    requires |log| == 1 && log[0].timestamp == 5
    ensures MemoryVerify(H, log, None, Some(4)).Intact? && SqlVerify(H, log, None, Some(4)).Intact?
  {
    assert IsAfter(Some(4), log[0]);
    assert Stop(log, None, Some(4)) == 0;
    RowsAllOut(log, None, Some(4));
    assert log[0..0] == [];
  }

  /** Past the place where the walk stops, anything at all may stand. */
  lemma StragglerUnseen(H: HashFn, log: Log, from: Bound, to: Bound, k: nat, e: AuditEntry)
    requires Stop(log, from, to) < k < |log|
    ensures MemoryVerify(H, log[k := e], from, to) == MemoryVerify(H, log, from, to)
  {
    var other, s, n := log[k := e], Start(log, from), Stop(log, from, to);
    SameUpToStop(log, other, from, to);
    assert other[s..n] == log[s..n];
  }

  lemma SameUpToStop(log: Log, other: Log, from: Bound, to: Bound)
    requires |log| == |other| && Stop(log, from, to) < |log|
    requires forall i :: 0 <= i <= Stop(log, from, to) ==> log[i] == other[i]
    ensures Start(other, from) == Start(log, from) && Stop(other, from, to) == Stop(log, from, to)
  {
    var s, t := Start(log, from), Start(other, from);
    assert s < |log| && !IsBefore(from, log[s]) && other[s] == log[s];
    assert t <= s;
    assert t < |log| ==> !IsBefore(from, other[t]) && other[t] == log[t];
    var n, m := Stop(log, from, to), Stop(other, from, to);
    assert IsAfter(to, log[n]) && other[n] == log[n];
    assert m <= n;
    assert IsAfter(to, other[m]) && other[m] == log[m];
  }

  /** Three entries, the last stamped before the second. */
  function Late(H: HashFn): (log: Log)
    ensures Verifies(H, log) && |log| == 3
    ensures log[0].timestamp == 2 && log[1].timestamp == 5 && log[2].timestamp == 3
  {
    var one := Stamped(H, [], [1], 2);
    var two := Stamped(H, one, [2], 5);
    var all := Stamped(H, two, [3], 3);
    assert all[0] == all[..2][0] == two[..1][0] && all[1] == all[..2][1];
    all
  }

  lemma LateStop(log: Log)
    requires |log| == 3 && log[0].timestamp == 2 && log[1].timestamp == 5
    ensures Stop(log, None, Some(4)) == 1
  {
    var n := Stop(log, None, Some(4));
    assert !IsAfter(Some(4), log[0]) && IsAfter(Some(4), log[1]);
    assert n < 3 ==> IsAfter(Some(4), log[n]);
  }

  /** Its last entry is in range, and yet the walk up to 4 accepts whatever is put in its place. */
  lemma MemoryOverlooks(H: HashFn, forged: AuditEntry)
    requires forged.timestamp == 3
    ensures var log := Late(H);
      && Verifies(H, log) && InRange(None, Some(4), forged)
      && MemoryVerify(H, log[2 := forged], None, Some(4)).Intact?
  {
    var log := Late(H);
    LateStop(log);
    StragglerUnseen(H, log, None, Some(4), 2, forged);
    MemoryNeverFalseAlarm(H, log, None, Some(4));
  }
}
