/**
 The hash chain and its verifier (internal/audit/verify.go), and what an accepted log proves.

 Nothing is assumed about the hash function. Each tamper-evidence theorem concludes either what an
 operator wants to know or that the very entries in hand contain two different digest inputs with
 the same digest, or one whose digest is all zeros.
 */
module Chain {
  import opened Wrappers
  import opened ByteStrings
  import opened AuditEntries

  type Log = seq<AuditEntry>

  // ----- the verifier ----------------------------------------------------------------------

  datatype Reason = LinkMismatch | ContentModified

  datatype VerifyResult =
    | Intact(checked: nat)
    | Broken(checked: nat, position: nat, brokenAt: Bytes, timestamp: int, reason: Reason)

  /** One step of the walk: why an entry is refused after a given predecessor, if it is. */
  function Complaint(H: HashFn, prev: Bytes, e: AuditEntry): Option<Reason> {
    if e.prevHash != prev then Some(LinkMismatch)
    else if ComputeHash(H, e) != e.hash then Some(ContentModified)
    else None
  }

  function Report(e: AuditEntry, position: nat, reason: Reason): VerifyResult {
    Broken(position, position, e.id, e.timestamp, reason)
  }

  /** The report is about this entry, at this 1-based place. */
  predicate IsAbout(r: VerifyResult, e: AuditEntry, place: nat) {
    && r.Broken?
    && r.brokenAt == e.id && r.timestamp == e.timestamp
    && r.position == place && r.checked == place
  }

  /** The walk from a predecessor hash, after `position` entries were already checked. */
  function WalkFrom(H: HashFn, prev: Bytes, position: nat, log: Log): VerifyResult
    decreases |log|
  {
    if log == [] then Intact(position)
    else
      match Complaint(H, prev, log[0])
      case Some(reason) => Report(log[0], position + 1, reason)
      case None => WalkFrom(H, log[0].hash, position + 1, log[1..])
  }

  function AnchorOrGenesis(anchor: Bytes): Bytes {
    if anchor == [] then GENESIS else anchor
  }

  function Walk(H: HashFn, anchor: Bytes, log: Log): VerifyResult {
    WalkFrom(H, AnchorOrGenesis(anchor), 0, log)
  }

  class ChainWalker {
    const H: HashFn
    var prev: Bytes
    var position: nat

    constructor (H: HashFn, anchor: Bytes)
      ensures this.H == H && prev == AnchorOrGenesis(anchor) && position == 0
    {
      this.H := H;
      prev := if anchor == [] then GENESIS else anchor;
      position := 0;
    }

    /** Checks one entry: the link first, then the content. */
    method Step(e: AuditEntry) returns (broken: Option<VerifyResult>)
      modifies this
      ensures position == old(position) + 1
      ensures match Complaint(H, old(prev), e)
              case Some(reason) => broken == Some(Report(e, position, reason)) && prev == old(prev)
              case None => broken == None && prev == e.hash
      ensures broken.None? <==> e.prevHash == old(prev) && e.hash == ComputeHash(H, e)
      ensures broken.Some? ==> IsAbout(broken.value, e, position)
      ensures broken.Some? ==> broken.value.reason == if e.prevHash != old(prev) then LinkMismatch else ContentModified
    {
      position := position + 1;
      if e.prevHash != prev {
        return Some(Report(e, position, LinkMismatch));
      }
      var recomputed := HashEntry(H, e);
      if recomputed != e.hash {
        return Some(Report(e, position, ContentModified));
      }
      prev := e.hash;
      broken := None;
    }

    /** Streams a run of entries through the walker, stopping at the first break. */
    method Run(rows: Log) returns (result: VerifyResult)
      modifies this
      ensures result == WalkFrom(H, old(prev), old(position), rows)
    {
      var i := 0;
      while i < |rows|
        invariant i <= |rows|
        invariant WalkFrom(H, prev, position, rows[i..]) == WalkFrom(H, old(prev), old(position), rows)
      {
        assert rows[i..][0] == rows[i] && rows[i..][1..] == rows[i + 1..];
        var broken := Step(rows[i]);
        if broken.Some? { return broken.value; }
        i := i + 1;
      }
      result := Intact(position);
    }
  }

  // ----- what the walk decides -------------------------------------------------------------

  /** The hash an entry at position i is expected to link to. */
  function Before(anchor: Bytes, log: Log, i: nat): Bytes
    requires i <= |log|
  {
    if i == 0 then anchor else log[i - 1].hash
  }

  function HeadOf(log: Log): Bytes {
    Before(GENESIS, log, |log|)
  }

  predicate EntryOk(H: HashFn, anchor: Bytes, log: Log, i: nat)
    requires i < |log|
  {
    log[i].prevHash == Before(anchor, log, i) && log[i].hash == ComputeHash(H, log[i])
  }

  /** Every entry links to its predecessor and carries its own hash. */
  predicate Chained(H: HashFn, anchor: Bytes, log: Log) {
    forall i :: 0 <= i < |log| ==> EntryOk(H, anchor, log, i)
  }

  predicate Verifies(H: HashFn, log: Log) {
    Chained(H, GENESIS, log)
  }

  lemma ChainedTail(H: HashFn, anchor: Bytes, log: Log)
    requires log != []
    ensures Chained(H, anchor, log) <==> EntryOk(H, anchor, log, 0) && Chained(H, log[0].hash, log[1..])
  {
    var tail := log[1..];
    forall i | 0 <= i < |tail| ensures EntryOk(H, log[0].hash, tail, i) <==> EntryOk(H, anchor, log, i + 1) {}
    if EntryOk(H, anchor, log, 0) && Chained(H, log[0].hash, tail) {
      forall i | 0 <= i < |log| ensures EntryOk(H, anchor, log, i) {
        if i > 0 { assert EntryOk(H, log[0].hash, tail, i - 1); }
      }
    }
  }

  lemma ComplaintExact(H: HashFn, anchor: Bytes, log: Log)
    requires log != []
    ensures Complaint(H, anchor, log[0]).None? <==> EntryOk(H, anchor, log, 0)
  {
  }

  lemma {:induction false} WalkAccepts(H: HashFn, prev: Bytes, position: nat, log: Log)
    ensures Chained(H, prev, log) ==> WalkFrom(H, prev, position, log) == Intact(position + |log|)
    ensures !Chained(H, prev, log) ==> WalkFrom(H, prev, position, log).Broken?
    decreases |log|
  {
    if log == [] {
    } else {
      ComplaintExact(H, prev, log);
      ChainedTail(H, prev, log);
      if EntryOk(H, prev, log, 0) { WalkAccepts(H, log[0].hash, position + 1, log[1..]); }
    }
  }

  /** The walk says a log is intact exactly when it is one unbroken chain from its anchor. */
  lemma WalkExact(H: HashFn, anchor: Bytes, log: Log)
    ensures Walk(H, anchor, log).Intact? <==> Chained(H, AnchorOrGenesis(anchor), log)
    ensures Walk(H, anchor, log).Intact? ==> Walk(H, anchor, log).checked == |log|
  {
    WalkAccepts(H, AnchorOrGenesis(anchor), 0, log);
  }

  /** The entry reported is the first bad one, by id and 1-based position. */
  lemma {:induction false} WalkStopsAt(H: HashFn, prev: Bytes, position: nat, log: Log, i: nat)
    requires i < |log| && Chained(H, prev, log[..i])
    requires Complaint(H, Before(prev, log, i), log[i]).Some?
    ensures WalkFrom(H, prev, position, log)
         == Report(log[i], position + i + 1, Complaint(H, Before(prev, log, i), log[i]).value)
    ensures IsAbout(WalkFrom(H, prev, position, log), log[i], position + i + 1)
    ensures WalkFrom(H, prev, position, log).reason
         == if log[i].prevHash != Before(prev, log, i) then LinkMismatch else ContentModified
    decreases i
  {
    if i == 0 {
    } else {
      ChainedTail(H, prev, log[..i]);
      assert log[..i][1..] == log[1..][..i - 1];
      WalkStopsAt(H, log[0].hash, position + 1, log[1..], i - 1);
    }
  }

  // ----- digests that would have to coincide -----------------------------------------------

  predicate Collide(H: HashFn, a: AuditEntry, b: AuditEntry) {
    Preimage(a) != Preimage(b) && H(Preimage(a)) == H(Preimage(b))
  }

  predicate HashesToZero(H: HashFn, a: AuditEntry) {
    H(Preimage(a)) == ZERO_SUM
  }

  /** An entry of one log collides with one of the other, or one of them hashes to zero. */
  ghost predicate HashBroken(H: HashFn, xs: Log, ys: Log) {
    || (exists i, j :: 0 <= i < |xs| && 0 <= j < |ys| && Collide(H, xs[i], ys[j]))
    || (exists i :: 0 <= i < |xs| && HashesToZero(H, xs[i]))
    || (exists j :: 0 <= j < |ys| && HashesToZero(H, ys[j]))
  }

  predicate StorableAt(log: Log, i: nat)
    requires i < |log|
  {
    Storable(log[i])
  }

  /** Every entry is as a store returns it. */
  predicate AllStorable(log: Log) {
    forall i :: 0 <= i < |log| ==> StorableAt(log, i)
  }

  lemma SameHashSameEntry(H: HashFn, a: AuditEntry, b: AuditEntry)
    requires Storable(a) && Storable(b)
    requires a.hash == ComputeHash(H, a) && b.hash == ComputeHash(H, b) && a.hash == b.hash
    ensures a == b || Collide(H, a, b)
  {
    HexInjective(H(Preimage(a)), H(Preimage(b)));
    PreimageInjective(a, b);
  }

  // ----- tamper evidence -------------------------------------------------------------------

  lemma VerifiesFront(H: HashFn, log: Log, n: nat)
    requires n <= |log| && Verifies(H, log)
    ensures Verifies(H, log[..n])
    ensures HeadOf(log[..n]) == Before(GENESIS, log, n)
  {
    forall i | 0 <= i < n ensures EntryOk(H, GENESIS, log[..n], i) {
      assert EntryOk(H, GENESIS, log, i);
    }
  }

  /** Only the start of a log stands at the genesis hash. */
  lemma GenesisOnlyAtStart(H: HashFn, log: Log, n: nat)
    requires Verifies(H, log) && 0 < n <= |log| && log[n - 1].hash == GENESIS
    ensures HashesToZero(H, log[n - 1])
  {
    assert EntryOk(H, GENESIS, log, n - 1);
    GenesisMeansZero(H, log[n - 1]);
  }

  /** Equal hashes mean equal entries, and so equal hashes one step earlier. */
  lemma SameHashStepBack(H: HashFn, xs: Log, ys: Log, n: nat, m: nat) returns (broken: bool)
    requires Verifies(H, xs) && Verifies(H, ys) && AllStorable(xs) && AllStorable(ys)
    requires 0 < n <= |xs| && 0 < m <= |ys| && xs[n - 1].hash == ys[m - 1].hash
    ensures broken ==> HashBroken(H, xs, ys)
    ensures !broken ==> xs[n - 1] == ys[m - 1] && Before(GENESIS, xs, n - 1) == Before(GENESIS, ys, m - 1)
  {
    assert EntryOk(H, GENESIS, xs, n - 1) && EntryOk(H, GENESIS, ys, m - 1);
    assert StorableAt(xs, n - 1) && StorableAt(ys, m - 1);
    SameHashSameEntry(H, xs[n - 1], ys[m - 1]);
    broken := Collide(H, xs[n - 1], ys[m - 1]);
  }

  /** An entry of the log is linked to the hash before it. */
  lemma LinkOf(H: HashFn, anchor: Bytes, log: Log, i: nat)
    requires Chained(H, anchor, log) && i < |log|
    ensures log[i].prevHash == Before(anchor, log, i)
  {
    assert EntryOk(H, anchor, log, i);
  }

  /** Two logs that agree before an entry and at it agree after it. */
  lemma AgreeFurther(xs: Log, ys: Log, n: nat)
    requires n < |xs| && n < |ys| && xs[..n] == ys[..n] && xs[n] == ys[n]
    ensures xs[..n + 1] == ys[..n + 1]
  {
    assert xs[..n + 1] == xs[..n] + [xs[n]] && ys[..n + 1] == ys[..n] + [ys[n]];
  }

  lemma AgreeingHash(xs: Log, ys: Log, n: nat)
    requires n <= |xs| && n <= |ys| && xs[..n] == ys[..n]
    ensures Before(GENESIS, xs, n) == Before(GENESIS, ys, n)
  {
    if n > 0 { assert xs[n - 1] == xs[..n][n - 1] == ys[..n][n - 1]; }
  }

  predicate SameUpTo(xs: Log, ys: Log, n: nat, m: nat)
    requires n <= |xs| && m <= |ys|
  {
    n == m && xs[..n] == ys[..n]
  }

  lemma StartsDiffer(H: HashFn, xs: Log, ys: Log, n: nat, m: nat)
    requires Verifies(H, xs) && Verifies(H, ys) && n <= |xs| && m <= |ys| && (n == 0 || m == 0)
    requires Before(GENESIS, xs, n) == Before(GENESIS, ys, m)
    ensures n != m ==> HashBroken(H, xs, ys)
  {
    if n > 0 { GenesisOnlyAtStart(H, xs, n); }
    if m > 0 { GenesisOnlyAtStart(H, ys, m); }
  }

  /** Places that carry the same hash have the same entries before them, equally many. */
  lemma {:induction false} SameHashSamePrefix(H: HashFn, xs: Log, ys: Log, n: nat, m: nat) returns (broken: bool)
    requires Verifies(H, xs) && Verifies(H, ys) && AllStorable(xs) && AllStorable(ys)
    requires n <= |xs| && m <= |ys| && Before(GENESIS, xs, n) == Before(GENESIS, ys, m)
    ensures broken ==> HashBroken(H, xs, ys)
    ensures !broken ==> SameUpTo(xs, ys, n, m)
    decreases n
  {
    if n == 0 || m == 0 {
      StartsDiffer(H, xs, ys, n, m);
      broken := n != m;
    } else {
      broken := SameHashStepBack(H, xs, ys, n, m);
      if !broken {
        broken := SameHashSamePrefix(H, xs, ys, n - 1, m - 1);
        if !broken { AgreeFurther(xs, ys, n - 1); }
      }
    }
  }

  /** Two logs that verify and end in the same hash are the same log, whatever their lengths. */
  lemma SameHeadSameLog(H: HashFn, xs: Log, ys: Log)
    requires Verifies(H, xs) && Verifies(H, ys) && AllStorable(xs) && AllStorable(ys)
    requires HeadOf(xs) == HeadOf(ys)
    ensures xs == ys || HashBroken(H, xs, ys)
  {
    var broken := SameHashSamePrefix(H, xs, ys, |xs|, |ys|);
    assert xs[..|xs|] == xs && ys[..|ys|] == ys;
  }

  /** In an intact log no two places carry the same hash. */
  lemma HeadsDiffer(H: HashFn, log: Log, i: nat, j: nat)
    requires Verifies(H, log) && AllStorable(log)
    requires i < j <= |log| && Before(GENESIS, log, i) == Before(GENESIS, log, j)
    ensures HashBroken(H, log, log)
  {
    var broken := SameHashSamePrefix(H, log, log, i, j);
  }

  lemma PlaceOfLink(H: HashFn, log: Log, n: nat, j: nat)
    requires Verifies(H, log) && AllStorable(log)
    requires n <= |log| && j < |log| && log[j].prevHash == Before(GENESIS, log, n)
    ensures j == n || HashBroken(H, log, log)
  {
    LinkOf(H, GENESIS, log, j);
    if j < n {
      HeadsDiffer(H, log, j, n);
    } else if n < j {
      HeadsDiffer(H, log, n, j);
    }
  }

  /** In an intact log an entry is found where the chain before it says, and nowhere else. */
  lemma PlaceByLink(H: HashFn, log: Log, n: nat, e: AuditEntry)
    requires Verifies(H, log) && AllStorable(log)
    requires n <= |log| && e in log && e.prevHash == Before(GENESIS, log, n)
    ensures (n < |log| && log[n] == e) || HashBroken(H, log, log)
  {
    var j :| 0 <= j < |log| && log[j] == e;
    PlaceOfLink(H, log, n, j);
  }

  /** The next picked entry is the next entry of the log. */
  lemma NextPicked(H: HashFn, log: Log, picked: Log, n: nat)
    requires Verifies(H, log) && AllStorable(log) && Verifies(H, picked)
    requires n < |picked| && n <= |log| && picked[..n] == log[..n] && picked[n] in log
    ensures HashBroken(H, log, log) || (n < |log| && picked[..n + 1] == log[..n + 1])
  {
    AgreeingHash(picked, log, n);
    LinkOf(H, GENESIS, picked, n);
    PlaceByLink(H, log, n, picked[n]);
    if n < |log| && log[n] == picked[n] { AgreeFurther(picked, log, n); }
  }

  lemma {:induction false} SelectionFollowsLog(H: HashFn, log: Log, picked: Log, n: nat)
    requires Verifies(H, log) && AllStorable(log)
    requires n <= |picked| && (forall e :: e in picked ==> e in log) && Verifies(H, picked)
    ensures HashBroken(H, log, log) || (n <= |log| && picked[..n] == log[..n])
  {
    if n == 0 {
    } else {
      SelectionFollowsLog(H, log, picked, n - 1);
      if n - 1 <= |log| && picked[..n - 1] == log[..n - 1] {
        assert picked[n - 1] in picked;
        NextPicked(H, log, picked, n - 1);
      }
    }
  }

  /**
   Deleting, repeating or reordering entries of an intact log in any way leaves something that
   verifies only if it is a prefix of that log.
   */
  lemma SelectionIsPrefix(H: HashFn, log: Log, picked: Log)
    requires Verifies(H, log) && AllStorable(log)
    requires (forall e :: e in picked ==> e in log) && Verifies(H, picked)
    ensures picked <= log || HashBroken(H, log, log)
  {
    SelectionFollowsLog(H, log, picked, |picked|);
    assert picked[..|picked|] == picked;
  }

  /** The walk from genesis stops at this place and reports this entry, by id and timestamp, for this reason. */
  predicate ReportedAt(H: HashFn, log: Log, e: AuditEntry, place: nat, reason: Reason) {
    Walk(H, GENESIS, log) == Broken(place, place, e.id, e.timestamp, reason)
  }

  // ----- localisation ----------------------------------------------------------------------

  lemma ChainedPrefix(H: HashFn, log: Log, other: Log, i: nat)
    requires Verifies(H, log) && i <= |log| && i <= |other| && other[..i] == log[..i]
    ensures Chained(H, GENESIS, other[..i])
    ensures Before(GENESIS, other, i) == Before(GENESIS, log, i)
  {
    VerifiesFront(H, log, i);
    if i > 0 { assert other[i - 1] == other[..i][i - 1] == log[..i][i - 1]; }
  }

  /** Editing the hashed content of entry i, and nothing else, is reported at position i + 1. */
  lemma EditLocated(H: HashFn, log: Log, i: nat, edited: AuditEntry)
    requires Verifies(H, log) && AllStorable(log) && i < |log| && Storable(edited)
    requires edited != log[i] && edited.prevHash == log[i].prevHash && edited.hash == log[i].hash
    ensures ReportedAt(H, log[i := edited], edited, i + 1, ContentModified) || Collide(H, log[i], edited)
  {
    var other := log[i := edited];
    assert EntryOk(H, GENESIS, log, i) && StorableAt(log, i);
    ChainedPrefix(H, log, other, i);
    if ComputeHash(H, edited) == edited.hash {
      HexInjective(H(Preimage(log[i])), H(Preimage(edited)));
      PreimageInjective(log[i], edited);
    } else {
      WalkStopsAt(H, GENESIS, 0, other, i);
    }
  }

  /** Rewriting the link of entry i is reported at position i + 1, with no exception at all. */
  lemma RelinkLocated(H: HashFn, log: Log, i: nat, edited: AuditEntry)
    requires Verifies(H, log) && i < |log| && edited.prevHash != log[i].prevHash
    ensures ReportedAt(H, log[i := edited], edited, i + 1, LinkMismatch)
  {
    var other := log[i := edited];
    assert EntryOk(H, GENESIS, log, i);
    ChainedPrefix(H, log, other, i);
    WalkStopsAt(H, GENESIS, 0, other, i);
  }

  /** Up to an entry sealed again on its own link, the log still verifies. */
  lemma ResealedFront(H: HashFn, log: Log, i: nat, resealed: AuditEntry)
    requires Verifies(H, log) && i < |log|
    requires resealed.prevHash == log[i].prevHash && resealed.hash == ComputeHash(H, resealed)
    ensures Chained(H, GENESIS, log[i := resealed][..i + 1])
  {
    var front := log[i := resealed][..i + 1];
    forall k | 0 <= k < |front| ensures EntryOk(H, GENESIS, front, k) {
      assert EntryOk(H, GENESIS, log, k);
    }
  }

  lemma LinkNotEmpty(H: HashFn, log: Log, i: nat)
    requires Verifies(H, log) && i < |log|
    ensures log[i].prevHash != []
  {
    assert EntryOk(H, GENESIS, log, i);
    if i > 0 { assert EntryOk(H, GENESIS, log, i - 1); }
  }

  /** A rewritten hash is noticed by the next entry. */
  lemma NextEntryComplains(H: HashFn, log: Log, i: nat, resealed: AuditEntry)
    requires Verifies(H, log) && i + 1 < |log| && resealed.hash != log[i].hash
    requires resealed.prevHash == log[i].prevHash && resealed.hash == ComputeHash(H, resealed)
    ensures ReportedAt(H, log[i := resealed], log[i + 1], i + 2, LinkMismatch)
  {
    ResealedFront(H, log, i, resealed);
    assert EntryOk(H, GENESIS, log, i + 1);
    WalkStopsAt(H, GENESIS, 0, log[i := resealed], i + 1);
  }

  /** Editing entry i and sealing it again is reported at its successor, position i + 2. */
  lemma ResealLocated(H: HashFn, log: Log, i: nat, edited: AuditEntry)
    requires Verifies(H, log) && AllStorable(log) && i + 1 < |log|
    requires var resealed := Sealed(H, edited, log[i].prevHash);
      Storable(resealed) && resealed != log[i]
    ensures var resealed := Sealed(H, edited, log[i].prevHash);
      || ReportedAt(H, log[i := resealed], log[i + 1], i + 2, LinkMismatch)
      || Collide(H, log[i], resealed)
  {
    var resealed := Sealed(H, edited, log[i].prevHash);
    LinkNotEmpty(H, log, i);
    if resealed.hash == log[i].hash {
      assert EntryOk(H, GENESIS, log, i) && StorableAt(log, i);
      SameHashSameEntry(H, log[i], resealed);
    } else {
      NextEntryComplains(H, log, i, resealed);
    }
  }

  /** Deleting entry i, unless it is the last, is reported at position i + 1, naming its successor. */
  lemma DeletionLocated(H: HashFn, log: Log, i: nat)
    requires Verifies(H, log) && AllStorable(log) && i + 1 < |log|
    ensures ReportedAt(H, log[..i] + log[i + 1..], log[i + 1], i + 1, LinkMismatch) || HashBroken(H, log, log)
  {
    var other := log[..i] + log[i + 1..];
    assert other[..i] == log[..i] && other[i] == log[i + 1];
    assert EntryOk(H, GENESIS, log, i + 1);
    ChainedPrefix(H, log, other, i);
    if Before(GENESIS, log, i) == Before(GENESIS, log, i + 1) {
      HeadsDiffer(H, log, i, i + 1);
    } else {
      WalkStopsAt(H, GENESIS, 0, other, i);
    }
  }

  /** Cutting entries off the end is the one change the chain alone cannot show. */
  lemma TruncationUndetected(H: HashFn, log: Log, n: nat)
    requires Verifies(H, log) && n <= |log|
    ensures Walk(H, GENESIS, log[..n]) == Intact(n)
  {
    VerifiesFront(H, log, n);
    WalkAccepts(H, GENESIS, 0, log[..n]);
  }
}
