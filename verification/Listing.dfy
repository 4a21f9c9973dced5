/**
 Listing and paging of the log (internal/audit/memory.go, internal/audit/repository.go and the
 events handler of dashboard/api/internal/httpapi/httpapi.go). Order and selection are stated on
 positions in the log, so that equal entries stay apart.
 */
module Listing {
  import opened Wrappers
  import opened ByteStrings
  import opened AuditEntries
  import opened Chain
  import opened Ranges
  import opened Text

  datatype Filter = Filter(
    kind: Bytes, verdict: string, ip: string, rule: string, requestId: Bytes,
    from: Bound, to: Bound, limit: int, offset: int)

  const DEFAULT_LIMIT: nat := 50
  const MAX_LIMIT: nat := 500

  /** Paging is clamped; applying it twice is applying it once. */
  function Normalized(f: Filter): (g: Filter)
    ensures g.limit == if f.limit <= 0 then 50 else if f.limit > 500 then 500 else f.limit
    ensures g.offset == if f.offset < 0 then 0 else f.offset
    ensures g == f <==> 1 <= f.limit <= MAX_LIMIT && f.offset >= 0
    ensures g.(limit := f.limit, offset := f.offset) == f
  {
    var limit := if f.limit <= 0 then DEFAULT_LIMIT else f.limit;
    f.(limit := if limit > MAX_LIMIT then MAX_LIMIT else limit,
       offset := if f.offset < 0 then 0 else f.offset)
  }

  /** A text field of a payload, blank when absent or not plain text. */
  function PayloadString(e: AuditEntry, key: string): string {
    if key in e.payload && e.payload[key].Str? then TrimSpace(e.payload[key].s) else ""
  }

  function Matches(e: AuditEntry, f: Filter): bool {
    && (f.kind != [] ==> e.kind == f.kind)
    && (f.requestId != [] ==> e.requestId == f.requestId)
    && (f.verdict != "" ==> PayloadString(e, "verdict") == f.verdict)
    && (f.ip != "" ==> PayloadString(e, "ip") == f.ip)
    && (f.rule != "" ==> PayloadString(e, "rule") == f.rule)
    && InRange(f.from, f.to, e)
  }

  // ----- selection and order ---------------------------------------------------------------

  predicate Inside(log: Log, ps: seq<nat>) {
    forall i :: 0 <= i < |ps| ==> ps[i] < |log|
  }

  predicate Rising(ps: seq<nat>) {
    forall i, j :: 0 <= i < j < |ps| ==> ps[i] < ps[j]
  }

  /** The positions below n whose entries match, in append order. */
  function Selected(log: Log, f: Filter, n: nat): (ps: seq<nat>)
    requires n <= |log|
    ensures forall i :: 0 <= i < |ps| ==> ps[i] < n
  {
    if n == 0 then []
    else Selected(log, f, n - 1) + if Matches(log[n - 1], f) then [n - 1] else []
  }

  lemma {:induction false} SelectedExact(log: Log, f: Filter, n: nat)
    requires n <= |log|
    ensures Rising(Selected(log, f, n))
    ensures forall p: nat :: p in Selected(log, f, n) <==> p < n && Matches(log[p], f)
  {
    if n == 0 {
    } else {
      SelectedExact(log, f, n - 1);
      var ps := Selected(log, f, n - 1);
      forall p: nat ensures p in Selected(log, f, n) <==> p < n && Matches(log[p], f) {
        assert p in Selected(log, f, n) <==> p in ps || (p == n - 1 && Matches(log[n - 1], f));
      }
    }
  }

  function Pick(log: Log, ps: seq<nat>): (es: Log)
    requires Inside(log, ps)
    ensures |es| == |ps| && forall i :: 0 <= i < |ps| ==> es[i] == log[ps[i]]
  {
    seq(|ps|, i requires 0 <= i < |ps| => log[ps[i]])
  }

  /** Newest first, ties in append order. */
  predicate Precedes(log: Log, p: nat, q: nat)
    requires p < |log| && q < |log|
  {
    log[p].timestamp > log[q].timestamp || (log[p].timestamp == log[q].timestamp && p < q)
  }

  predicate InOrder(log: Log, ps: seq<nat>)
    requires Inside(log, ps)
  {
    forall i, j :: 0 <= i < j < |ps| ==> Precedes(log, ps[i], ps[j])
  }

  ghost predicate SameElements(ps: seq<nat>, qs: seq<nat>) {
    forall p: nat :: p in ps <==> p in qs
  }

  /** There is only one way to list a set of positions in order. */
  lemma {:induction false} OrderUnique(log: Log, ps: seq<nat>, qs: seq<nat>)
    requires Inside(log, ps) && Inside(log, qs) && InOrder(log, ps) && InOrder(log, qs) && SameElements(ps, qs)
    ensures ps == qs
  {
    EmptyAlike(ps, qs);
    if ps == [] {
    } else {
      FirstUnique(log, ps, qs);
      TailElements(log, ps, qs);
      OrderUnique(log, ps[1..], qs[1..]);
      assert ps == [ps[0]] + ps[1..] && qs == [qs[0]] + qs[1..];
    }
  }

  lemma EmptyAlike(ps: seq<nat>, qs: seq<nat>)
    requires SameElements(ps, qs)
    ensures ps == [] <==> qs == []
  {
    if ps != [] { assert ps[0] in qs; }
    if qs != [] { assert qs[0] in ps; }
  }

  lemma FirstUnique(log: Log, ps: seq<nat>, qs: seq<nat>)
    requires Inside(log, ps) && Inside(log, qs) && InOrder(log, ps) && InOrder(log, qs)
    requires ps != [] && qs != [] && SameElements(ps, qs)
    ensures ps[0] == qs[0]
  {
    assert ps[0] in ps && qs[0] in qs;
    var i :| 0 <= i < |qs| && qs[i] == ps[0];
    var j :| 0 <= j < |ps| && ps[j] == qs[0];
  }

  lemma TailElements(log: Log, ps: seq<nat>, qs: seq<nat>)
    requires Inside(log, ps) && Inside(log, qs) && InOrder(log, ps) && InOrder(log, qs)
    requires ps != [] && qs != [] && ps[0] == qs[0] && SameElements(ps, qs)
    ensures SameElements(ps[1..], qs[1..])
  {
    forall p: nat ensures p in ps[1..] <==> p in qs[1..] {
      assert p in ps <==> p in qs;
      assert p in ps <==> p == ps[0] || p in ps[1..];
      assert p in qs <==> p == qs[0] || p in qs[1..];
      NotAgain(log, ps);
      NotAgain(log, qs);
    }
  }

  lemma NotAgain(log: Log, ps: seq<nat>)
    requires Inside(log, ps) && InOrder(log, ps) && ps != []
    ensures ps[0] !in ps[1..]
  {
    forall i | 1 <= i < |ps| ensures ps[i] != ps[0] {
      assert Precedes(log, ps[0], ps[i]);
    }
  }

  // ----- the stable sort -------------------------------------------------------------------

  /** How many leading entries are no older than t. */
  function Place(es: Log, t: int): (k: nat)
    ensures k <= |es|
    ensures forall i :: 0 <= i < k ==> es[i].timestamp >= t
    ensures k < |es| ==> es[k].timestamp < t
  {
    if es == [] || es[0].timestamp < t then 0 else 1 + Place(es[1..], t)
  }

  function Inserted(log: Log, qs: seq<nat>, p: nat): (rs: seq<nat>)
    requires Inside(log, qs) && p < |log|
    ensures Inside(log, rs) && |rs| == |qs| + 1
  {
    var k := Place(Pick(log, qs), log[p].timestamp);
    qs[..k] + [p] + qs[k..]
  }

  function Sorted(log: Log, ps: seq<nat>): (qs: seq<nat>)
    requires Inside(log, ps)
    ensures Inside(log, qs) && |qs| == |ps|
  {
    if ps == [] then [] else Inserted(log, Sorted(log, ps[..|ps| - 1]), ps[|ps| - 1])
  }

  lemma InsertElements(qs: seq<nat>, k: nat, p: nat, x: nat)
    requires k <= |qs|
    ensures x in qs[..k] + [p] + qs[k..] <==> x == p || x in qs
  {
    assert qs == qs[..k] + qs[k..];
  }

  lemma {:induction false} SortedElements(log: Log, ps: seq<nat>)
    requires Inside(log, ps)
    ensures SameElements(Sorted(log, ps), ps)
  {
    if ps == [] {
    } else {
      var n := |ps| - 1;
      var p, qs := ps[n], Sorted(log, ps[..n]);
      SortedElements(log, ps[..n]);
      forall x: nat ensures x in Sorted(log, ps) <==> x in ps {
        InsertElements(qs, Place(Pick(log, qs), log[p].timestamp), p, x);
        assert ps == ps[..n] + [p];
        assert x in qs <==> x in ps[..n];
      }
    }
  }

  /** The place found for p has exactly the rows that precede it on its left. */
  lemma PlaceSeparates(log: Log, qs: seq<nat>, p: nat, i: nat)
    requires Inside(log, qs) && InOrder(log, qs) && p < |log| && i < |qs| && qs[i] < p
    ensures if i < Place(Pick(log, qs), log[p].timestamp) then Precedes(log, qs[i], p) else Precedes(log, p, qs[i])
  {
    var k := Place(Pick(log, qs), log[p].timestamp);
    if i < k {
      assert Pick(log, qs)[i].timestamp >= log[p].timestamp;
    } else {
      assert Pick(log, qs)[k] == log[qs[k]];
      assert i > k ==> Precedes(log, qs[k], qs[i]);
    }
  }

  lemma InsertBetween(log: Log, qs: seq<nat>, p: nat, k: nat)
    requires Inside(log, qs) && InOrder(log, qs) && p < |log| && k <= |qs|
    requires forall i :: 0 <= i < k ==> Precedes(log, qs[i], p)
    requires forall i :: k <= i < |qs| ==> Precedes(log, p, qs[i])
    ensures var rs := qs[..k] + [p] + qs[k..]; Inside(log, rs) && InOrder(log, rs)
  {
  }

  lemma InsertInOrder(log: Log, qs: seq<nat>, p: nat)
    requires Inside(log, qs) && InOrder(log, qs) && p < |log| && forall i :: 0 <= i < |qs| ==> qs[i] < p
    ensures InOrder(log, Inserted(log, qs, p))
  {
    var k := Place(Pick(log, qs), log[p].timestamp);
    forall i | 0 <= i < |qs| ensures if i < k then Precedes(log, qs[i], p) else Precedes(log, p, qs[i]) {
      PlaceSeparates(log, qs, p, i);
    }
    InsertBetween(log, qs, p, k);
  }

  lemma {:induction false} SortedInOrder(log: Log, ps: seq<nat>)
    requires Inside(log, ps) && Rising(ps)
    ensures InOrder(log, Sorted(log, ps))
  {
    if ps == [] {
    } else {
      var n := |ps| - 1;
      var p, qs := ps[n], Sorted(log, ps[..n]);
      SortedInOrder(log, ps[..n]);
      SortedElements(log, ps[..n]);
      forall i | 0 <= i < |qs| ensures qs[i] < p {
        assert qs[i] in ps[..n];
      }
      InsertInOrder(log, qs, p);
    }
  }

  // ----- the listing -----------------------------------------------------------------------

  function Listed(log: Log, f: Filter): (ps: seq<nat>)
    ensures Inside(log, ps) && |ps| == |Selected(log, f, |log|)|
  {
    Sorted(log, Selected(log, f, |log|))
  }

  /** Every matching entry once, newest first with ties in append order, and nothing else. */
  lemma ListedExact(log: Log, f: Filter, ps: seq<nat>)
    ensures ps == Listed(log, f) <==>
      Inside(log, ps) && InOrder(log, ps) && forall p: nat :: p in ps <==> p < |log| && Matches(log[p], f)
  {
    var selected := Selected(log, f, |log|);
    SelectedExact(log, f, |log|);
    SortedElements(log, selected);
    SortedInOrder(log, selected);
    if Inside(log, ps) && InOrder(log, ps) && forall p: nat :: p in ps <==> p < |log| && Matches(log[p], f) {
      OrderUnique(log, ps, Listed(log, f));
    }
  }

  /** The payload holds this text, blanks at its ends aside. */
  predicate HasText(e: AuditEntry, key: string, text: string) {
    key in e.payload && e.payload[key].Str? && TrimSpace(e.payload[key].s) == text
  }

  /** What a filter asks for, field by field; an empty field or an open bound asks for nothing. */
  predicate Satisfies(e: AuditEntry, f: Filter) {
    && (f.kind == [] || e.kind == f.kind)
    && (f.requestId == [] || e.requestId == f.requestId)
    && (f.verdict == "" || HasText(e, "verdict", f.verdict))
    && (f.ip == "" || HasText(e, "ip", f.ip))
    && (f.rule == "" || HasText(e, "rule", f.rule))
    && (f.from == None || e.timestamp >= f.from.value)
    && (f.to == None || e.timestamp <= f.to.value)
  }

  /** The listing holds exactly the entries that satisfy the filter, and falls in time. */
  lemma ListedSatisfy(log: Log, f: Filter)
    ensures var ps := Listed(log, f);
      && (forall p: nat :: p in ps <==> p < |log| && Satisfies(log[p], f))
      && (forall i, j :: 0 <= i < j < |ps| ==>
            log[ps[i]].timestamp > log[ps[j]].timestamp
            || (log[ps[i]].timestamp == log[ps[j]].timestamp && ps[i] < ps[j]))
  {
    var ps := Listed(log, f);
    ListedExact(log, f, ps);
    assert forall e :: Matches(e, f) <==> Satisfies(e, f);
    forall i, j | 0 <= i < j < |ps|
      ensures log[ps[i]].timestamp > log[ps[j]].timestamp
              || (log[ps[i]].timestamp == log[ps[j]].timestamp && ps[i] < ps[j])
    {
      assert Precedes(log, ps[i], ps[j]);
    }
  }

  function ListedRows(log: Log, f: Filter): (rows: Log)
    ensures |rows| == |Selected(log, f, |log|)|
  {
    Pick(log, Listed(log, f))
  }

  /** The rows from o on, at most n of them. */
  function Page<T>(rows: seq<T>, o: nat, n: nat): seq<T> {
    if o >= |rows| then [] else if |rows| - o > n then rows[o..o + n] else rows[o..]
  }

  class Memory {
    var entries: Log

    constructor ()
      ensures entries == []
    {
      entries := [];
    }

    method Append(entry: AuditEntry)
      modifies this
      ensures entries == old(entries) + [entry]
    {
      entries := entries + [entry];
    }

    method Head() returns (hash: Bytes)
      ensures hash == HeadOf(entries)
    {
      if |entries| == 0 {
        return GENESIS;
      }
      return entries[|entries| - 1].hash;
    }

    method List(f: Filter) returns (page: Log)
      ensures page == Page(ListedRows(entries, f), Normalized(f).offset, Normalized(f).limit)
    {
      var g := Normalized(f);
      PagingIgnored(entries, f, g);
      var matched := Collect(entries, g);
      matched := NewestFirst(entries, Selected(entries, g, |entries|), matched);
      if g.offset >= |matched| {
        return [];
      }
      matched := matched[g.offset..];
      if |matched| > g.limit {
        matched := matched[..g.limit];
      }
      return matched;
    }

    method Count(f: Filter) returns (n: nat)
      ensures n == |Listed(entries, f)|
    {
      n := 0;
      for i := 0 to |entries|
        invariant n == |Selected(entries, f, i)|
      {
        if Matches(entries[i], f) {
          n := n + 1;
        }
      }
    }
  }

  lemma PickSnoc(log: Log, ps: seq<nat>, p: nat)
    requires Inside(log, ps) && p < |log|
    ensures Pick(log, ps + [p]) == Pick(log, ps) + [log[p]]
  {
  }

  method Collect(log: Log, f: Filter) returns (matched: Log)
    ensures matched == Pick(log, Selected(log, f, |log|))
  {
    matched := [];
    for i := 0 to |log|
      invariant matched == Pick(log, Selected(log, f, i))
    {
      if Matches(log[i], f) {
        PickSnoc(log, Selected(log, f, i), i);
        matched := matched + [log[i]];
      }
    }
  }

  lemma PickInserted(log: Log, qs: seq<nat>, p: nat)
    requires Inside(log, qs) && p < |log|
    ensures var es := Pick(log, qs);
      var k := Place(es, log[p].timestamp);
      Pick(log, Inserted(log, qs, p)) == es[..k] + [log[p]] + es[k..]
  {
  }

  method FindPlace(es: Log, t: int) returns (k: nat)
    ensures k == Place(es, t)
  {
    k := 0;
    while k < |es| && es[k].timestamp >= t
      invariant k <= |es|
      invariant k + Place(es[k..], t) == Place(es, t)
    {
      k := k + 1;
    }
  }

  /** The stable sort by falling timestamp, one entry at a time. */
  method NewestFirst(ghost log: Log, ghost ps: seq<nat>, es: Log) returns (sorted: Log)
    requires Inside(log, ps) && es == Pick(log, ps)
    ensures sorted == Pick(log, Sorted(log, ps))
  {
    sorted := [];
    ghost var qs: seq<nat> := [];
    for i := 0 to |es|
      invariant Inside(log, qs) && qs == Sorted(log, ps[..i]) && sorted == Pick(log, qs)
    {
      var k := FindPlace(sorted, es[i].timestamp);
      PickInserted(log, qs, ps[i]);
      SortedSnoc(log, ps, i);
      qs := Inserted(log, qs, ps[i]);
      sorted := sorted[..k] + [es[i]] + sorted[k..];
    }
    assert ps[..|es|] == ps;
  }

  lemma SortedSnoc(log: Log, ps: seq<nat>, i: nat)
    requires Inside(log, ps) && i < |ps|
    ensures Sorted(log, ps[..i + 1]) == Inserted(log, Sorted(log, ps[..i]), ps[i])
  {
    assert ps[..i + 1][..i] == ps[..i];
  }

  lemma {:induction false} SelectionIgnoresPaging(log: Log, f: Filter, g: Filter, n: nat)
    requires n <= |log| && g.(limit := f.limit, offset := f.offset) == f
    ensures Selected(log, f, n) == Selected(log, g, n)
  {
    if n == 0 {
    } else {
      SelectionIgnoresPaging(log, f, g, n - 1);
    }
  }

  lemma PagingIgnored(log: Log, f: Filter, g: Filter)
    requires g.(limit := f.limit, offset := f.offset) == f
    ensures Listed(log, f) == Listed(log, g) && ListedRows(log, f) == ListedRows(log, g)
  {
    SelectionIgnoresPaging(log, f, g, |log|);
  }

  // ----- paging ----------------------------------------------------------------------------

  datatype Events = Events(entries: Log, total: nat, limit: int, offset: int)

  function EventsFor(log: Log, f: Filter): Events {
    var g := Normalized(f);
    Events(Page(ListedRows(log, f), g.offset, g.limit), |ListedRows(log, f)|, g.limit, g.offset)
  }

  method HandleEvents(repo: Memory, f: Filter) returns (answer: Events)
    ensures answer == EventsFor(repo.entries, f)
  {
    var g := Normalized(f);
    var entries := repo.List(g);
    var total := repo.Count(g);
    PagingIgnored(repo.entries, f, g);
    return Events(entries, total, g.limit, g.offset);
  }

  /** What a client collects that reads page after page, each time `step` further on, up to `total`. */
  function Collected(answer: nat -> Events, total: nat, o: nat, step: nat): Log
    requires step > 0
    decreases total - o
  {
    if o >= total then [] else answer(o).entries + Collected(answer, total, o + step, step)
  }

  /** The answers for one filter at every offset. */
  function Asking(log: Log, f: Filter): nat -> Events {
    (o: nat) => EventsFor(log, f.(offset := o))
  }

  function Pages<T>(rows: seq<T>, limit: nat, o: nat, step: nat): seq<T>
    requires step > 0
    decreases |rows| - o
  {
    if o >= |rows| then [] else Page(rows, o, limit) + Pages(rows, limit, o + step, step)
  }

  lemma AnswerAt(log: Log, f: Filter, o: nat)
    ensures Asking(log, f)(o) == Events(Page(ListedRows(log, f), o, Normalized(f).limit), |ListedRows(log, f)|, Normalized(f).limit, o)
  {
    PagingIgnored(log, f, f.(offset := o));
  }

  lemma {:induction false} CollectedPages(answer: nat -> Events, rows: Log, limit: nat, o: nat, step: nat)
    requires step > 0 && forall k :: answer(k).entries == Page(rows, k, limit)
    ensures Collected(answer, |rows|, o, step) == Pages(rows, limit, o, step)
    decreases |rows| - o
  {
    if o >= |rows| {
    } else {
      CollectedPages(answer, rows, limit, o + step, step);
    }
  }

  lemma AskingPages(log: Log, f: Filter, step: nat)
    requires step > 0
    ensures var rows := ListedRows(log, f);
      Collected(Asking(log, f), |rows|, 0, step) == Pages(rows, Normalized(f).limit, 0, step)
  {
    var rows, limit, answer := ListedRows(log, f), Normalized(f).limit, Asking(log, f);
    forall k: nat ensures answer(k).entries == Page(rows, k, limit) { AnswerAt(log, f, k); }
    CollectedPages(answer, rows, limit, 0, step);
  }

  lemma {:induction false} PagesByLimit<T>(rows: seq<T>, limit: nat, o: nat)
    requires limit > 0 && o <= |rows|
    ensures Pages(rows, limit, o, limit) == rows[o..]
    decreases |rows| - o
  {
    if o + limit <= |rows| {
      PagesByLimit(rows, limit, o + limit);
      assert rows[o..] == rows[o..o + limit] + rows[o + limit..];
    }
  }

  /** A step beyond the page size loses what lies between. */
  lemma {:induction false} PagesTooFar<T>(rows: seq<T>, limit: nat, o: nat, step: nat)
    requires step > limit && o <= |rows|
    ensures |Pages(rows, limit, o, step)| <= |rows| - o
    ensures |rows| - o > limit ==> |Pages(rows, limit, o, step)| < |rows| - o
    decreases |rows| - o
  {
    if o + step <= |rows| { PagesTooFar(rows, limit, o + step, step); }
  }

  /** Paging by the reported limit up to the reported total yields the whole listing. */
  lemma PagingComplete(log: Log, f: Filter)
    ensures var first := Asking(log, f)(0);
      && first.limit > 0
      && Collected(Asking(log, f), first.total, 0, first.limit) == ListedRows(log, f)
      && first.total == |ListedRows(log, f)|
  {
    AnswerAt(log, f, 0);
    AskingPages(log, f, Normalized(f).limit);
    PagesByLimit(ListedRows(log, f), Normalized(f).limit, 0);
  }

  /** Stepping by a positive limit as asked for is complete exactly when it was not cut down, or one page holds all. */
  lemma RequestedLimitExact(log: Log, f: Filter)
    requires f.limit > 0
    ensures Collected(Asking(log, f), Asking(log, f)(0).total, 0, f.limit) == ListedRows(log, f)
       <==> f.limit <= MAX_LIMIT || |ListedRows(log, f)| <= MAX_LIMIT
  {
    var rows := ListedRows(log, f);
    AnswerAt(log, f, 0);
    AskingPages(log, f, f.limit);
    if f.limit <= MAX_LIMIT {
      PagesByLimit(rows, f.limit, 0);
    } else {
      PagesTooFar(rows, MAX_LIMIT, 0, f.limit);
      if 0 < |rows| <= MAX_LIMIT {
        assert Pages(rows, MAX_LIMIT, f.limit, f.limit) == [];
        assert Page(rows, 0, MAX_LIMIT) == rows;
      }
    }
  }

  // ----- against the order of the SQL store ------------------------------------------------

  function Reversed(ps: seq<nat>): (qs: seq<nat>)
    ensures |qs| == |ps| && forall i :: 0 <= i < |ps| ==> qs[i] == ps[|ps| - 1 - i]
  {
    if ps == [] then [] else [ps[|ps| - 1]] + Reversed(ps[..|ps| - 1])
  }

  /** The same matches by falling append position. */
  function SqlListed(log: Log, f: Filter): seq<nat> {
    Reversed(Selected(log, f, |log|))
  }

  /** Timestamps of matching entries strictly rise in append order. */
  predicate MatchesRise(log: Log, f: Filter) {
    forall p, q :: 0 <= p < q < |log| && Matches(log[p], f) && Matches(log[q], f) ==> log[p].timestamp < log[q].timestamp
  }

  lemma ReversedElements(ps: seq<nat>)
    ensures SameElements(Reversed(ps), ps)
  {
    forall p: nat ensures p in Reversed(ps) <==> p in ps {
      if p in ps {
        var i :| 0 <= i < |ps| && ps[i] == p;
        assert Reversed(ps)[|ps| - 1 - i] == p;
      }
    }
  }

  lemma RisingListsAlike(log: Log, f: Filter)
    requires MatchesRise(log, f)
    ensures Listed(log, f) == SqlListed(log, f)
  {
    var selected := Selected(log, f, |log|);
    SelectedExact(log, f, |log|);
    ReversedElements(selected);
    forall i, j | 0 <= i < j < |selected| ensures Precedes(log, Reversed(selected)[i], Reversed(selected)[j]) {
      assert selected[|selected| - 1 - j] in selected && selected[|selected| - 1 - i] in selected;
    }
    ListedExact(log, f, SqlListed(log, f));
  }

  lemma ReversedInOrder(log: Log, ps: seq<nat>, i: nat, j: nat)
    requires Inside(log, ps) && Inside(log, Reversed(ps)) && InOrder(log, Reversed(ps)) && i < j < |ps|
    ensures Precedes(log, ps[j], ps[i])
  {
    var qs := Reversed(ps);
    assert qs[|ps| - 1 - j] == ps[j] && qs[|ps| - 1 - i] == ps[i];
  }

  lemma ListedAlikeRises(log: Log, f: Filter, p: nat, q: nat)
    requires Listed(log, f) == SqlListed(log, f) && p < q < |log| && Matches(log[p], f) && Matches(log[q], f)
    ensures log[p].timestamp < log[q].timestamp
  {
    var selected := Selected(log, f, |log|);
    SelectedExact(log, f, |log|);
    SortedInOrder(log, selected);
    var i := IndexOf(selected, p);
    var j := IndexOf(selected, q);
    assert i < j;
    ReversedInOrder(log, selected, i, j);
  }

  lemma IndexOf(ps: seq<nat>, p: nat) returns (i: nat)
    requires p in ps
    ensures i < |ps| && ps[i] == p
  {
    i :| i < |ps| && ps[i] == p;
  }

  /** The two stores list alike exactly when matching timestamps strictly rise in append order. */
  lemma OrdersAgreeExactly(log: Log, f: Filter)
    ensures Listed(log, f) == SqlListed(log, f) <==> MatchesRise(log, f)
  {
    if MatchesRise(log, f) { RisingListsAlike(log, f); }
    if Listed(log, f) == SqlListed(log, f) {
      forall p, q | 0 <= p < q < |log| && Matches(log[p], f) && Matches(log[q], f)
        ensures log[p].timestamp < log[q].timestamp
      {
        ListedAlikeRises(log, f, p, q);
      }
    }
  }

  /** Two matching entries of one instant are listed in append order in memory and the other way round in SQL. */
  lemma TiesListApart(log: Log, f: Filter, p: nat, q: nat)
    requires p < q < |log| && Matches(log[p], f) && Matches(log[q], f) && log[p].timestamp == log[q].timestamp
    ensures Listed(log, f) != SqlListed(log, f)
  {
    OrdersAgreeExactly(log, f);
  }
}
