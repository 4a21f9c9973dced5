/**
 The writer's own code, one goroutine at a time: `append`, the consuming loop, and Record under its
 lock, on the fields they update. What the store and the publisher answer is given from outside.
 */
module WriterLoop {
  import opened Wrappers
  import opened ByteStrings
  import opened CanonicalText
  import opened AuditEntries
  import opened Chain
  import opened AuditWriter
  import opened WriterPipe

  /** What becomes of an item, given what the store would answer. */
  function Outcome(item: Item, store: StoreResult): StoreResult {
    if NormalizePayload(item.draft.payload).Err? then Rejected else store
  }

  /** What becomes of a sequence of items, the store answering the i-th append with stores(i). */
  function Outcomes(items: seq<Item>, stores: nat -> StoreResult): (outs: seq<StoreResult>)
    ensures |outs| == |items|
  {
    seq(|items|, i requires 0 <= i < |items| => Outcome(items[i], stores(i)))
  }

  lemma OutcomesSnoc(items: seq<Item>, stores: nat -> StoreResult, item: Item)
    ensures Outcomes(items + [item], stores) == Outcomes(items, stores) + [Outcome(item, stores(|items|))]
  {
  }

  /** These items are settled: their entries follow those from before, their replies are out. */
  ghost predicate Done(items: seq<Item>, outs: seq<StoreResult>, before: Log, entries: Log, replies: seq<(CallerId, bool)>) {
    && |outs| == |items|
    && before <= entries
    && RecordsAll(entries[|before|..], Kept(items, outs))
    && replies == Replies(items, outs)
  }

  function Reply(item: Item, ok: bool): seq<(CallerId, bool)> {
    if item.waiter.None? then [] else [(item.waiter.value, ok)]
  }

  /** One more entry, recording the item. */
  ghost predicate Added(stored: Log, entries: Log, item: Item) {
    |entries| == |stored| + 1 && entries == stored + [entries[|stored|]] && Records(entries[|stored|], item.draft)
  }

  lemma SettledSnoc(items: seq<Item>, outs: seq<StoreResult>, item: Item, out: StoreResult)
    requires |outs| == |items|
    ensures Kept(items + [item], outs + [out]) == Kept(items, outs) + if out.Rejected? then [] else [item]
    ensures Replies(items + [item], outs + [out]) == Replies(items, outs) + Reply(item, out.Committed?)
  {
    var more := items + [item];
    KeptSnoc(more, outs, out);
    KeptSame(items, [item], outs);
    RepliesSnoc(more, outs + [out], |outs|);
    RepliesSame(items, [item], outs);
    assert (outs + [out])[..|outs|] == outs && (outs + [out])[..|outs| + 1] == outs + [out];
  }

  lemma DoneNext(items: seq<Item>, outs: seq<StoreResult>, item: Item, out: StoreResult, before: Log, stored: Log,
                 entries: Log, replies: seq<(CallerId, bool)>)
    requires Done(items, outs, before, stored, replies)
    requires if out.Rejected? then entries == stored else Added(stored, entries, item)
    ensures Done(items + [item], outs + [out], before, entries, replies + Reply(item, out.Committed?))
  {
    SettledSnoc(items, outs, item, out);
    if !out.Rejected? { RecordsOneMore(stored, |before|, Kept(items, outs), entries[|stored|], item); }
  }

  // ----- what the callers put in -----------------------------------------------------------

  /** The items carry some of the drafts, in order. */
  ghost predicate Selected(items: seq<Item>, drafts: seq<AuditEntry>)
    decreases |drafts|
  {
    if drafts == [] then items == []
    else
      var n, m := |drafts| - 1, |items| - 1;
      || Selected(items, drafts[..n])
      || (m >= 0 && items[m] == Item(drafts[n], None) && Selected(items[..m], drafts[..n]))
  }

  lemma SelectedSnoc(items: seq<Item>, drafts: seq<AuditEntry>, draft: AuditEntry, accepted: bool)
    requires Selected(items, drafts)
    ensures Selected(items + if accepted then [Item(draft, None)] else [], drafts + [draft])
  {
    var more := items + if accepted then [Item(draft, None)] else [];
    assert (drafts + [draft])[..|drafts|] == drafts;
    if accepted { assert more[..|items|] == items; } else { assert more == items; }
  }

  lemma {:induction false} SelectedConcat(items: seq<Item>, drafts: seq<AuditEntry>, more: seq<Item>, later: seq<AuditEntry>)
    requires Selected(items, drafts) && Selected(more, later)
    ensures Selected(items + more, drafts + later)
    decreases |later|
  {
    if later == [] {
      assert items + more == items && drafts + later == drafts;
    } else {
      var n, m := |later| - 1, |more| - 1;
      assert (drafts + later)[..|drafts| + n] == drafts + later[..n];
      if Selected(more, later[..n]) {
        SelectedConcat(items, drafts, more, later[..n]);
      } else {
        SelectedConcat(items, drafts, more[..m], later[..n]);
        assert (items + more)[..|items| + m] == items + more[..m];
      }
    }
  }

  /** All drafts, in the order in which they arrive. */
  function Flat(arrivals: seq<seq<AuditEntry>>): seq<AuditEntry> {
    if arrivals == [] then [] else Flat(arrivals[..|arrivals| - 1]) + arrivals[|arrivals| - 1]
  }

  lemma FlatSnoc(arrivals: seq<seq<AuditEntry>>, n: nat)
    requires n < |arrivals|
    ensures Flat(arrivals[..n + 1]) == Flat(arrivals[..n]) + arrivals[n]
  {
    assert arrivals[..n + 1][..n] == arrivals[..n];
  }

  /** No append takes effect that is reported as failed. */
  predicate NoneHidden(outs: seq<StoreResult>) {
    forall i :: 0 <= i < |outs| ==> !outs[i].Unacknowledged?
  }

  lemma HiddenSnoc(outs: seq<StoreResult>, out: StoreResult)
    ensures NoneHidden(outs + [out]) <==> NoneHidden(outs) && !out.Unacknowledged?
  {
    assert (outs + [out])[|outs|] == out;
    assert forall i :: 0 <= i < |outs| ==> (outs + [out])[i] == outs[i];
  }

  /** Settled items and the queue are what was there first and what callers added since. */
  ghost predicate Accounted(settled: seq<Item>, queue: seq<Item>, first: seq<Item>, added: seq<Item>, drafts: seq<AuditEntry>) {
    settled + queue == first + added && Selected(added, drafts)
  }

  lemma Arrived(settled: seq<Item>, queue: seq<Item>, first: seq<Item>, added: seq<Item>, more: seq<Item>,
                arrivals: seq<seq<AuditEntry>>, n: nat)
    requires n < |arrivals| && Accounted(settled, queue, first, added, Flat(arrivals[..n])) && Selected(more, arrivals[n])
    ensures Accounted(settled, queue + more, first, added + more, Flat(arrivals[..n + 1]))
    ensures |Flat(arrivals[..n + 1])| == |Flat(arrivals[..n])| + |arrivals[n]|
  {
    assert settled + (queue + more) == settled + queue + more;
    SelectedConcat(added, Flat(arrivals[..n]), more, arrivals[n]);
    FlatSnoc(arrivals, n);
  }

  lemma HandedOver(settled: seq<Item>, queue: seq<Item>, first: seq<Item>, added: seq<Item>, drafts: seq<AuditEntry>)
    requires queue != [] && Accounted(settled, queue, first, added, drafts)
    ensures Accounted(settled + [queue[0]], queue[1..], first, added, drafts)
  {
    assert settled + [queue[0]] + queue[1..] == settled + queue;
  }

  lemma AllAccounted(settled: seq<Item>, first: seq<Item>, added: seq<Item>, drafts: seq<AuditEntry>)
    requires Accounted(settled, [], first, added, drafts)
    ensures first <= settled && Selected(settled[|first|..], drafts) && |settled| == |first| + |added|
  {
    assert settled + [] == settled;
    assert settled[|first|..] == added;
  }

  lemma OutcomesNext(settled: seq<Item>, stores: nat -> StoreResult, item: Item)
    ensures Outcomes(settled + [item], stores) == Outcomes(settled, stores) + [Outcome(item, stores(|settled|))]
    ensures NoneHidden(Outcomes(settled + [item], stores)) <==>
      NoneHidden(Outcomes(settled, stores)) && !Outcome(item, stores(|settled|)).Unacknowledged?
  {
    OutcomesSnoc(settled, stores, item);
    HiddenSnoc(Outcomes(settled, stores), Outcome(item, stores(|settled|)));
  }

  class Writer {
    const H: HashFn
    const capacity: nat
    var entries: Log           // the repository's
    var queue: seq<Item>
    var closed: bool
    var head: Bytes
    var dropped: nat
    var written: nat
    var failures: nat

    ghost predicate Valid()
      reads this
    {
      head != [] && |queue| <= capacity
    }

    /** The log verifies and the writer stands at its end. */
    ghost predicate InStep()
      reads this
    {
      Verifies(H, entries) && head == HeadOf(entries)
    }

    /** Resumes whatever log there is; an intact one is resumed where it ends. */
    constructor (H: HashFn, entries: Log, buffer: int)
      ensures Valid() && this.H == H && this.entries == entries && queue == [] && !closed
      ensures head == AnchorOrGenesis(HeadOf(entries))
      ensures Verifies(H, entries) ==> InStep()
      ensures capacity == if buffer <= 0 then 4096 else buffer
      ensures written == failures == dropped == 0
    {
      this.H := H;
      this.entries := entries;
      this.capacity := if buffer <= 0 then 4096 else buffer;
      queue, closed := [], false;
      var head := if |entries| == 0 then GENESIS else entries[|entries| - 1].hash;
      this.head := if head == [] then GENESIS else head;
      dropped, written, failures := 0, 0, 0;
      if Verifies(H, entries) && entries != [] { assert EntryOk(H, GENESIS, entries, |entries| - 1); }
    }

    /** Record, under the read lock: queued if there is room and the writer is open, else counted. */
    method Record(draft: AuditEntry) returns (accepted: bool)
      requires Valid()
      modifies this`queue, this`dropped
      ensures Valid()
      ensures accepted <==> !closed && |old(queue)| < capacity
      ensures accepted ==> queue == old(queue) + [Item(draft, None)] && dropped == old(dropped)
      ensures !accepted ==> queue == old(queue) && dropped == old(dropped) + 1
    {
      if closed {
        dropped := dropped + 1;
        return false;
      }
      if |queue| < capacity {
        queue := queue + [Item(draft, None)];
        accepted := true;
      } else {
        dropped := dropped + 1;
        accepted := false;
      }
    }

    /**
     One append. An error leaves the head alone, so the next entry links to the last one the writer
     knows to be stored; as long as no error hides a stored entry, log and head stay in step.
     */
    method Append(item: Item, store: StoreResult) returns (ok: bool)
      requires Valid()
      modifies this`entries, this`head, this`written, this`failures
      ensures Valid()
      ensures ok <==> Outcome(item, store).Committed?
      ensures Outcome(item, store).Rejected? ==> entries == old(entries)
      ensures !Outcome(item, store).Rejected? ==>
        Added(old(entries), entries, item) && SealedOn(H, entries[|old(entries)|], old(head))
      ensures head == if ok then HeadOf(entries) else old(head)
      ensures written == old(written) + (if ok then 1 else 0) && failures == old(failures) + (if ok then 0 else 1)
      ensures old(InStep()) && !Outcome(item, store).Unacknowledged? ==> InStep()
    {
      var payload := NormalizePayload(item.draft.payload);
      if payload.Err? {
        failures := failures + 1;
        return false;
      }
      var entry := Sealed(H, WithPayload(item.draft, payload.value), head);
      assert SealedOn(H, entry, head) && Records(entry, item.draft);
      if old(InStep()) { AppendLinked(H, entries, entry); }
      if !store.Rejected? {
        entries := entries + [entry];   // the store's doing
      }
      if !store.Committed? {
        failures := failures + 1;
        return false;
      }
      head := entry.hash;
      written := written + 1;
      ok := true;
    }

    /** Some calls of Record, one after another; gives back what they put into the queue. */
    method RecordAll(drafts: seq<AuditEntry>) returns (ghost added: seq<Item>)
      requires Valid()
      modifies this`queue, this`dropped
      ensures Valid() && queue == old(queue) + added && Selected(added, drafts)
      ensures |added| + dropped == |drafts| + old(dropped)
    {
      added := [];
      for i := 0 to |drafts|
        invariant Valid() && queue == old(queue) + added && Selected(added, drafts[..i])
        invariant |added| + dropped == i + old(dropped)
      {
        var accepted := Record(drafts[i]);
        SelectedSnoc(added, drafts[..i], drafts[i], accepted);
        assert drafts[..i + 1] == drafts[..i] + [drafts[i]];
        added := added + if accepted then [Item(drafts[i], None)] else [];
      }
      assert drafts[..|drafts|] == drafts;
    }

    /** One turn of the loop: the next item is appended and, if somebody waits for it, answered. */
    method Receive(store: StoreResult, ghost items: seq<Item>, ghost outs: seq<StoreResult>, ghost before: Log,
                   replies: seq<(CallerId, bool)>) returns (more: seq<(CallerId, bool)>)
      requires Valid() && queue != [] && Done(items, outs, before, entries, replies)
      modifies this`entries, this`head, this`written, this`failures, this`queue
      ensures Valid() && queue == old(queue[1..])
      ensures Done(items + [old(queue[0])], outs + [Outcome(old(queue[0]), store)], before, entries, more)
      ensures written + failures == old(written) + old(failures) + 1
      ensures old(InStep()) && !Outcome(old(queue[0]), store).Unacknowledged? ==> InStep()
    {
      var item := queue[0];
      queue := queue[1..];
      ghost var stored := entries;
      var ok := Append(item, store);
      more := replies + Reply(item, ok);
      DoneNext(items, outs, item, Outcome(item, store), before, stored, entries, replies);
    }

    /**
     The loop until the queue is drained and nobody adds to it any more. Before each receive any number
     of callers may have recorded something, the n-th time the drafts in arrivals[n]. What was accepted
     is appended and answered in order, and what was not is counted as dropped.
     */
    method Run(arrivals: seq<seq<AuditEntry>>, stores: nat -> StoreResult)
      returns (replies: seq<(CallerId, bool)>, ghost accepted: seq<Item>)
      requires Valid()
      modifies this`entries, this`head, this`written, this`failures, this`queue, this`dropped
      ensures Valid() && queue == []
      ensures old(queue) <= accepted && Selected(accepted[|old(queue)|..], Flat(arrivals))
      ensures |accepted| + dropped == |old(queue)| + |Flat(arrivals)| + old(dropped)
      ensures Done(accepted, Outcomes(accepted, stores), old(entries), entries, replies)
      ensures written + failures == old(written) + old(failures) + |accepted|
      ensures old(InStep()) && NoneHidden(Outcomes(accepted, stores)) ==> InStep()
    {
      replies := [];
      ghost var settled, added: seq<Item> := [], [];
      var i, n := 0, 0;
      while n < |arrivals| || queue != []
        invariant |settled| == i && n <= |arrivals| && Valid()
        invariant Accounted(settled, queue, old(queue), added, Flat(arrivals[..n]))
        invariant |added| + dropped == |Flat(arrivals[..n])| + old(dropped)
        invariant Done(settled, Outcomes(settled, stores), old(entries), entries, replies)
        invariant written + failures == old(written) + old(failures) + i
        invariant old(InStep()) && NoneHidden(Outcomes(settled, stores)) ==> InStep()
        decreases |arrivals| - n, |queue|
      {
        if n < |arrivals| {
          ghost var waiting := queue;
          ghost var more := RecordAll(arrivals[n]);
          Arrived(settled, waiting, old(queue), added, more, arrivals, n);
          added := added + more;
          n := n + 1;
        }
        if queue != [] {
          ghost var item := queue[0];
          HandedOver(settled, queue, old(queue), added, Flat(arrivals[..n]));
          OutcomesNext(settled, stores, item);
          replies := Receive(stores(i), settled, Outcomes(settled, stores), old(entries), replies);
          settled := settled + [item];
          i := i + 1;
        }
      }
      accepted := settled;
      assert arrivals[..n] == arrivals;
      AllAccounted(settled, old(queue), added, Flat(arrivals));
    }
  }

  /** NewWriter: refuses a missing repository and one whose head cannot be read. */
  method NewWriter(H: HashFn, repo: Option<Log>, headFails: bool, buffer: int) returns (r: Result<Writer>)
    ensures r.Ok? <==> repo.Some? && !headFails
    ensures r.Ok? ==> fresh(r.value) && r.value.Valid() && r.value.H == H && r.value.entries == repo.value
    ensures r.Ok? ==> r.value.queue == [] && !r.value.closed && (Verifies(H, repo.value) ==> r.value.InStep())
  {
    if repo.None? || headFails {
      return Err;
    }
    var w := new Writer(H, repo.value, buffer);
    return Ok(w);
  }
}
