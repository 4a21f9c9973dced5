/**
 The pipe of the audit writer on its own: what every push, every step of the consumer, a death of the
 process and a restart keep true of the queue, the counters, the contents and the chain.
 */
module WriterPipe {
  import opened Wrappers
  import opened ByteStrings
  import opened CanonicalText
  import opened AuditEntries
  import opened Chain
  import opened Ranges
  import opened AuditWriter

  // ----- order -----------------------------------------------------------------------------

  function InFlight(consumer: Consumer): seq<Item> {
    match consumer
    case Taken(item) => [item]
    case Prepared(item, _) => [item]
    case _ => []
  }

  /** Its fate is settled, but its reply is not out yet. */
  predicate IsSettling(consumer: Consumer) {
    consumer.Stored? || consumer.Advanced? || consumer.Answering?
  }

  predicate SettledOk(consumer: Consumer) {
    consumer.Stored? || consumer.Advanced? || (consumer.Answering? && consumer.ok)
  }

  /** Settled items first, then the one in hand, then the queue: nothing overtakes and nothing is lost. */
  ghost predicate QueueInv(p: Pipe) {
    && |p.outcomes| <= |p.accepted|
    && (!p.consumer.Dead? ==>
          && |p.queue| <= p.capacity && p.capacity > 0
          && p.accepted[|p.outcomes|..] == InFlight(p.consumer) + p.queue)
    && (IsSettling(p.consumer) ==>
          && |p.outcomes| > 0
          && p.consumer.item == p.accepted[|p.outcomes| - 1]
          && (p.outcomes[|p.outcomes| - 1].Committed? <==> SettledOk(p.consumer)))
  }

  lemma QueuePush(p: Pipe, item: Item)
    requires QueueInv(p) && !p.consumer.Dead? && |p.queue| < p.capacity
    ensures QueueInv(Pushed(p, item))
  {
    var n := |p.outcomes|;
    assert (p.accepted + [item])[n..] == p.accepted[n..] + [item];
  }

  lemma QueueTake(H: HashFn, p: Pipe, closed: bool)
    requires QueueInv(p) && ConsumerEnabled(p, closed, Take)
    ensures QueueInv(ConsumerStep(H, p, closed, Take))
  {
    assert p.queue == [p.queue[0]] + p.queue[1..];
  }

  lemma QueuePrepare(H: HashFn, p: Pipe, closed: bool)
    requires QueueInv(p) && ConsumerEnabled(p, closed, Prepare)
    ensures QueueInv(ConsumerStep(H, p, closed, Prepare))
  {
    PrepareShape(H, p, closed);
    QueueSettled(p, Rejected, Answering(p.consumer.item, false));
  }

  lemma StoreShape(H: HashFn, p: Pipe, closed: bool, r: StoreResult)
    requires ConsumerEnabled(p, closed, Store(r))
    ensures var item := p.consumer.item;
      ConsumerStep(H, p, closed, Store(r)) ==
        Settled(WithStored(p, r), r, if r.Committed? then Stored(item, p.consumer.entry) else Answering(item, false))
  {
  }

  lemma QueueStore(H: HashFn, p: Pipe, closed: bool, r: StoreResult)
    requires QueueInv(p) && ConsumerEnabled(p, closed, Store(r))
    ensures QueueInv(ConsumerStep(H, p, closed, Store(r)))
  {
    var item := p.consumer.item;
    StoreShape(H, p, closed, r);
    assert QueueInv(WithStored(p, r));
    QueueSettled(WithStored(p, r), r, if r.Committed? then Stored(item, p.consumer.entry) else Answering(item, false));
  }

  lemma QueueSettled(p: Pipe, r: StoreResult, next: Consumer)
    requires QueueInv(p) && (p.consumer.Taken? || p.consumer.Prepared?)
    requires IsSettling(next) && next.item == p.consumer.item && (r.Committed? <==> SettledOk(next))
    ensures QueueInv(Settled(p, r, next))
  {
    InHandIsNext(p);
    var q, n := Settled(p, r, next), |p.outcomes|;
    assert |q.outcomes| == n + 1 && q.outcomes[n] == r && q.accepted == p.accepted;
    assert InFlight(next) == [] && [] + p.queue == p.queue;
  }

  /** Preparing either settles the item as rejected or seals an entry for it, and does nothing else. */
  lemma PrepareShape(H: HashFn, p: Pipe, closed: bool)
    requires ConsumerEnabled(p, closed, Prepare)
    ensures var q, item := ConsumerStep(H, p, closed, Prepare), p.consumer.item;
      || q == Settled(p, Rejected, Answering(item, false))
      || (q.consumer.Prepared? && q.consumer.item == item && q == p.(consumer := q.consumer))
  {
  }

  lemma QueueStep(H: HashFn, p: Pipe, closed: bool, a: Action)
    requires QueueInv(p) && ConsumerEnabled(p, closed, a)
    ensures QueueInv(ConsumerStep(H, p, closed, a))
  {
    if a.Take? {
      QueueTake(H, p, closed);
    } else if a.Prepare? {
      QueuePrepare(H, p, closed);
    } else if a.Store? {
      QueueStore(H, p, closed, a.r);
    }
  }

  /** The item in the consumer's hands is the first one without an outcome. */
  lemma InHandIsNext(p: Pipe)
    requires QueueInv(p) && (p.consumer.Taken? || p.consumer.Prepared?)
    ensures |p.outcomes| < |p.accepted| && p.accepted[|p.outcomes|] == p.consumer.item
    ensures p.accepted[|p.outcomes| + 1..] == p.queue
  {
    var n := |p.outcomes|;
    assert p.accepted[n..][0] == p.consumer.item;
    assert p.accepted[n + 1..] == p.accepted[n..][1..];
  }

  // ----- counters --------------------------------------------------------------------------

  function Count(r: StoreResult, outcomes: seq<StoreResult>): nat {
    if outcomes == [] then 0
    else Count(r, outcomes[..|outcomes| - 1]) + if outcomes[|outcomes| - 1] == r then 1 else 0
  }

  ghost predicate CountInv(p: Pipe) {
    !p.consumer.Dead? ==>
      && p.written + (if p.consumer.Stored? then 1 else 0) == Count(Committed, p.outcomes)
      && p.failures == Count(Rejected, p.outcomes) + Count(Unacknowledged, p.outcomes)
  }

  lemma CountSnoc(outcomes: seq<StoreResult>, r: StoreResult, q: StoreResult)
    ensures Count(q, outcomes + [r]) == Count(q, outcomes) + if r == q then 1 else 0
  {
    assert (outcomes + [r])[..|outcomes|] == outcomes;
  }

  lemma CountStep(H: HashFn, p: Pipe, closed: bool, a: Action)
    requires CountInv(p) && ConsumerEnabled(p, closed, a)
    ensures CountInv(ConsumerStep(H, p, closed, a))
  {
    if a.Prepare? {
      CountSettled(p.outcomes, Rejected);
      PrepareShape(H, p, closed);
    } else if a.Store? {
      CountSettled(p.outcomes, a.r);
      StoreShape(H, p, closed, a.r);
    }
  }

  lemma CountSettled(outcomes: seq<StoreResult>, r: StoreResult)
    ensures forall q :: Count(q, outcomes + [r]) == Count(q, outcomes) + if r == q then 1 else 0
  {
    forall q ensures Count(q, outcomes + [r]) == Count(q, outcomes) + if r == q then 1 else 0 {
      CountSnoc(outcomes, r, q);
    }
  }

  lemma {:induction false} CountsAddUp(outcomes: seq<StoreResult>)
    ensures Count(Committed, outcomes) + Count(Rejected, outcomes) + Count(Unacknowledged, outcomes) == |outcomes|
  {
    if outcomes == [] {
    } else {
      CountsAddUp(outcomes[..|outcomes| - 1]);
    }
  }

  /** Everything accepted is written, failed, queued or in the consumer's hands. */
  lemma Conservation(p: Pipe)
    requires QueueInv(p) && CountInv(p) && !p.consumer.Dead?
    ensures |p.accepted| == p.written + p.failures + |p.queue|
              + if p.consumer.Taken? || p.consumer.Prepared? || p.consumer.Stored? then 1 else 0
  {
    CountsAddUp(p.outcomes);
    assert |p.accepted| == |p.outcomes| + |p.accepted[|p.outcomes|..]|;
  }

  // ----- contents --------------------------------------------------------------------------

  /** The entry holds what the draft asked for, with its payload normalised. */
  predicate Records(e: AuditEntry, draft: AuditEntry) {
    && e.id == draft.id && e.requestId == draft.requestId && e.timestamp == draft.timestamp && e.kind == draft.kind
    && NormalizePayload(draft.payload) == Ok(e.payload)
  }

  /** The items whose entries reached the store, in queue order. */
  function Kept(items: seq<Item>, outcomes: seq<StoreResult>): seq<Item>
    requires |outcomes| <= |items|
  {
    if outcomes == [] then []
    else
      var n := |outcomes| - 1;
      Kept(items, outcomes[..n]) + if outcomes[n].Rejected? then [] else [items[n]]
  }

  ghost predicate RecordsAll(entries: Log, items: seq<Item>) {
    |entries| == |items| && forall i :: 0 <= i < |items| ==> Records(entries[i], items[i].draft)
  }

  ghost predicate ContentInv(p: Pipe) {
    && p.base <= |p.log| && |p.outcomes| <= |p.accepted|
    && RecordsAll(p.log[p.base..], Kept(p.accepted, p.outcomes))
    && (p.consumer.Prepared? ==> Records(p.consumer.entry, p.consumer.item.draft))
  }

  lemma {:induction false} KeptSame(items: seq<Item>, more: seq<Item>, outcomes: seq<StoreResult>)
    requires |outcomes| <= |items|
    ensures Kept(items + more, outcomes) == Kept(items, outcomes)
  {
    if outcomes == [] {
    } else {
      KeptSame(items, more, outcomes[..|outcomes| - 1]);
    }
  }

  lemma KeptSnoc(items: seq<Item>, outcomes: seq<StoreResult>, r: StoreResult)
    requires |outcomes| < |items|
    ensures Kept(items, outcomes + [r]) == Kept(items, outcomes) + if r.Rejected? then [] else [items[|outcomes|]]
  {
    assert (outcomes + [r])[..|outcomes|] == outcomes;
  }

  lemma ContentPush(p: Pipe, item: Item)
    requires ContentInv(p)
    ensures ContentInv(Pushed(p, item))
  {
    KeptSame(p.accepted, [item], p.outcomes);
  }

  lemma RecordsOneMore(log: Log, base: nat, items: seq<Item>, e: AuditEntry, item: Item)
    requires base <= |log| && RecordsAll(log[base..], items) && Records(e, item.draft)
    ensures RecordsAll((log + [e])[base..], items + [item])
  {
    assert (log + [e])[base..] == log[base..] + [e];
  }

  lemma ContentStore(H: HashFn, p: Pipe, closed: bool, a: Action)
    requires ContentInv(p) && QueueInv(p) && ConsumerEnabled(p, closed, a) && a.Store?
    ensures ContentInv(ConsumerStep(H, p, closed, a))
  {
    InHandIsNext(p);
    KeptSnoc(p.accepted, p.outcomes, a.r);
    RecordsOneMore(p.log, p.base, Kept(p.accepted, p.outcomes), p.consumer.entry, p.consumer.item);
  }

  lemma ContentOther(H: HashFn, p: Pipe, closed: bool, a: Action)
    requires ContentInv(p) && QueueInv(p) && ConsumerEnabled(p, closed, a) && !a.Store?
    ensures ContentInv(ConsumerStep(H, p, closed, a))
  {
    if a.Prepare? {
      InHandIsNext(p);
      KeptSnoc(p.accepted, p.outcomes, Rejected);
    }
  }

  // ----- publication -----------------------------------------------------------------------

  predicate Increasing(ps: seq<int>) {
    forall i, j :: 0 <= i < j < |ps| ==> ps[i] < ps[j]
  }

  /** Positions are published in order and only once, and the entry being handled is not yet among them. */
  ghost predicate PublishInv(p: Pipe) {
    && Increasing(p.published)
    && ((p.consumer.Stored? || p.consumer.Advanced?) ==> |p.log| > 0)
    && (forall i :: 0 <= i < |p.published| ==>
          0 <= p.published[i] < |p.log| - if p.consumer.Stored? || p.consumer.Advanced? then 1 else 0)
  }

  lemma PublishStep(H: HashFn, p: Pipe, closed: bool, a: Action)
    requires PublishInv(p) && ConsumerEnabled(p, closed, a)
    ensures PublishInv(ConsumerStep(H, p, closed, a))
  {
    if a.Prepare? { PrepareShape(H, p, closed); }
  }

  // ----- the chain -------------------------------------------------------------------------

  predicate SealedOn(H: HashFn, e: AuditEntry, head: Bytes) {
    e.prevHash == head && e.hash == ComputeHash(H, e)
  }

  ghost predicate ForkedAt(log: Log, q: nat, p: nat) {
    q < p < |log| && log[p].prevHash == Before(GENESIS, log, q)
  }

  /** The head belongs to a place in the log; until a fork, the log verifies. */
  ghost predicate ChainInv(H: HashFn, p: Pipe) {
    && p.mark <= |p.log| && p.head == Before(GENESIS, p.log, p.mark) && p.head != []
    && (forall i :: 0 <= i < |p.log| ==> p.log[i].hash != [])
    && (p.consumer.Prepared? ==> SealedOn(H, p.consumer.entry, p.head))
    && (p.consumer.Stored? ==> p.log != [] && p.log[|p.log| - 1] == p.consumer.entry)
    && (!p.forked ==> Verifies(H, p.log))
    && (p.forked ==> exists q, r :: ForkedAt(p.log, q, r))
  }

  lemma OneLinked(H: HashFn, anchor: Bytes, e: AuditEntry)
    requires SealedOn(H, e, anchor)
    ensures Chained(H, anchor, [e])
  {
  }

  lemma AppendLinked(H: HashFn, log: Log, e: AuditEntry)
    requires Verifies(H, log) && SealedOn(H, e, HeadOf(log))
    ensures Verifies(H, log + [e])
  {
    var longer := log + [e];
    assert longer[..|log|] == log && longer[|log|..] == [e];
    OneLinked(H, HeadOf(log), e);
    ChainedSplit(H, GENESIS, longer, |log|);
  }

  lemma ForkGrows(log: Log, e: AuditEntry, q: nat, r: nat)
    requires ForkedAt(log, q, r) || (q < |log| == r && e.prevHash == Before(GENESIS, log, q))
    ensures ForkedAt(log + [e], q, r)
  {
  }

  /** What a chain keeps when an entry sealed on the writer's head is appended. */
  lemma StoreGrows(H: HashFn, p: Pipe, e: AuditEntry)
    requires ChainInv(H, p) && SealedOn(H, e, p.head)
    ensures p.forked || p.mark < |p.log| ==> exists q, r :: ForkedAt(p.log + [e], q, r)
    ensures !(p.forked || p.mark < |p.log|) ==> Verifies(H, p.log + [e])
  {
    if p.forked {
      var q, r :| ForkedAt(p.log, q, r);
      ForkGrows(p.log, e, q, r);
    } else if p.mark < |p.log| {
      ForkGrows(p.log, e, p.mark, |p.log|);
    } else {
      AppendLinked(H, p.log, e);
    }
  }

  lemma BeforeKept(log: Log, e: AuditEntry, n: nat)
    requires n <= |log|
    ensures Before(GENESIS, log + [e], n) == Before(GENESIS, log, n)
  {
  }

  lemma ChainStore(H: HashFn, p: Pipe, closed: bool, a: Action)
    requires ChainInv(H, p) && ConsumerEnabled(p, closed, a) && a.Store?
    ensures ChainInv(H, ConsumerStep(H, p, closed, a))
  {
    if !a.r.Rejected? {
      StoreGrows(H, p, p.consumer.entry);
      BeforeKept(p.log, p.consumer.entry, p.mark);
    }
  }

  lemma ChainOther(H: HashFn, p: Pipe, closed: bool, a: Action)
    requires ChainInv(H, p) && ConsumerEnabled(p, closed, a) && !a.Store?
    ensures ChainInv(H, ConsumerStep(H, p, closed, a))
  {
  }

  // ----- replies ---------------------------------------------------------------------------

  /** The replies owed for settled items, in order: to each waiter, whether its entry was stored. */
  function Replies(items: seq<Item>, outcomes: seq<StoreResult>): seq<(CallerId, bool)>
    requires |outcomes| <= |items|
  {
    if outcomes == [] then []
    else
      var n := |outcomes| - 1;
      Replies(items, outcomes[..n])
      + if items[n].waiter.None? then [] else [(items[n].waiter.value, outcomes[n].Committed?)]
  }

  /** How many settled items have been answered: all but one whose reply is still to come. */
  function AnsweredCount(p: Pipe): int {
    if IsSettling(p.consumer) then |p.outcomes| - 1 else |p.outcomes|
  }

  /** Exactly the replies owed have been sent. */
  ghost predicate AnswerInv(p: Pipe) {
    && 0 <= AnsweredCount(p) && |p.outcomes| <= |p.accepted|
    && (!p.consumer.Dead? ==> p.answered == Replies(p.accepted, p.outcomes[..AnsweredCount(p)]))
  }

  lemma {:induction false} RepliesSame(items: seq<Item>, more: seq<Item>, outcomes: seq<StoreResult>)
    requires |outcomes| <= |items|
    ensures Replies(items + more, outcomes) == Replies(items, outcomes)
  {
    if outcomes == [] {
    } else {
      RepliesSame(items, more, outcomes[..|outcomes| - 1]);
    }
  }

  lemma RepliesSnoc(items: seq<Item>, outcomes: seq<StoreResult>, n: nat)
    requires n < |outcomes| <= |items|
    ensures Replies(items, outcomes[..n + 1])
         == Replies(items, outcomes[..n])
            + if items[n].waiter.None? then [] else [(items[n].waiter.value, outcomes[n].Committed?)]
  {
    assert outcomes[..n + 1][..n] == outcomes[..n];
  }

  lemma AnswerPush(p: Pipe, item: Item)
    requires AnswerInv(p)
    ensures AnswerInv(Pushed(p, item))
  {
    RepliesSame(p.accepted, [item], p.outcomes[..AnsweredCount(p)]);
  }

  lemma AnswerAnswer(H: HashFn, p: Pipe, closed: bool)
    requires AnswerInv(p) && QueueInv(p) && p.consumer.Answering?
    ensures AnswerInv(ConsumerStep(H, p, closed, Answer))
  {
    RepliesSnoc(p.accepted, p.outcomes, |p.outcomes| - 1);
  }

  lemma AnswerStep(H: HashFn, p: Pipe, closed: bool, a: Action)
    requires AnswerInv(p) && QueueInv(p) && ConsumerEnabled(p, closed, a) && !a.Answer?
    ensures AnswerInv(ConsumerStep(H, p, closed, a))
  {
    var n := |p.outcomes|;
    if a.Prepare? || a.Store? {
      InHandIsNext(p);
      var r := if a.Store? then a.r else Rejected;
      assert (p.outcomes + [r])[..n] == p.outcomes[..n];
      if a.Prepare? { PrepareShape(H, p, closed); } else { StoreShape(H, p, closed, r); }
    }
  }

  // ----- all of it -------------------------------------------------------------------------

  ghost predicate PipeInv(H: HashFn, p: Pipe) {
    QueueInv(p) && CountInv(p) && ContentInv(p) && PublishInv(p) && ChainInv(H, p) && AnswerInv(p)
  }

  lemma PipePush(H: HashFn, p: Pipe, item: Item)
    requires PipeInv(H, p) && !p.consumer.Dead? && |p.queue| < p.capacity
    ensures PipeInv(H, Pushed(p, item))
  {
    QueuePush(p, item);
    ContentPush(p, item);
    AnswerPush(p, item);
  }

  lemma PipeStep(H: HashFn, p: Pipe, closed: bool, a: Action)
    requires PipeInv(H, p) && ConsumerEnabled(p, closed, a)
    ensures PipeInv(H, ConsumerStep(H, p, closed, a))
  {
    QueueStep(H, p, closed, a);
    CountStep(H, p, closed, a);
    PublishStep(H, p, closed, a);
    if a.Answer? { AnswerAnswer(H, p, closed); } else { AnswerStep(H, p, closed, a); }
    if a.Store? {
      ContentStore(H, p, closed, a);
      ChainStore(H, p, closed, a);
    } else {
      ContentOther(H, p, closed, a);
      ChainOther(H, p, closed, a);
    }
  }

  lemma PipeKilled(H: HashFn, p: Pipe)
    requires PipeInv(H, p)
    ensures PipeInv(H, Killed(p))
  {
  }

  lemma PipeResumed(H: HashFn, p: Pipe, capacity: nat)
    requires PipeInv(H, p) && p.consumer.Dead? && capacity > 0
    ensures PipeInv(H, Resumed(p, capacity))
  {
  }
}
