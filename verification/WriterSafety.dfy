/**
 What every reachable state of the append pipeline satisfies, over any interleaving of callers,
 failures, closes, process deaths and restarts.
 */
module WriterSafety {
  import opened Wrappers
  import opened AuditEntries
  import opened AuditWriter
  import opened WriterPipe

  // ----- the lock and the closed queue -----------------------------------------------------

  predicate HoldsLock(call: Call) {
    call.Locked? || call.Open? || call.Sent? || call.Leaving?
  }

  /** Readers are exactly the callers inside; Close excludes them; an open writer stays open for them. */
  ghost predicate LockInv(f: Front) {
    && (forall c :: c in f.readers <==> c in f.calls && HoldsLock(f.calls[c]))
    && (f.closing ==> f.readers == {})
    && (forall c :: c in f.calls && f.calls[c].Open? ==> !f.closed)
  }

  lemma LockCaller(s: State, a: Action)
    requires LockInv(s.front) && CallerEnabled(s, a)
    ensures LockInv(CallerStep(s, a))
  {
  }

  // ----- callers and their items -----------------------------------------------------------

  /** Past its send, so never a sender again. */
  predicate PastSend(call: Call) {
    call.Sent? || call.Waiting? || call.Returned?
  }

  /** An item with a waiter belongs to a caller that has sent, and carries what that caller asked for. */
  predicate TicketOk(f: Front, item: Item) {
    item.waiter.Some? ==>
      var c := item.waiter.value;
      c in f.calls && PastSend(f.calls[c]) && c in f.drafts && f.drafts[c] == item.draft
  }

  predicate CallOk(f: Front, c: CallerId)
    requires c in f.calls
  {
    var call := f.calls[c];
    && c in f.drafts
    && ((call.Started? || call.Locked? || call.Open?) ==> call.draft == f.drafts[c])
    && (call.Leaving? ==> call.result != Durable)
  }

  /** No reply is waiting for an item that has not been answered. */
  predicate Unanswered(f: Front, item: Item) {
    item.waiter.Some? ==> item.waiter.value !in f.replies
  }

  ghost predicate CallInv(f: Front) {
    && (forall c :: c in f.calls ==> CallOk(f, c))
    && (forall c :: c in f.replies ==> c in f.calls && PastSend(f.calls[c]))
  }

  ghost predicate DistinctWaiters(items: seq<Item>) {
    forall i, j :: 0 <= i < j < |items| && items[i].waiter.Some? ==> items[i].waiter != items[j].waiter
  }

  ghost predicate TicketInv(f: Front, p: Pipe) {
    && (forall i :: 0 <= i < |p.accepted| ==> TicketOk(f, p.accepted[i]))
    && DistinctWaiters(p.accepted)
    && (!p.consumer.Dead? ==>
          forall i :: AnsweredCount(p) <= i < |p.accepted| && 0 <= i ==> Unanswered(f, p.accepted[i]))
  }

  lemma CallKept(s: State, a: Action, c: CallerId)
    requires CallerEnabled(s, a) && c in CallerStep(s, a).calls
    requires c in s.front.calls ==> CallOk(s.front, c)
    ensures CallOk(CallerStep(s, a), c)
  {
  }

  lemma PastSendKept(s: State, a: Action, c: CallerId)
    requires CallerEnabled(s, a) && c in s.front.calls && PastSend(s.front.calls[c])
    ensures c in CallerStep(s, a).calls && PastSend(CallerStep(s, a).calls[c])
  {
  }

  lemma CallCaller(s: State, a: Action)
    requires CallInv(s.front) && CallerEnabled(s, a)
    ensures CallInv(CallerStep(s, a))
  {
    var f := CallerStep(s, a);
    assert s.front.calls.Keys <= f.calls.Keys && f.replies.Keys <= s.front.replies.Keys;
    forall c | c in f.calls ensures CallOk(f, c) { CallKept(s, a, c); }
    forall c | c in s.front.calls && PastSend(s.front.calls[c]) ensures PastSend(f.calls[c]) { PastSendKept(s, a, c); }
  }

  lemma TicketKept(s: State, a: Action, item: Item)
    requires TicketOk(s.front, item) && CallerEnabled(s, a)
    ensures TicketOk(CallerStep(s, a), item)
    ensures Unanswered(s.front, item) ==> Unanswered(CallerStep(s, a), item)
  {
  }

  lemma TicketCaller(s: State, a: Action)
    requires TicketInv(s.front, s.pipe) && CallerEnabled(s, a)
    ensures TicketInv(CallerStep(s, a), s.pipe)
  {
    forall i | 0 <= i < |s.pipe.accepted|
      ensures TicketOk(CallerStep(s, a), s.pipe.accepted[i])
      ensures Unanswered(s.front, s.pipe.accepted[i]) ==> Unanswered(CallerStep(s, a), s.pipe.accepted[i])
    {
      TicketKept(s, a, s.pipe.accepted[i]);
    }
  }

  lemma TicketSend(s: State, c: CallerId)
    requires TicketInv(s.front, s.pipe) && CallInv(s.front) && CallerEnabled(s, Send(c))
    ensures TicketInv(CallerStep(s, Send(c)), Pushed(s.pipe, SentItem(s.front, c)))
  {
    TicketCaller(s, Send(c));
    var item := SentItem(s.front, c);
    var f := CallerStep(s, Send(c));
    assert CallOk(s.front, c) && TicketOk(f, item) && Unanswered(f, item);
    forall i | 0 <= i < |s.pipe.accepted| && s.pipe.accepted[i].waiter.Some?
      ensures s.pipe.accepted[i].waiter != item.waiter
    {
      assert TicketOk(s.front, s.pipe.accepted[i]);
    }
  }

  /** The consumer's reply never finds the channel full. */
  lemma ReplyNeverBlocks(s: State)
    requires TicketInv(s.front, s.pipe) && QueueInv(s.pipe) && s.pipe.consumer.Answering?
    ensures !ReplyBlocks(s)
  {
    assert Unanswered(s.front, s.pipe.accepted[|s.pipe.outcomes| - 1]);
  }

  lemma TicketAnswer(H: HashFn, s: State)
    requires TicketInv(s.front, s.pipe) && QueueInv(s.pipe) && s.pipe.consumer.Answering?
    ensures TicketInv(Replied(s.front, s.pipe.consumer), ConsumerStep(H, s.pipe, s.front.closed, Answer))
  {
    var n := |s.pipe.outcomes|;
    var f := Replied(s.front, s.pipe.consumer);
    forall i | 0 <= i < |s.pipe.accepted|
      ensures TicketOk(f, s.pipe.accepted[i]) && (n <= i ==> Unanswered(f, s.pipe.accepted[i]))
    {
      assert TicketOk(s.front, s.pipe.accepted[i]);
      if n <= i { assert Unanswered(s.front, s.pipe.accepted[i]); }
    }
  }

  lemma TicketConsumer(H: HashFn, s: State, a: Action)
    requires TicketInv(s.front, s.pipe) && ConsumerEnabled(s.pipe, s.front.closed, a) && !a.Answer?
    requires QueueInv(s.pipe)
    ensures TicketInv(s.front, ConsumerStep(H, s.pipe, s.front.closed, a))
  {
    var p := ConsumerStep(H, s.pipe, s.front.closed, a);
    assert p.accepted == s.pipe.accepted && AnsweredCount(p) >= AnsweredCount(s.pipe);
  }

  // ----- durability ------------------------------------------------------------------------

  /** The stored entry of a synchronous caller is where the history says, and records what was asked. */
  predicate PlaceOk(f: Front, p: Pipe, c: CallerId)
    requires c in p.places
  {
    && p.places[c] < |p.log|
    && c in f.calls && c in f.drafts && Records(p.log[p.places[c]], f.drafts[c])
  }

  /** No entry serves two callers. */
  ghost predicate DistinctPlaces(places: map<CallerId, nat>) {
    forall c, d :: c in places && d in places && c != d ==> places[c] != places[d]
  }

  /** A caller told that its entry is stored, or about to be told, is told the truth. */
  predicate ToldDurable(f: Front, c: CallerId) {
    (c in f.calls && f.calls[c] == Returned(Durable)) || (c in f.replies && f.replies[c])
  }

  ghost predicate PlaceInv(f: Front, p: Pipe) {
    DistinctPlaces(p.places) && forall c :: c in p.places ==> PlaceOk(f, p, c)
  }

  ghost predicate DurableInv(f: Front, p: Pipe) {
    && PlaceInv(f, p)
    && (forall c :: ToldDurable(f, c) ==> c in p.places)
    && (SettledOk(p.consumer) && p.consumer.item.waiter.Some? ==> p.consumer.item.waiter.value in p.places)
  }

  lemma DurableCaller(s: State, a: Action)
    requires DurableInv(s.front, s.pipe) && CallInv(s.front) && CallerEnabled(s, a)
    ensures DurableInv(CallerStep(s, a), s.pipe)
  {
    var f := CallerStep(s, a);
    forall c | ToldDurable(f, c) ensures ToldDurable(s.front, c) { ToldByConsumerOnly(s, a, c); }
    forall c | c in s.pipe.places ensures PlaceOk(f, s.pipe, c) {
      assert PlaceOk(s.front, s.pipe, c);
      DraftKept(s, a, c);
    }
  }

  lemma DraftKept(s: State, a: Action, c: CallerId)
    requires CallerEnabled(s, a) && c in s.front.calls && c in s.front.drafts
    ensures var f := CallerStep(s, a); c in f.calls && c in f.drafts && f.drafts[c] == s.front.drafts[c]
  {
  }

  /** No step of a caller makes anybody believe that an entry is stored. */
  lemma ToldByConsumerOnly(s: State, a: Action, c: CallerId)
    requires CallInv(s.front) && CallerEnabled(s, a) && ToldDurable(CallerStep(s, a), c)
    ensures ToldDurable(s.front, c)
  {
    if c in s.front.calls { assert CallOk(s.front, c); }
  }

  lemma PlaceStore(f: Front, p: Pipe, r: StoreResult)
    requires PlaceInv(f, p) && p.consumer.Prepared?
    requires TicketOk(f, p.consumer.item) && Records(p.consumer.entry, p.consumer.item.draft)
    ensures PlaceInv(f, WithStored(p, r))
  {
    var q := WithStored(p, r);
    forall c | c in q.places ensures PlaceOk(f, q, c) {
      if c in p.places { assert PlaceOk(f, p, c); }
    }
    forall c, d | c in q.places && d in q.places && c != d ensures q.places[c] != q.places[d] {
      if c in p.places { assert PlaceOk(f, p, c); }
      if d in p.places { assert PlaceOk(f, p, d); }
    }
  }

  lemma DurableStore(H: HashFn, s: State, r: StoreResult)
    requires DurableInv(s.front, s.pipe) && ContentInv(s.pipe) && TicketInv(s.front, s.pipe) && QueueInv(s.pipe)
    requires ConsumerEnabled(s.pipe, s.front.closed, Store(r))
    ensures DurableInv(s.front, ConsumerStep(H, s.pipe, s.front.closed, Store(r)))
  {
    InHandIsNext(s.pipe);
    assert TicketOk(s.front, s.pipe.accepted[|s.pipe.outcomes|]);
    StoreShape(H, s.pipe, s.front.closed, r);
    PlaceStore(s.front, s.pipe, r);
    SamePlaces(s.front, WithStored(s.pipe, r), ConsumerStep(H, s.pipe, s.front.closed, Store(r)));
  }

  lemma SamePlaces(f: Front, p: Pipe, q: Pipe)
    requires PlaceInv(f, p) && q.log == p.log && q.places == p.places
    ensures PlaceInv(f, q)
  {
    forall c | c in q.places ensures PlaceOk(f, q, c) { assert PlaceOk(f, p, c); }
  }

  lemma DurableConsumer(H: HashFn, s: State, a: Action)
    requires DurableInv(s.front, s.pipe) && ConsumerEnabled(s.pipe, s.front.closed, a) && !a.Store? && !a.Answer?
    ensures DurableInv(s.front, ConsumerStep(H, s.pipe, s.front.closed, a))
  {
    if a.Prepare? { PrepareShape(H, s.pipe, s.front.closed); }
    SamePlaces(s.front, s.pipe, ConsumerStep(H, s.pipe, s.front.closed, a));
  }

  lemma DurableAnswer(f: Front, p: Pipe, q: Pipe)
    requires DurableInv(f, p) && p.consumer.Answering?
    requires q.log == p.log && q.places == p.places && q.consumer.Idle?
    ensures DurableInv(Replied(f, p.consumer), q)
  {
    var g := Replied(f, p.consumer);
    forall c | ToldDurable(g, c) ensures c in p.places { ToldBefore(f, p.consumer, c); }
    forall c | c in q.places ensures PlaceOk(g, q, c) { assert PlaceOk(f, p, c); }
  }

  lemma ToldBefore(f: Front, consumer: Consumer, c: CallerId)
    requires consumer.Answering? && ToldDurable(Replied(f, consumer), c)
    ensures ToldDurable(f, c) || (consumer.item.waiter == Some(c) && consumer.ok)
  {
  }

  // ----- calls counted ---------------------------------------------------------------------

  function CountAsync(items: seq<Item>): nat {
    if items == [] then 0
    else CountAsync(items[..|items| - 1]) + if items[|items| - 1].waiter.None? then 1 else 0
  }

  /** Every Record call that was decided is in the queue history or in the drop counter. */
  ghost predicate DropInv(f: Front, p: Pipe) {
    f.recordCalls == f.dropped + CountAsync(p.accepted)
  }

  lemma CountAsyncSnoc(items: seq<Item>, item: Item)
    ensures CountAsync(items + [item]) == CountAsync(items) + if item.waiter.None? then 1 else 0
  {
    assert (items + [item])[..|items|] == items;
  }

  /** The consumer leaves only a closed and empty queue behind. */
  predicate ExitInv(f: Front, p: Pipe) {
    p.consumer.Exited? ==> f.closed && p.queue == []
  }

  /** With its process every call is over. */
  ghost predicate DeadInv(f: Front, p: Pipe) {
    p.consumer.Dead? ==> forall c :: c in f.calls ==> f.calls[c].Returned?
  }

  lemma RestCaller(s: State, a: Action)
    requires DropInv(s.front, s.pipe) && ExitInv(s.front, s.pipe) && DeadInv(s.front, s.pipe)
    requires CallerEnabled(s, a) && !a.Send?
    ensures var f := CallerStep(s, a); DropInv(f, s.pipe) && ExitInv(f, s.pipe) && DeadInv(f, s.pipe)
  {
  }

  // ----- all of it -------------------------------------------------------------------------

  ghost predicate Inv(H: HashFn, s: State) {
    && PipeInv(H, s.pipe)
    && LockInv(s.front) && CallInv(s.front)
    && TicketInv(s.front, s.pipe) && DurableInv(s.front, s.pipe) && DropInv(s.front, s.pipe)
    && ExitInv(s.front, s.pipe) && DeadInv(s.front, s.pipe)
  }

  /** An empty store, no process and no callers yet. */
  predicate IsEmpty(s: State) {
    && s.front.readers == {} && !s.front.closing && s.front.calls == map[] && s.front.replies == map[]
    && s.front.dropped == 0 && s.front.recordCalls == 0
    && s.pipe.consumer.Dead? && s.pipe.queue == [] && s.pipe.log == [] && s.pipe.head == GENESIS && s.pipe.mark == 0 && s.pipe.base == 0
    && s.pipe.published == [] && s.pipe.accepted == [] && s.pipe.outcomes == [] && s.pipe.places == map[] && !s.pipe.forked
  }

  lemma InvEmpty(H: HashFn, s: State)
    requires IsEmpty(s)
    ensures Inv(H, s)
  {
  }

  lemma InitialIsEmpty()
    ensures IsEmpty(INITIAL)
  {
  }

  lemma InvInitial(H: HashFn)
    ensures Inv(H, INITIAL)
  {
    InitialIsEmpty();
    InvEmpty(H, INITIAL);
  }

  lemma InvSend(H: HashFn, s: State, c: CallerId)
    requires Inv(H, s) && CallerEnabled(s, Send(c))
    ensures Inv(H, Apply(H, s, Send(c)))
  {
    var item := SentItem(s.front, c);
    PipePush(H, s.pipe, item);
    LockCaller(s, Send(c));
    CallCaller(s, Send(c));
    TicketSend(s, c);
    DurableCaller(s, Send(c));
    CountAsyncSnoc(s.pipe.accepted, item);
  }

  lemma InvCaller(H: HashFn, s: State, a: Action)
    requires Inv(H, s) && CallerEnabled(s, a) && !a.Send?
    ensures Inv(H, Apply(H, s, a))
  {
    LockCaller(s, a);
    CallCaller(s, a);
    TicketCaller(s, a);
    DurableCaller(s, a);
    RestCaller(s, a);
  }

  lemma ApplyConsumer(H: HashFn, s: State, a: Action)
    requires ConsumerEnabled(s.pipe, s.front.closed, a) && !a.Answer?
    ensures Enabled(s, a) && Apply(H, s, a) == State(s.front, ConsumerStep(H, s.pipe, s.front.closed, a))
    ensures !ConsumerStep(H, s.pipe, s.front.closed, a).consumer.Dead?
    ensures ConsumerStep(H, s.pipe, s.front.closed, a).accepted == s.pipe.accepted
  {
  }

  lemma InvConsumer(H: HashFn, s: State, a: Action)
    requires Inv(H, s) && ConsumerEnabled(s.pipe, s.front.closed, a) && !a.Answer?
    ensures Inv(H, Apply(H, s, a))
  {
    ApplyConsumer(H, s, a);
    PipeStep(H, s.pipe, s.front.closed, a);
    TicketConsumer(H, s, a);
    DurableStep(H, s, a);
    ExitStep(H, s.front, s.pipe, a);
  }

  lemma DurableStep(H: HashFn, s: State, a: Action)
    requires DurableInv(s.front, s.pipe) && ContentInv(s.pipe) && TicketInv(s.front, s.pipe) && QueueInv(s.pipe)
    requires ConsumerEnabled(s.pipe, s.front.closed, a) && !a.Answer?
    ensures DurableInv(s.front, ConsumerStep(H, s.pipe, s.front.closed, a))
  {
    if a.Store? { DurableStore(H, s, a.r); } else { DurableConsumer(H, s, a); }
  }

  lemma ExitStep(H: HashFn, f: Front, p: Pipe, a: Action)
    requires ConsumerEnabled(p, f.closed, a)
    ensures ExitInv(f, ConsumerStep(H, p, f.closed, a))
  {
    if a.Prepare? { PrepareShape(H, p, f.closed); }
  }

  lemma CallAnswer(s: State)
    requires CallInv(s.front) && TicketInv(s.front, s.pipe) && QueueInv(s.pipe) && s.pipe.consumer.Answering?
    ensures CallInv(Replied(s.front, s.pipe.consumer))
  {
    var f := Replied(s.front, s.pipe.consumer);
    assert TicketOk(s.front, s.pipe.accepted[|s.pipe.outcomes| - 1]);
    forall c | c in f.calls ensures CallOk(f, c) { assert CallOk(s.front, c); }
  }

  lemma InvAnswer(H: HashFn, s: State)
    requires Inv(H, s) && Enabled(s, Answer)
    ensures Inv(H, Apply(H, s, Answer))
  {
    PipeStep(H, s.pipe, s.front.closed, Answer);
    CallAnswer(s);
    TicketAnswer(H, s);
    DurableAnswer(s.front, s.pipe, ConsumerStep(H, s.pipe, s.front.closed, Answer));
  }

  /** Closing changes nothing that durability depends on, nor does a fresh start. */
  lemma DurableClose(f: Front, g: Front, p: Pipe)
    requires DurableInv(f, p) && g.calls == f.calls && g.drafts == f.drafts && g.replies == f.replies
    ensures DurableInv(g, p)
  {
    forall c | ToldDurable(g, c) ensures ToldDurable(f, c) {}
    forall c | c in p.places ensures PlaceOk(g, p, c) { assert PlaceOk(f, p, c); }
  }

  lemma InvClose(H: HashFn, s: State, a: Action)
    requires Inv(H, s) && Enabled(s, a) && (a.CloseLock? || a.CloseBody? || a.CloseUnlock?)
    ensures Inv(H, Apply(H, s, a))
  {
    var f := Apply(H, s, a).front;
    CallsClose(s.front, f, s.pipe);
    DurableClose(s.front, f, s.pipe);
  }

  lemma CallsClose(f: Front, g: Front, p: Pipe)
    requires CallInv(f) && TicketInv(f, p) && g.calls == f.calls && g.drafts == f.drafts && g.replies == f.replies
    ensures CallInv(g) && TicketInv(g, p)
  {
    forall c | c in g.calls ensures CallOk(g, c) { assert CallOk(f, c); }
    forall i | 0 <= i < |p.accepted|
      ensures TicketOk(g, p.accepted[i]) && (Unanswered(f, p.accepted[i]) ==> Unanswered(g, p.accepted[i]))
    {
      assert TicketOk(f, p.accepted[i]);
    }
  }

  lemma FrontCrash(f: Front, p: Pipe)
    requires CallInv(f) && TicketInv(f, p) && DurableInv(f, p)
    ensures LockInv(Orphaned(f)) && CallInv(Orphaned(f))
    ensures TicketInv(Orphaned(f), Killed(p)) && DurableInv(Orphaned(f), Killed(p))
  {
    var g := Orphaned(f);
    forall c | c in g.calls ensures CallOk(g, c) { assert CallOk(f, c); }
    forall i | 0 <= i < |p.accepted| ensures TicketOk(g, p.accepted[i]) { assert TicketOk(f, p.accepted[i]); }
    forall c | ToldDurable(g, c) ensures ToldDurable(f, c) {}
    forall c | c in p.places ensures PlaceOk(g, Killed(p), c) { assert PlaceOk(f, p, c); }
  }

  lemma InvCrash(H: HashFn, s: State)
    requires Inv(H, s) && Enabled(s, Crash)
    ensures Inv(H, Apply(H, s, Crash))
  {
    PipeKilled(H, s.pipe);
    FrontCrash(s.front, s.pipe);
  }

  lemma InvRestart(H: HashFn, s: State, a: Action)
    requires Inv(H, s) && Enabled(s, a) && a.Restart?
    ensures Inv(H, Apply(H, s, a))
  {
    PipeResumed(H, s.pipe, a.capacity);
    var f := Apply(H, s, a).front;
    forall c | c in f.calls ensures CallOk(f, c) { assert CallOk(s.front, c); }
    DurableClose(s.front, f, s.pipe);
    SamePlaces(f, s.pipe, Resumed(s.pipe, a.capacity));
  }

  lemma InvStep(H: HashFn, s: State, a: Action)
    requires Inv(H, s) && Enabled(s, a)
    ensures Inv(H, Apply(H, s, a))
  {
    if a.Send? {
      InvSend(H, s, a.c);
    } else if IsCallerAction(a) {
      InvCaller(H, s, a);
    } else if a.Answer? {
      InvAnswer(H, s);
    } else if IsConsumerAction(a) {
      InvConsumer(H, s, a);
    } else if a.Crash? {
      InvCrash(H, s);
    } else if a.Restart? {
      InvRestart(H, s, a);
    } else {
      InvClose(H, s, a);
    }
  }

  lemma {:induction false} InvRun(H: HashFn, s: State, run: seq<Action>)
    requires Inv(H, s) && IsRun(H, s, run)
    ensures Inv(H, EndOf(H, s, run))
    decreases |run|
  {
    if run == [] {
    } else {
      InvStep(H, s, run[0]);
      InvRun(H, Apply(H, s, run[0]), run[1..]);
    }
  }
}
