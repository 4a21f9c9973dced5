/**
 The promises of the audit writer, stated over whole runs from an empty store.
 */
module WriterTheorems {
  import opened Wrappers
  import opened CanonicalText
  import opened AuditEntries
  import opened Chain
  import opened AuditWriter
  import opened WriterPipe
  import opened WriterSafety

  // ----- reachable states ------------------------------------------------------------------

  ghost predicate LeadsTo(H: HashFn, s: State, run: seq<Action>, t: State) {
    IsRun(H, s, run) && EndOf(H, s, run) == t
  }

  lemma LeadsToTail(H: HashFn, s: State, run: seq<Action>, t: State)
    requires LeadsTo(H, s, run, t) && run != []
    ensures Enabled(s, run[0]) && LeadsTo(H, Apply(H, s, run[0]), run[1..], t)
  {
  }

  /** Some run of the system from an empty store ends here. */
  ghost predicate Reachable(H: HashFn, s: State) {
    exists run :: LeadsTo(H, INITIAL, run, s)
  }

  lemma RunKeepsInv(H: HashFn, s: State, run: seq<Action>, t: State)
    requires Inv(H, s) && LeadsTo(H, s, run, t)
    ensures Inv(H, t)
  {
    InvRun(H, s, run);
  }

  lemma ReachableInv(H: HashFn, s: State)
    requires Reachable(H, s)
    ensures Inv(H, s)
  {
    var run :| LeadsTo(H, INITIAL, run, s);
    InvInitial(H);
    RunKeepsInv(H, INITIAL, run, s);
  }

  // ----- the chain -------------------------------------------------------------------------

  /** The store never commits an append that it reports as failed. */
  ghost predicate StoreIsHonest(run: seq<Action>) {
    forall i :: 0 <= i < |run| ==> run[i] != Store(Unacknowledged)
  }

  ghost predicate ReachableWithHonestStore(H: HashFn, s: State) {
    exists run :: LeadsTo(H, INITIAL, run, s) && StoreIsHonest(run)
  }

  ghost predicate SyncedInv(p: Pipe) {
    && !p.forked
    && (!p.consumer.Dead? ==> p.mark + (if p.consumer.Stored? then 1 else 0) == |p.log|)
  }

  lemma SyncedStep(H: HashFn, s: State, a: Action)
    requires SyncedInv(s.pipe) && Enabled(s, a) && a != Store(Unacknowledged)
    ensures SyncedInv(Apply(H, s, a).pipe)
  {
  }

  lemma {:induction false} SyncedRun(H: HashFn, s: State, run: seq<Action>, t: State)
    requires SyncedInv(s.pipe) && LeadsTo(H, s, run, t) && StoreIsHonest(run)
    ensures SyncedInv(t.pipe)
    decreases |run|
  {
    if run == [] {
    } else {
      assert run[0] != Store(Unacknowledged);
      SyncedStep(H, s, run[0]);
      assert forall i :: 0 <= i < |run[1..]| ==> run[1..][i] == run[i + 1];
      SyncedRun(H, Apply(H, s, run[0]), run[1..], t);
    }
  }

  lemma HonestIsSynced(H: HashFn, s: State)
    requires ReachableWithHonestStore(H, s)
    ensures Reachable(H, s) && SyncedInv(s.pipe)
  {
    var run :| LeadsTo(H, INITIAL, run, s) && StoreIsHonest(run);
    SyncedRun(H, INITIAL, run, s);
  }

  /**
   With a store that keeps nothing it reports as failed: in every reachable state the log verifies
   from genesis, and between appends the writer's head is the store's.
   */
  lemma LogAlwaysVerifies(H: HashFn, s: State)
    requires ReachableWithHonestStore(H, s)
    ensures Walk(H, GENESIS, s.pipe.log) == Intact(|s.pipe.log|)
    ensures !s.pipe.consumer.Dead? && !s.pipe.consumer.Stored? ==> s.pipe.head == HeadOf(s.pipe.log)
  {
    HonestIsSynced(H, s);
    ReachableInv(H, s);
    SyncedVerifies(H, s.pipe);
  }

  lemma SyncedVerifies(H: HashFn, p: Pipe)
    requires ChainInv(H, p) && SyncedInv(p)
    ensures Walk(H, GENESIS, p.log) == Intact(|p.log|)
    ensures !p.consumer.Dead? && !p.consumer.Stored? ==> p.head == HeadOf(p.log)
  {
    WalkAccepts(H, GENESIS, 0, p.log);
    assert !p.consumer.Dead? && !p.consumer.Stored? ==> p.mark == |p.log|;
  }

  /** A link to an earlier place in the log is one that no chain without colliding digests has. */
  lemma ForkBreaksChain(H: HashFn, log: Log, q: nat, r: nat)
    requires ForkedAt(log, q, r) && Verifies(H, log) && AllStorable(log)
    ensures HashBroken(H, log, log)
  {
    assert EntryOk(H, GENESIS, log, r);
    HeadsDiffer(H, log, q, r);
  }

  // Which runs fork the log, read off the actions alone.

  /** Whether the writer's head has fallen behind the store: an append took effect that it was told had failed. */
  function StaleAfter(a: Action, stale: bool): bool {
    if a == Store(Unacknowledged) then true else if a.Advance? || a.Restart? then false else stale
  }

  /** Something is appended while the head is behind. */
  predicate ForkedBy(run: seq<Action>, stale: bool)
    decreases |run|
  {
    run != [] && ((stale && run[0].Store? && !run[0].r.Rejected?) || ForkedBy(run[1..], StaleAfter(run[0], stale)))
  }

  ghost predicate HeadBehind(p: Pipe) {
    !p.consumer.Dead? && p.mark + (if p.consumer.Stored? then 1 else 0) < |p.log|
  }

  /** While a process runs, the actions so far say whether its head is behind. */
  ghost predicate StaleInv(p: Pipe, stale: bool) {
    !p.consumer.Dead? ==> p.mark + (if p.consumer.Stored? then 1 else 0) <= |p.log| && (stale <==> HeadBehind(p))
  }

  lemma StaleConsumerStep(H: HashFn, p: Pipe, closed: bool, a: Action, stale: bool)
    requires StaleInv(p, stale) && ConsumerEnabled(p, closed, a)
    ensures var q := ConsumerStep(H, p, closed, a);
      && StaleInv(q, StaleAfter(a, stale))
      && (q.forked <==> p.forked || (stale && a.Store? && !a.r.Rejected?))
  {
    if a.Prepare? { PrepareShape(H, p, closed); }
  }

  lemma StaleStep(H: HashFn, s: State, a: Action, stale: bool)
    requires StaleInv(s.pipe, stale) && Enabled(s, a)
    ensures var t := Apply(H, s, a);
      && StaleInv(t.pipe, StaleAfter(a, stale))
      && (t.pipe.forked <==> s.pipe.forked || (stale && a.Store? && !a.r.Rejected?))
  {
    if IsConsumerAction(a) { StaleConsumerStep(H, s.pipe, s.front.closed, a, stale); }
  }

  lemma {:induction false} ForkedExactly(H: HashFn, s: State, run: seq<Action>, t: State, stale: bool)
    requires LeadsTo(H, s, run, t) && StaleInv(s.pipe, stale)
    ensures t.pipe.forked <==> s.pipe.forked || ForkedBy(run, stale)
    decreases |run|
  {
    if run == [] {
    } else {
      LeadsToTail(H, s, run, t);
      StaleStep(H, s, run[0], stale);
      ForkedExactly(H, Apply(H, s, run[0]), run[1..], t, StaleAfter(run[0], stale));
    }
  }

  // What the writer stores is what a store can return.

  predicate NormalAt(log: Log, i: nat)
    requires i < |log|
  {
    NormalPayload(log[i].payload)
  }

  ghost predicate NormalInv(p: Pipe) {
    && (forall i :: 0 <= i < |p.log| ==> NormalAt(p.log, i))
    && (p.consumer.Prepared? ==> NormalPayload(p.consumer.entry.payload))
  }

  lemma NormalConsumerStep(H: HashFn, p: Pipe, closed: bool, a: Action)
    requires NormalInv(p) && ConsumerEnabled(p, closed, a)
    ensures NormalInv(ConsumerStep(H, p, closed, a))
  {
    var q := ConsumerStep(H, p, closed, a);
    forall i | 0 <= i < |q.log| ensures NormalAt(q.log, i) {
      if i < |p.log| { assert NormalAt(p.log, i); }
    }
  }

  lemma {:induction false} NormalRun(H: HashFn, s: State, run: seq<Action>, t: State)
    requires LeadsTo(H, s, run, t) && NormalInv(s.pipe)
    ensures NormalInv(t.pipe)
    decreases |run|
  {
    if run == [] {
    } else {
      LeadsToTail(H, s, run, t);
      if IsConsumerAction(run[0]) { NormalConsumerStep(H, s.pipe, s.front.closed, run[0]); }
      NormalRun(H, Apply(H, s, run[0]), run[1..], t);
    }
  }

  /** No field of any entry is too long for its 64-bit length prefix. */
  predicate AllFit(log: Log) {
    forall i :: 0 <= i < |log| ==> FitsAt(log, i)
  }

  predicate FitsAt(log: Log, i: nat)
    requires i < |log|
  {
    Fits(log[i])
  }

  lemma NormalAndFitting(log: Log)
    requires AllFit(log) && forall i :: 0 <= i < |log| ==> NormalAt(log, i)
    ensures AllStorable(log)
  {
    forall i | 0 <= i < |log| ensures StorableAt(log, i) {
      assert NormalAt(log, i) && FitsAt(log, i);
    }
  }

  lemma ForkShows(H: HashFn, p: Pipe)
    requires ChainInv(H, p) && AllStorable(p.log)
    ensures (Walk(H, GENESIS, p.log).Intact? <==> !p.forked) || HashBroken(H, p.log, p.log)
  {
    WalkAccepts(H, GENESIS, 0, p.log);
    if p.forked && Verifies(H, p.log) {
      var q, r :| ForkedAt(p.log, q, r);
      ForkBreaksChain(H, p.log, q, r);
    }
  }

  /**
   With any store whose appends take effect, if they do, before it answers anything else: the log
   verifies exactly unless something was appended while the writer's head was behind, after an append
   that took effect although the store reported an error.
   */
  lemma LogVerifiesUnlessForked(H: HashFn, run: seq<Action>, s: State)
    requires LeadsTo(H, INITIAL, run, s) && AllFit(s.pipe.log)
    ensures (Walk(H, GENESIS, s.pipe.log).Intact? <==> !ForkedBy(run, false)) || HashBroken(H, s.pipe.log, s.pipe.log)
  {
    assert Reachable(H, s);
    ReachableInv(H, s);
    ForkedFromStart(H, run, s);
    NormalFromStart(H, run, s);
    NormalAndFitting(s.pipe.log);
    ForkShows(H, s.pipe);
  }

  lemma ForkedFromStart(H: HashFn, run: seq<Action>, s: State)
    requires LeadsTo(H, INITIAL, run, s)
    ensures s.pipe.forked <==> ForkedBy(run, false)
  {
    ForkedExactly(H, INITIAL, run, s, false);
  }

  lemma NormalFromStart(H: HashFn, run: seq<Action>, s: State)
    requires LeadsTo(H, INITIAL, run, s)
    ensures NormalInv(s.pipe)
  {
    NormalRun(H, INITIAL, run, s);
  }

  // One such run: two entries are queued, the append of the first takes effect but is reported as failed.

  lemma {:induction false} OneMore(H: HashFn, s: State, run: seq<Action>, t: State, a: Action)
    requires LeadsTo(H, s, run, t) && Enabled(t, a)
    ensures LeadsTo(H, s, run + [a], Apply(H, t, a))
    decreases |run|
  {
    if run == [] {
      assert run + [a] == [a] && [a][1..] == [];
    } else {
      LeadsToTail(H, s, run, t);
      OneMore(H, Apply(H, s, run[0]), run[1..], t, a);
      assert (run + [a])[1..] == run[1..] + [a];
    }
  }

  /** A caller of Record gets as far as the queue. */
  lemma Queues(H: HashFn, run: seq<Action>, s: State, c: CallerId, draft: AuditEntry)
    returns (longer: seq<Action>, t: State)
    requires LeadsTo(H, INITIAL, run, s) && c !in s.front.calls && !s.front.closing && !s.front.closed
    requires !s.pipe.consumer.Dead? && |s.pipe.queue| < s.pipe.capacity
    ensures LeadsTo(H, INITIAL, longer, t) && t.pipe == Pushed(s.pipe, Item(draft, None))
    ensures !t.front.closing && !t.front.closed && t.front.calls.Keys == s.front.calls.Keys + {c}
  {
    longer, t := Does(H, run, s, Begin(c, draft, false));
    longer, t := Does(H, longer, t, Lock(c));
    longer, t := Does(H, longer, t, Look(c));
    longer, t := Does(H, longer, t, Send(c));
  }

  lemma Does(H: HashFn, run: seq<Action>, s: State, a: Action) returns (longer: seq<Action>, t: State)
    requires LeadsTo(H, INITIAL, run, s) && Enabled(s, a)
    ensures LeadsTo(H, INITIAL, longer, t) && t == Apply(H, s, a)
  {
    OneMore(H, INITIAL, run, s, a);
    longer, t := run + [a], Apply(H, s, a);
  }

  /** The consumer takes an item nobody waits for to the store, which answers r. */
  lemma Stores(H: HashFn, run: seq<Action>, s: State, r: StoreResult) returns (longer: seq<Action>, t: State)
    requires LeadsTo(H, INITIAL, run, s) && s.pipe.consumer.Idle? && s.pipe.queue != []
    requires Plain(s.pipe.queue[0]) && !r.Rejected?
    ensures LeadsTo(H, INITIAL, longer, t)
    ensures t.pipe.queue == s.pipe.queue[1..] && t.pipe.mark == s.pipe.mark && t.pipe.head == s.pipe.head
    ensures |t.pipe.log| == |s.pipe.log| + 1 && t.pipe.log[..|s.pipe.log|] == s.pipe.log
    ensures s.pipe.head != [] ==> SealedOn(H, t.pipe.log[|s.pipe.log|], s.pipe.head)
    ensures t.pipe.forked == (s.pipe.forked || s.pipe.mark < |s.pipe.log|)
    ensures r.Unacknowledged? ==> t.pipe.consumer.Answering? && t.pipe.consumer.item == s.pipe.queue[0]
  {
    longer, t := Does(H, run, s, Take);
    longer, t := Prepares(H, longer, t);
    StoreShape(H, t.pipe, t.front.closed, r);
    longer, t := Does(H, longer, t, Store(r));
  }

  lemma Prepares(H: HashFn, run: seq<Action>, s: State) returns (longer: seq<Action>, t: State)
    requires LeadsTo(H, INITIAL, run, s) && s.pipe.consumer.Taken? && Plain(s.pipe.consumer.item)
    ensures LeadsTo(H, INITIAL, longer, t) && t.pipe.consumer.Prepared? && t.pipe.consumer.item == s.pipe.consumer.item
    ensures t.pipe == s.pipe.(consumer := t.pipe.consumer)
    ensures s.pipe.head != [] ==> SealedOn(H, t.pipe.consumer.entry, s.pipe.head)
  {
    longer, t := Does(H, run, s, Prepare);
  }

  lemma AnswersNobody(H: HashFn, run: seq<Action>, s: State) returns (longer: seq<Action>, t: State)
    requires LeadsTo(H, INITIAL, run, s) && s.pipe.consumer.Answering? && s.pipe.consumer.item.waiter.None?
    ensures LeadsTo(H, INITIAL, longer, t) && t.pipe == s.pipe.(consumer := Idle)
  {
    longer, t := Does(H, run, s, Answer);
  }

  lemma StartsEmpty(H: HashFn, capacity: nat) returns (run: seq<Action>, s: State)
    requires capacity > 0
    ensures LeadsTo(H, INITIAL, run, s) && s.pipe.consumer.Idle? && s.pipe.queue == [] && s.pipe.capacity == capacity
    ensures s.pipe.log == [] && s.pipe.head == GENESIS && s.pipe.mark == 0 && !s.front.closing && !s.front.closed && s.front.calls == map[]
  {
    run, s := [Restart(capacity)], Apply(H, INITIAL, Restart(capacity));
    assert run[1..] == [];
    assert IsRun(H, s, []) && EndOf(H, s, []) == s;
  }

  /** Two entries linked to the same place: the walk reports the second. */
  lemma SecondReported(H: HashFn, log: Log)
    requires |log| == 2 && SealedOn(H, log[0], GENESIS) && log[1].prevHash == GENESIS
    ensures ReportedAt(H, log, log[1], 2, LinkMismatch) || HashesToZero(H, log[0])
  {
    OneLinked(H, GENESIS, log[0]);
    assert log[..1] == [log[0]];
    if log[0].hash == GENESIS {
      GenesisMeansZero(H, log[0]);
    } else {
      WalkStopsAt(H, GENESIS, 0, log, 1);
    }
  }

  /**
   A store that commits an append but reports an error breaks the chain at the next append: in this
   run the log fails the walk at its second entry.
   */
  lemma UnacknowledgedAppendForks(H: HashFn) returns (run: seq<Action>, s: State)
    ensures LeadsTo(H, INITIAL, run, s) && |s.pipe.log| == 2 && ForkedBy(run, false)
    ensures ReportedAt(H, s.pipe.log, s.pipe.log[1], 2, LinkMismatch) || HashesToZero(H, s.pipe.log[0])
  {
    run, s := TwoQueued(H);
    run, s := StoredUnnoticed(H, run, s);
    run, s := StoredBehind(H, run, s);
    ForkedFromStart(H, run, s);
    SecondReported(H, s.pipe.log);
  }

  /** An item nobody waits for, with a payload that normalises. */
  predicate Plain(item: Item) {
    item.waiter.None? && NormalizePayload(item.draft.payload).Ok?
  }

  lemma TwoQueued(H: HashFn) returns (run: seq<Action>, s: State)
    ensures LeadsTo(H, INITIAL, run, s) && s.pipe.consumer.Idle? && |s.pipe.queue| == 2
    ensures Plain(s.pipe.queue[0]) && Plain(s.pipe.queue[1])
    ensures s.pipe.log == [] && s.pipe.head == GENESIS && s.pipe.mark == 0
  {
    var draft := AuditEntry([1], [], 0, [], map[], [], []);
    StoreRoundTrip(map[]);
    run, s := StartsEmpty(H, 2);
    run, s := Queues(H, run, s, 0, draft);
    run, s := Queues(H, run, s, 1, draft);
  }

  /** The first append takes effect unnoticed. */
  lemma StoredUnnoticed(H: HashFn, run: seq<Action>, s: State) returns (longer: seq<Action>, t: State)
    requires LeadsTo(H, INITIAL, run, s) && s.pipe.consumer.Idle? && |s.pipe.queue| == 2
    requires Plain(s.pipe.queue[0]) && Plain(s.pipe.queue[1])
    requires s.pipe.log == [] && s.pipe.head == GENESIS && s.pipe.mark == 0
    ensures LeadsTo(H, INITIAL, longer, t) && t.pipe.consumer.Idle? && |t.pipe.queue| == 1 && Plain(t.pipe.queue[0])
    ensures |t.pipe.log| == 1 && SealedOn(H, t.pipe.log[0], GENESIS) && t.pipe.head == GENESIS && t.pipe.mark == 0
  {
    longer, t := Stores(H, run, s, Unacknowledged);
    longer, t := AnswersNobody(H, longer, t);
  }

  /** So the next one is linked to the same place. */
  lemma StoredBehind(H: HashFn, run: seq<Action>, s: State) returns (longer: seq<Action>, t: State)
    requires LeadsTo(H, INITIAL, run, s) && s.pipe.consumer.Idle? && |s.pipe.queue| == 1 && Plain(s.pipe.queue[0])
    requires |s.pipe.log| == 1 && SealedOn(H, s.pipe.log[0], GENESIS) && s.pipe.head == GENESIS && s.pipe.mark == 0
    ensures LeadsTo(H, INITIAL, longer, t) && |t.pipe.log| == 2 && t.pipe.forked
    ensures SealedOn(H, t.pipe.log[0], GENESIS) && t.pipe.log[1].prevHash == GENESIS
  {
    longer, t := Stores(H, run, s, Committed);
    assert t.pipe.log[0] == t.pipe.log[..1][0];
  }

  // ----- order and conservation ------------------------------------------------------------

  /**
   What a process added to the log is what it accepted, in queue order, without the entries the store
   refused; accepted items are written, failed, queued or in hand; Record calls are accepted or dropped.
   */
  lemma OrderAndConservation(H: HashFn, s: State)
    requires Reachable(H, s)
    ensures s.pipe.base <= |s.pipe.log| && |s.pipe.outcomes| <= |s.pipe.accepted|
    ensures RecordsAll(s.pipe.log[s.pipe.base..], Kept(s.pipe.accepted, s.pipe.outcomes))
    ensures !s.pipe.consumer.Dead? ==>
      |s.pipe.accepted| == s.pipe.written + s.pipe.failures + |s.pipe.queue|
        + if s.pipe.consumer.Taken? || s.pipe.consumer.Prepared? || s.pipe.consumer.Stored? then 1 else 0
    ensures s.front.recordCalls == s.front.dropped + CountAsync(s.pipe.accepted)
  {
    ReachableInv(H, s);
    if !s.pipe.consumer.Dead? { Conservation(s.pipe); }
  }

  // ----- the closed queue and the replies --------------------------------------------------

  /** Nobody who is about to send finds the channel closed, which would panic. */
  lemma NoSendOnClosedQueue(H: HashFn, s: State, c: CallerId)
    requires Reachable(H, s) && c in s.front.calls && s.front.calls[c].Open?
    ensures !s.front.closed
  {
    ReachableInv(H, s);
  }

  /** Each settled synchronous item has been sent exactly one reply, saying whether it was stored. */
  lemma ExactlyOneReply(H: HashFn, s: State)
    requires Reachable(H, s)
    ensures DistinctWaiters(s.pipe.accepted)
    ensures 0 <= AnsweredCount(s.pipe) <= |s.pipe.outcomes| <= |s.pipe.accepted|
    ensures !s.pipe.consumer.Dead? ==>
      s.pipe.answered == Replies(s.pipe.accepted, s.pipe.outcomes[..AnsweredCount(s.pipe)])
    ensures s.pipe.consumer.Answering? ==> !ReplyBlocks(s)
  {
    ReachableInv(H, s);
    if s.pipe.consumer.Answering? { ReplyNeverBlocks(s); }
  }

  /** RecordSync returns nil only for an entry that is in the store, a different one for every caller. */
  lemma SyncSuccessIsDurable(H: HashFn, s: State, c: CallerId)
    requires Reachable(H, s) && c in s.front.calls && s.front.calls[c] == Returned(Durable)
    ensures c in s.pipe.places && PlaceOk(s.front, s.pipe, c)
    ensures forall d :: d in s.front.calls && s.front.calls[d] == Returned(Durable) && d != c ==>
      d in s.pipe.places && s.pipe.places[d] != s.pipe.places[c]
  {
    ReachableInv(H, s);
    assert ToldDurable(s.front, c);
    forall d | d in s.front.calls && s.front.calls[d] == Returned(Durable) ensures d in s.pipe.places {
      assert ToldDurable(s.front, d);
    }
  }

  // ----- progress --------------------------------------------------------------------------

  /** The consumer still has something to do, or a synchronous caller is stuck on a full queue. */
  ghost predicate WorkPending(s: State) {
    || |s.pipe.outcomes| < |s.pipe.accepted|
    || IsSettling(s.pipe.consumer)
    || (exists c :: c in s.front.calls && s.front.calls[c].Open? && |s.pipe.queue| >= s.pipe.capacity)
  }

  /** Whichever way the consumer can go next; the store's answer and the publisher's are not its choice. */
  function NextStep(consumer: Consumer): Action {
    match consumer
    case Taken(_) => Prepare
    case Prepared(_, _) => Store(Rejected)
    case Stored(_, _) => Advance
    case Advanced(_, _) => Publish(false)
    case Answering(_, _) => Answer
    case _ => Take
  }

  /** While work is pending in a live process, the consumer can take a step: in particular it has not left. */
  lemma ConsumerNeverStuck(H: HashFn, s: State)
    requires Reachable(H, s) && WorkPending(s) && !s.pipe.consumer.Dead?
    ensures IsConsumerAction(NextStep(s.pipe.consumer)) && Enabled(s, NextStep(s.pipe.consumer))
  {
    ReachableInv(H, s);
    if s.pipe.consumer.Answering? { ReplyNeverBlocks(s); }
    if s.pipe.consumer.Idle? { IdleHasQueue(s.pipe); }
    if s.pipe.consumer.Exited? { NothingLeft(s); }
  }

  /** A consumer that has left has left nothing undone and nobody stuck. */
  lemma NothingLeft(s: State)
    requires QueueInv(s.pipe) && LockInv(s.front) && ExitInv(s.front, s.pipe) && s.pipe.consumer.Exited?
    ensures |s.pipe.outcomes| == |s.pipe.accepted| && !WorkPending(s)
  {
    assert |s.pipe.accepted[|s.pipe.outcomes|..]| == |s.pipe.accepted| - |s.pipe.outcomes|;
  }

  /** An idle consumer with something unsettled, or a full queue, has something to take. */
  lemma IdleHasQueue(p: Pipe)
    requires QueueInv(p) && p.consumer.Idle?
    requires |p.outcomes| < |p.accepted| || |p.queue| >= p.capacity
    ensures p.queue != []
  {
    assert |p.accepted[|p.outcomes|..]| == |p.accepted| - |p.outcomes|;
    assert InFlight(p.consumer) + p.queue == p.queue;
  }

  function Stage(consumer: Consumer): nat {
    match consumer
    case Taken(_) => 6
    case Prepared(_, _) => 5
    case Stored(_, _) => 4
    case Advanced(_, _) => 3
    case Answering(_, _) => 2
    case Idle => 1
    case Exited => 0
    case Dead => 0
  }

  /** At most this many steps, and the consumer has finished the queue and left. */
  function Work(p: Pipe): nat {
    6 * |p.queue| + Stage(p.consumer)
  }

  function ConsumerSteps(run: seq<Action>): nat {
    if run == [] then 0 else (if IsConsumerAction(run[0]) then 1 else 0) + ConsumerSteps(run[1..])
  }

  lemma ClosedConsumerStep(H: HashFn, p: Pipe, closed: bool, a: Action)
    requires ConsumerEnabled(p, closed, a)
    ensures var q := ConsumerStep(H, p, closed, a);
      !q.consumer.Dead? && q.accepted == p.accepted && Work(q) < Work(p)
  {
    if a.Prepare? { PrepareShape(H, p, closed); }
  }

  lemma ClosedCallerStep(s: State, a: Action)
    requires LockInv(s.front) && CallerEnabled(s, a) && s.front.closed
    ensures !a.Send? && CallerStep(s, a).closed
  {
  }

  lemma ClosedStep(H: HashFn, s: State, a: Action)
    requires LockInv(s.front) && Enabled(s, a) && s.front.closed && !a.Crash? && !s.pipe.consumer.Dead?
    ensures var t := Apply(H, s, a);
      && t.front.closed && !t.pipe.consumer.Dead? && t.pipe.accepted == s.pipe.accepted
      && Work(t.pipe) + (if IsConsumerAction(a) then 1 else 0) <= Work(s.pipe)
  {
    if CallerEnabled(s, a) {
      ClosedCallerStep(s, a);
    } else if IsConsumerAction(a) {
      ClosedConsumerStep(H, s.pipe, s.front.closed, a);
    }
  }

  lemma {:induction false} ClosedRun(H: HashFn, s: State, run: seq<Action>, t: State)
    requires Inv(H, s) && LeadsTo(H, s, run, t) && s.front.closed && !s.pipe.consumer.Dead?
    requires forall i :: 0 <= i < |run| ==> !run[i].Crash?
    ensures Inv(H, t) && !t.pipe.consumer.Dead? && t.front.closed && t.pipe.accepted == s.pipe.accepted
    ensures Work(t.pipe) + ConsumerSteps(run) <= Work(s.pipe)
    decreases |run|
  {
    if run == [] {
    } else {
      var a, rest := run[0], run[1..];
      assert !run[0].Crash?;
      LeadsToTail(H, s, run, t);
      InvStep(H, s, a);
      ClosedStep(H, s, a);
      assert forall i :: 0 <= i < |rest| ==> rest[i] == run[i + 1];
      ClosedRun(H, Apply(H, s, a), rest, t);
    }
  }

  /** What the consumer of a closed writer does next. */
  function DrainStep(p: Pipe): Action {
    if p.consumer.Idle? && p.queue == [] then Exit else NextStep(p.consumer)
  }

  lemma DrainGoesOn(s: State)
    requires QueueInv(s.pipe) && TicketInv(s.front, s.pipe) && s.front.closed
    requires !s.pipe.consumer.Dead? && !s.pipe.consumer.Exited?
    ensures IsConsumerAction(DrainStep(s.pipe)) && Enabled(s, DrainStep(s.pipe))
  {
    if s.pipe.consumer.Answering? { ReplyNeverBlocks(s); }
  }

  /**
   Close drains, whatever fails on the way and however the rest of the system interleaves: once the
   writer is closed nothing more is accepted, the consumer has only so many steps left, it can always
   take one until it leaves, and when it leaves every item accepted before has its outcome.
   */
  lemma CloseDrains(H: HashFn, s: State, run: seq<Action>, t: State)
    requires Reachable(H, s) && LeadsTo(H, s, run, t) && s.front.closed && !s.pipe.consumer.Dead?
    requires forall i :: 0 <= i < |run| ==> !run[i].Crash?
    ensures t.pipe.accepted == s.pipe.accepted && ConsumerSteps(run) <= Work(s.pipe)
    ensures t.pipe.consumer.Exited? || (IsConsumerAction(DrainStep(t.pipe)) && Enabled(t, DrainStep(t.pipe)))
    ensures t.pipe.consumer.Exited? ==> t.pipe.queue == [] && |t.pipe.outcomes| == |s.pipe.accepted|
  {
    ReachableInv(H, s);
    ClosedRun(H, s, run, t);
    if t.pipe.consumer.Exited? { NothingLeft(t); } else { DrainGoesOn(t); }
  }
}
