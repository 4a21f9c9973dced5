/**
 The append pipeline (internal/audit/writer.go) as a transition system: any number of Record and
 RecordSync callers, the read-write lock that guards the queue against Close, the bounded queue, the
 one consuming goroutine with a store that may fail, the publisher, process death and restart.
 */
module AuditWriter {
  import opened Wrappers
  import opened ByteStrings
  import opened CanonicalText
  import opened AuditEntries
  import opened Chain

  type CallerId = nat

  /** An entry on its way to the store; only a synchronous caller waits for it. */
  datatype Item = Item(draft: AuditEntry, waiter: Option<CallerId>)

  datatype CallResult =
    | Accepted       // Record: the entry is in the queue
    | Dropped        // Record: queue full or writer closed, counted
    | Durable        // RecordSync: nil, the entry was stored
    | NotStored      // RecordSync: the writer's own error
    | WriterClosed   // RecordSync: refused
    | GaveUp         // RecordSync: the context ended first
    | Aborted        // the process died

  /** Where a caller of Record or RecordSync stands. */
  datatype Call =
    | Started(draft: AuditEntry, sync: bool)   // about to take the read lock
    | Locked(draft: AuditEntry, sync: bool)    // holds it, has not looked at `closed`
    | Open(draft: AuditEntry, sync: bool)      // holds it, saw the writer open, is at the send
    | Sent                                     // synchronous: queued, still holds the lock
    | Leaving(result: CallResult)              // decided, still holds the lock
    | Waiting                                  // synchronous: lock released, waits for a reply
    | Returned(result: CallResult)

  /** Where the consuming goroutine stands. */
  datatype Consumer =
    | Idle
    | Taken(item: Item)
    | Prepared(item: Item, entry: AuditEntry)  // normalised and sealed
    | Stored(item: Item, entry: AuditEntry)    // Append returned nil, head not yet advanced
    | Advanced(item: Item, entry: AuditEntry)  // head and counter updated
    | Answering(item: Item, ok: bool)
    | Exited                                   // queue closed and drained
    | Dead                                     // no process

  /**
   Unacknowledged is an append that took effect although the store reported an error. An append takes
   effect, if it does, before the store answers anything else.
   */
  datatype StoreResult = Committed | Rejected | Unacknowledged

  /** The store and the goroutine that feeds it. The last seven fields are history. */
  datatype Pipe = Pipe(
    log: Log,                          // what the store holds
    capacity: nat,
    queue: seq<Item>,
    consumer: Consumer,
    head: Bytes,
    written: nat,
    failures: nat,
    published: seq<int>,               // positions of the log handed to the publisher
    base: nat,                         // length of the log when this process started
    accepted: seq<Item>,               // everything queued by this process, in queue order
    outcomes: seq<StoreResult>,        // what became of the first of them
    answered: seq<(CallerId, bool)>,   // replies sent by this process
    mark: nat,                         // the place in the log that `head` belongs to
    forked: bool,                      // an entry was linked to a head that was no longer the last
    places: map<CallerId, nat>)        // where each synchronous caller's entry came to stand in the log

  /** The callers and the lock. The last two fields are history. */
  datatype Front = Front(
    closed: bool,                      // the flag, and with it the closed channel
    readers: set<CallerId>,            // holders of the read lock
    closing: bool,                     // Close holds the write lock
    calls: map<CallerId, Call>,
    replies: map<CallerId, bool>,      // the one-place reply channels that hold a value
    dropped: nat,
    drafts: map<CallerId, AuditEntry>, // what each caller asked to record
    recordCalls: nat)                  // Record calls this process has decided

  datatype State = State(front: Front, pipe: Pipe)

  datatype Action =
    | Begin(c: CallerId, draft: AuditEntry, sync: bool)
    | Lock(c: CallerId)
    | Look(c: CallerId)
    | Send(c: CallerId)
    | Overflow(c: CallerId)
    | GiveUpSending(c: CallerId)
    | Unlock(c: CallerId)
    | Receive(c: CallerId)
    | GiveUpWaiting(c: CallerId)
    | CloseLock
    | CloseBody
    | CloseUnlock
    | Take
    | Prepare
    | Store(r: StoreResult)
    | Advance
    | Publish(ok: bool)
    | Answer
    | Exit
    | Crash
    | Restart(capacity: nat)

  predicate IsCallerAction(a: Action) {
    a.Begin? || a.Lock? || a.Look? || a.Send? || a.Overflow? || a.GiveUpSending? || a.Unlock? || a.Receive? || a.GiveUpWaiting?
  }

  predicate IsConsumerAction(a: Action) {
    a.Take? || a.Prepare? || a.Store? || a.Advance? || a.Publish? || a.Answer? || a.Exit?
  }

  // ----- the pipe --------------------------------------------------------------------------

  function Pushed(p: Pipe, item: Item): Pipe {
    p.(queue := p.queue + [item], accepted := p.accepted + [item])
  }

  predicate ConsumerEnabled(p: Pipe, closed: bool, a: Action) {
    match a
    case Take => p.consumer.Idle? && p.queue != []
    case Prepare => p.consumer.Taken?
    case Store(_) => p.consumer.Prepared?
    case Advance => p.consumer.Stored?
    case Publish(_) => p.consumer.Advanced?
    case Answer => p.consumer.Answering?
    case Exit => p.consumer.Idle? && p.queue == [] && closed
    case _ => false
  }

  function WithPayload(draft: AuditEntry, payload: Payload): AuditEntry {
    AuditEntry(draft.id, draft.requestId, draft.timestamp, draft.kind, payload, draft.prevHash, draft.hash)
  }

  function Settled(p: Pipe, r: StoreResult, next: Consumer): Pipe {
    p.(outcomes := p.outcomes + [r], consumer := next,
       failures := if r.Committed? then p.failures else p.failures + 1)
  }

  /** The pipe after the store took the entry or not, before the consumer moves on. */
  function WithStored(p: Pipe, r: StoreResult): Pipe
    requires p.consumer.Prepared?
  {
    if r.Rejected? then p
    else p.(log := p.log + [p.consumer.entry], forked := p.forked || p.mark < |p.log|,
            places := match p.consumer.item.waiter
                      case None => p.places
                      case Some(c) => if c in p.places then p.places else p.places[c := |p.log|])
  }

  function ConsumerStep(H: HashFn, p: Pipe, closed: bool, a: Action): Pipe
    requires ConsumerEnabled(p, closed, a)
  {
    match a
    case Take => p.(queue := p.queue[1..], consumer := Taken(p.queue[0]))
    case Prepare =>
      var item := p.consumer.item;
      (match NormalizePayload(item.draft.payload)
       case Err => Settled(p, Rejected, Answering(item, false))
       case Ok(payload) => p.(consumer := Prepared(item, Sealed(H, WithPayload(item.draft, payload), p.head))))
    case Store(r) =>
      var item := p.consumer.item;
      Settled(WithStored(p, r), r, if r.Committed? then Stored(item, p.consumer.entry) else Answering(item, false))
    case Advance =>
      p.(head := p.consumer.entry.hash, mark := |p.log|, written := p.written + 1,
         consumer := Advanced(p.consumer.item, p.consumer.entry))
    case Publish(ok) =>
      p.(published := if ok then p.published + [|p.log| - 1] else p.published,
         consumer := Answering(p.consumer.item, true))
    case Answer =>
      var item := p.consumer.item;
      p.(consumer := Idle,
         answered := if item.waiter.None? then p.answered else p.answered + [(item.waiter.value, p.consumer.ok)])
    case Exit => p.(consumer := Exited)
  }

  function Killed(p: Pipe): Pipe {
    p.(consumer := Dead, queue := [])
  }

  /** NewWriter: resume from the head of the log. */
  function Resumed(p: Pipe, capacity: nat): Pipe {
    Pipe(p.log, capacity, [], Idle, AnchorOrGenesis(HeadOf(p.log)), 0, 0, p.published,
         |p.log|, [], [], [], |p.log|, p.forked, p.places)
  }

  // ----- the front -------------------------------------------------------------------------

  function Moved(f: Front, c: CallerId, call: Call): Front {
    f.(calls := f.calls[c := call])
  }

  function CountedDrop(f: Front, c: CallerId): Front {
    f.(calls := f.calls[c := Leaving(Dropped)], dropped := f.dropped + 1, recordCalls := f.recordCalls + 1)
  }

  function AfterUnlock(call: Call): Call {
    match call
    case Leaving(result) => Returned(result)
    case _ => Waiting
  }

  /** A call that has not returned when its process dies never does. */
  function Orphan(call: Call): Call {
    if call.Returned? then call else Returned(Aborted)
  }

  function Orphaned(f: Front): Front {
    f.(readers := {}, closing := false, replies := map[], calls := map c | c in f.calls :: Orphan(f.calls[c]))
  }

  predicate CallerEnabled(s: State, a: Action) {
    match a
    case Begin(c, _, _) => c !in s.front.calls && !s.pipe.consumer.Dead?
    case Lock(c) => c in s.front.calls && s.front.calls[c].Started? && !s.front.closing
    case Look(c) => c in s.front.calls && s.front.calls[c].Locked?
    case Send(c) => c in s.front.calls && s.front.calls[c].Open? && |s.pipe.queue| < s.pipe.capacity
    case Overflow(c) =>
      c in s.front.calls && s.front.calls[c].Open? && !s.front.calls[c].sync && |s.pipe.queue| >= s.pipe.capacity
    case GiveUpSending(c) => c in s.front.calls && s.front.calls[c].Open? && s.front.calls[c].sync
    case Unlock(c) => c in s.front.calls && (s.front.calls[c].Sent? || s.front.calls[c].Leaving?)
    case Receive(c) => c in s.front.calls && s.front.calls[c].Waiting? && c in s.front.replies
    case GiveUpWaiting(c) => c in s.front.calls && s.front.calls[c].Waiting?
    case _ => false
  }

  function CallerStep(s: State, a: Action): Front
    requires CallerEnabled(s, a)
  {
    var f := s.front;
    match a
    case Begin(c, draft, sync) =>
      f.(calls := f.calls[c := Started(draft, sync)], drafts := f.drafts[c := draft])
    case Lock(c) =>
      f.(calls := f.calls[c := Locked(f.calls[c].draft, f.calls[c].sync)], readers := f.readers + {c})
    case Look(c) =>
      if !f.closed then Moved(f, c, Open(f.calls[c].draft, f.calls[c].sync))
      else if f.calls[c].sync then Moved(f, c, Leaving(WriterClosed))
      else CountedDrop(f, c)
    case Send(c) =>
      if f.calls[c].sync then Moved(f, c, Sent)
      else f.(calls := f.calls[c := Leaving(Accepted)], recordCalls := f.recordCalls + 1)
    case Overflow(c) => CountedDrop(f, c)
    case GiveUpSending(c) => Moved(f, c, Leaving(GaveUp))
    case Unlock(c) => f.(calls := f.calls[c := AfterUnlock(f.calls[c])], readers := f.readers - {c})
    case Receive(c) =>
      f.(calls := f.calls[c := Returned(if f.replies[c] then Durable else NotStored)], replies := f.replies - {c})
    case GiveUpWaiting(c) => Moved(f, c, Returned(GaveUp))
  }

  // ----- the system ------------------------------------------------------------------------

  predicate Enabled(s: State, a: Action) {
    match a
    case CloseLock => !s.pipe.consumer.Dead? && !s.front.closing && s.front.readers == {}
    case CloseBody => s.front.closing
    case CloseUnlock => s.front.closing
    case Crash => !s.pipe.consumer.Dead?
    case Restart(capacity) => s.pipe.consumer.Dead? && capacity > 0
    case Answer => s.pipe.consumer.Answering? && !ReplyBlocks(s)
    case _ => CallerEnabled(s, a) || ConsumerEnabled(s.pipe, s.front.closed, a)
  }

  /** The reply channel already holds a value, so sending another would block the consumer. */
  predicate ReplyBlocks(s: State)
    requires s.pipe.consumer.Answering?
  {
    s.pipe.consumer.item.waiter.Some? && s.pipe.consumer.item.waiter.value in s.front.replies
  }

  function SentItem(f: Front, c: CallerId): Item
    requires c in f.calls && f.calls[c].Open?
  {
    Item(f.calls[c].draft, if f.calls[c].sync then Some(c) else None)
  }

  function Replied(f: Front, consumer: Consumer): Front
    requires consumer.Answering?
  {
    if consumer.item.waiter.None? then f else f.(replies := f.replies[consumer.item.waiter.value := consumer.ok])
  }

  /** A step of the process as a whole: closing, dying or starting. */
  function ProcessStep(s: State, a: Action): State
    requires Enabled(s, a) && !IsCallerAction(a) && !IsConsumerAction(a)
  {
    match a
    case CloseLock => s.(front := s.front.(closing := true))
    case CloseBody => s.(front := s.front.(closed := true))
    case CloseUnlock => s.(front := s.front.(closing := false))
    case Crash => State(Orphaned(s.front), Killed(s.pipe))
    case Restart(capacity) =>
      State(s.front.(closed := false, dropped := 0, recordCalls := 0), Resumed(s.pipe, capacity))
  }

  function Apply(H: HashFn, s: State, a: Action): State
    requires Enabled(s, a)
  {
    if IsCallerAction(a) then
      State(CallerStep(s, a), if a.Send? then Pushed(s.pipe, SentItem(s.front, a.c)) else s.pipe)
    else if IsConsumerAction(a) then
      State(if a.Answer? then Replied(s.front, s.pipe.consumer) else s.front,
            ConsumerStep(H, s.pipe, s.front.closed, a))
    else ProcessStep(s, a)
  }

  /** An empty store and no process. */
  const INITIAL: State := State(
    Front(false, {}, false, map[], map[], 0, map[], 0),
    Pipe([], 0, [], Dead, GENESIS, 0, 0, [], 0, [], [], [], 0, false, map[]))

  // ----- runs ------------------------------------------------------------------------------

  predicate IsRun(H: HashFn, s: State, run: seq<Action>)
    decreases |run|
  {
    run == [] || (Enabled(s, run[0]) && IsRun(H, Apply(H, s, run[0]), run[1..]))
  }

  function EndOf(H: HashFn, s: State, run: seq<Action>): State
    requires IsRun(H, s, run)
    decreases |run|
  {
    if run == [] then s else EndOf(H, Apply(H, s, run[0]), run[1..])
  }
}
