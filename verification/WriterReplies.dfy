/**
 What the callers of Record and RecordSync are told: the result of a call is what became of its entry,
 every other result has its cause, and a call can succeed.
 */
module WriterReplies {
  import opened Wrappers
  import opened CanonicalText
  import opened AuditEntries
  import opened Chain
  import opened AuditWriter
  import opened WriterPipe
  import opened WriterSafety
  import opened WriterTheorems

  // ----- the reply is the outcome ----------------------------------------------------------

  /** Where the caller of an accepted synchronous item may stand, given what the consumer has answered. */
  predicate MayStand(call: Call, answer: Option<bool>) {
    match call
    case Sent => true
    case Waiting => true
    case Returned(Durable) => answer == Some(true)
    case Returned(NotStored) => answer == Some(false)
    case Returned(result) => result.GaveUp? || result.Aborted?
    case _ => false
  }

  /** What was answered for the i-th accepted item: whether its outcome was a commit. */
  function AnswerFor(p: Pipe, i: nat): Option<bool> {
    if i < AnsweredCount(p) && i < |p.outcomes| then Some(p.outcomes[i].Committed?) else None
  }

  /** The caller has read its reply. */
  predicate HasRead(call: Call) {
    call.Returned? && (call.result.Durable? || call.result.NotStored?)
  }

  predicate HeardOk(f: Front, p: Pipe, i: nat)
    requires i < |p.accepted|
  {
    p.accepted[i].waiter.Some? ==>
      var c := p.accepted[i].waiter.value;
      && c in f.calls && MayStand(f.calls[c], AnswerFor(p, i))
      && (c in f.replies ==> AnswerFor(p, i) == Some(f.replies[c]) && !HasRead(f.calls[c]))
  }

  ghost predicate HearInv(s: State) {
    forall i :: 0 <= i < |s.pipe.accepted| ==> HeardOk(s.front, s.pipe, i)
  }

  lemma HeardCaller(s: State, a: Action, i: nat)
    requires CallerEnabled(s, a) && i < |s.pipe.accepted| && HeardOk(s.front, s.pipe, i)
    ensures HeardOk(CallerStep(s, a), s.pipe, i)
  {
  }

  lemma HearSend(s: State, c: CallerId)
    requires HearInv(s) && TicketInv(s.front, s.pipe) && CallInv(s.front) && QueueInv(s.pipe) && CallerEnabled(s, Send(c))
    ensures HearInv(State(CallerStep(s, Send(c)), Pushed(s.pipe, SentItem(s.front, c))))
  {
    var f, q := CallerStep(s, Send(c)), Pushed(s.pipe, SentItem(s.front, c));
    forall i | 0 <= i < |q.accepted| ensures HeardOk(f, q, i) {
      if i < |s.pipe.accepted| {
        HeardCaller(s, Send(c), i);
      } else {
        assert CallOk(s.front, c);
      }
    }
  }

  lemma AnswersKept(H: HashFn, p: Pipe, closed: bool, a: Action)
    requires QueueInv(p) && ConsumerEnabled(p, closed, a) && !a.Answer?
    ensures var q := ConsumerStep(H, p, closed, a);
      q.accepted == p.accepted && forall i: nat :: AnswerFor(q, i) == AnswerFor(p, i)
  {
    if a.Prepare? { PrepareShape(H, p, closed); }
    if a.Store? { StoreShape(H, p, closed, a.r); }
  }

  lemma HearConsumer(H: HashFn, s: State, a: Action)
    requires HearInv(s) && QueueInv(s.pipe) && ConsumerEnabled(s.pipe, s.front.closed, a) && !a.Answer?
    ensures HearInv(State(s.front, ConsumerStep(H, s.pipe, s.front.closed, a)))
  {
    var q := ConsumerStep(H, s.pipe, s.front.closed, a);
    AnswersKept(H, s.pipe, s.front.closed, a);
    forall i | 0 <= i < |q.accepted| ensures HeardOk(s.front, q, i) {
      assert HeardOk(s.front, s.pipe, i);
    }
  }

  /** The consumer answers for the last settled item, and says whether it was stored. */
  lemma HearAnswer(H: HashFn, s: State)
    requires HearInv(s) && QueueInv(s.pipe) && TicketInv(s.front, s.pipe) && s.pipe.consumer.Answering?
    ensures HearInv(State(Replied(s.front, s.pipe.consumer), ConsumerStep(H, s.pipe, s.front.closed, Answer)))
  {
    var f, q, n := Replied(s.front, s.pipe.consumer), ConsumerStep(H, s.pipe, s.front.closed, Answer), |s.pipe.outcomes|;
    forall i | 0 <= i < |q.accepted| ensures HeardOk(f, q, i) {
      assert HeardOk(s.front, s.pipe, i);
      if i != n - 1 {
        assert AnswerFor(q, i) == AnswerFor(s.pipe, i);
        assert s.pipe.accepted[n - 1].waiter.Some? ==> s.pipe.accepted[i].waiter != s.pipe.accepted[n - 1].waiter;
      }
    }
  }

  lemma HearCrash(s: State)
    requires HearInv(s) && QueueInv(s.pipe)
    ensures HearInv(State(Orphaned(s.front), Killed(s.pipe)))
  {
    var f, q := Orphaned(s.front), Killed(s.pipe);
    forall i | 0 <= i < |q.accepted| ensures HeardOk(f, q, i) {
      assert HeardOk(s.front, s.pipe, i);
    }
  }

  lemma HearStep(H: HashFn, s: State, a: Action)
    requires HearInv(s) && Inv(H, s) && Enabled(s, a)
    ensures HearInv(Apply(H, s, a))
  {
    if a.Send? {
      HearSend(s, a.c);
    } else if IsCallerAction(a) {
      forall i | 0 <= i < |s.pipe.accepted| ensures HeardOk(CallerStep(s, a), s.pipe, i) { HeardCaller(s, a, i); }
    } else if a.Answer? {
      HearAnswer(H, s);
    } else if IsConsumerAction(a) {
      HearConsumer(H, s, a);
    } else if a.Crash? {
      HearCrash(s);
    } else {
      HearProcess(H, s, a);
    }
  }

  lemma HearProcess(H: HashFn, s: State, a: Action)
    requires HearInv(s) && Enabled(s, a) && (a.CloseLock? || a.CloseBody? || a.CloseUnlock? || a.Restart?)
    ensures HearInv(Apply(H, s, a))
  {
    var t := Apply(H, s, a);
    forall i | 0 <= i < |t.pipe.accepted| ensures HeardOk(t.front, t.pipe, i) {
      assert HeardOk(s.front, s.pipe, i);
    }
  }

  lemma {:induction false} HearRun(H: HashFn, s: State, run: seq<Action>, t: State)
    requires HearInv(s) && Inv(H, s) && LeadsTo(H, s, run, t)
    ensures HearInv(t)
    decreases |run|
  {
    if run == [] {
    } else {
      LeadsToTail(H, s, run, t);
      HearStep(H, s, run[0]);
      InvStep(H, s, run[0]);
      HearRun(H, Apply(H, s, run[0]), run[1..], t);
    }
  }

  lemma ReachableHears(H: HashFn, s: State)
    requires Reachable(H, s)
    ensures HearInv(s)
  {
    var run :| LeadsTo(H, INITIAL, run, s);
    InvInitial(H);
    HearFromEmpty(H, INITIAL, run, s);
  }

  lemma HearFromEmpty(H: HashFn, s: State, run: seq<Action>, t: State)
    requires s.pipe.accepted == [] && Inv(H, s) && LeadsTo(H, s, run, t)
    ensures HearInv(t)
  {
    HearRun(H, s, run, t);
  }

  /**
   A caller of RecordSync whose entry was accepted, and that neither gave up nor died with its process,
   is told exactly what became of the entry: nil if it was committed, the error if it was not. What it
   has read is no longer in its reply channel.
   */
  lemma ReplyTellsOutcome(H: HashFn, s: State, i: nat, c: CallerId)
    requires Reachable(H, s) && i < |s.pipe.accepted| && s.pipe.accepted[i].waiter == Some(c)
    ensures c in s.front.calls
    ensures var call := s.front.calls[c];
      call.Returned? && call.result != GaveUp && call.result != Aborted ==>
        && i < |s.pipe.outcomes|
        && call.result == (if s.pipe.outcomes[i] == Committed then Durable else NotStored)
        && c !in s.front.replies
  {
    ReachableHears(H, s);
    assert HeardOk(s.front, s.pipe, i);
  }

  // ----- every other result has its cause --------------------------------------------------

  /** The result of a call, from the moment it is decided. */
  function ResultOf(call: Call): Option<CallResult> {
    match call
    case Leaving(result) => Some(result)
    case Returned(result) => Some(result)
    case _ => None
  }

  /** The call was begun as one of Record, or as one of RecordSync. */
  predicate BegunAs(f: Front, c: CallerId, sync: bool, past: seq<Action>) {
    c in f.drafts && Begin(c, f.drafts[c], sync) in past
  }

  /** What must have happened for a call to end like this, and which kind of call can. */
  predicate HasCause(f: Front, c: CallerId, result: CallResult, past: seq<Action>) {
    match result
    case Accepted => BegunAs(f, c, false, past) && Send(c) in past
    case Dropped => BegunAs(f, c, false, past) && Look(c) in past
    case Durable => BegunAs(f, c, true, past) && Receive(c) in past
    case NotStored => BegunAs(f, c, true, past) && Receive(c) in past
    case WriterClosed => BegunAs(f, c, true, past) && Look(c) in past && CloseBody in past
    case GaveUp => BegunAs(f, c, true, past) && (GiveUpSending(c) in past || GiveUpWaiting(c) in past)
    case Aborted => Crash in past
  }

  predicate CauseAt(f: Front, past: seq<Action>, c: CallerId)
    requires c in f.calls
  {
    match f.calls[c]
    case Started(_, sync) => BegunAs(f, c, sync, past)
    case Locked(_, sync) => BegunAs(f, c, sync, past)
    case Open(_, sync) => BegunAs(f, c, sync, past) && Look(c) in past
    case Sent => BegunAs(f, c, true, past)
    case Waiting => BegunAs(f, c, true, past)
    case Leaving(result) => HasCause(f, c, result, past)
    case Returned(result) => HasCause(f, c, result, past)
  }

  ghost predicate CauseInv(f: Front, past: seq<Action>) {
    (f.closed ==> CloseBody in past) && forall c :: c in f.calls ==> CauseAt(f, past, c)
  }

  /** Causes stay causes. */
  lemma CauseKept(f: Front, g: Front, past: seq<Action>, a: Action, c: CallerId)
    requires c in f.calls && CauseAt(f, past, c)
    requires c in g.calls && g.calls[c] == f.calls[c] && (c in f.drafts ==> c in g.drafts && g.drafts[c] == f.drafts[c])
    ensures CauseAt(g, past + [a], c)
  {
  }

  /** The step of the caller itself. */
  lemma CauseOwn(s: State, a: Action, past: seq<Action>)
    requires CauseInv(s.front, past) && CallerEnabled(s, a)
    ensures a.c in CallerStep(s, a).calls && CauseAt(CallerStep(s, a), past + [a], a.c)
  {
    assert a in past + [a];
    if a.c in s.front.calls { assert CauseAt(s.front, past, a.c); }
  }

  lemma OthersStay(s: State, a: Action, c: CallerId)
    requires CallerEnabled(s, a) && c != a.c
    ensures var f, g := s.front, CallerStep(s, a);
      && (c in g.calls <==> c in f.calls) && (c in f.calls ==> g.calls[c] == f.calls[c])
      && (c in f.drafts ==> c in g.drafts && g.drafts[c] == f.drafts[c])
  {
  }

  lemma CauseCaller(s: State, a: Action, past: seq<Action>, c: CallerId)
    requires CauseInv(s.front, past) && CallerEnabled(s, a) && c in CallerStep(s, a).calls
    ensures CauseAt(CallerStep(s, a), past + [a], c)
  {
    if c == a.c {
      CauseOwn(s, a, past);
    } else {
      OthersStay(s, a, c);
      CauseKept(s.front, CallerStep(s, a), past, a, c);
    }
  }

  lemma CauseCrash(f: Front, past: seq<Action>, c: CallerId)
    requires CauseInv(f, past) && c in f.calls
    ensures CauseAt(Orphaned(f), past + [Crash], c)
  {
    assert CauseAt(f, past, c) && Crash in past + [Crash];
  }

  lemma FrontStays(H: HashFn, s: State, a: Action)
    requires Enabled(s, a) && !IsCallerAction(a) && !a.Crash?
    ensures var f, g := s.front, Apply(H, s, a).front; g.calls == f.calls && g.drafts == f.drafts
    ensures Apply(H, s, a).front.closed ==> s.front.closed || a == CloseBody
  {
  }

  lemma CauseStep(H: HashFn, s: State, a: Action, past: seq<Action>)
    requires CauseInv(s.front, past) && Enabled(s, a)
    ensures CauseInv(Apply(H, s, a).front, past + [a])
  {
    var f := Apply(H, s, a).front;
    assert a in past + [a];
    if IsCallerAction(a) {
      forall c | c in f.calls ensures CauseAt(f, past + [a], c) { CauseCaller(s, a, past, c); }
    } else if a.Crash? {
      forall c | c in f.calls ensures CauseAt(f, past + [a], c) { CauseCrash(s.front, past, c); }
    } else {
      FrontStays(H, s, a);
      forall c | c in f.calls ensures CauseAt(f, past + [a], c) { CauseKept(s.front, f, past, a, c); }
    }
  }

  lemma {:induction false} CauseRun(H: HashFn, s: State, run: seq<Action>, t: State, past: seq<Action>)
    requires CauseInv(s.front, past) && LeadsTo(H, s, run, t)
    ensures CauseInv(t.front, past + run)
    decreases |run|
  {
    if run == [] {
      assert past + run == past;
    } else {
      LeadsToTail(H, s, run, t);
      CauseStep(H, s, run[0], past);
      CauseRun(H, Apply(H, s, run[0]), run[1..], t, past + [run[0]]);
      assert past + [run[0]] + run[1..] == past + run;
    }
  }

  /**
   Nobody is told "closed" unless the writer was closed, or "gave up" unless they did, and so on. A call
   of Record ends as accepted or dropped, or with its process, and a call of RecordSync never does so.
   */
  lemma ResultsHaveCauses(H: HashFn, run: seq<Action>, s: State, c: CallerId)
    requires LeadsTo(H, INITIAL, run, s) && c in s.front.calls && s.front.calls[c].Returned?
    ensures HasCause(s.front, c, s.front.calls[c].result, run)
  {
    CauseRun(H, INITIAL, run, s, []);
    assert [] + run == run;
    assert CauseAt(s.front, run, c);
  }

  // ----- when the writer is closed ---------------------------------------------------------

  predicate NoRestart(run: seq<Action>) {
    forall j :: 0 <= j < |run| ==> !run[j].Restart?
  }

  /** Somewhere in the run `closed` was set, and no process was started since. */
  ghost predicate ClosesLast(run: seq<Action>) {
    exists i :: 0 <= i < |run| && run[i] == CloseBody && NoRestart(run[i + 1..])
  }

  lemma ClosesLastTail(run: seq<Action>)
    requires run != []
    ensures ClosesLast(run) <==> (run[0] == CloseBody && NoRestart(run[1..])) || ClosesLast(run[1..])
  {
    var rest := run[1..];
    if ClosesLast(run) {
      var i :| 0 <= i < |run| && run[i] == CloseBody && NoRestart(run[i + 1..]);
      if i > 0 { assert rest[i - 1] == CloseBody && rest[i..] == run[i + 1..]; }
    }
    if ClosesLast(rest) {
      var i :| 0 <= i < |rest| && rest[i] == CloseBody && NoRestart(rest[i + 1..]);
      assert run[i + 1] == CloseBody && run[i + 2..] == rest[i + 1..];
    }
  }

  lemma FlagStep(H: HashFn, s: State, a: Action)
    requires Enabled(s, a)
    ensures Apply(H, s, a).front.closed <==> a == CloseBody || (s.front.closed && !a.Restart?)
  {
  }

  lemma {:induction false} ClosedAfter(H: HashFn, s: State, run: seq<Action>, t: State)
    requires LeadsTo(H, s, run, t)
    ensures t.front.closed <==> ClosesLast(run) || (s.front.closed && NoRestart(run))
    decreases |run|
  {
    if run == [] {
    } else {
      LeadsToTail(H, s, run, t);
      FlagStep(H, s, run[0]);
      ClosedAfter(H, Apply(H, s, run[0]), run[1..], t);
      ClosesLastTail(run);
      assert NoRestart(run) <==> !run[0].Restart? && NoRestart(run[1..]);
    }
  }

  /** The writer is closed exactly when `Close` has closed it since the process was started. */
  lemma ClosedExactly(H: HashFn, run: seq<Action>, s: State)
    requires LeadsTo(H, INITIAL, run, s)
    ensures s.front.closed <==> ClosesLast(run)
  {
    ClosedAfter(H, INITIAL, run, s);
  }

  // ----- what is counted -------------------------------------------------------------------

  predicate Ends(before: Front, after: Front, c: CallerId, result: CallResult) {
    && c in after.calls && ResultOf(after.calls[c]) == Some(result)
    && !(c in before.calls && ResultOf(before.calls[c]) == Some(result))
  }

  /** A call of Record is counted when it ends: as decided, and as dropped if it was; nothing else is. */
  lemma EveryDropIsCounted(H: HashFn, s: State, a: Action)
    requires Enabled(s, a) && IsCallerAction(a)
    ensures var f, g := s.front, Apply(H, s, a).front;
      && g.dropped == f.dropped + (if Ends(f, g, a.c, Dropped) then 1 else 0)
      && g.recordCalls == f.recordCalls + (if Ends(f, g, a.c, Dropped) || Ends(f, g, a.c, Accepted) then 1 else 0)
  {
  }

  /** A call of Record is dropped only by a closed writer or a full queue, and accepted only into the queue. */
  lemma DropsAreForced(H: HashFn, s: State, a: Action)
    requires Enabled(s, a) && IsCallerAction(a)
    ensures var t := Apply(H, s, a);
      && (Ends(s.front, t.front, a.c, Dropped) ==> s.front.closed || |s.pipe.queue| >= s.pipe.capacity)
      && (Ends(s.front, t.front, a.c, Accepted) ==>
            |t.pipe.queue| == |s.pipe.queue| + 1 && t.pipe.queue[..|s.pipe.queue|] == s.pipe.queue)
  {
  }

  // ----- and a call can succeed ------------------------------------------------------------

  /** A process is up, open, and has nothing to do. */
  predicate AtRest(s: State) {
    s.pipe.consumer.Idle? && s.pipe.queue == [] && s.pipe.capacity > 0 && !s.front.closed && !s.front.closing
  }

  lemma Goes(H: HashFn, s: State, run: seq<Action>, t: State, a: Action) returns (longer: seq<Action>, u: State)
    requires LeadsTo(H, s, run, t) && Enabled(t, a)
    ensures LeadsTo(H, s, longer, u) && u == Apply(H, t, a)
  {
    OneMore(H, s, run, t, a);
    longer, u := run + [a], Apply(H, t, a);
  }

  /** From its start to the queue. */
  lemma CallQueued(H: HashFn, s: State, c: CallerId, draft: AuditEntry) returns (run: seq<Action>, t: State)
    requires AtRest(s) && c in s.front.calls && s.front.calls[c] == Started(draft, true) && c !in s.front.replies
    ensures LeadsTo(H, s, run, t) && t.pipe == Pushed(s.pipe, Item(draft, Some(c)))
    ensures !t.front.closed && !t.front.closing && c in t.front.calls && t.front.calls[c] == Waiting && c !in t.front.replies
  {
    run, t := [], s;
    run, t := Goes(H, s, run, t, Lock(c));
    run, t := Goes(H, s, run, t, Look(c));
    run, t := Goes(H, s, run, t, Send(c));
    run, t := Goes(H, s, run, t, Unlock(c));
  }

  lemma CallPrepared(H: HashFn, s: State, c: CallerId, draft: AuditEntry) returns (run: seq<Action>, t: State)
    requires s.pipe.consumer.Idle? && s.pipe.queue == [Item(draft, Some(c))] && NormalizePayload(draft.payload).Ok?
    ensures LeadsTo(H, s, run, t) && t.front == s.front
    ensures t.pipe.consumer.Prepared? && t.pipe.consumer.item == Item(draft, Some(c)) && Records(t.pipe.consumer.entry, draft)
    ensures t.pipe == s.pipe.(queue := [], consumer := t.pipe.consumer)
  {
    run, t := [], s;
    run, t := Goes(H, s, run, t, Take);
    run, t := Goes(H, s, run, t, Prepare);
  }

  lemma CallCommitted(H: HashFn, s: State) returns (run: seq<Action>, t: State)
    requires s.pipe.consumer.Prepared?
    ensures LeadsTo(H, s, run, t) && t.front == s.front
    ensures t.pipe.consumer == Answering(s.pipe.consumer.item, true)
    ensures t.pipe.queue == s.pipe.queue && t.pipe.capacity == s.pipe.capacity
    ensures t.pipe.log == s.pipe.log + [s.pipe.consumer.entry]
    ensures t.pipe.published == s.pipe.published + [|s.pipe.log|]
  {
    run, t := [], s;
    run, t := Goes(H, s, run, t, Store(Committed));
    run, t := Goes(H, s, run, t, Advance);
    run, t := Goes(H, s, run, t, Publish(true));
  }

  /** From the queue to the store. */
  lemma CallStored(H: HashFn, s: State, c: CallerId, draft: AuditEntry) returns (run: seq<Action>, t: State)
    requires s.pipe.consumer.Idle? && s.pipe.queue == [Item(draft, Some(c))] && NormalizePayload(draft.payload).Ok?
    ensures LeadsTo(H, s, run, t) && t.front == s.front
    ensures t.pipe.consumer == Answering(Item(draft, Some(c)), true)
    ensures t.pipe.queue == [] && t.pipe.capacity == s.pipe.capacity
    ensures |t.pipe.log| == |s.pipe.log| + 1 && Records(t.pipe.log[|s.pipe.log|], draft)
    ensures t.pipe.published == s.pipe.published + [|s.pipe.log|]
  {
    var u;
    run, u := CallPrepared(H, s, c, draft);
    var more;
    more, t := CallCommitted(H, u);
    Chains(H, s, run, u, more, t);
    run := run + more;
  }

  lemma CallAnswered(H: HashFn, s: State, c: CallerId) returns (run: seq<Action>, t: State)
    requires s.pipe.consumer.Answering? && s.pipe.consumer.item.waiter == Some(c) && s.pipe.consumer.ok
    requires c in s.front.calls && s.front.calls[c] == Waiting && c !in s.front.replies
    ensures LeadsTo(H, s, run, t) && t.pipe.consumer.Idle? && t.pipe.queue == s.pipe.queue && t.pipe.log == s.pipe.log
    ensures t.pipe.capacity == s.pipe.capacity && t.pipe.published == s.pipe.published
    ensures t.front.closed == s.front.closed && t.front.closing == s.front.closing
    ensures c in t.front.calls && t.front.calls[c] == Returned(Durable)
  {
    run, t := [], s;
    run, t := Goes(H, s, run, t, Answer);
    run, t := Goes(H, s, run, t, Receive(c));
  }

  lemma {:induction false} Chains(H: HashFn, s: State, run: seq<Action>, t: State, more: seq<Action>, u: State)
    requires LeadsTo(H, s, run, t) && LeadsTo(H, t, more, u)
    ensures LeadsTo(H, s, run + more, u)
    decreases |run|
  {
    if run == [] {
      assert run + more == more;
    } else {
      LeadsToTail(H, s, run, t);
      Chains(H, Apply(H, s, run[0]), run[1..], t, more, u);
      assert (run + more)[0] == run[0] && (run + more)[1..] == run[1..] + more;
    }
  }

  /**
   A started call of RecordSync on a writer at rest can end with nil, with its entry stored and published
   and the writer at rest again.
   */
  lemma CallSucceeds(H: HashFn, s: State, c: CallerId, draft: AuditEntry) returns (run: seq<Action>, t: State)
    requires AtRest(s) && c in s.front.calls && s.front.calls[c] == Started(draft, true) && c !in s.front.replies
    requires NormalizePayload(draft.payload).Ok?
    ensures LeadsTo(H, s, run, t) && AtRest(t)
    ensures c in t.front.calls && t.front.calls[c] == Returned(Durable)
    ensures |t.pipe.log| == |s.pipe.log| + 1 && Records(t.pipe.log[|s.pipe.log|], draft)
    ensures t.pipe.published == s.pipe.published + [|s.pipe.log|]
  {
    var u;
    run, u := CallQueued(H, s, c, draft);
    var more, v := CallStored(H, u, c, draft);
    Chains(H, s, run, u, more, v);
    run := run + more;
    more, t := CallAnswered(H, v, c);
    Chains(H, s, run, v, more, t);
    run := run + more;
  }

  /** Such is a process that has just been started on an empty store. */
  lemma StartsAtRest(H: HashFn, s: State, size: nat)
    requires IsEmpty(s) && size > 0
    ensures Enabled(s, Restart(size))
    ensures var t := Apply(H, s, Restart(size)); AtRest(t) && t.front.calls == map[]
  {
  }

  /** And one started after another has died: what was stored stays, what was under way is never answered. */
  lemma DeathAndRestart(H: HashFn, s: State, size: nat) returns (run: seq<Action>, t: State)
    requires !s.pipe.consumer.Dead? && size > 0
    ensures LeadsTo(H, s, run, t) && AtRest(t)
    ensures t.pipe.log == s.pipe.log && t.pipe.published == s.pipe.published && t.pipe.capacity == size
    ensures t.front.calls.Keys == s.front.calls.Keys
    ensures forall c :: c in s.front.calls ==>
      t.front.calls[c] == if s.front.calls[c].Returned? then s.front.calls[c] else Returned(Aborted)
  {
    run, t := [], s;
    run, t := Goes(H, s, run, t, Crash);
    run, t := Goes(H, s, run, t, Restart(size));
  }

  lemma Begins(H: HashFn, s: State, c: CallerId, draft: AuditEntry)
    requires AtRest(s) && c !in s.front.calls
    ensures Enabled(s, Begin(c, draft, true))
    ensures var t := Apply(H, s, Begin(c, draft, true));
      && AtRest(t) && t.pipe == s.pipe && t.front.replies == s.front.replies
      && c in t.front.calls && t.front.calls[c] == Started(draft, true)
  {
  }

  /** So from every reachable state at rest a new call for an entry that normalises can succeed. */
  lemma RecordSyncCanSucceed(H: HashFn, s: State, c: CallerId, draft: AuditEntry) returns (run: seq<Action>, t: State)
    requires Reachable(H, s) && AtRest(s) && c !in s.front.calls && NormalizePayload(draft.payload).Ok?
    ensures LeadsTo(H, s, run, t) && c in t.front.calls && t.front.calls[c] == Returned(Durable)
    ensures |t.pipe.log| == |s.pipe.log| + 1 && Records(t.pipe.log[|s.pipe.log|], draft)
  {
    ReachableInv(H, s);
    Begins(H, s, c, draft);
    var begin := Begin(c, draft, true);
    var u := Apply(H, s, begin);
    assert LeadsTo(H, u, [], u);
    run, t := CallSucceeds(H, u, c, draft);
    assert ([begin] + run)[1..] == run;
    run := [begin] + run;
  }

  /** With nobody at the read lock, `Close` can run its course. */
  lemma CloseCanRun(H: HashFn, s: State) returns (run: seq<Action>, t: State)
    requires !s.pipe.consumer.Dead? && !s.front.closing && s.front.readers == {}
    ensures LeadsTo(H, s, run, t) && t == s.(front := s.front.(closed := true))
  {
    run, t := [], s;
    run, t := Goes(H, s, run, t, CloseLock);
    run, t := Goes(H, s, run, t, CloseBody);
    run, t := Goes(H, s, run, t, CloseUnlock);
  }
}
