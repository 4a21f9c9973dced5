/**
 The live view (internal/events/events.go, dashboard/api/internal/ws/hub.go): published entries travel
 over a lossy channel into a bounded one, and a hub copies each to every connected browser that has
 room. Entries are named by their position in the stored log.
 */
module LiveFeed {
  import opened Wrappers
  import opened AuditEntries
  import opened AuditWriter
  import opened WriterPipe
  import opened WriterSafety
  import opened WriterTheorems

  const CLIENT_BUFFER: nat := 128

  /** A send that is skipped when the channel is full. */
  function Offered<T>(channel: seq<T>, capacity: nat, x: T): (after: seq<T>)
    ensures |channel| <= capacity ==> |after| <= capacity
    ensures |channel| < capacity ==> after == channel + [x]
    ensures |channel| >= capacity ==> after == channel
  {
    if |channel| < capacity then channel + [x] else channel
  }

  // ----- the hub ---------------------------------------------------------------------------

  class Client<T> {
    var events: seq<T>
    var closed: bool

    constructor ()
      ensures events == [] && !closed
    {
      events, closed := [], false;
    }

    /** Closing a closed channel is fatal, so the caller must know that it is open. */
    method CloseDone()
      requires !closed
      modifies this`closed
      ensures closed
    {
      closed := true;
    }
  }

  class Hub<T> {
    var clients: set<Client<T>>

    /** Whoever is registered has an open `done` channel. */
    ghost predicate Valid()
      reads this, clients
    {
      forall c :: c in clients ==> !c.closed
    }

    constructor ()
      ensures Valid() && clients == {}
    {
      clients := {};
    }

    method Add(c: Client<T>)
      requires Valid() && !c.closed
      modifies this
      ensures Valid() && clients == old(clients) + {c}
    {
      clients := clients + {c};
    }

    /** Safe to call again for a client that is gone: only the first call closes. */
    method Remove(c: Client<T>)
      requires Valid()
      modifies this, c`closed
      ensures Valid() && clients == old(clients) - {c}
      ensures c.closed == (old(c.closed) || c in old(clients))
    {
      if c in clients {
        clients := clients - {c};
        c.CloseDone();
      }
    }

    method CloseAll()
      requires Valid()
      modifies this, clients`closed
      ensures Valid() && clients == {}
      ensures forall c :: c in old(clients) ==> c.closed
    {
      ghost var before := clients;
      while clients != {}
        invariant clients <= before
        invariant forall c :: c in before ==> (c.closed <==> c !in clients)
        decreases clients
      {
        var c :| c in clients;
        clients := clients - {c};
        c.CloseDone();
      }
    }

    /** Every client is offered the event; none is waited for. */
    method Broadcast(x: T)
      requires Valid()
      modifies clients`events
      ensures Valid()
      ensures forall c :: c in clients ==> c.events == Offered(old(c.events), CLIENT_BUFFER, x)
      ensures forall c :: c in clients && |old(c.events)| < 128 ==> c.events == old(c.events) + [x]
      ensures forall c :: c in clients && |old(c.events)| >= 128 ==> c.events == old(c.events)
    {
      var left := clients;
      while left != {}
        invariant left <= clients
        invariant forall c :: c in clients ==>
          c.events == if c in left then old(c.events) else Offered(old(c.events), CLIENT_BUFFER, x)
        decreases left
      {
        var c :| c in left;
        left := left - {c};
        if |c.events| < CLIENT_BUFFER {
          c.events := c.events + [x];
        }
      }
    }
  }

  // ----- the whole path --------------------------------------------------------------------

  type BrowserId = nat

  /** One connection: what waits for it, what it was sent, and how often its `done` was closed. */
  datatype Browser = Browser(buffer: seq<int>, sent: seq<int>, closes: nat)

  datatype Feed = Feed(
    size: nat,                          // capacity of the subscriber's channels, whatever it is
    taken: nat,                         // how many published messages were carried or lost
    messages: seq<int>,                 // carried to the subscriber
    out: seq<int>,                      // forwarded to the hub
    running: bool,
    clients: set<BrowserId>,            // registered with the hub
    browsers: map<BrowserId, Browser>)  // every connection so far

  datatype World = World(writer: State, feed: Feed)

  datatype Move =
    | Engine(a: Action)             // any step of the writer
    | Carry                         // the channel delivers a message
    | Lose                          // or does not
    | Forward                       // the subscriber offers it to the hub's stream
    | Discard                       // a message that does not decode
    | Broadcast                     // the hub offers it to every client
    | Stop                          // the hub shuts down
    | Join(c: BrowserId)
    | Write(c: BrowserId)           // the handler sends one event
    | WriteFails(c: BrowserId)
    | Leave(c: BrowserId)           // `remove`, by the handler or by its reader

  const FRESH: Browser := Browser([], [], 0)

  /** What a move does to one connection. */
  function Touched(f: Feed, m: Move, c: BrowserId, b: Browser): Browser
    requires m.Broadcast? ==> f.out != []
    requires m == Write(c) || m == WriteFails(c) ==> b.buffer != []
  {
    match m
    case Broadcast => if c in f.clients then b.(buffer := Offered(b.buffer, CLIENT_BUFFER, f.out[0])) else b
    case Stop => if c in f.clients then b.(closes := b.closes + 1) else b
    case Leave(d) => if c == d && c in f.clients then b.(closes := b.closes + 1) else b
    case Write(d) => if c == d then b.(buffer := b.buffer[1..], sent := b.sent + [b.buffer[0]]) else b
    case WriteFails(d) => if c == d then b.(buffer := b.buffer[1..]) else b
    case _ => b
  }

  predicate MayHappen(w: World, m: Move) {
    var f := w.feed;
    match m
    case Engine(a) => Enabled(w.writer, a)
    case Carry => f.taken < |w.writer.pipe.published| && |f.messages| < f.size
    case Lose => f.taken < |w.writer.pipe.published|
    case Forward => f.messages != []
    case Discard => f.messages != []
    case Broadcast => f.running && f.out != []
    case Stop => f.running
    case Join(c) => c !in f.browsers
    case Write(c) => c in f.browsers && f.browsers[c].buffer != []
    case WriteFails(c) => c in f.browsers && f.browsers[c].buffer != []
    case Leave(c) => c in f.browsers
  }

  predicate FeedReady(f: Feed, published: seq<int>, m: Move) {
    && (m.Carry? || m.Lose? ==> f.taken < |published|)
    && (m.Forward? || m.Discard? ==> f.messages != [])
    && (m.Broadcast? ==> f.out != [])
    && (m.Write? || m.WriteFails? ==> m.c in f.browsers && f.browsers[m.c].buffer != [])
  }

  function FeedNext(f: Feed, published: seq<int>, m: Move): Feed
    requires FeedReady(f, published, m)
  {
    var g := f.(browsers := map c | c in f.browsers :: Touched(f, m, c, f.browsers[c]));
    match m
    case Carry => g.(taken := f.taken + 1, messages := f.messages + [published[f.taken]])
    case Lose => g.(taken := f.taken + 1)
    case Forward => g.(messages := f.messages[1..], out := Offered(f.out, f.size, f.messages[0]))
    case Discard => g.(messages := f.messages[1..])
    case Broadcast => g.(out := f.out[1..])
    case Stop => g.(running := false, clients := {})
    case Join(c) => g.(clients := f.clients + {c}, browsers := g.browsers[c := FRESH])
    case Leave(c) => g.(clients := f.clients - {c})
    case _ => g
  }

  function Moved(H: HashFn, w: World, m: Move): World
    requires MayHappen(w, m)
  {
    World(if m.Engine? then Apply(H, w.writer, m.a) else w.writer, FeedNext(w.feed, w.writer.pipe.published, m))
  }

  predicate IsPlay(H: HashFn, w: World, ms: seq<Move>)
    decreases |ms|
  {
    ms == [] || (MayHappen(w, ms[0]) && IsPlay(H, Moved(H, w, ms[0]), ms[1..]))
  }

  function Outcome(H: HashFn, w: World, ms: seq<Move>): World
    requires IsPlay(H, w, ms)
    decreases |ms|
  {
    if ms == [] then w else Outcome(H, Moved(H, w, ms[0]), ms[1..])
  }

  // ----- everything under way is in order --------------------------------------------------

  /** What is still on its way to the hub, oldest first. */
  function Upstream(f: Feed, published: seq<int>): seq<int>
    requires f.taken <= |published|
  {
    f.out + (f.messages + published[f.taken..])
  }

  /** What a browser was sent and may still be sent, oldest first. */
  function Wire(b: Browser, f: Feed, published: seq<int>): seq<int>
    requires f.taken <= |published|
  {
    b.sent + (b.buffer + Upstream(f, published))
  }

  ghost predicate FromLog(xs: seq<int>, published: seq<int>) {
    Increasing(xs) && forall i :: 0 <= i < |xs| ==> xs[i] in published
  }

  /** Equal, or one element short. */
  ghost predicate Thinned(xs: seq<int>, ys: seq<int>) {
    xs == ys || exists i :: 0 <= i < |ys| && xs == ys[..i] + ys[i + 1..]
  }

  lemma ThinnedFromLog(xs: seq<int>, ys: seq<int>, published: seq<int>)
    requires Thinned(xs, ys) && FromLog(ys, published)
    ensures FromLog(xs, published)
  {
    if xs != ys {
      var i :| 0 <= i < |ys| && xs == ys[..i] + ys[i + 1..];
      forall k | 0 <= k < |xs| ensures xs[k] == ys[if k < i then k else k + 1] {}
    }
  }

  lemma ThinnedBehind(left: seq<int>, xs: seq<int>, ys: seq<int>)
    requires Thinned(xs, ys)
    ensures Thinned(left + xs, left + ys)
  {
    if xs != ys {
      var i :| 0 <= i < |ys| && xs == ys[..i] + ys[i + 1..];
      var k, all := |left| + i, left + ys;
      assert all[..k] == left + ys[..i] && all[k + 1..] == ys[i + 1..];
      assert left + xs == all[..k] + all[k + 1..];
    }
  }

  /** Handing the head of one queue to the tail of the one before changes nothing in between. */
  lemma HandOver(xs: seq<int>, ys: seq<int>, right: seq<int>)
    requires ys != []
    ensures (xs + [ys[0]]) + (ys[1..] + right) == xs + (ys + right)
  {
  }

  lemma DropHead(ys: seq<int>, right: seq<int>)
    requires ys != []
    ensures Thinned(ys[1..] + right, ys + right)
  {
    var all := ys + right;
    assert all[..0] + all[1..] == ys[1..] + right;
  }

  lemma UpstreamStep(f: Feed, published: seq<int>, m: Move)
    requires FeedReady(f, published, m) && f.taken <= |published| && !m.Broadcast?
    ensures var g := FeedNext(f, published, m);
      g.taken <= |published| && Thinned(Upstream(g, published), Upstream(f, published))
  {
    var g, rest := FeedNext(f, published, m), published[f.taken..];
    match m {
      case Carry =>
        HandOver(f.messages, rest, []);
        assert rest[1..] + [] == published[g.taken..] && rest + [] == rest;
      case Lose =>
        DropHead(rest, []);
        assert rest[1..] + [] == published[g.taken..] && rest + [] == rest;
        ThinnedBehind(f.messages, published[g.taken..], rest);
        ThinnedBehind(f.out, f.messages + published[g.taken..], f.messages + rest);
      case Forward =>
        HandOver(f.out, f.messages, rest);
        DropHead(f.messages, rest);
        ThinnedBehind(f.out, f.messages[1..] + rest, f.messages + rest);
      case Discard =>
        DropHead(f.messages, rest);
        ThinnedBehind(f.out, f.messages[1..] + rest, f.messages + rest);
      case _ =>
    }
  }

  /** Whatever happens, the way to one browser stays as it is or loses one message. */
  lemma WireStep(f: Feed, published: seq<int>, m: Move, c: BrowserId, b: Browser)
    requires FeedReady(f, published, m) && f.taken <= |published|
    requires m == Write(c) || m == WriteFails(c) ==> b.buffer != []
    ensures var g := FeedNext(f, published, m);
      g.taken <= |published| && Thinned(Wire(Touched(f, m, c, b), g, published), Wire(b, f, published))
  {
    var g := FeedNext(f, published, m);
    var up := Upstream(f, published);
    if m.Broadcast? {
      var rest := f.messages + published[f.taken..];
      HandOver(b.buffer, f.out, rest);
      DropHead(f.out, rest);
      ThinnedBehind(b.buffer, f.out[1..] + rest, up);
      ThinnedBehind(b.sent, b.buffer + (f.out[1..] + rest), b.buffer + up);
    } else {
      UpstreamStep(f, published, m);
      if m == Write(c) {
        HandOver(b.sent, b.buffer, up);
      } else if m == WriteFails(c) {
        DropHead(b.buffer, up);
        ThinnedBehind(b.sent, b.buffer[1..] + up, b.buffer + up);
      } else {
        ThinnedBehind(b.buffer, Upstream(g, published), up);
        ThinnedBehind(b.sent, b.buffer + Upstream(g, published), b.buffer + up);
      }
    }
  }

  /** In order on the way, and closed once exactly when no longer registered. */
  ghost predicate BrowserOk(f: Feed, published: seq<int>, c: BrowserId)
    requires f.taken <= |published| && c in f.browsers
  {
    && FromLog(Wire(f.browsers[c], f, published), published)
    && f.browsers[c].closes == if c in f.clients then 0 else 1
  }

  ghost predicate FeedInv(f: Feed, published: seq<int>) {
    && f.taken <= |published|
    && f.clients <= f.browsers.Keys
    && FromLog(Wire(FRESH, f, published), published)
    && forall c :: c in f.browsers ==> BrowserOk(f, published, c)
  }

  lemma FeedStep(f: Feed, published: seq<int>, m: Move)
    requires FeedInv(f, published) && FeedReady(f, published, m)
    requires (m.Join? ==> m.c !in f.browsers) && (m.Leave? ==> m.c in f.browsers)
    ensures FeedInv(FeedNext(f, published, m), published)
  {
    var g := FeedNext(f, published, m);
    FreshStep(f, published, m);
    forall c | c in g.browsers ensures BrowserOk(g, published, c) {
      if c in f.browsers {
        assert BrowserOk(f, published, c);
        WireStep(f, published, m, c, f.browsers[c]);
        ThinnedFromLog(Wire(g.browsers[c], g, published), Wire(f.browsers[c], f, published), published);
      }
    }
  }

  lemma FreshStep(f: Feed, published: seq<int>, m: Move)
    requires FeedInv(f, published) && FeedReady(f, published, m)
    ensures var g := FeedNext(f, published, m);
      g.taken <= |published| && FromLog(Wire(FRESH, g, published), published)
  {
    var g := FeedNext(f, published, m);
    assert Wire(FRESH, f, published) == Upstream(f, published) && Wire(FRESH, g, published) == Upstream(g, published);
    if m.Broadcast? {
      DropHead(f.out, f.messages + published[f.taken..]);
    } else {
      UpstreamStep(f, published, m);
    }
    ThinnedFromLog(Upstream(g, published), Upstream(f, published), published);
  }

  // ----- while the writer publishes --------------------------------------------------------

  lemma PublishedGrows(H: HashFn, w: State, a: Action)
    requires Enabled(w, a)
    ensures var p, q := w.pipe.published, Apply(H, w, a).pipe.published;
      q == p || (|q| == |p| + 1 && q[..|p|] == p)
  {
  }

  /** One more published position behind everything under way. */
  lemma WireGrows(b: Browser, f: Feed, p: seq<int>, q: seq<int>)
    requires f.taken <= |p| && |q| == |p| + 1 && q[..|p|] == p && Increasing(q) && FromLog(Wire(b, f, p), p)
    ensures FromLog(Wire(b, f, q), q)
  {
    var xs := Wire(b, f, p);
    var x := q[|p|];
    assert q[f.taken..] == p[f.taken..] + [x];
    assert Wire(b, f, q) == xs + [x];
    forall i | 0 <= i < |xs| ensures xs[i] < x && xs[i] in q {
      assert xs[i] in p;
      var k :| 0 <= k < |p| && p[k] == xs[i];
      assert q[k] == xs[i];
    }
    assert q[|p|] in q;
  }

  lemma FeedGrows(f: Feed, p: seq<int>, q: seq<int>)
    requires FeedInv(f, p) && |q| == |p| + 1 && q[..|p|] == p && Increasing(q)
    ensures FeedInv(f, q)
  {
    WireGrows(FRESH, f, p, q);
    forall c | c in f.browsers ensures BrowserOk(f, q, c) {
      assert BrowserOk(f, p, c);
      WireGrows(f.browsers[c], f, p, q);
    }
  }

  ghost predicate WorldInv(H: HashFn, w: World) {
    Inv(H, w.writer) && FeedInv(w.feed, w.writer.pipe.published)
  }

  lemma WorldStep(H: HashFn, w: World, m: Move)
    requires WorldInv(H, w) && MayHappen(w, m)
    ensures WorldInv(H, Moved(H, w, m))
  {
    var p := w.writer.pipe.published;
    if m.Engine? {
      InvStep(H, w.writer, m.a);
      PublishedGrows(H, w.writer, m.a);
      var q := Apply(H, w.writer, m.a).pipe.published;
      if q != p { FeedGrows(w.feed, p, q); }
      EngineKeepsFeed(w.feed, p, m);
    } else {
      FeedStep(w.feed, p, m);
    }
  }

  lemma EngineKeepsFeed(f: Feed, published: seq<int>, m: Move)
    requires m.Engine?
    ensures FeedNext(f, published, m) == f
  {
  }

  lemma {:induction false} PlayKeepsInv(H: HashFn, w: World, ms: seq<Move>)
    requires WorldInv(H, w) && IsPlay(H, w, ms)
    ensures WorldInv(H, Outcome(H, w, ms))
    decreases |ms|
  {
    if ms == [] {
    } else {
      WorldStep(H, w, ms[0]);
      PlayKeepsInv(H, Moved(H, w, ms[0]), ms[1..]);
    }
  }

  /** No browser, nothing under way. */
  predicate Quiet(f: Feed, published: seq<int>) {
    f.taken == |published| && f.messages == [] && f.out == [] && f.clients == {} && f.browsers == map[]
  }

  /**
   In every run, each browser is sent entries of the stored log in log order, none twice, and its
   `done` channel is closed at most once.
   */
  lemma BrowsersSeeTheLogInOrder(H: HashFn, w: World, ms: seq<Move>, v: World, c: BrowserId)
    requires Reachable(H, w.writer) && Quiet(w.feed, w.writer.pipe.published)
    requires IsPlay(H, w, ms) && v == Outcome(H, w, ms) && c in v.feed.browsers
    ensures var sent := v.feed.browsers[c].sent;
      && Increasing(sent)
      && (forall i :: 0 <= i < |sent| ==> 0 <= sent[i] < |v.writer.pipe.log|)
      && v.feed.browsers[c].closes <= 1
  {
    ReachableInv(H, w.writer);
    assert Wire(FRESH, w.feed, w.writer.pipe.published) == [];
    PlayKeepsInv(H, w, ms);
    var published, b := v.writer.pipe.published, v.feed.browsers[c];
    assert BrowserOk(v.feed, published, c);
    var xs := Wire(b, v.feed, published);
    assert forall i :: 0 <= i < |b.sent| ==> b.sent[i] == xs[i];
    forall i | 0 <= i < |b.sent| ensures 0 <= b.sent[i] < |v.writer.pipe.log| {
      assert xs[i] in published;
    }
  }

  // ----- browsers do not disturb each other ------------------------------------------------

  predicate OfAnother(m: Move, c: BrowserId) {
    (m.Join? || m.Write? || m.WriteFails? || m.Leave?) && m.c != c
  }

  /** The run without anything other browsers did. */
  function Alone(ms: seq<Move>, c: BrowserId): seq<Move> {
    if ms == [] then []
    else (if OfAnother(ms[0], c) then [] else [ms[0]]) + Alone(ms[1..], c)
  }

  function Lookup(f: Feed, c: BrowserId): Option<Browser> {
    if c in f.browsers then Some(f.browsers[c]) else None
  }

  /** The two worlds differ at most in the other browsers. */
  predicate SameFor(c: BrowserId, w: World, v: World) {
    && w.writer == v.writer
    && w.feed.(clients := {}, browsers := map[]) == v.feed.(clients := {}, browsers := map[])
    && (c in w.feed.clients <==> c in v.feed.clients)
    && Lookup(w.feed, c) == Lookup(v.feed, c)
  }

  lemma OthersUnseen(H: HashFn, w: World, v: World, m: Move, c: BrowserId)
    requires SameFor(c, w, v) && MayHappen(w, m) && OfAnother(m, c)
    ensures SameFor(c, Moved(H, w, m), v)
  {
  }

  lemma SharedStep(H: HashFn, w: World, v: World, m: Move, c: BrowserId)
    requires SameFor(c, w, v) && MayHappen(w, m) && !OfAnother(m, c)
    ensures MayHappen(v, m) && SameFor(c, Moved(H, w, m), Moved(H, v, m))
  {
  }

  lemma {:induction false} AloneRuns(H: HashFn, w: World, v: World, ms: seq<Move>, c: BrowserId)
    requires SameFor(c, w, v) && IsPlay(H, w, ms)
    ensures IsPlay(H, v, Alone(ms, c)) && SameFor(c, Outcome(H, w, ms), Outcome(H, v, Alone(ms, c)))
    decreases |ms|
  {
    if ms == [] {
    } else {
      var m := ms[0];
      if OfAnother(m, c) {
        OthersUnseen(H, w, v, m, c);
        AloneRuns(H, Moved(H, w, m), v, ms[1..], c);
        assert Alone(ms, c) == Alone(ms[1..], c);
      } else {
        SharedStep(H, w, v, m, c);
        AloneRuns(H, Moved(H, w, m), Moved(H, v, m), ms[1..], c);
        assert Alone(ms, c)[1..] == Alone(ms[1..], c);
      }
    }
  }

  /**
   However slow or busy the others are, a browser is sent exactly what it would have been sent had
   they never connected.
   */
  lemma SlowBrowsersDoNotMatter(H: HashFn, w: World, ms: seq<Move>, c: BrowserId)
    requires IsPlay(H, w, ms)
    ensures IsPlay(H, w, Alone(ms, c))
    ensures Lookup(Outcome(H, w, ms).feed, c) == Lookup(Outcome(H, w, Alone(ms, c)).feed, c)
  {
    AloneRuns(H, w, w, ms, c);
  }

  // ----- a hub that has shut down ----------------------------------------------------------

  /** What this browser was sent or has waiting now, it was sent or had waiting before. */
  ghost predicate NothingNew(before: Feed, now: Feed, c: BrowserId) {
    c in now.browsers ==> forall x :: x in now.browsers[c].sent + now.browsers[c].buffer ==>
      c in before.browsers && x in before.browsers[c].sent + before.browsers[c].buffer
  }

  lemma SilentStep(H: HashFn, w: World, m: Move, c: BrowserId)
    requires MayHappen(w, m) && !w.feed.running
    ensures !Moved(H, w, m).feed.running && NothingNew(w.feed, Moved(H, w, m).feed, c)
  {
  }

  /** Whatever happens after the hub has shut down, no browser is sent anything but what it had waiting. */
  lemma {:induction false} StoppedHubIsSilent(H: HashFn, w: World, ms: seq<Move>, c: BrowserId)
    requires !w.feed.running && IsPlay(H, w, ms)
    ensures NothingNew(w.feed, Outcome(H, w, ms).feed, c)
    decreases |ms|
  {
    if ms == [] {
    } else {
      SilentStep(H, w, ms[0], c);
      StoppedHubIsSilent(H, Moved(H, w, ms[0]), ms[1..], c);
    }
  }

  lemma StopStops(H: HashFn, w: World)
    requires MayHappen(w, Stop)
    ensures var f, g := w.feed, Moved(H, w, Stop).feed;
      && !g.running && g.clients == {} && g.browsers.Keys == f.browsers.Keys
      && forall c :: c in f.browsers ==>
           g.browsers[c] == f.browsers[c].(closes := f.browsers[c].closes + (if c in f.clients then 1 else 0))
  {
  }

  // ----- and events do arrive --------------------------------------------------------------

  /** A registered browser with room receives the event that the hub broadcasts, and it is the last to wait. */
  lemma BroadcastReaches(H: HashFn, w: World, c: BrowserId)
    requires MayHappen(w, Broadcast) && c in w.feed.clients && c in w.feed.browsers && |w.feed.browsers[c].buffer| < 128
    ensures var b, f := w.feed.browsers[c], Moved(H, w, Broadcast).feed;
      c in f.browsers && f.browsers[c] == b.(buffer := b.buffer + [w.feed.out[0]])
  {
  }

  /** Nothing is under way to this browser, which is registered. */
  predicate Watching(f: Feed, c: BrowserId) {
    f.size > 0 && f.messages == [] && f.out == [] && f.running && c in f.clients && c in f.browsers && f.browsers[c].buffer == []
  }

  lemma Arrives(H: HashFn, w: World, c: BrowserId)
    requires Watching(w.feed, c) && w.feed.taken < |w.writer.pipe.published|
    ensures var p := w.writer.pipe.published[w.feed.taken];
      && MayHappen(w, Carry) && MayHappen(Moved(H, w, Carry), Forward)
      && var v := Moved(H, Moved(H, w, Carry), Forward);
      && v.writer == w.writer && v.feed.out == [p] && v.feed.running
      && c in v.feed.clients && c in v.feed.browsers && v.feed.browsers[c] == w.feed.browsers[c]
  {
  }

  /** With a channel that loses nothing, what was published next is what the browser is sent next. */
  lemma PublishedIsSeen(H: HashFn, w: World, c: BrowserId)
    requires Watching(w.feed, c) && w.feed.taken < |w.writer.pipe.published|
    ensures IsPlay(H, w, [Carry, Forward, Broadcast, Write(c)])
    ensures var v := Outcome(H, w, [Carry, Forward, Broadcast, Write(c)]);
      && c in v.feed.browsers
      && v.feed.browsers[c].sent == w.feed.browsers[c].sent + [w.writer.pipe.published[w.feed.taken]]
  {
    Arrives(H, w, c);
    BroadcastIsSeen(H, Moved(H, Moved(H, w, Carry), Forward), c);
    PlayMore(H, Moved(H, w, Carry), Forward, [Broadcast, Write(c)]);
    PlayMore(H, w, Carry, [Forward] + [Broadcast, Write(c)]);
    assert [Carry] + ([Forward] + [Broadcast, Write(c)]) == [Carry, Forward, Broadcast, Write(c)];
  }

  lemma BroadcastIsSeen(H: HashFn, w: World, c: BrowserId)
    requires MayHappen(w, Broadcast) && c in w.feed.clients && c in w.feed.browsers && w.feed.browsers[c].buffer == []
    ensures IsPlay(H, w, [Broadcast, Write(c)])
    ensures var v := Outcome(H, w, [Broadcast, Write(c)]);
      c in v.feed.browsers && v.feed.browsers[c].sent == w.feed.browsers[c].sent + [w.feed.out[0]]
  {
    BroadcastReaches(H, w, c);
    PlayOne(H, Moved(H, w, Broadcast), Write(c));
    PlayMore(H, w, Broadcast, [Write(c)]);
    assert [Broadcast] + [Write(c)] == [Broadcast, Write(c)];
  }

  lemma PlayOne(H: HashFn, w: World, m: Move)
    requires MayHappen(w, m)
    ensures IsPlay(H, w, [m]) && Outcome(H, w, [m]) == Moved(H, w, m)
  {
    assert [m][1..] == [];
  }

  lemma PlayMore(H: HashFn, w: World, m: Move, ms: seq<Move>)
    requires MayHappen(w, m) && IsPlay(H, Moved(H, w, m), ms)
    ensures IsPlay(H, w, [m] + ms) && Outcome(H, w, [m] + ms) == Outcome(H, Moved(H, w, m), ms)
  {
    assert ([m] + ms)[1..] == ms;
  }
}
