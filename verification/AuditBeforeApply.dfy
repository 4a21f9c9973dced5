/**
 Audit before apply: a dashboard handler asks the engine to record a change, waits for the engine to
 say that the entry is durable, and only then applies it. The engine's writer, with all its callers,
 failures and restarts, runs underneath; requests can time out and replies can be lost at every hop.
 */
module AuditBeforeApply {
  import opened Wrappers
  import opened ByteStrings
  import opened Json
  import opened JsonParser
  import opened JsonRoundTrip
  import opened Canonical
  import opened CanonicalText
  import opened AuditEntries
  import opened Chain
  import opened AuditWriter
  import opened WriterPipe
  import opened WriterSafety
  import opened WriterTheorems
  import opened WriterReplies

  // ----- the entry a change must leave -----------------------------------------------------

  /** Who asks for what, and the address the request is attributed to. */
  datatype Change =
    | SetEnabled(actor: string, ip: string, rule: string, enabled: bool)
    | AddIPRule(actor: string, ip: string, cidr: string, target: string, note: string)
    | DeleteIPRule(actor: string, ip: string, cidr: string)

  const KIND_ADMIN: string := "admin"
  const KIND_SYSTEM: string := "system"

  function ActionName(change: Change): string {
    match change
    case SetEnabled(_, _, _, _) => "rule.set_enabled"
    case AddIPRule(_, _, _, _, _) => "ipblock.add"
    case DeleteIPRule(_, _, _) => "ipblock.delete"
  }

  /** The details the handler passes along. */
  function Details(change: Change): Payload {
    match change
    case SetEnabled(_, ip, rule, enabled) => map["rule" := Str(rule), "enabled" := Bool(enabled), "ip" := Str(ip)]
    case AddIPRule(_, ip, cidr, target, note) =>
      map["cidr" := Str(cidr), "target" := Str(target), "note" := Str(note), "ip" := Str(ip)]
    case DeleteIPRule(_, ip, cidr) => map["cidr" := Str(cidr), "ip" := Str(ip)]
  }

  predicate Has(p: Payload, k: string, v: Value) {
    k in p && p[k] == v
  }

  /** The payload says who did what to which target, from which address. */
  predicate Names(p: Payload, change: Change) {
    && Has(p, "actor", Str(change.actor))
    && Has(p, "ip", Str(change.ip))
    && match change
       case SetEnabled(_, _, rule, enabled) =>
         Has(p, "action", Str("rule.set_enabled")) && Has(p, "rule", Str(rule)) && Has(p, "enabled", Bool(enabled))
       case AddIPRule(_, _, cidr, target, note) =>
         && Has(p, "action", Str("ipblock.add"))
         && Has(p, "cidr", Str(cidr)) && Has(p, "target", Str(target)) && Has(p, "note", Str(note))
       case DeleteIPRule(_, _, cidr) => Has(p, "action", Str("ipblock.delete")) && Has(p, "cidr", Str(cidr))
  }

  predicate SameKind(a: Change, b: Change) {
    (a.SetEnabled? && b.SetEnabled?) || (a.AddIPRule? && b.AddIPRule?) || (a.DeleteIPRule? && b.DeleteIPRule?)
  }

  /** One entry never speaks of changes of two kinds, by two actors or from two addresses. */
  lemma NamesOneKind(p: Payload, a: Change, b: Change)
    requires Names(p, a) && Names(p, b)
    ensures SameKind(a, b) && a.actor == b.actor && a.ip == b.ip
  {
    assert "ipblock.add" != "ipblock.delete" && "rule.set_enabled" != "ipblock.add" && "rule.set_enabled" != "ipblock.delete";
  }

  // ----- RecordAdmin -----------------------------------------------------------------------

  function AdminPayload(actor: string, action: string, details: Payload): Payload {
    (details - {"actor", "action"}) + map["actor" := Str(actor), "action" := Str(action)]
  }

  /** Whatever order the details come in, they never replace the actor or the action. */
  method BuildAdminPayload(actor: string, action: string, details: Payload) returns (payload: Payload)
    ensures payload == AdminPayload(actor, action, details)
  {
    payload := map["actor" := Str(actor), "action" := Str(action)];
    var left := details.Keys;
    while left != {}
      invariant left <= details.Keys
      invariant payload == AdminPayload(actor, action, details - left)
      decreases left
    {
      var k :| k in left;
      left := left - {k};
      if k != "actor" && k != "action" {
        payload := payload[k := details[k]];
      }
    }
  }

  lemma AdminPayloadNames(change: Change)
    ensures Names(AdminPayload(change.actor, ActionName(change), Details(change)), change)
  {
  }

  // ----- the wire --------------------------------------------------------------------------

  function RequestBody(kind: string, payload: Payload): string {
    Print(Marshal, Obj(map["kind" := Str(kind), "payload" := Obj(payload)]))
  }

  /** handleAudit's decoding and its check of the kind; numbers, which it reads as floats, aside. */
  function DecodeRequest(body: string): (r: Option<(string, Payload)>)
    ensures r.Some? ==> r.value.0 == "admin" || r.value.0 == "system"
  {
    match ParseValue(body, MAX_DEPTH)
    case Some((Obj(fields), _)) =>
      var kind := if "kind" in fields then fields["kind"] else Str("");
      var payload := if "payload" in fields then fields["payload"] else Null;
      if !kind.Str? || (kind.s != KIND_ADMIN && kind.s != KIND_SYSTEM) then None
      else if payload.Obj? then Some((kind.s, payload.fields))
      else if payload.Null? then Some((kind.s, map[]))
      else None
    case _ => None
  }

  /** The payloads the handlers build hold strings and booleans only. */
  predicate IsFlat(p: Payload) {
    forall k :: k in p ==> p[k].Str? || p[k].Bool?
  }

  lemma FlatIsNormal(p: Payload, room: nat)
    requires IsFlat(p) && room > 0
    ensures Normal(Obj(p), room)
  {
    forall k | k in p ensures Normal(p[k], room - 1) {}
  }

  lemma BodyIsNormal(kind: string, payload: Payload)
    requires IsFlat(payload)
    ensures Normal(Obj(map["kind" := Str(kind), "payload" := Obj(payload)]), MAX_DEPTH)
  {
    var fields := map["kind" := Str(kind), "payload" := Obj(payload)];
    FlatIsNormal(payload, MAX_DEPTH - 1);
    forall k | k in fields ensures Normal(fields[k], MAX_DEPTH - 1) {
      assert k == "kind" || k == "payload";
    }
  }

  /** What the engine decodes is what the dashboard sent. */
  lemma WireRoundTrip(payload: Payload)
    requires IsFlat(payload)
    ensures DecodeRequest(RequestBody(KIND_ADMIN, payload)) == Some((KIND_ADMIN, payload))
  {
    var body := Obj(map["kind" := Str(KIND_ADMIN), "payload" := Obj(payload)]);
    BodyIsNormal(KIND_ADMIN, payload);
    NormalIsEncodable(body, MAX_DEPTH);
    ParsePrinted(Marshal, body, MAX_DEPTH, "");
    assert Print(Marshal, body) + "" == Print(Marshal, body);
  }

  /** The draft the engine hands to RecordSync; the id and the time are its own. */
  function AdminDraft(kind: string, payload: Payload, id: Bytes, now: int): AuditEntry {
    AuditEntry(id, [], now, Utf8(kind), payload, [], [])
  }

  predicate NamesEntry(e: AuditEntry, change: Change) {
    e.kind == Utf8("admin") && e.requestId == [] && Names(e.payload, change)
  }

  lemma FlatDetails(change: Change)
    ensures IsFlat(AdminPayload(change.actor, ActionName(change), Details(change)))
  {
    var p := AdminPayload(change.actor, ActionName(change), Details(change));
    forall k | k in p ensures p[k].Str? || p[k].Bool? {
      if k == "actor" || k == "action" {} else { assert k in Details(change); }
    }
  }

  /** An entry that records this draft names the change. */
  ghost predicate DraftNames(draft: AuditEntry, change: Change) {
    forall e :: Records(e, draft) ==> NamesEntry(e, change)
  }

  /** From the handler's details through marshalling, decoding and normalising to the stored entry. */
  lemma PostedDraftNames(change: Change, id: Bytes, now: int)
    ensures var payload := AdminPayload(change.actor, ActionName(change), Details(change));
      && DecodeRequest(RequestBody(KIND_ADMIN, payload)) == Some((KIND_ADMIN, payload))
      && DraftNames(AdminDraft(KIND_ADMIN, payload, id, now), change)
      && NormalizePayload(payload) == Ok(payload)
  {
    var payload := AdminPayload(change.actor, ActionName(change), Details(change));
    FlatDetails(change);
    WireRoundTrip(payload);
    AdminPayloadNames(change);
    FlatIsNormal(payload, MAX_DEPTH);
    StoreRoundTrip(payload);
  }

  // ----- the protocol ----------------------------------------------------------------------

  type RequestId = nat

  /** Where a handler stands with one change. */
  datatype Phase =
    | Validated               // about to call RecordAdmin
    | Posted(c: CallerId)     // the engine serves it as caller c of RecordSync
    | Answered(c: CallerId)   // the engine has written 201, which is on its way
    | Recorded(c: CallerId)   // RecordAdmin returned nil
    | Refused                 // RecordAdmin returned an error, or the handler is gone
    | Applied(c: CallerId)    // the configuration was changed
    | ApplyFailed             // the rule store refused

  datatype Request = Request(change: Change, phase: Phase)

  /** A change that took effect: whose it was, and how long the log was at that moment. */
  datatype Effect = Effect(request: RequestId, caller: CallerId, change: Change, logLength: nat)

  datatype System = System(writer: State, requests: map<RequestId, Request>, effects: seq<Effect>)

  datatype Move =
    | Engine(a: Action)                                         // any step of the writer and its callers
    | Arrive(r: RequestId, change: Change)
    | Post(r: RequestId, c: CallerId, id: Bytes, now: int)      // the body reaches handleAudit
    | Respond(r: RequestId)                                     // RecordSync returned nil: 201
    | Deliver(r: RequestId)                                     // 201 reaches the dashboard
    | Fail(r: RequestId)                                        // timeout, lost reply, any other status
    | ApplyChange(r: RequestId)
    | ApplyFails(r: RequestId)

  function PostedDraft(req: Request, id: Bytes, now: int): Option<AuditEntry> {
    var payload := AdminPayload(req.change.actor, ActionName(req.change), Details(req.change));
    match DecodeRequest(RequestBody(KIND_ADMIN, payload))
    case None => None
    case Some((kind, decoded)) => Some(AdminDraft(kind, decoded, id, now))
  }

  predicate Possible(y: System, m: Move) {
    match m
    case Engine(a) => Enabled(y.writer, a)
    case Arrive(r, _) => r !in y.requests
    case Post(r, c, id, now) =>
      && r in y.requests && y.requests[r].phase.Validated?
      && PostedDraft(y.requests[r], id, now).Some?
      && Enabled(y.writer, Begin(c, PostedDraft(y.requests[r], id, now).value, true))
    case Respond(r) =>
      && r in y.requests && y.requests[r].phase.Posted?
      && y.requests[r].phase.c in y.writer.front.calls
      && y.writer.front.calls[y.requests[r].phase.c] == Returned(Durable)
    case Deliver(r) => r in y.requests && y.requests[r].phase.Answered?
    case Fail(r) => r in y.requests && !y.requests[r].phase.Applied?
    case ApplyChange(r) => r in y.requests && y.requests[r].phase.Recorded?
    case ApplyFails(r) => r in y.requests && y.requests[r].phase.Recorded?
  }

  function Step(y: System, r: RequestId, phase: Phase): System
    requires r in y.requests
  {
    y.(requests := y.requests[r := y.requests[r].(phase := phase)])
  }

  /** The configuration changes. */
  function WithEffect(y: System, r: RequestId): System
    requires r in y.requests && y.requests[r].phase.Recorded?
  {
    var c := y.requests[r].phase.c;
    Step(y, r, Applied(c)).(effects := y.effects + [Effect(r, c, y.requests[r].change, |y.writer.pipe.log|)])
  }

  function Next(H: HashFn, y: System, m: Move): System
    requires Possible(y, m)
  {
    match m
    case Engine(a) => y.(writer := Apply(H, y.writer, a))
    case Arrive(r, change) => y.(requests := y.requests[r := Request(change, Validated)])
    case Post(r, c, id, now) =>
      Step(y, r, Posted(c)).(writer := Apply(H, y.writer, Begin(c, PostedDraft(y.requests[r], id, now).value, true)))
    case Respond(r) => Step(y, r, Answered(y.requests[r].phase.c))
    case Deliver(r) => Step(y, r, Recorded(y.requests[r].phase.c))
    case Fail(r) => Step(y, r, Refused)
    case ApplyChange(r) =>
      WithEffect(y, r)
    case ApplyFails(r) => Step(y, r, ApplyFailed)
  }

  predicate IsHistory(H: HashFn, y: System, ms: seq<Move>)
    decreases |ms|
  {
    ms == [] || (Possible(y, ms[0]) && IsHistory(H, Next(H, y, ms[0]), ms[1..]))
  }

  function Final(H: HashFn, y: System, ms: seq<Move>): System
    requires IsHistory(H, y, ms)
    decreases |ms|
  {
    if ms == [] then y else Final(H, Next(H, y, ms[0]), ms[1..])
  }

  const START: System := System(INITIAL, map[], [])

  // ----- what holds throughout -------------------------------------------------------------

  /** The entry stored for this caller is among the first n and names the change. */
  predicate OnRecord(w: State, c: CallerId, n: nat, change: Change) {
    && c in w.front.calls && c in w.pipe.places
    && w.pipe.places[c] < n <= |w.pipe.log|
    && NamesEntry(w.pipe.log[w.pipe.places[c]], change)
  }

  ghost predicate RequestOk(w: State, req: Request) {
    match req.phase
    case Posted(c) => c in w.front.calls && c in w.front.drafts && DraftNames(w.front.drafts[c], req.change)
    case Answered(c) => OnRecord(w, c, |w.pipe.log|, req.change)
    case Recorded(c) => OnRecord(w, c, |w.pipe.log|, req.change)
    case Applied(c) => c in w.front.calls
    case _ => true
  }

  /** The call of RecordSync that serves a request, from the moment the engine takes it up. */
  function CallerOf(req: Request): Option<CallerId> {
    match req.phase
    case Posted(c) => Some(c)
    case Answered(c) => Some(c)
    case Recorded(c) => Some(c)
    case Applied(c) => Some(c)
    case _ => None
  }

  /** No call serves two requests. */
  ghost predicate DistinctCallers(requests: map<RequestId, Request>) {
    forall r, q :: r in requests && q in requests && r != q && CallerOf(requests[r]).Some? ==>
      CallerOf(requests[r]) != CallerOf(requests[q])
  }

  ghost predicate EffectOk(y: System, e: Effect) {
    && e.request in y.requests && y.requests[e.request].phase == Applied(e.caller)
    && OnRecord(y.writer, e.caller, e.logLength, e.change)
  }

  /** No request takes effect twice. */
  ghost predicate DistinctEffects(effects: seq<Effect>) {
    forall i, j :: 0 <= i < j < |effects| ==> effects[i].request != effects[j].request
  }

  ghost predicate ProtocolInv(y: System) {
    && (forall r :: r in y.requests ==> RequestOk(y.writer, y.requests[r]))
    && DistinctCallers(y.requests)
    && (forall i :: 0 <= i < |y.effects| ==> EffectOk(y, y.effects[i]))
    && DistinctEffects(y.effects)
  }

  ghost predicate SystemInv(H: HashFn, y: System) {
    Inv(H, y.writer) && ProtocolInv(y)
  }

  /** The log only grows, entries stay where they are and a caller's draft never changes, whatever the writer does. */
  ghost predicate Extends(w: State, v: State) {
    && w.pipe.log <= v.pipe.log
    && (forall c :: c in w.pipe.places ==> c in v.pipe.places && v.pipe.places[c] == w.pipe.places[c])
    && (forall c :: c in w.front.calls ==> c in v.front.calls)
    && (forall c :: c in w.front.calls && c in w.front.drafts ==>
          c in v.front.drafts && v.front.drafts[c] == w.front.drafts[c])
  }

  lemma WriterExtends(H: HashFn, w: State, a: Action)
    requires Enabled(w, a)
    ensures Extends(w, Apply(H, w, a))
  {
    if a.Prepare? { PrepareShape(H, w.pipe, w.front.closed); }
    if a.Store? { StoreShape(H, w.pipe, w.front.closed, a.r); }
  }

  lemma OnRecordGrows(w: State, v: State, c: CallerId, n: nat, change: Change)
    requires Extends(w, v) && OnRecord(w, c, n, change)
    ensures OnRecord(v, c, n, change) && OnRecord(v, c, |v.pipe.log|, change)
  {
    assert v.pipe.log[w.pipe.places[c]] == w.pipe.log[w.pipe.places[c]];
  }

  lemma RequestOkKept(w: State, v: State, req: Request)
    requires Extends(w, v) && RequestOk(w, req)
    ensures RequestOk(v, req)
  {
    if req.phase.Answered? || req.phase.Recorded? {
      OnRecordGrows(w, v, req.phase.c, |w.pipe.log|, req.change);
    }
  }

  lemma WriterMove(H: HashFn, y: System, a: Action)
    requires SystemInv(H, y) && Enabled(y.writer, a)
    ensures SystemInv(H, y.(writer := Apply(H, y.writer, a)))
  {
    var v := Apply(H, y.writer, a);
    var z := y.(writer := v);
    InvStep(H, y.writer, a);
    WriterExtends(H, y.writer, a);
    forall r | r in y.requests ensures RequestOk(v, y.requests[r]) { RequestOkKept(y.writer, v, y.requests[r]); }
    forall i | 0 <= i < |y.effects| ensures EffectOk(z, y.effects[i]) {
      assert EffectOk(y, y.effects[i]);
      OnRecordGrows(y.writer, v, y.effects[i].caller, y.effects[i].logLength, y.effects[i].change);
    }
  }

  /** A handler that has not applied its change moves on, with its own call or one that serves nobody. */
  lemma StepKeeps(y: System, r: RequestId, phase: Phase)
    requires ProtocolInv(y) && r in y.requests && !y.requests[r].phase.Applied?
    requires RequestOk(y.writer, y.requests[r].(phase := phase))
    requires forall q :: q in y.requests && q != r && CallerOf(y.requests[q]).Some? ==>
      CallerOf(y.requests[q]) != CallerOf(y.requests[r].(phase := phase))
    ensures ProtocolInv(Step(y, r, phase))
  {
    var z := Step(y, r, phase);
    forall q | q in z.requests ensures RequestOk(z.writer, z.requests[q]) {
      if q != r { assert RequestOk(y.writer, y.requests[q]); }
    }
    forall i | 0 <= i < |z.effects| ensures EffectOk(z, z.effects[i]) {
      assert EffectOk(y, y.effects[i]);
    }
  }

  /** RecordSync returned nil, so the entry stored for this call names the change. */
  lemma DurableNames(H: HashFn, w: State, c: CallerId, change: Change)
    requires Inv(H, w) && c in w.front.calls && w.front.calls[c] == Returned(Durable)
    requires c in w.front.drafts && DraftNames(w.front.drafts[c], change)
    ensures OnRecord(w, c, |w.pipe.log|, change)
  {
    assert ToldDurable(w.front, c);
    assert PlaceOk(w.front, w.pipe, c);
  }

  lemma CallersBegun(y: System, q: RequestId)
    requires q in y.requests && RequestOk(y.writer, y.requests[q]) && CallerOf(y.requests[q]).Some?
    ensures CallerOf(y.requests[q]).value in y.writer.front.calls
  {
  }

  /** What the engine decodes from the posted body is a draft that names the change. */
  lemma PostedIsDraft(req: Request, id: Bytes, now: int) returns (draft: AuditEntry)
    ensures PostedDraft(req, id, now) == Some(draft) && DraftNames(draft, req.change)
    ensures draft.id == id && draft.timestamp == now && NormalizePayload(draft.payload).Ok?
  {
    PostedDraftNames(req.change, id, now);
    draft := PostedDraft(req, id, now).value;
  }

  lemma BegunCall(H: HashFn, w: State, c: CallerId, draft: AuditEntry)
    requires Enabled(w, Begin(c, draft, true))
    ensures c !in w.front.calls
    ensures var f := Apply(H, w, Begin(c, draft, true)).front; c in f.calls && c in f.drafts && f.drafts[c] == draft
  {
  }

  lemma NobodyServed(y: System, c: CallerId)
    requires ProtocolInv(y) && c !in y.writer.front.calls
    ensures forall q :: q in y.requests && CallerOf(y.requests[q]).Some? ==> CallerOf(y.requests[q]) != Some(c)
  {
    forall q | q in y.requests && CallerOf(y.requests[q]).Some? ensures CallerOf(y.requests[q]) != Some(c) {
      CallersBegun(y, q);
    }
  }

  lemma BeginMove(H: HashFn, y: System, r: RequestId, c: CallerId, draft: AuditEntry)
    requires SystemInv(H, y) && r in y.requests && y.requests[r].phase.Validated? && Enabled(y.writer, Begin(c, draft, true))
    requires DraftNames(draft, y.requests[r].change)
    ensures SystemInv(H, Step(y.(writer := Apply(H, y.writer, Begin(c, draft, true))), r, Posted(c)))
  {
    BegunCall(H, y.writer, c, draft);
    NobodyServed(y, c);
    WriterMove(H, y, Begin(c, draft, true));
    StepKeeps(y.(writer := Apply(H, y.writer, Begin(c, draft, true))), r, Posted(c));
  }

  lemma PostMove(H: HashFn, y: System, m: Move)
    requires SystemInv(H, y) && Possible(y, m) && m.Post?
    ensures SystemInv(H, Next(H, y, m))
  {
    var draft := PostedIsDraft(y.requests[m.r], m.id, m.now);
    BeginMove(H, y, m.r, m.c, draft);
  }

  lemma EffectAdded(y: System, e: Effect)
    requires ProtocolInv(y) && EffectOk(y, e) && forall i :: 0 <= i < |y.effects| ==> y.effects[i].request != e.request
    ensures ProtocolInv(y.(effects := y.effects + [e]))
  {
    var z := y.(effects := y.effects + [e]);
    forall i | 0 <= i < |z.effects| ensures EffectOk(z, z.effects[i]) {
      if i < |y.effects| { assert EffectOk(y, y.effects[i]); }
    }
  }

  lemma ApplyMove(y: System, r: RequestId)
    requires ProtocolInv(y) && r in y.requests && y.requests[r].phase.Recorded?
    ensures ProtocolInv(WithEffect(y, r))
  {
    var c := y.requests[r].phase.c;
    assert RequestOk(y.writer, y.requests[r]);
    forall i | 0 <= i < |y.effects| ensures y.effects[i].request != r { assert EffectOk(y, y.effects[i]); }
    StepKeeps(y, r, Applied(c));
    EffectAdded(Step(y, r, Applied(c)), Effect(r, c, y.requests[r].change, |y.writer.pipe.log|));
  }

  lemma RespondMove(H: HashFn, y: System, r: RequestId)
    requires SystemInv(H, y) && Possible(y, Respond(r))
    ensures SystemInv(H, Next(H, y, Respond(r)))
  {
    var c := y.requests[r].phase.c;
    assert RequestOk(y.writer, y.requests[r]);
    DurableNames(H, y.writer, c, y.requests[r].change);
    StepKeeps(y, r, Answered(c));
  }

  lemma ArriveMove(y: System, r: RequestId, req: Request)
    requires ProtocolInv(y) && r !in y.requests && req.phase.Validated?
    ensures ProtocolInv(y.(requests := y.requests[r := req]))
  {
    var z := y.(requests := y.requests[r := req]);
    forall i | 0 <= i < |z.effects| ensures EffectOk(z, z.effects[i]) { assert EffectOk(y, y.effects[i]); }
  }

  lemma SystemStep(H: HashFn, y: System, m: Move)
    requires SystemInv(H, y) && Possible(y, m)
    ensures SystemInv(H, Next(H, y, m))
  {
    match m {
      case Engine(a) => WriterMove(H, y, a);
      case Arrive(r, change) => ArriveMove(y, r, Request(change, Validated));
      case Post(_, _, _, _) => PostMove(H, y, m);
      case Respond(r) => RespondMove(H, y, r);
      case Deliver(r) =>
        assert RequestOk(y.writer, y.requests[r]);
        StepKeeps(y, r, Recorded(y.requests[r].phase.c));
      case Fail(r) => StepKeeps(y, r, Refused);
      case ApplyChange(r) => ApplyMove(y, r);
      case ApplyFails(r) => StepKeeps(y, r, ApplyFailed);
    }
  }

  lemma {:induction false} HistoryKeepsInv(H: HashFn, y: System, ms: seq<Move>)
    requires SystemInv(H, y) && IsHistory(H, y, ms)
    ensures SystemInv(H, Final(H, y, ms))
    decreases |ms|
  {
    if ms == [] {
    } else {
      SystemStep(H, y, ms[0]);
      HistoryKeepsInv(H, Next(H, y, ms[0]), ms[1..]);
    }
  }

  ghost predicate Reaches(H: HashFn, y: System, ms: seq<Move>, z: System) {
    IsHistory(H, y, ms) && Final(H, y, ms) == z
  }

  lemma FreshInv(H: HashFn, w: State)
    requires Inv(H, w)
    ensures SystemInv(H, System(w, map[], []))
  {
  }

  lemma ReachedInv(H: HashFn, y: System, ms: seq<Move>, z: System)
    requires SystemInv(H, y) && Reaches(H, y, ms, z)
    ensures SystemInv(H, z)
  {
    HistoryKeepsInv(H, y, ms);
  }

  /** Two changes that took effect were served by two calls, whose entries stand apart. */
  lemma EffectsApart(y: System, i: nat, j: nat)
    requires DistinctCallers(y.requests) && DistinctEffects(y.effects) && DistinctPlaces(y.writer.pipe.places)
    requires i < j < |y.effects| && EffectOk(y, y.effects[i]) && EffectOk(y, y.effects[j])
    ensures y.writer.pipe.places[y.effects[i].caller] != y.writer.pipe.places[y.effects[j].caller]
  {
    var r, q := y.effects[i].request, y.effects[j].request;
    assert CallerOf(y.requests[r]) == Some(y.effects[i].caller) && CallerOf(y.requests[q]) == Some(y.effects[j].caller);
  }

  /** The entry at place j was in the log when the change took effect, still is, and names it. */
  predicate Precedes(log: Log, j: nat, e: Effect) {
    j < e.logLength <= |log| && NamesEntry(log[j], e.change)
  }

  /**
   Whatever happens on the way, every configuration change that took effect was preceded in the log
   by an entry of its own naming the same actor, action and target: no entry serves two changes, not
   even two that are alike.
   */
  lemma EveryChangeIsOnRecord(H: HashFn, ms: seq<Move>, z: System) returns (at: seq<nat>)
    requires Reaches(H, START, ms, z)
    ensures |at| == |z.effects|
    ensures forall i :: 0 <= i < |at| ==> Precedes(z.writer.pipe.log, at[i], z.effects[i])
    ensures forall i, j :: 0 <= i < j < |at| ==> at[i] != at[j]
  {
    FromStart(H, ms, z);
    at := PlacesOf(H, z);
  }

  lemma FromStart(H: HashFn, ms: seq<Move>, z: System)
    requires Reaches(H, START, ms, z)
    ensures SystemInv(H, z)
  {
    StartIsFresh(H);
    ReachedInv(H, START, ms, z);
  }

  lemma PlacesOf(H: HashFn, z: System) returns (at: seq<nat>)
    requires SystemInv(H, z)
    ensures |at| == |z.effects|
    ensures forall i :: 0 <= i < |at| ==> Precedes(z.writer.pipe.log, at[i], z.effects[i])
    ensures forall i, j :: 0 <= i < j < |at| ==> at[i] != at[j]
  {
    var places := z.writer.pipe.places;
    assert forall i :: 0 <= i < |z.effects| ==> EffectOk(z, z.effects[i]);
    at := seq(|z.effects|, i requires 0 <= i < |z.effects| => places[z.effects[i].caller]);
    forall i, j | 0 <= i < j < |at| ensures at[i] != at[j] {
      assert EffectOk(z, z.effects[i]) && EffectOk(z, z.effects[j]);
      EffectsApart(z, i, j);
    }
  }

  // ----- and a change can be applied -------------------------------------------------------

  lemma {:induction false} ReachesOn(H: HashFn, y: System, ms: seq<Move>, z: System, more: seq<Move>, u: System)
    requires Reaches(H, y, ms, z) && Reaches(H, z, more, u)
    ensures Reaches(H, y, ms + more, u)
    decreases |ms|
  {
    if ms == [] {
      assert ms + more == more;
    } else {
      ReachesOn(H, Next(H, y, ms[0]), ms[1..], z, more, u);
      assert (ms + more)[0] == ms[0] && (ms + more)[1..] == ms[1..] + more;
    }
  }

  lemma Moves(H: HashFn, y: System, ms: seq<Move>, z: System, m: Move) returns (longer: seq<Move>, u: System)
    requires Reaches(H, y, ms, z) && Possible(z, m)
    ensures Reaches(H, y, longer, u) && u == Next(H, z, m)
  {
    u := Next(H, z, m);
    assert [m][1..] == [];
    assert Reaches(H, u, [], u);
    assert Reaches(H, z, [m], u);
    ReachesOn(H, y, ms, z, [m], u);
    longer := ms + [m];
  }

  /** The engine's own steps, with nobody else moving. */
  lemma {:induction false} EngineMoves(H: HashFn, y: System, run: seq<Action>, t: State) returns (ms: seq<Move>)
    requires LeadsTo(H, y.writer, run, t)
    ensures Reaches(H, y, ms, y.(writer := t))
    decreases |run|
  {
    if run == [] {
      ms := [];
    } else {
      LeadsToTail(H, y.writer, run, t);
      var m := Engine(run[0]);
      var rest := EngineMoves(H, y.(writer := Apply(H, y.writer, run[0])), run[1..], t);
      ms := [m] + rest;
      assert ms[0] == m && ms[1..] == rest;
    }
  }

  lemma PostMoves(H: HashFn, y: System, r: RequestId, change: Change, c: CallerId) returns (ms: seq<Move>, z: System, draft: AuditEntry)
    requires AtRest(y.writer) && r !in y.requests && c !in y.writer.front.calls
    ensures Reaches(H, y, ms, z) && z.effects == y.effects && NormalizePayload(draft.payload).Ok?
    ensures AtRest(z.writer) && z.writer.pipe == y.writer.pipe && z.writer.front.replies == y.writer.front.replies
    ensures c in z.writer.front.calls && z.writer.front.calls[c] == Started(draft, true)
    ensures r in z.requests && z.requests[r] == Request(change, Posted(c))
  {
    ms, z := Moves(H, y, [], y, Arrive(r, change));
    draft := PostedIsDraft(z.requests[r], [], 0);
    Begins(H, z.writer, c, draft);
    ms, z := Moves(H, y, ms, z, Post(r, c, [], 0));
  }

  lemma ReplyMoves(H: HashFn, y: System, r: RequestId, change: Change, c: CallerId) returns (ms: seq<Move>, z: System)
    requires r in y.requests && y.requests[r] == Request(change, Posted(c))
    requires c in y.writer.front.calls && y.writer.front.calls[c] == Returned(Durable)
    ensures Reaches(H, y, ms, z) && z.writer == y.writer
    ensures z.effects == y.effects + [Effect(r, c, change, |y.writer.pipe.log|)]
  {
    ms, z := Moves(H, y, [], y, Respond(r));
    ms, z := Moves(H, y, ms, z, Deliver(r));
    ms, z := Moves(H, y, ms, z, ApplyChange(r));
  }

  /** With an engine at rest, any change a handler accepts can be recorded and then take effect. */
  lemma ChangeCanTakeEffect(H: HashFn, y: System, r: RequestId, change: Change, c: CallerId) returns (ms: seq<Move>, z: System)
    requires SystemInv(H, y) && AtRest(y.writer) && r !in y.requests && c !in y.writer.front.calls
    ensures Reaches(H, y, ms, z) && z.effects == y.effects + [Effect(r, c, change, |y.writer.pipe.log| + 1)]
  {
    assert c !in y.writer.front.replies;
    var draft, u;
    ms, u, draft := PostMoves(H, y, r, change, c);
    var more, v := EngineRecords(H, u, c, draft);
    ReachesOn(H, y, ms, u, more, v);
    ms := ms + more;
    more, z := ReplyMoves(H, v, r, change, c);
    ReachesOn(H, y, ms, v, more, z);
    ms := ms + more;
  }

  /** Nothing is stored, nobody has asked for anything. */
  predicate IsFresh(y: System) {
    IsEmpty(y.writer) && y.requests == map[] && y.effects == []
  }

  lemma EngineStarts(H: HashFn, y: System) returns (ms: seq<Move>, z: System)
    requires IsFresh(y) && SystemInv(H, y)
    ensures Reaches(H, y, ms, z) && SystemInv(H, z)
    ensures AtRest(z.writer) && z.writer.front.calls == map[] && z.writer.pipe.log == []
    ensures z.requests == map[] && z.effects == []
  {
    StartsAtRest(H, y.writer, 1);
    ms, z := Moves(H, y, [], y, Engine(Restart(1)));
    SystemStep(H, y, Engine(Restart(1)));
  }

  lemma Fresh(H: HashFn, w: State)
    requires IsEmpty(w)
    ensures IsFresh(System(w, map[], [])) && SystemInv(H, System(w, map[], []))
  {
    InvEmpty(H, w);
    FreshInv(H, w);
  }

  lemma StartIsFresh(H: HashFn)
    ensures IsFresh(START) && SystemInv(H, START)
  {
    InitialIsEmpty();
    Fresh(H, INITIAL);
  }

  lemma FirstChange(H: HashFn, y: System, r: RequestId, change: Change, c: CallerId) returns (ms: seq<Move>, z: System)
    requires SystemInv(H, y) && AtRest(y.writer) && y.writer.front.calls == map[] && y.writer.pipe.log == []
    requires y.requests == map[] && y.effects == []
    ensures Reaches(H, y, ms, z) && z.effects == [Effect(r, c, change, 1)]
  {
    ms, z := ChangeCanTakeEffect(H, y, r, change, c);
  }

  lemma FirstEffect(H: HashFn, y: System, r: RequestId, change: Change, c: CallerId) returns (ms: seq<Move>, z: System)
    requires IsFresh(y) && SystemInv(H, y)
    ensures Reaches(H, y, ms, z) && z.effects == [Effect(r, c, change, 1)]
  {
    var u, more;
    ms, u := EngineStarts(H, y);
    more, z := FirstChange(H, u, r, change, c);
    ReachesOn(H, y, ms, u, more, z);
    ms := ms + more;
  }

  /** So there are runs in which a change takes effect, whichever change it is. */
  lemma AnyChangeCanBeFirst(H: HashFn, r: RequestId, change: Change, c: CallerId) returns (ms: seq<Move>, z: System)
    ensures Reaches(H, START, ms, z) && z.effects == [Effect(r, c, change, 1)]
  {
    StartIsFresh(H);
    ms, z := FirstEffect(H, START, r, change, c);
  }

  /** The engine takes a started call to its end. */
  lemma EngineRecords(H: HashFn, y: System, c: CallerId, draft: AuditEntry) returns (ms: seq<Move>, z: System)
    requires AtRest(y.writer) && c in y.writer.front.calls && y.writer.front.calls[c] == Started(draft, true)
    requires c !in y.writer.front.replies && NormalizePayload(draft.payload).Ok?
    ensures Reaches(H, y, ms, z) && z.requests == y.requests && z.effects == y.effects
    ensures c in z.writer.front.calls && z.writer.front.calls[c] == Returned(Durable)
    ensures |z.writer.pipe.log| == |y.writer.pipe.log| + 1
  {
    var run, t := CallSucceeds(H, y.writer, c, draft);
    ms := EngineMoves(H, y, run, t);
    z := y.(writer := t);
  }
}
