/**
 One link of the audit chain and the bytes its hash is taken over (internal/model/audit.go).
 SHA-256 is a parameter: any function from byte strings to 32 bytes.
 */
module AuditEntries {
  import opened Wrappers
  import opened ByteStrings
  import opened Json
  import opened Canonical
  import opened JsonLayout
  import opened CanonicalText
  import opened CanonicalWriter

  type Sum = s: Bytes | |s| == 32 witness Repeat(0, 32)
  type HashFn = Bytes -> Sum

  const ZERO_SUM: Sum := Repeat(0, 32)

  /** Sixty-four zero digits: the previous hash of the first entry. */
  const GENESIS: Bytes := Repeat(48, 64)

  datatype AuditEntry = AuditEntry(
    id: Bytes,
    requestId: Bytes,
    timestamp: int,   // an instant, in microseconds
    kind: Bytes,
    payload: Payload,
    prevHash: Bytes,
    hash: Bytes)

  // ----- the digest input ------------------------------------------------------------------

  function Decimal(n: nat): (d: Bytes)
    ensures d != [] && forall i :: 0 <= i < |d| ==> 48 <= d[i] < 58
  {
    if n < 10 then [48 + n] else Decimal(n / 10) + [48 + n % 10]
  }

  /** A one-to-one rendering of an instant. */
  function InstantText(t: int): Bytes {
    if t < 0 then [45] + Decimal(-t) else Decimal(t)
  }

  /** Hashed in place of a payload that cannot be encoded: a zero byte and "uncanonicalizable". */
  const UNCANONICALIZABLE: Bytes :=
    [0, 117, 110, 99, 97, 110, 111, 110, 105, 99, 97, 108, 105, 122, 97, 98, 108, 101]

  function PayloadBytes(p: Payload): Bytes {
    match WriteCanonical(Obj(p))
    case Ok(text) => Utf8(text)
    case Err => UNCANONICALIZABLE
  }

  function HashedFields(e: AuditEntry): seq<Bytes> {
    [e.prevHash, e.id, e.requestId, InstantText(e.timestamp), e.kind, PayloadBytes(e.payload)]
  }

  function Preimage(e: AuditEntry): Bytes {
    Fields(HashedFields(e))
  }

  function ComputeHash(H: HashFn, e: AuditEntry): (h: Bytes)
    ensures |h| == 64
  {
    Hex(H(Preimage(e)))
  }

  lemma Regrouped(a: Bytes, b: Bytes, c: Bytes)
    ensures a + b + c == a + (b + c)
  {
  }

  /** The running digest, which remembers the fields it was fed. */
  class Digest {
    var data: Bytes
    ghost var fields: seq<Bytes>

    ghost predicate Valid()
      reads this
    {
      data == Fields(fields)
    }

    constructor ()
      ensures Valid() && fields == []
    {
      data, fields := [], [];
    }

    method WriteField(b: Bytes)
      requires Valid()
      modifies this
      ensures Valid() && fields == old(fields) + [b]
      ensures old(data) <= data && |data| == |old(data)| + 8 + |b| && data[|old(data)| + 8..] == b
      ensures |b| < 0x1_0000_0000_0000_0000 ==> BigEndianValue(data[|old(data)|..|old(data)| + 8]) == |b|
    {
      if |b| < 0x1_0000_0000_0000_0000 { FieldReads(b); }
      assert data + BigEndian(|b|, 8) + b == data + Field(b);
      assert (data + Field(b))[|data|..|data| + 8] == Field(b)[..8];
      FieldsSnoc(fields, b);
      Regrouped(data, BigEndian(|b|, 8), b);
      data := data + BigEndian(|b|, 8);
      data := data + b;
      fields := fields + [b];
    }
  }

  /** ComputeHash as it runs: the canonical text, then six fields into a running digest. */
  method HashEntry(H: HashFn, e: AuditEntry) returns (h: Bytes)
    ensures h == ComputeHash(H, e)
  {
    var text := CanonicalJSON(Obj(e.payload));
    var payload := if text.Ok? then Utf8(text.value) else UNCANONICALIZABLE;
    var digest := new Digest();
    FeedEntry(digest, e, payload);
    h := Hex(H(digest.data));
  }

  method FeedEntry(digest: Digest, e: AuditEntry, payload: Bytes)
    requires digest.Valid() && digest.fields == []
    modifies digest
    ensures digest.Valid()
    ensures digest.fields == [e.prevHash, e.id, e.requestId, InstantText(e.timestamp), e.kind, payload]
  {
    digest.WriteField(e.prevHash);
    digest.WriteField(e.id);
    digest.WriteField(e.requestId);
    digest.WriteField(InstantText(e.timestamp));
    digest.WriteField(e.kind);
    digest.WriteField(payload);
  }

  function Linked(e: AuditEntry, head: Bytes): AuditEntry {
    AuditEntry(e.id, e.requestId, e.timestamp, e.kind, e.payload, if head == [] then GENESIS else head, e.hash)
  }

  /** The entry linked to the head of the chain. */
  function Sealed(H: HashFn, e: AuditEntry, head: Bytes): (s: AuditEntry)
    ensures s.hash == ComputeHash(H, s)
    ensures s.prevHash == if head == [] then GENESIS else head
    ensures s.(prevHash := e.prevHash, hash := e.hash) == e
  {
    var linked := Linked(e, head);
    AuditEntry(linked.id, linked.requestId, linked.timestamp, linked.kind, linked.payload, linked.prevHash,
               ComputeHash(H, linked))
  }

  // ----- what the digest input determines --------------------------------------------------

  /** Every field fits the 64-bit length prefix, as any value in a Go process does. */
  predicate Fits(e: AuditEntry) {
    forall i :: 0 <= i < 6 ==> |HashedFields(e)[i]| < UINT64_LIMIT
  }

  lemma {:induction false} DecimalInjective(n: nat, m: nat)
    requires Decimal(n) == Decimal(m)
    ensures n == m
  {
    var d, c := Decimal(n), Decimal(m);
    if n >= 10 && m >= 10 {
      assert d[..|d| - 1] == Decimal(n / 10) && c[..|c| - 1] == Decimal(m / 10);
      assert d[|d| - 1] == 48 + n % 10 && c[|c| - 1] == 48 + m % 10;
      DecimalInjective(n / 10, m / 10);
    }
  }

  lemma InstantSign(t: int)
    ensures InstantText(t) != [] && (InstantText(t)[0] == 45 <==> t < 0)
  {
  }

  lemma InstantInjective(t: int, u: int)
    requires InstantText(t) == InstantText(u)
    ensures t == u
  {
    InstantSign(t);
    InstantSign(u);
    if t < 0 {
      assert InstantText(t)[1..] == Decimal(-t) && InstantText(u)[1..] == Decimal(-u);
      DecimalInjective(-t, -u);
    } else {
      DecimalInjective(t, u);
    }
  }

  /** A zero byte and then the word. */
  lemma MarkerSpells()
    ensures |UNCANONICALIZABLE| == 18 && UNCANONICALIZABLE[0] == 0
    ensures forall i :: 1 <= i < 18 ==> UNCANONICALIZABLE[i] == "uncanonicalizable"[i - 1] as int
  {
  }

  /** The hash is the digest in hexadecimal: reading it gives the digest back. */
  lemma HashReads(H: HashFn, e: AuditEntry)
    ensures Unhex(ComputeHash(H, e)) == Some(H(Preimage(e)))
  {
    HexReads(H(Preimage(e)));
  }

  /** The marker is the encoding of no payload that can be encoded. */
  lemma MarkerIsNoPayload(p: Payload)
    ensures WriteCanonical(Obj(p)).Ok? <==> PayloadBytes(p) != UNCANONICALIZABLE
  {
    if WriteCanonical(Obj(p)).Ok? {
      PayloadTextStart(p);
      Utf8Start(WriteCanonical(Obj(p)).value);
    }
  }

  lemma Utf8Start(text: string)
    requires text != [] && text[0] == '{'
    ensures Utf8(text) != [] && Utf8(text)[0] == 123
  {
  }

  /**
   Equal digest inputs mean equal fields, and payloads that are encoded alike or are both beyond
   encoding, whatever the payloads are.
   */
  lemma PreimageDeterminesFields(a: AuditEntry, b: AuditEntry)
    requires Fits(a) && Fits(b) && Preimage(a) == Preimage(b)
    ensures a.prevHash == b.prevHash && a.id == b.id && a.requestId == b.requestId
    ensures a.timestamp == b.timestamp && a.kind == b.kind
    ensures WriteCanonical(Obj(a.payload)) == WriteCanonical(Obj(b.payload))
  {
    var fs, gs := HashedFields(a), HashedFields(b);
    FieldsInjective(fs, gs);
    assert fs[0] == gs[0] && fs[1] == gs[1] && fs[2] == gs[2] && fs[3] == gs[3] && fs[4] == gs[4] && fs[5] == gs[5];
    InstantInjective(a.timestamp, b.timestamp);
    MarkerIsNoPayload(a.payload);
    MarkerIsNoPayload(b.payload);
    if WriteCanonical(Obj(a.payload)).Ok? {
      Utf8Injective(WriteCanonical(Obj(a.payload)).value, WriteCanonical(Obj(b.payload)).value);
    }
  }

  /** An entry as a store returns it: its payload comes from the decoder. */
  predicate Storable(e: AuditEntry) {
    Fits(e) && NormalPayload(e.payload)
  }

  /** Between stored entries the digest input is one-to-one: only the hash itself is outside it. */
  lemma PreimageInjective(a: AuditEntry, b: AuditEntry)
    requires Storable(a) && Storable(b)
    ensures Preimage(a) == Preimage(b) <==> a.(hash := b.hash) == b
  {
    if Preimage(a) == Preimage(b) {
      PreimageDeterminesFields(a, b);
      CanonicalInjective(a.payload, b.payload);
    }
  }

  /** The hash recomputed from what the store decodes is the one that was sealed. */
  lemma HashSurvivesStore(H: HashFn, e: AuditEntry)
    requires NormalPayload(e.payload)
    ensures WriteCanonical(Obj(e.payload)).Ok?
    ensures DecodePayload(WriteCanonical(Obj(e.payload)).value).Ok?
    ensures ComputeHash(H, e.(payload := DecodePayload(WriteCanonical(Obj(e.payload)).value).value)) == ComputeHash(H, e)
  {
    StoreRoundTrip(e.payload);
  }

  /** In particular from the text of a store that lays it out in its own way. */
  lemma HashSurvivesLayout(H: HashFn, e: AuditEntry, l: Layout)
    requires NormalPayload(e.payload) && IsLayout(l)
    ensures DecodePayload(Show(l, Obj(e.payload))).Ok?
    ensures ComputeHash(H, e.(payload := DecodePayload(Show(l, Obj(e.payload))).value)) == ComputeHash(H, e)
  {
    StoreLayoutReads(l, e.payload);
  }

  lemma {:induction false} HexOfZeros(k: nat)
    ensures Hex(Repeat(0, k)) == Repeat(48, 2 * k)
  {
    if k == 0 {
    } else {
      HexOfZeros(k - 1);
      assert Repeat(0, k) == [0] + Repeat(0, k - 1);
    }
  }

  /** Only an all-zero digest is written as the genesis hash. */
  lemma GenesisMeansZero(H: HashFn, e: AuditEntry)
    requires ComputeHash(H, e) == GENESIS
    ensures H(Preimage(e)) == ZERO_SUM
  {
    HexOfZeros(32);
    HexInjective(H(Preimage(e)), ZERO_SUM);
  }
}
