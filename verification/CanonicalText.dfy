/**
 What writeCanonical writes: on normalised values exactly the plain text, hence a text that the
 decoder inverts; on other values the exact condition under which it agrees with normalising first.
 */
module CanonicalText {
  import opened Wrappers
  import opened ByteStrings
  import opened Json
  import opened JsonParser
  import opened JsonRoundTrip
  import opened Canonical
  import opened JsonDepth
  import opened JsonLayout

  // ----- printing sees only the data -------------------------------------------------------

  lemma {:induction false} PrintOfData(mode: Mode, v: Value)
    requires !mode.Canonical?
    ensures Print(mode, Data(v)) == Print(mode, v)
    decreases v, 2
  {
    match v
    case Arr(items) => PrintItemsOfData(mode, items);
    case Obj(fields) =>
      var d := Data(v);
      assert d.fields.Keys == fields.Keys;
      PrintMembersOfData(mode, v, d, SortedKeys(fields.Keys));
    case Named(view) => PrintOfData(mode, view);
    case _ =>
  }

  lemma {:induction false} PrintItemsOfData(mode: Mode, items: seq<Value>)
    requires !mode.Canonical?
    ensures PrintItems(mode, DataItems(items)) == PrintItems(mode, items)
    decreases items, 1
  {
    if items == [] {
    } else {
      var ds := DataItems(items);
      assert ds[0] == Data(items[0]) && ds[1..] == DataItems(items[1..]);
      PrintOfData(mode, items[0]);
      PrintItemsOfData(mode, items[1..]);
    }
  }

  lemma {:induction false} PrintMembersOfData(mode: Mode, v: Value, d: Value, ks: seq<string>)
    requires !mode.Canonical? && v.Obj? && d == Data(v) && forall k :: k in ks ==> k in v.fields
    ensures PrintMembers(mode, d, ks) == PrintMembers(mode, v, ks)
    decreases v, 1, |ks|
  {
    if ks == [] {
    } else {
      assert d.fields[ks[0]] == Data(v.fields[ks[0]]);
      PrintOfData(mode, v.fields[ks[0]]);
      PrintMembersOfData(mode, v, d, ks[1..]);
    }
  }

  lemma {:induction false} CompositeData(v: Value)
    ensures IsComposite(v) <==> Data(v).Arr? || Data(v).Obj?
    ensures !Data(v).Named?
    decreases v
  {
    if v.Named? { CompositeData(v.view); }
  }

  // ----- normalised values -----------------------------------------------------------------

  /** On a normalised value the canonical encoder never fails and writes the plain text. */
  lemma {:induction false} WriteNormal(v: Value, room: nat)
    requires Normal(v, room)
    ensures WriteCanonical(v) == Ok(Print(Plain, v))
    decreases v, 2
  {
    match v
    case Arr(items) => WriteNormalItems(items, room - 1);
    case Obj(fields) => WriteNormalMembers(v, SortedKeys(fields.Keys), room - 1);
    case _ => WriteNormalScalar(v, room);
  }

  lemma WriteNormalScalar(v: Value, room: nat)
    requires Normal(v, room) && !v.Arr? && !v.Obj?
    ensures WriteCanonical(v) == Ok(Print(Plain, v))
  {
  }

  lemma {:induction false} WriteNormalItems(items: seq<Value>, room: nat)
    requires forall i :: 0 <= i < |items| ==> Normal(items[i], room)
    ensures WriteItems(items) == Ok(PrintItems(Plain, items))
    decreases items, 1
  {
    if items == [] {
    } else {
      WriteNormal(items[0], room);
      WriteNormalItems(items[1..], room);
    }
  }

  lemma {:induction false} WriteNormalMembers(v: Value, ks: seq<string>, room: nat)
    requires v.Obj? && forall k :: k in ks ==> k in v.fields && Normal(v.fields[k], room)
    ensures WriteMembers(v, ks) == Ok(PrintMembers(Plain, v, ks))
    decreases v, 1, |ks|
  {
    if ks == [] {
    } else {
      WriteNormal(v.fields[ks[0]], room);
      WriteNormalMembers(v, ks[1..], room);
    }
  }

  // ----- other values ----------------------------------------------------------------------

  /**
   What the encoder accepts: outside named types, anything but an empty number literal or a value
   encoding/json refuses, at any depth; a named type if it can be printed and read back.
   */
  predicate Writable(v: Value) {
    match v
    case Num(lit) => lit != ""
    case Arr(items) => forall i :: 0 <= i < |items| ==> Writable(items[i])
    case Obj(fields) => forall k :: k in fields ==> Writable(fields[k])
    case Named(_) => Encodable(v, MAX_DEPTH)
    case Opaque => false
    case _ => true
  }

  lemma {:induction false} WriteAny(v: Value)
    ensures WriteCanonical(v) == if Writable(v) then Ok(Print(Canonical, v)) else Err
    decreases v, 2
  {
    match v
    case Arr(items) => WriteAnyItems(items);
    case Obj(fields) => WriteAnyMembers(v, SortedKeys(fields.Keys));
    case Named(view) =>
      if Encodable(v, MAX_DEPTH) { WriteNamed(v); } else { NormalizeExact(v); }
    case _ =>
  }

  lemma WriteNamed(v: Value)
    requires v.Named? && Encodable(v, MAX_DEPTH)
    ensures WriteCanonical(v) == Ok(Print(Canonical, v))
  {
    var w := Data(v);
    NormalizeKeepsData(v);
    DataIsNormal(v, MAX_DEPTH);
    CompositeData(v);
    PrintOfData(Plain, v);
    PrintOfData(Marshal, v);
    if w.Obj? || w.Arr? {
      WriteNormal(w, MAX_DEPTH);
    } else {
      ScalarIsMarshalled(w, MAX_DEPTH);
    }
  }

  lemma {:induction false} WriteAnyItems(items: seq<Value>)
    ensures WriteItems(items)
         == if forall i :: 0 <= i < |items| ==> Writable(items[i]) then Ok(PrintItems(Canonical, items)) else Err
    decreases items, 1
  {
    if items == [] {
    } else {
      var tail := items[1..];
      WriteAny(items[0]);
      WriteAnyItems(tail);
      assert forall i :: 0 <= i < |tail| ==> tail[i] == items[i + 1];
      assert forall i :: 0 < i < |items| ==> items[i] == tail[i - 1];
    }
  }

  lemma {:induction false} WriteAnyMembers(v: Value, ks: seq<string>)
    requires v.Obj? && forall k :: k in ks ==> k in v.fields
    ensures WriteMembers(v, ks)
         == if forall k :: k in ks ==> Writable(v.fields[k]) then Ok(PrintMembers(Canonical, v, ks)) else Err
    decreases v, 1, |ks|
  {
    if ks == [] {
    } else {
      WriteAny(v.fields[ks[0]]);
      WriteAnyMembers(v, ks[1..]);
      assert forall k :: k in ks <==> k == ks[0] || k in ks[1..];
    }
  }

  // ----- when a named type is encoded as its normal form would be --------------------------

  predicate HasHtml(s: string) {
    s != [] && (s[0] == '<' || s[0] == '>' || s[0] == '&' || HasHtml(s[1..]))
  }

  /** No named type outside another one is a string holding a character that HTML escaping rewrites. */
  predicate NoNamedHtml(v: Value) {
    match v
    case Arr(items) => forall i :: 0 <= i < |items| ==> NoNamedHtml(items[i])
    case Obj(fields) => forall k :: k in fields ==> NoNamedHtml(fields[k])
    case Named(view) => Data(view).Str? ==> !HasHtml(Data(view).s)
    case _ => true
  }

  lemma {:induction false} HtmlEscapesLengthen(s: string)
    ensures if HasHtml(s) then |EscapeAll(true, s)| > |EscapeAll(false, s)| else EscapeAll(true, s) == EscapeAll(false, s)
  {
    if s == [] {
    } else {
      HtmlEscapesLengthen(s[1..]);
    }
  }

  /** The canonical text is the plain text, or it is longer. */
  ghost predicate SameOrLonger(same: bool, a: string, b: string) {
    if same then a == b else |a| > |b|
  }

  /** Nil slices and maps aside, which the canonical text shows as empty ones. */
  lemma {:induction false} CanonicalVersusPlain(v: Value)
    ensures SameOrLonger(NoNamedHtml(v), Print(Canonical, v), Print(Plain, Emptied(v)))
    decreases v, 2
  {
    match v
    case Arr(items) => CanonicalVersusPlainItems(items);
    case Obj(fields) =>
      var e := Emptied(v);
      assert e.fields.Keys == fields.Keys;
      CanonicalVersusPlainMembers(v, e, SortedKeys(fields.Keys));
    case NilMap => EmptyObjectText(Emptied(v));
    case Named(_) => NamedVersusPlain(v);
    case _ =>
  }

  lemma NamedVersusPlain(v: Value)
    requires v.Named?
    ensures SameOrLonger(NoNamedHtml(v), Print(Canonical, v), Print(Plain, v))
  {
    CompositeData(v.view);
    PrintOfData(Plain, v.view);
    PrintOfData(Marshal, v.view);
    if Data(v.view).Str? { HtmlEscapesLengthen(Data(v.view).s); }
  }

  lemma EmptyObjectText(v: Value)
    requires v.Obj? && v.fields == map[]
    ensures Print(Plain, v) == "{}"
  {
    assert SortedKeys(v.fields.Keys) == [];
    assert "{" + "" + "}" == "{}";
  }

  lemma {:induction false} CanonicalVersusPlainItems(items: seq<Value>)
    ensures SameOrLonger(forall i :: 0 <= i < |items| ==> NoNamedHtml(items[i]),
                         PrintItems(Canonical, items), PrintItems(Plain, EmptiedItems(items)))
    decreases items, 1
  {
    if items == [] {
    } else {
      var tail, es := items[1..], EmptiedItems(items);
      CanonicalVersusPlain(items[0]);
      CanonicalVersusPlainItems(tail);
      assert es[0] == Emptied(items[0]) && es[1..] == EmptiedItems(tail);
      assert forall i :: 0 <= i < |tail| ==> tail[i] == items[i + 1];
      assert forall i :: 0 < i < |items| ==> items[i] == tail[i - 1];
    }
  }

  lemma {:induction false} CanonicalVersusPlainMembers(v: Value, e: Value, ks: seq<string>)
    requires v.Obj? && e == Emptied(v) && forall k :: k in ks ==> k in v.fields
    ensures SameOrLonger(forall k :: k in ks ==> NoNamedHtml(v.fields[k]),
                         PrintMembers(Canonical, v, ks), PrintMembers(Plain, e, ks))
    decreases v, 1, |ks|
  {
    if ks == [] {
    } else {
      assert e.fields[ks[0]] == Emptied(v.fields[ks[0]]);
      CanonicalVersusPlain(v.fields[ks[0]]);
      CanonicalVersusPlainMembers(v, e, ks[1..]);
      assert forall k :: k in ks <==> k == ks[0] || k in ks[1..];
    }
  }

  // ----- when a nil slice or map is encoded as its normal form would be --------------------

  lemma {:induction false} EmptiedOfNoNil(v: Value)
    requires NoNil(v)
    ensures Emptied(v) == v
    decreases v, 1
  {
    match v
    case Arr(items) => EmptiedItemsOfNoNil(items);
    case Obj(fields) => forall k | k in fields ensures Emptied(fields[k]) == fields[k] { EmptiedOfNoNil(fields[k]); }
    case _ =>
  }

  lemma {:induction false} EmptiedItemsOfNoNil(items: seq<Value>)
    requires forall i :: 0 <= i < |items| ==> NoNil(items[i])
    ensures EmptiedItems(items) == items
    decreases items, 0
  {
    if items == [] {
    } else {
      EmptiedOfNoNil(items[0]);
      EmptiedItemsOfNoNil(items[1..]);
      assert items == [items[0]] + items[1..];
    }
  }

  /** An empty slice or map is not the data of a nil one. */
  lemma {:induction false} EmptiedDiffers(v: Value)
    requires !NoNil(v)
    ensures Data(Emptied(v)) != Data(v)
    decreases v, 1
  {
    match v
    case Arr(items) =>
      var i :| 0 <= i < |items| && !NoNil(items[i]);
      EmptiedItemsDiffer(items, i);
    case Obj(fields) =>
      var k :| k in fields && !NoNil(fields[k]);
      EmptiedDiffers(fields[k]);
      assert Data(Emptied(v)).fields[k] == Data(Emptied(fields[k])) && Data(v).fields[k] == Data(fields[k]);
    case NilSlice =>
    case NilMap =>
  }

  lemma {:induction false} EmptiedItemsDiffer(items: seq<Value>, i: nat)
    requires i < |items| && !NoNil(items[i])
    ensures DataItems(EmptiedItems(items)) != DataItems(items)
    decreases items, 0
  {
    var es := EmptiedItems(items);
    assert es[0] == Emptied(items[0]) && es[1..] == EmptiedItems(items[1..]);
    assert DataItems(es)[0] == Data(es[0]) && DataItems(es)[1..] == DataItems(es[1..]);
    assert DataItems(items)[0] == Data(items[0]) && DataItems(items)[1..] == DataItems(items[1..]);
    if i == 0 {
      EmptiedDiffers(items[0]);
    } else {
      EmptiedItemsDiffer(items[1..], i - 1);
    }
  }

  /** An empty slice or map nests one level deeper than the null it stands for. */
  lemma {:induction false} EmptiedEncodable(v: Value, room: nat)
    requires Encodable(v, room)
    ensures Encodable(v, room + 1) && Encodable(Emptied(v), room + 1)
    decreases v, 1
  {
    match v
    case Arr(items) =>
      forall i | 0 <= i < |items| ensures Encodable(items[i], room) { EmptiedEncodable(items[i], room - 1); }
      EmptiedItemsEncodable(items, room - 1);
    case Obj(fields) =>
      forall k | k in fields ensures Encodable(fields[k], room) && Encodable(Emptied(fields[k]), room) {
        EmptiedEncodable(fields[k], room - 1);
      }
    case Named(view) => EmptiedEncodable(view, room);
    case _ =>
  }

  lemma {:induction false} EmptiedItemsEncodable(items: seq<Value>, room: nat)
    requires forall i :: 0 <= i < |items| ==> Encodable(items[i], room)
    ensures forall i :: 0 <= i < |items| ==> Encodable(EmptiedItems(items)[i], room + 1)
    decreases items, 0
  {
    if items == [] {
    } else {
      EmptiedEncodable(items[0], room);
      EmptiedItemsEncodable(items[1..], room);
      assert forall i :: 0 < i < |items| ==> EmptiedItems(items)[i] == EmptiedItems(items[1..])[i - 1];
    }
  }

  /** What shows a nil slice or map as empty reads back as something else than what shows it as null. */
  lemma NilShows(v: Value)
    requires Encodable(v, MAX_DEPTH) && !NoNil(v)
    ensures Print(Canonical, v) != Print(Plain, v)
  {
    EmptiedEncodable(v, MAX_DEPTH);
    EmptiedDiffers(v);
    ParsePrinted(Canonical, v, MAX_DEPTH + 1, "");
    ParsePrinted(Plain, v, MAX_DEPTH + 1, "");
  }

  lemma CanonicalIsPlainExactly(v: Value)
    requires Encodable(v, MAX_DEPTH)
    ensures Print(Canonical, v) == Print(Plain, v) <==> NoNamedHtml(v) && NoNil(v)
  {
    if NoNil(v) {
      EmptiedOfNoNil(v);
      CanonicalVersusPlain(v);
    } else {
      NilShows(v);
    }
  }

  /**
   Encoding a value and encoding its normal form agree exactly when the encoder accepts the value, no
   named string needs an HTML escape and no nil slice or map stands outside a named type; the source
   promises it without that condition. A normal form exists exactly for values that can be printed
   and read back.
   */
  lemma CanonicalOfNormalFormExact(v: Value)
    ensures NormalizeValue(v).Ok? <==> Encodable(v, MAX_DEPTH)
    ensures NormalizeValue(v).Ok? ==>
      (WriteCanonical(v) == WriteCanonical(NormalizeValue(v).value) <==> Writable(v) && NoNamedHtml(v) && NoNil(v))
  {
    NormalizeExact(v);
    if Encodable(v, MAX_DEPTH) {
      WriteAny(v);
      DataIsNormal(v, MAX_DEPTH);
      WriteNormal(Data(v), MAX_DEPTH);
      PrintOfData(Plain, v);
      CanonicalIsPlainExactly(v);
    }
  }

  /** A nil slice is hashed as an empty one, while its normal form is null. */
  lemma NilSliceDisagrees()
    ensures NormalizeValue(Arr([NilSlice])) == Ok(Arr([Null]))
    ensures WriteCanonical(Arr([NilSlice])) != WriteCanonical(Arr([Null]))
  {
    var v := Arr([NilSlice]);
    assert !NoNil(v) by { assert !NoNil(v.items[0]); }
    NormalizeExact(v);
    assert DataItems([NilSlice]) == [Null];
    CanonicalOfNormalFormExact(v);
  }

  /** A named string such as "<" is hashed as an escape, while its normal form is hashed as itself. */
  lemma NamedStringDisagrees()
    ensures WriteCanonical(Named(Str("<"))) != WriteCanonical(Str("<"))
  {
    CanonicalOfNormalFormExact(Named(Str("<")));
    NormalizeExact(Named(Str("<")));
  }

  // ----- payloads --------------------------------------------------------------------------

  type Payload = map<string, Value>

  /** A payload as it comes back from the store. */
  predicate NormalPayload(p: Payload) {
    Normal(Obj(p), MAX_DEPTH)
  }

  /** NormalizePayload; a nil payload is the empty map. */
  function NormalizePayload(p: Payload): (r: Result<Payload>)
    ensures r.Ok? ==> NormalPayload(r.value)
  {
    match NormalForm(Obj(p))
    case Ok(Obj(fields)) => Ok(fields)
    case _ => Err
  }

  /** DecodeJSONPayload: an empty text and null both mean the empty payload. */
  function DecodePayload(text: string): (r: Result<Payload>)
    ensures r.Ok? ==> NormalPayload(r.value)
    ensures text == "" ==> r == Ok(map[])
  {
    if text == "" then Ok(map[])
    else
      match ParseValue(text, MAX_DEPTH)
      case Some((Obj(fields), _)) => ParsedIsNormal(text, MAX_DEPTH); Ok(fields)
      case Some((Null, _)) => Ok(map[])
      case _ => Err
  }

  /** From the text of any value: an object is its members, null is the empty payload, all else is refused. */
  lemma DecodePrinted(v: Value)
    requires Encodable(v, MAX_DEPTH)
    ensures DecodePayload(Print(Marshal, v)) ==
      if Data(v).Obj? then Ok(Data(v).fields) else if Data(v).Null? then Ok(map[]) else Err
  {
    PrintedStart(Marshal, v, MAX_DEPTH);
    ParsePrinted(Marshal, v, MAX_DEPTH, "");
    assert Print(Marshal, v) + "" == Print(Marshal, v);
  }

  /** The data of a payload, member by member. */
  function PayloadData(p: Payload): (d: Payload)
    ensures d.Keys == p.Keys && forall k :: k in p ==> d[k] == Data(p[k])
  {
    Data(Obj(p)).fields
  }

  /**
   Normalising is encoding and decoding; it keeps every member's data, fails exactly when it must, and
   changes nothing the second time.
   */
  lemma NormalizePayloadKeepsData(p: Payload)
    ensures NormalizePayload(p).Ok? <==> NormalizeValue(Obj(p)).Ok?
    ensures NormalizePayload(p).Ok? ==> NormalizeValue(Obj(p)) == Ok(Obj(NormalizePayload(p).value))
    ensures NormalizePayload(p) == if Encodable(Obj(p), MAX_DEPTH) then Ok(PayloadData(p)) else Err
    ensures NormalizePayload(p).Ok? ==> NormalizePayload(PayloadData(p)) == NormalizePayload(p)
  {
    NormalizeExact(Obj(p));
    if Encodable(Obj(p), MAX_DEPTH) {
      DataIsNormal(Obj(p), MAX_DEPTH);
      NormalizeFixesNormal(Obj(PayloadData(p)));
    }
  }

  /** The round trip: what the store decodes from the canonical text is the payload that was hashed. */
  lemma StoreRoundTrip(p: Payload)
    requires NormalPayload(p)
    ensures WriteCanonical(Obj(p)).Ok?
    ensures DecodePayload(WriteCanonical(Obj(p)).value) == Ok(p)
    ensures NormalizePayload(p) == Ok(p)
  {
    var v := Obj(p);
    WriteNormal(v, MAX_DEPTH);
    NormalIsEncodable(v, MAX_DEPTH);
    ParsePrinted(Plain, v, MAX_DEPTH, "");
    assert Print(Plain, v) + "" == Print(Plain, v);
    PrintedStart(Plain, v, MAX_DEPTH);
    NormalizeFixesNormal(v);
  }

  /** Nor does it matter how the store lays the text out, orders the members or writes their strings. */
  lemma StoreLayoutReads(l: Layout, p: Payload)
    requires IsLayout(l) && NormalPayload(p)
    ensures DecodePayload(Show(l, Obj(p))) == Ok(p)
  {
    ShownReads(l, Obj(p), MAX_DEPTH, "");
    assert Show(l, Obj(p)) + "" == Show(l, Obj(p));
    ShowStart(l, Obj(p), MAX_DEPTH);
  }

  /** So equal canonical texts mean equal payloads. */
  lemma CanonicalInjective(p: Payload, q: Payload)
    requires NormalPayload(p) && NormalPayload(q)
    requires WriteCanonical(Obj(p)) == WriteCanonical(Obj(q))
    ensures p == q
  {
    StoreRoundTrip(p);
    StoreRoundTrip(q);
  }

  /** Every payload the encoder does accept is written as an object. */
  lemma PayloadTextStart(p: Payload)
    requires WriteCanonical(Obj(p)).Ok?
    ensures var t := WriteCanonical(Obj(p)).value; t != [] && t[0] == '{'
  {
  }

  // ----- an object, letter by letter -------------------------------------------------------

  /** Text that stands for itself: ASCII without control characters, quotes and backslashes. */
  predicate IsSimple(s: string) {
    forall i :: 0 <= i < |s| ==> ' ' <= s[i] < '\U{7F}' && s[i] != '\"' && s[i] != '\\'
  }

  lemma {:induction false} SimpleText(s: string)
    requires IsSimple(s)
    ensures EscapeAll(false, s) == s
    ensures |Utf8(s)| == |s| && forall i :: 0 <= i < |s| ==> Utf8(s)[i] == s[i] as int
  {
    if s == [] {
    } else {
      SimpleText(s[1..]);
      assert s == [s[0]] + s[1..];
    }
  }

  lemma SimpleOrder(k: string, j: string, n: nat)
    requires IsSimple(k) && IsSimple(j) && n < |k| && n < |j| && k[..n] == j[..n] && k[n] < j[n]
    ensures KeyLess(k, j)
  {
    SimpleText(k);
    SimpleText(j);
    forall i | 0 <= i < n ensures Utf8(k)[i] == Utf8(j)[i] { assert k[i] == k[..n][i] == j[..n][i]; }
    assert BelowFrom(Utf8(k), Utf8(j), n);
    LessExact(Utf8(k), Utf8(j));
  }

  lemma TwoKeys(k: string, j: string)
    requires KeyLess(k, j)
    ensures SortedKeys({k, j}) == [k, j]
  {
    KeyListingUnique([k, j], {k, j});
  }

  lemma SimpleMember(v: Value, k: string, s: string)
    requires v.Obj? && k in v.fields && v.fields[k] == Str(s) && IsSimple(k) && IsSimple(s)
    ensures PrintMember(Plain, v, k) == "\"" + k + "\":\"" + s + "\""
  {
    SimpleText(k);
    SimpleText(s);
    Glued(k, s);
  }

  lemma Glued(k: string, s: string)
    ensures ("\"" + k + "\"") + ":" + ("\"" + s + "\"") == "\"" + k + "\":\"" + s + "\""
  {
  }

  /**
   The text itself, for two members: the key with the smaller byte at the first difference comes first,
   nothing is put between the parts, and HTML characters are left as they are.
   */
  lemma TwoMembersText(k: string, s: string, j: string, t: string, n: nat)
    requires IsSimple(k) && IsSimple(s) && IsSimple(j) && IsSimple(t)
    requires n < |k| && n < |j| && k[..n] == j[..n] && k[n] < j[n]
    ensures WriteCanonical(Obj(map[j := Str(t), k := Str(s)]))
         == Ok("{" + ("\"" + k + "\":\"" + s + "\"" + "," + ("\"" + j + "\":\"" + t + "\"")) + "}")
  {
    var v := Obj(map[j := Str(t), k := Str(s)]);
    assert v.fields.Keys == {k, j};
    SimpleOrder(k, j, n);
    TwoWritten(v, k, j);
    SimpleMember(v, k, s);
    SimpleMember(v, j, t);
  }

  lemma TwoWritten(v: Value, k: string, j: string)
    requires v.Obj? && Normal(v, 1) && v.fields.Keys == {k, j} && KeyLess(k, j)
    ensures WriteCanonical(v) == Ok("{" + (PrintMember(Plain, v, k) + "," + PrintMember(Plain, v, j)) + "}")
  {
    TwoKeys(k, j);
    WriteNormal(v, 1);
    TwoPrinted(v, k, j);
  }

  lemma TwoPrinted(v: Value, k: string, j: string)
    requires v.Obj? && k in v.fields && j in v.fields
    ensures PrintMembers(Plain, v, [k, j]) == PrintMember(Plain, v, k) + "," + PrintMember(Plain, v, j)
  {
    assert [k, j][1..] == [j];
    assert PrintMembers(Plain, v, [j]) == PrintMember(Plain, v, j);
  }
}
