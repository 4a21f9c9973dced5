/**
 The canonical encoding that the audit hash covers (internal/model/canonical.go): its functional
 definition, normalisation through encoding/json, and what a store round trip gives back.
 */
module Canonical {
  import opened Wrappers
  import opened Json
  import opened JsonParser
  import opened JsonRoundTrip

  // ----- the decoder only produces normal values -------------------------------------------

  lemma {:induction false} SkipDigitsCut(s: string, i: nat, n: nat)
    requires i <= n <= |s| && SkipDigits(s, i) <= n
    ensures SkipDigits(s[..n], i) == SkipDigits(s, i)
    decreases |s| - i
  {
    if i < |s| && IsDigit(s[i]) { SkipDigitsCut(s, i + 1, n); }
  }

  lemma ScanIntCut(s: string, n: nat)
    requires n <= |s| && 0 < ScanInt(s) <= n
    ensures ScanInt(s[..n]) == ScanInt(s)
  {
    var i := if s != [] && s[0] == '-' then 1 else 0;
    if s[i] != '0' { SkipDigitsCut(s, i + 1, n); }
  }

  lemma ScanFracCut(s: string, i: nat, n: nat)
    requires i <= n <= |s| && 0 <= ScanFrac(s, i) <= n
    ensures ScanFrac(s[..n], i) == ScanFrac(s, i)
  {
    if i < |s| && s[i] == '.' { SkipDigitsCut(s, i + 1, n); }
  }

  lemma ScanExpCut(s: string, i: nat, n: nat)
    requires i <= |s| && ScanExp(s, i) == n
    ensures ScanExp(s[..n], i) == n
  {
    if i < |s| && (s[i] == 'e' || s[i] == 'E') {
      var k := if i + 1 < |s| && (s[i + 1] == '+' || s[i + 1] == '-') then i + 2 else i + 1;
      SkipDigitsCut(s, k, n);
    }
  }

  /** What the scanner cuts off the front of a text is itself a complete number literal. */
  lemma ScannedIsNumber(s: string)
    requires ScanNumber(s) != -1
    ensures IsNumber(s[..ScanNumber(s)])
  {
    var i := ScanInt(s);
    var f := ScanFrac(s, i);
    var n := ScanExp(s, f);
    ScanIntCut(s, n);
    ScanFracCut(s, i, n);
    ScanExpCut(s, f, n);
  }

  lemma {:induction false} ParsedIsNormal(s: string, room: nat)
    requires ParseValue(s, room).Some?
    ensures Normal(ParseValue(s, room).value.0, room)
    decreases |s|, 2
  {
    var t := SkipSpace(s);
    if t[0] == '[' && room > 0 {
      var u := SkipSpace(t[1..]);
      if !(u != [] && u[0] == ']') { ParsedItemsNormal(t[1..], room - 1); }
    } else if t[0] == '{' && room > 0 {
      var u := SkipSpace(t[1..]);
      if !(u != [] && u[0] == '}') { ParsedMembersNormal(t[1..], room - 1, map[]); }
    } else if ScanNumber(t) != -1 {
      ScannedIsNumber(t);
    }
  }

  lemma {:induction false} ParsedItemsNormal(s: string, room: nat)
    requires ParseItems(s, room).Some?
    ensures forall i :: 0 <= i < |ParseItems(s, room).value.0| ==> Normal(ParseItems(s, room).value.0[i], room)
    decreases |s|, 3
  {
    ParsedIsNormal(s, room);
    var u := SkipSpace(ParseValue(s, room).value.1);
    if u[0] == ',' { ParsedItemsNormal(u[1..], room); }
  }

  lemma {:induction false} ParsedMembersNormal(s: string, room: nat, acc: map<string, Value>)
    requires ParseMembers(s, room, acc).Some?
    requires forall k :: k in acc ==> Normal(acc[k], room)
    ensures forall k :: k in ParseMembers(s, room, acc).value.0 ==> Normal(ParseMembers(s, room, acc).value.0[k], room)
    decreases |s|, 4
  {
    var (k, v, t) := ParseMember(s, room).value;
    var w := SkipSpace(ParseChars(SkipSpace(s)[1..]).value.1);
    ParsedIsNormal(w[1..], room);
    var u := SkipSpace(t);
    if u[0] == ',' { ParsedMembersNormal(u[1..], room, acc[k := v]); }
  }

  // ----- normalisation ---------------------------------------------------------------------

  /** The values json.Marshal accepts, at any depth. */
  predicate Marshals(v: Value) {
    match v
    case Num(lit) => lit == "" || IsNumber(lit)
    case Arr(items) => forall i :: 0 <= i < |items| ==> Marshals(items[i])
    case Obj(fields) => forall k :: k in fields ==> Marshals(fields[k])
    case Named(view) => Marshals(view)
    case Opaque => false
    case _ => true
  }

  function MarshalText(v: Value): Result<string> {
    if Marshals(v) then Ok(Print(Marshal, v)) else Err
  }

  /** normalizeValue: encode with encoding/json, decode with UseNumber. */
  function NormalizeValue(v: Value): (r: Result<Value>)
    ensures r.Ok? ==> Normal(r.value, MAX_DEPTH)
  {
    match MarshalText(v)
    case Err => Err
    case Ok(text) =>
      match ParseValue(text, MAX_DEPTH)
      case None => Err
      case Some((w, _)) => ParsedIsNormal(text, MAX_DEPTH); Ok(w)
  }

  lemma {:induction false} DataIsNormal(v: Value, room: nat)
    requires Encodable(v, room)
    ensures Normal(Data(v), room)
    decreases v, 1
  {
    match v
    case Num(lit) => ZeroIsNumber();
    case Arr(items) => DataItemsNormal(items, room - 1);
    case Obj(fields) =>
      forall k | k in fields ensures Normal(Data(fields[k]), room - 1) { DataIsNormal(fields[k], room - 1); }
    case Named(view) => DataIsNormal(view, room);
    case _ =>
  }

  lemma {:induction false} DataItemsNormal(items: seq<Value>, room: nat)
    requires forall i :: 0 <= i < |items| ==> Encodable(items[i], room)
    ensures forall i :: 0 <= i < |items| ==> Normal(DataItems(items)[i], room)
    decreases items, 0
  {
    if items == [] {
    } else {
      DataIsNormal(items[0], room);
      DataItemsNormal(items[1..], room);
      assert forall i :: 0 < i < |items| ==> DataItems(items)[i] == DataItems(items[1..])[i - 1];
    }
  }

  /**
   What normalising yields: the value's data, if it can be printed and read back. That encoding and
   decoding yield exactly this is proved below and in module JsonDepth.
   */
  function NormalForm(v: Value): (r: Result<Value>)
    ensures r.Ok? ==> Normal(r.value, MAX_DEPTH)
  {
    if Encodable(v, MAX_DEPTH) then DataIsNormal(v, MAX_DEPTH); Ok(Data(v)) else Err
  }

  lemma {:induction false} EncodableMarshals(v: Value, room: nat)
    requires Encodable(v, room)
    ensures Marshals(v)
    decreases v
  {
    match v
    case Arr(items) => forall i | 0 <= i < |items| ensures Marshals(items[i]) { EncodableMarshals(items[i], room - 1); }
    case Obj(fields) => forall k | k in fields ensures Marshals(fields[k]) { EncodableMarshals(fields[k], room - 1); }
    case Named(view) => EncodableMarshals(view, room);
    case _ =>
  }

  /** Normalising keeps the data: it only unwraps named types and reads the empty number as 0. */
  lemma NormalizeKeepsData(v: Value)
    requires Encodable(v, MAX_DEPTH)
    ensures NormalizeValue(v) == Ok(Data(v))
  {
    EncodableMarshals(v, MAX_DEPTH);
    ParsePrinted(Marshal, v, MAX_DEPTH, "");
    assert Print(Marshal, v) + "" == Print(Marshal, v);
  }

  lemma {:induction false} NormalIsEncodable(v: Value, room: nat)
    requires Normal(v, room)
    ensures Encodable(v, room)
    ensures Data(v) == v
    decreases v, 1
  {
    match v
    case Arr(items) => NormalItems(items, room - 1);
    case Obj(fields) =>
      forall k | k in fields ensures Encodable(fields[k], room - 1) && Data(fields[k]) == fields[k] {
        NormalIsEncodable(fields[k], room - 1);
      }
    case _ =>
  }

  lemma {:induction false} NormalItems(items: seq<Value>, room: nat)
    requires forall i :: 0 <= i < |items| ==> Normal(items[i], room)
    ensures forall i :: 0 <= i < |items| ==> Encodable(items[i], room)
    ensures DataItems(items) == items
    decreases items, 0
  {
    if items == [] {
    } else {
      NormalIsEncodable(items[0], room);
      NormalItems(items[1..], room);
      assert items == [items[0]] + items[1..];
      forall i | 0 <= i < |items| ensures Encodable(items[i], room) {
        if i > 0 { assert items[i] == items[1..][i - 1]; }
      }
    }
  }

  /** A value that is already normal is its own normal form, so normalising twice changes nothing. */
  lemma NormalizeFixesNormal(v: Value)
    requires Normal(v, MAX_DEPTH)
    ensures NormalizeValue(v) == Ok(v) && NormalForm(v) == Ok(v)
  {
    NormalIsEncodable(v, MAX_DEPTH);
    NormalizeKeepsData(v);
  }

  // ----- writeCanonical --------------------------------------------------------------------

  /** No named type and no unsupported value anywhere inside. */
  predicate IsPlain(v: Value) {
    match v
    case Arr(items) => forall i :: 0 <= i < |items| ==> IsPlain(items[i])
    case Obj(fields) => forall k :: k in fields ==> IsPlain(fields[k])
    case Named(_) => false
    case Opaque => false
    case _ => true
  }

  lemma {:induction false} NormalIsPlain(v: Value, room: nat)
    requires Normal(v, room)
    ensures IsPlain(v)
    decreases v
  {
    match v
    case Arr(items) => forall i | 0 <= i < |items| ensures IsPlain(items[i]) { NormalIsPlain(items[i], room - 1); }
    case Obj(fields) => forall k | k in fields ensures IsPlain(fields[k]) { NormalIsPlain(fields[k], room - 1); }
    case _ =>
  }

  /** What json.Marshal prints for a normalised scalar. */
  function ScalarText(v: Value): string {
    match v
    case Bool(b) => if b then "true" else "false"
    case Str(s) => Quote(true, s)
    case Num(lit) => lit
    case _ => "null"
  }

  lemma ScalarIsMarshalled(v: Value, room: nat)
    requires Normal(v, room) && !v.Arr? && !v.Obj?
    ensures MarshalText(v) == Ok(ScalarText(v))
  {
  }

  /**
   The text written for v, or an error. The default branch re-enters on the normalised value, which
   is no smaller than v; it terminates because a normalised value holds no named types.
   */
  function WriteCanonical(v: Value): Result<string>
    decreases !IsPlain(v), v, 1
  {
    match v
    case Null => Ok("null")
    case Bool(b) => Ok(if b then "true" else "false")
    case Str(s) => Ok(Quote(false, s))
    case Num(lit) => if lit == "" then Err else Ok(lit)
    case Arr(items) =>
      (match WriteItems(items)
       case Err => Err
       case Ok(text) => Ok("[" + text + "]"))
    case Obj(fields) =>
      (match WriteMembers(v, SortedKeys(fields.Keys))
       case Err => Err
       case Ok(text) => Ok("{" + text + "}"))
    case NilSlice => Ok("[]")
    case NilMap => Ok("{}")
    case Opaque => Err
    case Named(_) =>
      match NormalForm(v)
      case Err => Err
      case Ok(w) =>
        if w.Obj? || w.Arr? then NormalIsPlain(w, MAX_DEPTH); WriteCanonical(w) else Ok(ScalarText(w))
  }

  function WriteItems(items: seq<Value>): Result<string>
    decreases !(forall i :: 0 <= i < |items| ==> IsPlain(items[i])), items, 0
  {
    if items == [] then Ok("")
    else
      match WriteCanonical(items[0])
      case Err => Err
      case Ok(first) =>
        if |items| == 1 then Ok(first)
        else
          match WriteItems(items[1..])
          case Err => Err
          case Ok(more) => Ok(first + "," + more)
  }

  function WriteMembers(v: Value, ks: seq<string>): Result<string>
    requires v.Obj? && forall k :: k in ks ==> k in v.fields
    decreases !IsPlain(v), v, 0, |ks|
  {
    if ks == [] then Ok("")
    else
      match WriteCanonical(v.fields[ks[0]])
      case Err => Err
      case Ok(first) =>
        if |ks| == 1 then Ok(Quote(false, ks[0]) + ":" + first)
        else
          match WriteMembers(v, ks[1..])
          case Err => Err
          case Ok(more) => Ok(Quote(false, ks[0]) + ":" + first + "," + more)
  }
}
