/**
 Decoding undoes encoding: whatever mode a value was printed in, the decoder reads back exactly the
 data in it and stops exactly where the text ends.
 */
module JsonRoundTrip {
  import opened Wrappers
  import opened Json
  import opened JsonParser

  // ----- strings ---------------------------------------------------------------------------

  lemma HexCharValue(d: nat)
    requires d < 16
    ensures HexValue(HexChar(d)) == d
  {
  }

  /** The decoder reads one escaped character back. */
  lemma ParseEscaped(html: bool, c: char, tail: string)
    ensures ParseChar(Escape(html, c) + tail) == Some((c, tail))
  {
    var e := Escape(html, c);
    var s := e + tail;
    assert forall i :: 0 <= i < |e| ==> s[i] == e[i];
    assert s[|e|..] == tail;
    if |e| == 6 {
      if c < ' ' {
        HexCharValue(c as int / 16);
        HexCharValue(c as int % 16);
      }
      assert Unit(s) == c as int;
    }
  }

  lemma {:induction false} ParseQuoted(html: bool, cs: string, rest: string)
    ensures ParseChars(EscapeAll(html, cs) + "\"" + rest) == Some((cs, rest))
  {
    var s := EscapeAll(html, cs) + "\"" + rest;
    if cs == [] {
      assert s == "\"" + rest;
      assert s[1..] == rest;
    } else {
      var tail := EscapeAll(html, cs[1..]) + "\"" + rest;
      assert s == Escape(html, cs[0]) + tail;
      ParseEscaped(html, cs[0], tail);
      ParseQuoted(html, cs[1..], rest);
      assert [cs[0]] + cs[1..] == cs;
    }
  }

  // ----- escapes the encoder never writes --------------------------------------------------

  lemma ShortEscapesRead(i: nat, tail: string)
    requires i < 8
    ensures ParseChar(['\\', "\"\\/bfnrt"[i]] + tail) == Some(("\"\\/\U{08}\U{0C}\n\r\t"[i], tail))
  {
    assert (['\\', "\"\\/bfnrt"[i]] + tail)[2..] == tail;
  }

  /** A digit for n, in lower or upper case. */
  predicate IsHexDigit(c: char, n: nat) {
    n < 16 && (c == "0123456789abcdef"[n] || c == "0123456789ABCDEF"[n])
  }

  lemma HexDigitValue(c: char, n: nat)
    requires IsHexDigit(c, n)
    ensures HexValue(c) == n
  {
  }

  /** Four digits are a 16-bit unit, the most significant first. */
  lemma UnitReads(ds: string, a: nat, b: nat, c: nat, d: nat, tail: string)
    requires |ds| == 4 && IsHexDigit(ds[0], a) && IsHexDigit(ds[1], b) && IsHexDigit(ds[2], c) && IsHexDigit(ds[3], d)
    ensures Unit("\\u" + ds + tail) == 4096 * a + 256 * b + 16 * c + d
  {
    var s := "\\u" + ds + tail;
    assert s[2] == ds[0] && s[3] == ds[1] && s[4] == ds[2] && s[5] == ds[3];
    HexDigitValue(ds[0], a);
    HexDigitValue(ds[1], b);
    HexDigitValue(ds[2], c);
    HexDigitValue(ds[3], d);
  }

  /** Two surrogates in a row are the character that UTF-16 encodes with them. */
  lemma SurrogatePairReads(p: nat, s: string)
    requires 0x10000 <= p < 0x110000 && |s| >= 6
    requires Unit(s) == 0xD800 + (p - 0x10000) / 1024 && Unit(s[6..]) == 0xDC00 + (p - 0x10000) % 1024
    ensures ParseChar(s) == Some((p as char, s[12..]))
  {
    assert 0x10000 + (p - 0x10000) / 1024 * 1024 + (p - 0x10000) % 1024 == p;
  }

  /** Any other surrogate is replaced, and what follows is read for itself. */
  lemma LoneSurrogateReads(s: string)
    requires 0xD800 <= Unit(s) < 0xE000
    requires Unit(s) < 0xDC00 ==> !(0xDC00 <= Unit(s[6..]) < 0xE000)
    ensures ParseChar(s) == Some(('\U{FFFD}', s[6..]))
  {
  }

  // ----- numbers ---------------------------------------------------------------------------

  /** No character that could continue a number literal. */
  predicate Stops(rest: string) {
    rest == [] || !(IsDigit(rest[0]) || rest[0] in ".eE+-")
  }

  lemma {:induction false} SkipDigitsExtends(s: string, i: nat, rest: string)
    requires i <= |s| && Stops(rest)
    ensures SkipDigits(s + rest, i) == SkipDigits(s, i)
    decreases |s| - i
  {
    if i < |s| && IsDigit(s[i]) {
      SkipDigitsExtends(s, i + 1, rest);
    }
  }

  lemma ScanIntExtends(s: string, rest: string)
    requires Stops(rest) && ScanInt(s) != -1
    ensures ScanInt(s + rest) == ScanInt(s)
  {
    var i := if s != [] && s[0] == '-' then 1 else 0;
    SkipDigitsExtends(s, i + 1, rest);
  }

  lemma ScanFracExtends(s: string, i: nat, rest: string)
    requires i <= |s| && Stops(rest) && ScanFrac(s, i) != -1
    ensures ScanFrac(s + rest, i) == ScanFrac(s, i)
  {
    if i < |s| && s[i] == '.' { SkipDigitsExtends(s, i + 1, rest); }
  }

  lemma ScanExpExtends(s: string, i: nat, rest: string)
    requires i <= |s| && Stops(rest) && ScanExp(s, i) != -1
    ensures ScanExp(s + rest, i) == ScanExp(s, i)
  {
    if i < |s| && (s[i] == 'e' || s[i] == 'E') {
      var k := if i + 1 < |s| && (s[i + 1] == '+' || s[i + 1] == '-') then i + 2 else i + 1;
      SkipDigitsExtends(s, k, rest);
    }
  }

  lemma ParseLiteral(lit: string, rest: string)
    requires IsNumber(lit) && Stops(rest)
    ensures ParseNumber(lit + rest) == Some((Num(lit), rest))
  {
    var s := lit + rest;
    ScanIntExtends(lit, rest);
    ScanFracExtends(lit, ScanInt(lit), rest);
    ScanExpExtends(lit, ScanFrac(lit, ScanInt(lit)), rest);
    assert s[..|lit|] == lit && s[|lit|..] == rest;
  }

  // ----- values ----------------------------------------------------------------------------

  lemma ZeroIsNumber()
    ensures IsNumber("0")
  {
  }

  /** A printed value starts with a character no white space and no closing bracket begins with. */
  lemma {:induction false} PrintedStart(mode: Mode, v: Value, room: nat)
    requires Encodable(v, room)
    ensures var t := Print(mode, v); t != [] && !IsSpace(t[0]) && t[0] != ']' && t[0] != '}'
    decreases v
  {
    if v.Named? { PrintedStart(ModeInside(mode, v.view), v.view, room); }
  }

  // The decoder's steps on text whose parts are already known to decode.

  lemma ParseStringValue(s: string, cs: string, rest: string, room: nat)
    requires ParseChars(s) == Some((cs, rest))
    ensures ParseValue("\"" + s, room) == Some((Str(cs), rest))
  {
    var t := "\"" + s;
    assert SkipSpace(t) == t && t[1..] == s;
  }

  lemma ParseNumberValue(lit: string, rest: string, room: nat)
    requires IsNumber(lit) && Stops(rest)
    ensures ParseValue(lit + rest, room) == Some((Num(lit), rest))
  {
    var t := lit + rest;
    assert SkipSpace(t) == t;
    ParseLiteral(lit, rest);
  }

  lemma ParseEmptyArray(rest: string, room: nat)
    requires room > 0
    ensures ParseValue("[]" + rest, room) == Some((Arr([]), rest))
  {
    var t := "[]" + rest;
    var u := "]" + rest;
    assert SkipSpace(t) == t && t[1..] == u && SkipSpace(u) == u && u[1..] == rest;
  }

  lemma ParseFullArray(s: string, items: seq<Value>, rest: string, room: nat)
    requires room > 0 && s != [] && !IsSpace(s[0]) && s[0] != ']'
    requires ParseItems(s, room - 1) == Some((items, rest))
    ensures ParseValue("[" + s, room) == Some((Arr(items), rest))
  {
    var t := "[" + s;
    assert SkipSpace(t) == t && t[1..] == s && SkipSpace(s) == s;
  }

  lemma ParseLastItem(s: string, v: Value, rest: string, room: nat)
    requires ParseValue(s, room) == Some((v, "]" + rest))
    ensures ParseItems(s, room) == Some(([v], rest))
  {
    var u := "]" + rest;
    assert SkipSpace(u) == u && u[1..] == rest;
  }

  lemma ParseMoreItems(s: string, v: Value, more: string, vs: seq<Value>, rest: string, room: nat)
    requires ParseValue(s, room) == Some((v, "," + more))
    requires ParseItems(more, room) == Some((vs, rest))
    ensures ParseItems(s, room) == Some(([v] + vs, rest))
  {
    var u := "," + more;
    assert SkipSpace(u) == u && u[1..] == more;
  }

  lemma ParseEmptyObject(rest: string, room: nat)
    requires room > 0
    ensures ParseValue("{}" + rest, room) == Some((Obj(map[]), rest))
  {
    var t := "{}" + rest;
    var u := "}" + rest;
    assert SkipSpace(t) == t && t[1..] == u && SkipSpace(u) == u && u[1..] == rest;
  }

  lemma ParseFullObject(s: string, fields: map<string, Value>, rest: string, room: nat)
    requires room > 0 && s != [] && !IsSpace(s[0]) && s[0] != '}'
    requires ParseMembers(s, room - 1, map[]) == Some((fields, rest))
    ensures ParseValue("{" + s, room) == Some((Obj(fields), rest))
  {
    var t := "{" + s;
    assert SkipSpace(t) == t && t[1..] == s && SkipSpace(s) == s;
  }

  lemma ParseOneMember(s: string, k: string, t: string, v: Value, rest: string, room: nat)
    requires ParseChars(s) == Some((k, ":" + t))
    requires ParseValue(t, room) == Some((v, rest))
    ensures ParseMember("\"" + s, room) == Some((k, v, rest))
  {
    var w := "\"" + s;
    assert SkipSpace(w) == w && w[1..] == s;
    var u := ":" + t;
    assert SkipSpace(u) == u && u[1..] == t;
  }

  lemma ParseLastMember(s: string, k: string, v: Value, rest: string, room: nat, acc: map<string, Value>)
    requires ParseMember(s, room) == Some((k, v, "}" + rest))
    ensures ParseMembers(s, room, acc) == Some((acc[k := v], rest))
  {
    var u := "}" + rest;
    assert SkipSpace(u) == u && u[1..] == rest;
  }

  lemma ParseMoreMembers(s: string, k: string, v: Value, more: string, room: nat, acc: map<string, Value>)
    requires ParseMember(s, room) == Some((k, v, "," + more))
    ensures ParseMembers(s, room, acc) == ParseMembers(more, room, acc[k := v])
  {
    var u := "," + more;
    assert SkipSpace(u) == u && u[1..] == more;
  }

  // The decoder on printed text.

  /** As deep as there is room for, and with every nil slice or map where the text shows it as null. */
  predicate Printable(mode: Mode, v: Value, room: nat) {
    Encodable(v, room) && (mode.Canonical? ==> NoNil(v))
  }

  lemma {:induction false} ParsePrintedValue(mode: Mode, v: Value, room: nat, rest: string)
    requires Printable(mode, v, room) && Stops(rest)
    ensures ParseValue(Print(mode, v) + rest, room) == Some((Data(v), rest))
    decreases v, 3
  {
    match v {
      case Null => ParsePrintedWord(mode, v, room, rest);
      case Bool(b) => ParsePrintedWord(mode, v, room, rest);
      case Str(cs) => ParsePrintedString(mode, v, room, rest);
      case Num(lit) =>
        ZeroIsNumber();
        ParseNumberValue(if lit == "" then "0" else lit, rest, room);
      case Arr(items) => 
        ParsePrintedArray(mode, items, room, rest);
        PrintArray(mode, v, rest);
      case Obj(fields) => ParsePrintedObject(mode, v, room, rest);
      case NilSlice => ParsePrintedWord(mode, Null, room, rest);
      case NilMap => ParsePrintedWord(mode, Null, room, rest);
      case Named(view) => ParsePrintedValue(ModeInside(mode, view), view, room, rest);
    }
  }

  lemma PrintString(mode: Mode, v: Value, rest: string)
    requires v.Str?
    ensures Print(mode, v) + rest == "\"" + (EscapeAll(mode.Marshal?, v.s) + "\"" + rest)
  {
  }

  lemma ParsePrintedString(mode: Mode, v: Value, room: nat, rest: string)
    requires v.Str?
    ensures ParseValue(Print(mode, v) + rest, room) == Some((v, rest))
  {
    PrintString(mode, v, rest);
    ParseQuoted(mode.Marshal?, v.s, rest);
    ParseStringValue(EscapeAll(mode.Marshal?, v.s) + "\"" + rest, v.s, rest, room);
  }

  lemma ParsePrintedWord(mode: Mode, v: Value, room: nat, rest: string)
    requires v.Null? || v.Bool?
    ensures ParseValue(Print(mode, v) + rest, room) == Some((v, rest))
  {
    var t := Print(mode, v);
    var s := t + rest;
    assert s[0] == t[0] && SkipSpace(s) == s && s[|t|..] == rest;
  }

  lemma {:induction false} ParsePrintedArray(mode: Mode, items: seq<Value>, room: nat, rest: string)
    requires room > 0 && forall i :: 0 <= i < |items| ==> Printable(mode, items[i], room - 1)
    ensures ParseValue("[" + (PrintItems(mode, items) + "]" + rest), room) == Some((Arr(DataItems(items)), rest))
    decreases items, 2
  {
    var s := PrintItems(mode, items) + "]" + rest;
    if items == [] {
      assert "[" + s == "[]" + rest;
      ParseEmptyArray(rest, room);
    } else {
      PrintedStart(mode, items[0], room - 1);
      assert s[0] == Print(mode, items[0])[0];
      ParsePrintedItems(mode, items, room - 1, rest);
      ParseFullArray(s, DataItems(items), rest, room);
    }
  }

  lemma PrintItemsParts(mode: Mode, items: seq<Value>, rest: string)
    requires items != []
    ensures PrintItems(mode, items) + "]" + rest ==
      Print(mode, items[0]) + (if |items| == 1 then "]" + rest else "," + (PrintItems(mode, items[1..]) + "]" + rest))
  {
  }

  lemma {:induction false} ParsePrintedItems(mode: Mode, items: seq<Value>, room: nat, rest: string)
    requires items != []
    requires forall i :: 0 <= i < |items| ==> Printable(mode, items[i], room)
    ensures ParseItems(PrintItems(mode, items) + "]" + rest, room) == Some((DataItems(items), rest))
    decreases items, 1
  {
    var s := PrintItems(mode, items) + "]" + rest;
    PrintItemsParts(mode, items, rest);
    if |items| == 1 {
      ParsePrintedValue(mode, items[0], room, "]" + rest);
      ParseLastItem(s, Data(items[0]), rest, room);
      assert DataItems(items) == [Data(items[0])];
    } else {
      var more := PrintItems(mode, items[1..]) + "]" + rest;
      ParsePrintedValue(mode, items[0], room, "," + more);
      ParsePrintedItems(mode, items[1..], room, rest);
      ParseMoreItems(s, Data(items[0]), more, DataItems(items[1..]), rest, room);
    }
  }

  /** The map the decoder builds while it reads the members ks in order. */
  function AddMembers(acc: map<string, Value>, fields: map<string, Value>, ks: seq<string>): map<string, Value>
    requires forall k :: k in ks ==> k in fields
    decreases |ks|
  {
    if ks == [] then acc else AddMembers(acc[ks[0] := Data(fields[ks[0]])], fields, ks[1..])
  }

  lemma {:induction false} AddMembersContents(acc: map<string, Value>, fields: map<string, Value>, ks: seq<string>)
    requires forall k :: k in ks ==> k in fields
    ensures var m := AddMembers(acc, fields, ks);
      && (forall k :: k in m <==> k in acc || k in ks)
      && (forall k :: k in m ==> m[k] == if k in ks then Data(fields[k]) else acc[k])
    decreases |ks|
  {
    if ks == [] {
    } else {
      AddMembersContents(acc[ks[0] := Data(fields[ks[0]])], fields, ks[1..]);
      assert forall k :: k in ks <==> k == ks[0] || k in ks[1..];
    }
  }

  lemma AddAllMembers(fields: map<string, Value>, ks: seq<string>)
    requires forall k :: k in ks <==> k in fields
    ensures AddMembers(map[], fields, ks) == map k | k in fields :: Data(fields[k])
  {
    AddMembersContents(map[], fields, ks);
  }

  lemma PrintObject(mode: Mode, v: Value, ks: seq<string>, rest: string)
    requires v.Obj? && ks == SortedKeys(v.fields.Keys)
    ensures Print(mode, v) + rest == "{" + (PrintMembers(mode, v, ks) + "}" + rest)
  {
    Braced(PrintMembers(mode, v, ks), rest);
  }

  lemma Braced(t: string, rest: string)
    ensures ("{" + t + "}") + rest == "{" + (t + "}" + rest)
  {
  }

  lemma PrintArray(mode: Mode, v: Value, rest: string)
    requires v.Arr?
    ensures Print(mode, v) + rest == "[" + (PrintItems(mode, v.items) + "]" + rest)
  {
  }

  lemma DataObject(v: Value, ks: seq<string>)
    requires v.Obj? && forall k :: k in ks <==> k in v.fields
    ensures Data(v) == Obj(AddMembers(map[], v.fields, ks))
  {
    AddAllMembers(v.fields, ks);
  }

  lemma ParsePrintedObject(mode: Mode, v: Value, room: nat, rest: string)
    requires v.Obj? && Printable(mode, v, room)
    ensures ParseValue(Print(mode, v) + rest, room) == Some((Data(v), rest))
    decreases v, 2
  {
    var ks := SortedKeys(v.fields.Keys);
    PrintObject(mode, v, ks, rest);
    DataObject(v, ks);
    ParsePrintedKeys(mode, v, ks, room, rest);
  }

  lemma {:induction false} ParsePrintedKeys(mode: Mode, v: Value, ks: seq<string>, room: nat, rest: string)
    requires v.Obj? && Printable(mode, v, room) && forall k :: k in ks ==> k in v.fields
    ensures ParseValue("{" + (PrintMembers(mode, v, ks) + "}" + rest), room)
         == Some((Obj(AddMembers(map[], v.fields, ks)), rest))
    decreases v, 1
  {
    var s := PrintMembers(mode, v, ks) + "}" + rest;
    if ks == [] {
      assert "{" + s == "{}" + rest;
      ParseEmptyObject(rest, room);
    } else {
      MembersStart(mode, v, ks);
      assert s[0] == PrintMembers(mode, v, ks)[0];
      ParsePrintedMembers(mode, v, ks, room - 1, map[], rest);
      ParseFullObject(s, AddMembers(map[], v.fields, ks), rest, room);
    }
  }

  lemma MembersStart(mode: Mode, v: Value, ks: seq<string>)
    requires v.Obj? && ks != [] && forall k :: k in ks ==> k in v.fields
    ensures PrintMembers(mode, v, ks) != "" && PrintMembers(mode, v, ks)[0] == '\"'
  {
    PrintMemberParts(mode, v, ks[0], Print(mode, v.fields[ks[0]]), "");
    assert PrintMember(mode, v, ks[0]) + "" == PrintMember(mode, v, ks[0]);
  }

  lemma PrintMemberParts(mode: Mode, v: Value, k: string, t: string, rest: string)
    requires v.Obj? && k in v.fields && t == Print(mode, v.fields[k])
    ensures PrintMember(mode, v, k) + rest == "\"" + (EscapeAll(mode.Marshal?, k) + "\"" + (":" + (t + rest)))
  {
  }

  lemma {:induction false} ParsePrintedMember(mode: Mode, v: Value, k: string, room: nat, rest: string)
    requires v.Obj? && k in v.fields && Printable(mode, v.fields[k], room) && Stops(rest)
    ensures ParseMember(PrintMember(mode, v, k) + rest, room) == Some((k, Data(v.fields[k]), rest))
    decreases v, 0, 0
  {
    var t := Print(mode, v.fields[k]);
    var s := EscapeAll(mode.Marshal?, k) + "\"" + (":" + (t + rest));
    PrintMemberParts(mode, v, k, t, rest);
    ParseQuoted(mode.Marshal?, k, ":" + (t + rest));
    ParsePrintedValue(mode, v.fields[k], room, rest);
    ParseOneMember(s, k, t + rest, Data(v.fields[k]), rest, room);
  }

  lemma PrintMembersParts(mode: Mode, v: Value, ks: seq<string>, rest: string)
    requires v.Obj? && ks != [] && forall k :: k in ks ==> k in v.fields
    ensures PrintMembers(mode, v, ks) + "}" + rest ==
      PrintMember(mode, v, ks[0]) + (if |ks| == 1 then "}" + rest else "," + (PrintMembers(mode, v, ks[1..]) + "}" + rest))
  {
  }

  lemma {:induction false} ParsePrintedMembers(mode: Mode, v: Value, ks: seq<string>, room: nat,
                                               acc: map<string, Value>, rest: string)
    requires v.Obj? && ks != []
    requires forall k :: k in ks ==> k in v.fields && Printable(mode, v.fields[k], room)
    ensures ParseMembers(PrintMembers(mode, v, ks) + "}" + rest, room, acc)
         == Some((AddMembers(acc, v.fields, ks), rest))
    decreases v, 0, |ks|
  {
    var s := PrintMembers(mode, v, ks) + "}" + rest;
    var k := ks[0];
    var d := Data(v.fields[k]);
    PrintMembersParts(mode, v, ks, rest);
    if |ks| == 1 {
      ParsePrintedMember(mode, v, k, room, "}" + rest);
      ParseLastMember(s, k, d, rest, room, acc);
      assert AddMembers(acc, v.fields, ks) == acc[k := d];
    } else {
      var more := PrintMembers(mode, v, ks[1..]) + "}" + rest;
      ParsePrintedMember(mode, v, k, room, "," + more);
      ParseMoreMembers(s, k, d, more, room, acc);
      ParsePrintedMembers(mode, v, ks[1..], room, acc[k := d], rest);
    }
  }

  // Nil slices and maps, which the canonical text shows as empty ones.

  lemma {:induction false} EmptiedHasNoNil(v: Value)
    ensures NoNil(Emptied(v))
    decreases v, 1
  {
    match v
    case Arr(items) => EmptiedItemsHaveNoNil(items);
    case Obj(fields) => forall k | k in fields ensures NoNil(Emptied(fields[k])) { EmptiedHasNoNil(fields[k]); }
    case _ =>
  }

  lemma {:induction false} EmptiedItemsHaveNoNil(items: seq<Value>)
    ensures forall i :: 0 <= i < |items| ==> NoNil(EmptiedItems(items)[i])
    decreases items, 0
  {
    if items == [] {
    } else {
      EmptiedHasNoNil(items[0]);
      EmptiedItemsHaveNoNil(items[1..]);
      assert forall i :: 0 < i < |items| ==> EmptiedItems(items)[i] == EmptiedItems(items[1..])[i - 1];
    }
  }

  lemma {:induction false} PrintEmptied(v: Value)
    ensures Print(Canonical, Emptied(v)) == Print(Canonical, v)
    decreases v, 2
  {
    match v
    case Arr(items) => PrintEmptiedItems(items);
    case Obj(fields) =>
      var e := Emptied(v);
      assert e.fields.Keys == fields.Keys;
      PrintEmptiedMembers(v, e, SortedKeys(fields.Keys));
    case NilMap => NoKeys(Emptied(v));
    case _ =>
  }

  lemma NoKeys(v: Value)
    requires v.Obj? && v.fields == map[]
    ensures Print(Canonical, v) == "{}"
  {
    assert SortedKeys(v.fields.Keys) == [];
    assert "{" + "" + "}" == "{}";
  }

  lemma {:induction false} PrintEmptiedItems(items: seq<Value>)
    ensures PrintItems(Canonical, EmptiedItems(items)) == PrintItems(Canonical, items)
    decreases items, 1
  {
    if items == [] {
    } else {
      var es := EmptiedItems(items);
      assert es[0] == Emptied(items[0]) && es[1..] == EmptiedItems(items[1..]);
      PrintEmptied(items[0]);
      PrintEmptiedItems(items[1..]);
    }
  }

  lemma {:induction false} PrintEmptiedMembers(v: Value, e: Value, ks: seq<string>)
    requires v.Obj? && e == Emptied(v) && forall k :: k in ks ==> k in v.fields
    ensures PrintMembers(Canonical, e, ks) == PrintMembers(Canonical, v, ks)
    decreases v, 1, |ks|
  {
    if ks == [] {
    } else {
      assert e.fields[ks[0]] == Emptied(v.fields[ks[0]]);
      PrintEmptied(v.fields[ks[0]]);
      PrintEmptiedMembers(v, e, ks[1..]);
    }
  }

  /** The value whose data a text shows. */
  function SeenAs(mode: Mode, v: Value): Value {
    if mode.Canonical? then Emptied(v) else v
  }

  /** Decoding inverts every printer: it gives back the data the text shows, and the text after it. */
  lemma ParsePrinted(mode: Mode, v: Value, room: nat, rest: string)
    requires Encodable(SeenAs(mode, v), room) && Stops(rest)
    ensures ParseValue(Print(mode, v) + rest, room) == Some((Data(SeenAs(mode, v)), rest))
  {
    if mode.Canonical? {
      PrintEmptied(v);
      EmptiedHasNoNil(v);
    }
    ParsePrintedValue(mode, SeenAs(mode, v), room, rest);
  }
}
