/**
 JSON text as a store may return it: with white space after commas and colons, with the members of an
 object in any order, and with any escapes. The decoder gives back the same value for all of it.
 */
module JsonLayout {
  import opened Wrappers
  import opened Json
  import opened JsonParser
  import opened JsonRoundTrip
  import opened Canonical

  /** How text is laid out; the last two are a writer of strings and an order of keys. */
  datatype Layout = Layout(
    afterComma: string,
    afterColon: string,
    quoted: string -> string,
    order: set<string> -> seq<string>)

  predicate IsBlank(ws: string) {
    forall i :: 0 <= i < |ws| ==> ws[i] in {' ', '\t', '\n', '\r'}
  }

  /** The decoder reads such a string back up to its closing quotation mark. */
  predicate ReadsBack(l: Layout, s: string, t: string) {
    ParseChars(l.quoted(s) + ("\"" + t)) == Some((s, t))
  }

  predicate Lists(l: Layout, keys: set<string>) {
    var ks := l.order(keys);
    (forall i :: 0 <= i < |ks| ==> ks[i] in keys) && (forall k :: k in keys ==> k in ks)
  }

  /** White space is white space, strings can be read back, and every key is written. */
  ghost predicate IsLayout(l: Layout) {
    && IsBlank(l.afterComma) && IsBlank(l.afterColon)
    && (forall s, t :: ReadsBack(l, s, t))
    && (forall keys :: Lists(l, keys))
  }

  /** A value as it comes from the decoder, written out. */
  ghost function Show(l: Layout, v: Value): string
    requires IsLayout(l)
    decreases v, 1
  {
    match v
    case Null => "null"
    case Bool(b) => if b then "true" else "false"
    case Str(s) => "\"" + l.quoted(s) + "\""
    case Num(lit) => lit
    case Arr(items) => "[" + ShowItems(l, items) + "]"
    case Obj(fields) => assert Lists(l, fields.Keys); "{" + ShowMembers(l, v, l.order(fields.Keys)) + "}"
    case _ => ""
  }

  ghost function ShowItems(l: Layout, items: seq<Value>): string
    requires IsLayout(l)
    decreases items, 0
  {
    if items == [] then ""
    else if |items| == 1 then Show(l, items[0])
    else Show(l, items[0]) + "," + l.afterComma + ShowItems(l, items[1..])
  }

  ghost function ShowMember(l: Layout, v: Value, k: string): string
    requires IsLayout(l) && v.Obj? && k in v.fields
    decreases v, 0, 0
  {
    "\"" + l.quoted(k) + "\"" + ":" + l.afterColon + Show(l, v.fields[k])
  }

  ghost function ShowMembers(l: Layout, v: Value, ks: seq<string>): string
    requires IsLayout(l) && v.Obj? && forall i :: 0 <= i < |ks| ==> ks[i] in v.fields
    decreases v, 0, |ks|
  {
    if ks == [] then ""
    else if |ks| == 1 then ShowMember(l, v, ks[0])
    else ShowMember(l, v, ks[0]) + "," + l.afterComma + ShowMembers(l, v, ks[1..])
  }

  // ----- white space is ignored ------------------------------------------------------------

  lemma {:induction false} SkipBlank(ws: string, s: string)
    requires IsBlank(ws)
    ensures SkipSpace(ws + s) == SkipSpace(s)
  {
    if ws == [] {
      assert ws + s == s;
    } else {
      assert (ws + s)[0] == ws[0] && (ws + s)[1..] == ws[1..] + s;
      SkipBlank(ws[1..], s);
    }
  }

  lemma BlankBeforeValue(ws: string, s: string, room: nat)
    requires IsBlank(ws)
    ensures ParseValue(ws + s, room) == ParseValue(s, room)
  {
    SkipBlank(ws, s);
  }

  lemma BlankBeforeItems(ws: string, s: string, room: nat)
    requires IsBlank(ws)
    ensures ParseItems(ws + s, room) == ParseItems(s, room)
  {
    BlankBeforeValue(ws, s, room);
  }

  lemma BlankBeforeMembers(ws: string, s: string, room: nat, acc: map<string, Value>)
    requires IsBlank(ws)
    ensures ParseMembers(ws + s, room, acc) == ParseMembers(s, room, acc)
  {
    SkipBlank(ws, s);
    assert ParseMember(ws + s, room) == ParseMember(s, room);
  }

  // ----- reading it ------------------------------------------------------------------------

  lemma ShowStart(l: Layout, v: Value, room: nat)
    requires IsLayout(l) && Normal(v, room)
    ensures var t := Show(l, v); t != [] && !IsSpace(t[0]) && t[0] != ']' && t[0] != '}'
  {
  }

  /** Whatever the layout, the decoder gives back the value that was written. */
  lemma {:induction false} ShownReads(l: Layout, v: Value, room: nat, rest: string)
    requires IsLayout(l) && Normal(v, room) && Stops(rest)
    ensures ParseValue(Show(l, v) + rest, room) == Some((v, rest))
    decreases v, 3
  {
    match v
    case Null => ParsePrintedWord(Plain, v, room, rest);
    case Bool(_) => ParsePrintedWord(Plain, v, room, rest);
    case Str(s) => ShownString(l, s, room, rest);
    case Num(lit) => ParseNumberValue(lit, rest, room);
    case Arr(items) => ShownArray(l, v, room, rest);
    case Obj(_) => ShownObject(l, v, room, rest);
  }

  lemma ShownString(l: Layout, s: string, room: nat, rest: string)
    requires IsLayout(l)
    ensures ParseValue("\"" + l.quoted(s) + "\"" + rest, room) == Some((Str(s), rest))
  {
    assert ReadsBack(l, s, rest);
    Joins(l.quoted(s), rest);
    ParseStringValue(l.quoted(s) + ("\"" + rest), s, rest, room);
  }

  lemma Joins(q: string, rest: string)
    ensures "\"" + q + "\"" + rest == "\"" + (q + ("\"" + rest))
  {
  }

  lemma Bracketed(open: string, t: string, close: string, rest: string)
    ensures (open + t + close) + rest == open + (t + close + rest)
  {
  }

  lemma {:induction false} ShownArray(l: Layout, v: Value, room: nat, rest: string)
    requires IsLayout(l) && v.Arr? && Normal(v, room)
    ensures ParseValue(Show(l, v) + rest, room) == Some((v, rest))
    decreases v, 2
  {
    var s := ShowItems(l, v.items) + "]" + rest;
    Bracketed("[", ShowItems(l, v.items), "]", rest);
    if v.items == [] {
      assert "[" + s == "[]" + rest;
      ParseEmptyArray(rest, room);
    } else {
      ShowStart(l, v.items[0], room - 1);
      assert s[0] == Show(l, v.items[0])[0];
      ShownItems(l, v.items, room - 1, rest);
      ParseFullArray(s, v.items, rest, room);
    }
  }

  lemma ItemsParts(l: Layout, items: seq<Value>, rest: string)
    requires IsLayout(l) && items != []
    ensures ShowItems(l, items) + "]" + rest == Show(l, items[0])
      + (if |items| == 1 then "]" + rest else "," + (l.afterComma + (ShowItems(l, items[1..]) + "]" + rest)))
  {
    if |items| > 1 { FourParts(Show(l, items[0]), l.afterComma, ShowItems(l, items[1..]), "]", rest); }
  }

  lemma FourParts(a: string, ws: string, b: string, close: string, rest: string)
    ensures (a + "," + ws + b) + close + rest == a + ("," + (ws + (b + close + rest)))
  {
  }

  lemma MoreItems(l: Layout, s: string, v: Value, more: string, vs: seq<Value>, rest: string, room: nat)
    requires IsLayout(l) && ParseValue(s, room) == Some((v, "," + (l.afterComma + more)))
    requires ParseItems(more, room) == Some((vs, rest))
    ensures ParseItems(s, room) == Some(([v] + vs, rest))
  {
    BlankBeforeItems(l.afterComma, more, room);
    ParseMoreItems(s, v, l.afterComma + more, vs, rest, room);
  }

  lemma {:induction false} ShownItems(l: Layout, items: seq<Value>, room: nat, rest: string)
    requires IsLayout(l) && items != [] && forall i :: 0 <= i < |items| ==> Normal(items[i], room)
    ensures ParseItems(ShowItems(l, items) + "]" + rest, room) == Some((items, rest))
    decreases items, 1
  {
    var s := ShowItems(l, items) + "]" + rest;
    ItemsParts(l, items, rest);
    if |items| == 1 {
      ShownReads(l, items[0], room, "]" + rest);
      ParseLastItem(s, items[0], rest, room);
      assert items == [items[0]];
    } else {
      var more := ShowItems(l, items[1..]) + "]" + rest;
      ShownReads(l, items[0], room, "," + (l.afterComma + more));
      ShownItems(l, items[1..], room, rest);
      MoreItems(l, s, items[0], more, items[1..], rest, room);
      assert items == [items[0]] + items[1..];
    }
  }

  lemma {:induction false} ShownObject(l: Layout, v: Value, room: nat, rest: string)
    requires IsLayout(l) && v.Obj? && Normal(v, room)
    ensures ParseValue(Show(l, v) + rest, room) == Some((v, rest))
    decreases v, 2
  {
    assert Lists(l, v.fields.Keys);
    var ks := l.order(v.fields.Keys);
    Bracketed("{", ShowMembers(l, v, ks), "}", rest);
    assert forall k :: k in ks <==> k in v.fields;
    AllMembers(v, ks);
    ShownKeys(l, v, ks, room, rest);
  }

  /** The map the decoder builds while it reads the members ks in order. */
  function AddShown(acc: map<string, Value>, v: Value, ks: seq<string>): map<string, Value>
    requires v.Obj? && forall i :: 0 <= i < |ks| ==> ks[i] in v.fields
    decreases |ks|
  {
    if ks == [] then acc else AddShown(acc[ks[0] := v.fields[ks[0]]], v, ks[1..])
  }

  lemma {:induction false} AddShownContents(acc: map<string, Value>, v: Value, ks: seq<string>)
    requires v.Obj? && forall i :: 0 <= i < |ks| ==> ks[i] in v.fields
    ensures var m := AddShown(acc, v, ks);
      && (forall k :: k in m <==> k in acc || k in ks)
      && (forall k :: k in m ==> m[k] == if k in ks then v.fields[k] else acc[k])
    decreases |ks|
  {
    if ks == [] {
    } else {
      AddShownContents(acc[ks[0] := v.fields[ks[0]]], v, ks[1..]);
      assert forall k :: k in ks <==> k == ks[0] || k in ks[1..];
    }
  }

  /** All members read, in whatever order, make the object. */
  lemma AllMembers(v: Value, ks: seq<string>)
    requires v.Obj? && forall k :: k in ks <==> k in v.fields
    ensures Obj(AddShown(map[], v, ks)) == v
  {
    AddShownContents(map[], v, ks);
    assert AddShown(map[], v, ks) == v.fields;
  }

  lemma {:induction false} ShownKeys(l: Layout, v: Value, ks: seq<string>, room: nat, rest: string)
    requires IsLayout(l) && v.Obj? && Normal(v, room) && forall i :: 0 <= i < |ks| ==> ks[i] in v.fields
    ensures ParseValue("{" + (ShowMembers(l, v, ks) + "}" + rest), room)
         == Some((Obj(AddShown(map[], v, ks)), rest))
    decreases v, 1
  {
    var s := ShowMembers(l, v, ks) + "}" + rest;
    if ks == [] {
      assert "{" + s == "{}" + rest;
      ParseEmptyObject(rest, room);
    } else {
      MembersParts(l, v, ks, rest);
      MemberParts(l, v, ks[0], "");
      assert s[0] == '\"';
      ShownMembers(l, v, ks, room - 1, map[], rest);
      ParseFullObject(s, AddShown(map[], v, ks), rest, room);
    }
  }

  lemma MemberParts(l: Layout, v: Value, k: string, rest: string)
    requires IsLayout(l) && v.Obj? && k in v.fields
    ensures ShowMember(l, v, k) + rest
         == "\"" + (l.quoted(k) + ("\"" + (":" + (l.afterColon + (Show(l, v.fields[k]) + rest)))))
  {
    SixParts(l.quoted(k), l.afterColon, Show(l, v.fields[k]), rest);
  }

  lemma SixParts(q: string, ws: string, t: string, rest: string)
    ensures ("\"" + q + "\"" + ":" + ws + t) + rest == "\"" + (q + ("\"" + (":" + (ws + (t + rest)))))
  {
  }

  lemma {:induction false} ShownMember(l: Layout, v: Value, k: string, room: nat, rest: string)
    requires IsLayout(l) && v.Obj? && k in v.fields && Normal(v.fields[k], room) && Stops(rest)
    ensures ParseMember(ShowMember(l, v, k) + rest, room) == Some((k, v.fields[k], rest))
    decreases v, 0, 0
  {
    var t := Show(l, v.fields[k]) + rest;
    MemberParts(l, v, k, rest);
    assert ReadsBack(l, k, ":" + (l.afterColon + t));
    ShownReads(l, v.fields[k], room, rest);
    BlankBeforeValue(l.afterColon, t, room);
    ParseOneMember(l.quoted(k) + ("\"" + (":" + (l.afterColon + t))), k, l.afterColon + t, v.fields[k], rest, room);
  }

  lemma MembersParts(l: Layout, v: Value, ks: seq<string>, rest: string)
    requires IsLayout(l) && v.Obj? && ks != [] && forall i :: 0 <= i < |ks| ==> ks[i] in v.fields
    ensures ShowMembers(l, v, ks) + "}" + rest == ShowMember(l, v, ks[0])
      + (if |ks| == 1 then "}" + rest else "," + (l.afterComma + (ShowMembers(l, v, ks[1..]) + "}" + rest)))
  {
    if |ks| > 1 { FourParts(ShowMember(l, v, ks[0]), l.afterComma, ShowMembers(l, v, ks[1..]), "}", rest); }
  }

  lemma {:induction false} ShownMembers(l: Layout, v: Value, ks: seq<string>, room: nat, acc: map<string, Value>, rest: string)
    requires IsLayout(l) && v.Obj? && ks != []
    requires forall i :: 0 <= i < |ks| ==> ks[i] in v.fields && Normal(v.fields[ks[i]], room)
    ensures ParseMembers(ShowMembers(l, v, ks) + "}" + rest, room, acc) == Some((AddShown(acc, v, ks), rest))
    decreases v, 0, |ks|
  {
    var s := ShowMembers(l, v, ks) + "}" + rest;
    var k := ks[0];
    MembersParts(l, v, ks, rest);
    if |ks| == 1 {
      ShownMember(l, v, k, room, "}" + rest);
      ParseLastMember(s, k, v.fields[k], rest, room, acc);
    } else {
      var more := ShowMembers(l, v, ks[1..]) + "}" + rest;
      ShownMember(l, v, k, room, "," + (l.afterComma + more));
      ParseMoreMembers(s, k, v.fields[k], l.afterComma + more, room, acc);
      BlankBeforeMembers(l.afterComma, more, room, acc[k := v.fields[k]]);
      ShownMembers(l, v, ks[1..], room, acc[k := v.fields[k]], rest);
    }
  }

  /** Text with one blank after commas and colons, as PostgreSQL prints `jsonb`, is such a layout. */
  lemma SpacedIsLayout(l: Layout)
    requires l.afterComma == " " && l.afterColon == " "
    requires (forall s :: l.quoted(s) == EscapeAll(false, s)) && (forall keys :: l.order(keys) == SortedKeys(keys))
    ensures IsLayout(l)
  {
    forall s, t ensures ReadsBack(l, s, t) { ParseQuoted(false, s, t); Quoted(EscapeAll(false, s), t); }
    forall keys ensures Lists(l, keys) { assert IsKeyListing(SortedKeys(keys), keys); }
  }

  lemma Quoted(q: string, t: string)
    ensures q + "\"" + t == q + ("\"" + t)
  {
  }

  /** Of two members with the same key the later one counts. */
  lemma LaterMemberCounts(s: string, k: string, v: Value, more: string, w: Value, rest: string, room: nat, acc: map<string, Value>)
    requires ParseMember(s, room) == Some((k, v, "," + more)) && ParseMember(more, room) == Some((k, w, "}" + rest))
    ensures ParseMembers(s, room, acc) == Some((acc[k := w], rest))
  {
    ParseMoreMembers(s, k, v, more, room, acc);
    ParseLastMember(more, k, w, rest, room, acc[k := v]);
    assert acc[k := v][k := w] == acc[k := w];
  }
}
