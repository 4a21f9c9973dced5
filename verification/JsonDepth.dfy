/**
 The decoder's depth limit: text that nests deeper than it allows is refused, so a value normalises
 exactly when encoding/json can print it and its text nests no deeper than that.
 */
module JsonDepth {
  import opened Wrappers
  import opened Json
  import opened JsonParser
  import opened JsonRoundTrip
  import opened Canonical

  lemma {:induction false} MarshalledStart(mode: Mode, v: Value)
    requires Marshals(v)
    ensures var t := Print(mode, v); t != [] && !IsSpace(t[0]) && t[0] != ']' && t[0] != '}'
    decreases v
  {
    if v.Named? { MarshalledStart(ModeInside(mode, v.view), v.view); }
  }

  // The decoder's steps on text of which some part does not decode.

  lemma NoRoomForArray(s: string)
    ensures ParseValue("[" + s, 0) == None
  {
    var t := "[" + s;
    assert SkipSpace(t) == t;
  }

  lemma NoRoomForObject(s: string)
    ensures ParseValue("{" + s, 0) == None
  {
    var t := "{" + s;
    assert SkipSpace(t) == t;
  }

  lemma FailingArray(s: string, room: nat)
    requires room > 0 && s != [] && !IsSpace(s[0]) && s[0] != ']' && ParseItems(s, room - 1) == None
    ensures ParseValue("[" + s, room) == None
  {
    var t := "[" + s;
    assert SkipSpace(t) == t && t[1..] == s && SkipSpace(s) == s;
  }

  lemma FailingItems(s: string, v: Value, more: string, room: nat)
    requires ParseValue(s, room) == Some((v, "," + more)) && ParseItems(more, room) == None
    ensures ParseItems(s, room) == None
  {
    var u := "," + more;
    assert SkipSpace(u) == u && u[1..] == more;
  }

  lemma FailingObject(s: string, room: nat)
    requires room > 0 && s != [] && !IsSpace(s[0]) && s[0] != '}' && ParseMembers(s, room - 1, map[]) == None
    ensures ParseValue("{" + s, room) == None
  {
    var t := "{" + s;
    assert SkipSpace(t) == t && t[1..] == s && SkipSpace(s) == s;
  }

  lemma FailingMember(s: string, k: string, t: string, room: nat)
    requires ParseChars(s) == Some((k, ":" + t)) && ParseValue(t, room) == None
    ensures ParseMember("\"" + s, room) == None
  {
    var w := "\"" + s;
    assert SkipSpace(w) == w && w[1..] == s;
    var u := ":" + t;
    assert SkipSpace(u) == u && u[1..] == t;
  }

  // The decoder on printed text that nests too deeply.

  lemma {:induction false} TooDeepValue(mode: Mode, v: Value, room: nat, rest: string)
    requires Marshals(v) && !Encodable(v, room) && Stops(rest) && (mode.Canonical? ==> NoNil(v))
    ensures ParseValue(Print(mode, v) + rest, room) == None
    decreases v, 3
  {
    match v
    case Arr(items) => TooDeepArray(mode, v, room, rest);
    case Obj(fields) => TooDeepObject(mode, v, room, rest);
    case Named(view) => TooDeepValue(ModeInside(mode, view), view, room, rest);
  }

  lemma {:induction false} TooDeepArray(mode: Mode, v: Value, room: nat, rest: string)
    requires v.Arr? && Marshals(v) && !Encodable(v, room) && (mode.Canonical? ==> NoNil(v))
    ensures ParseValue(Print(mode, v) + rest, room) == None
    decreases v, 2
  {
    var items := v.items;
    var s := PrintItems(mode, items) + "]" + rest;
    PrintArray(mode, v, rest);
    if room == 0 {
      NoRoomForArray(s);
    } else {
      var i :| 0 <= i < |items| && !Encodable(items[i], room - 1);
      MarshalledStart(mode, items[0]);
      assert s[0] == Print(mode, items[0])[0];
      TooDeepItems(mode, items, i, room - 1, rest);
      FailingArray(s, room);
    }
  }

  lemma {:induction false} TooDeepItems(mode: Mode, items: seq<Value>, i: nat, room: nat, rest: string)
    requires i < |items| && !Encodable(items[i], room) && forall j :: 0 <= j < |items| ==> Marshals(items[j])
    requires mode.Canonical? ==> forall j :: 0 <= j < |items| ==> NoNil(items[j])
    ensures ParseItems(PrintItems(mode, items) + "]" + rest, room) == None
    decreases items, 1
  {
    var s := PrintItems(mode, items) + "]" + rest;
    PrintItemsParts(mode, items, rest);
    var after := if |items| == 1 then "]" + rest else "," + (PrintItems(mode, items[1..]) + "]" + rest);
    if !Encodable(items[0], room) {
      TooDeepValue(mode, items[0], room, after);
    } else {
      ParsePrintedValue(mode, items[0], room, after);
      assert items[1..][i - 1] == items[i];
      TooDeepItems(mode, items[1..], i - 1, room, rest);
      FailingItems(s, Data(items[0]), PrintItems(mode, items[1..]) + "]" + rest, room);
    }
  }

  lemma ObjectStart(mode: Mode, v: Value, ks: seq<string>, rest: string)
    requires v.Obj? && ks != [] && forall k :: k in ks ==> k in v.fields
    ensures var s := PrintMembers(mode, v, ks) + "}" + rest; s != [] && s[0] == '\"'
  {
    MembersStart(mode, v, ks);
  }

  lemma {:induction false} TooDeepObject(mode: Mode, v: Value, room: nat, rest: string)
    requires v.Obj? && Marshals(v) && !Encodable(v, room) && (mode.Canonical? ==> NoNil(v))
    ensures ParseValue(Print(mode, v) + rest, room) == None
    decreases v, 2
  {
    var ks := SortedKeys(v.fields.Keys);
    PrintObject(mode, v, ks, rest);
    if room == 0 {
      NoRoomForObject(PrintMembers(mode, v, ks) + "}" + rest);
    } else {
      var k :| k in v.fields && !Encodable(v.fields[k], room - 1);
      TooDeepKeys(mode, v, ks, k, room, rest);
    }
  }

  lemma {:induction false} TooDeepKeys(mode: Mode, v: Value, ks: seq<string>, k: string, room: nat, rest: string)
    requires v.Obj? && room > 0 && (forall j :: j in ks ==> j in v.fields && Marshals(v.fields[j]))
    requires k in ks && !Encodable(v.fields[k], room - 1) && (mode.Canonical? ==> NoNil(v))
    ensures ParseValue("{" + (PrintMembers(mode, v, ks) + "}" + rest), room) == None
    decreases v, 1
  {
    ObjectStart(mode, v, ks, rest);
    TooDeepMembers(mode, v, ks, k, room - 1, map[], rest);
    FailingObject(PrintMembers(mode, v, ks) + "}" + rest, room);
  }

  lemma {:induction false} TooDeepMember(mode: Mode, v: Value, k: string, room: nat, rest: string)
    requires v.Obj? && k in v.fields && Marshals(v.fields[k]) && !Encodable(v.fields[k], room) && Stops(rest)
    requires mode.Canonical? ==> NoNil(v.fields[k])
    ensures ParseMember(PrintMember(mode, v, k) + rest, room) == None
    decreases v, 0, 0
  {
    var t := Print(mode, v.fields[k]);
    PrintMemberParts(mode, v, k, t, rest);
    ParseQuoted(mode.Marshal?, k, ":" + (t + rest));
    TooDeepValue(mode, v.fields[k], room, rest);
    FailingMember(EscapeAll(mode.Marshal?, k) + "\"" + (":" + (t + rest)), k, t + rest, room);
  }

  lemma {:induction false} TooDeepMembers(mode: Mode, v: Value, ks: seq<string>, k: string, room: nat,
                                          acc: map<string, Value>, rest: string)
    requires v.Obj? && (forall j :: j in ks ==> j in v.fields && Marshals(v.fields[j]))
    requires k in ks && !Encodable(v.fields[k], room) && (mode.Canonical? ==> NoNil(v))
    ensures ParseMembers(PrintMembers(mode, v, ks) + "}" + rest, room, acc) == None
    decreases v, 0, |ks|
  {
    var s := PrintMembers(mode, v, ks) + "}" + rest;
    PrintMembersParts(mode, v, ks, rest);
    var first := ks[0];
    var after := if |ks| == 1 then "}" + rest else "," + (PrintMembers(mode, v, ks[1..]) + "}" + rest);
    if !Encodable(v.fields[first], room) {
      TooDeepMember(mode, v, first, room, after);
    } else {
      assert k in ks[1..];
      var d := Data(v.fields[first]);
      ParsePrintedMember(mode, v, first, room, after);
      ParseMoreMembers(s, first, d, PrintMembers(mode, v, ks[1..]) + "}" + rest, room, acc);
      TooDeepMembers(mode, v, ks[1..], k, room, acc[first := d], rest);
    }
  }

  lemma {:induction false} EmptiedMarshals(v: Value)
    requires Marshals(v)
    ensures Marshals(Emptied(v))
    decreases v, 1
  {
    match v
    case Arr(items) => EmptiedItemsMarshal(items);
    case Obj(fields) => forall k | k in fields ensures Marshals(Emptied(fields[k])) { EmptiedMarshals(fields[k]); }
    case _ =>
  }

  lemma {:induction false} EmptiedItemsMarshal(items: seq<Value>)
    requires forall i :: 0 <= i < |items| ==> Marshals(items[i])
    ensures forall i :: 0 <= i < |items| ==> Marshals(EmptiedItems(items)[i])
    decreases items, 0
  {
    if items == [] {
    } else {
      EmptiedMarshals(items[0]);
      EmptiedItemsMarshal(items[1..]);
      assert forall i :: 0 < i < |items| ==> EmptiedItems(items)[i] == EmptiedItems(items[1..])[i - 1];
    }
  }

  /** What encoding/json or the canonical encoder prints is decoded only if it nests no deeper than there is room for. */
  lemma TooDeepFails(mode: Mode, v: Value, room: nat, rest: string)
    requires Marshals(v) && !Encodable(SeenAs(mode, v), room) && Stops(rest)
    ensures ParseValue(Print(mode, v) + rest, room) == None
  {
    if mode.Canonical? {
      PrintEmptied(v);
      EmptiedHasNoNil(v);
      EmptiedMarshals(v);
    }
    TooDeepValue(mode, SeenAs(mode, v), room, rest);
  }

  /** Encoding and decoding yields exactly the data, or an error exactly when the value cannot be printed and read back. */
  lemma NormalizeExact(v: Value)
    ensures NormalizeValue(v) == if Encodable(v, MAX_DEPTH) then Ok(Data(v)) else Err
    ensures NormalizeValue(v) == NormalForm(v)
  {
    if Encodable(v, MAX_DEPTH) {
      NormalizeKeepsData(v);
    } else if Marshals(v) {
      TooDeepFails(Marshal, v, MAX_DEPTH, "");
      assert Print(Marshal, v) + "" == Print(Marshal, v);
    }
  }
}
