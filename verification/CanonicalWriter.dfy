/**
 writeCanonical and writeCanonicalObject as they run: appending to a buffer in loops over elements
 and over keys that were collected in an arbitrary order and then sorted.
 */
module CanonicalWriter {
  import opened Wrappers
  import opened ByteStrings
  import opened Json
  import opened Canonical
  import opened JsonDepth

  class Buffer {
    var data: string

    constructor ()
      ensures data == ""
    {
      data := "";
    }

    method Write(s: string)
      modifies this
      ensures data == old(data) + s
    {
      data := data + s;
    }
  }

  lemma Regroup(a: string, b: string, c: string, d: string)
    ensures a + b + c + d == a + (b + c + d)
    ensures a + (b + c) == a + b + c
  {
  }

  // ----- comma-separated texts -------------------------------------------------------------

  type Written = Result<string>

  function Joined(empty: bool, front: Written, last: Written): Written {
    if front.Err? || last.Err? then Err
    else if empty then last
    else Ok(front.value + "," + last.value)
  }

  /** The texts with commas between them, built up from the left as the loops build it. */
  function JoinAll(ts: seq<Written>): Written {
    if ts == [] then Ok("") else Joined(|ts| == 1, JoinAll(ts[..|ts| - 1]), ts[|ts| - 1])
  }

  lemma {:induction false} JoinAllFails(ts: seq<Written>, i: nat)
    requires i < |ts| && ts[i].Err?
    ensures JoinAll(ts).Err?
  {
    if i < |ts| - 1 { JoinAllFails(ts[..|ts| - 1], i); }
  }

  /** The same text built from the right, as the recursive definitions build it. */
  lemma {:induction false} JoinAllCons(first: Written, ts: seq<Written>)
    ensures JoinAll([first] + ts) == if ts == [] then first else Joined(false, first, JoinAll(ts))
  {
    var all := [first] + ts;
    if ts == [] {
      assert JoinAll(all[..0]) == Ok("");
    } else {
      var front, last := ts[..|ts| - 1], ts[|ts| - 1];
      assert all[..|all| - 1] == [first] + front && all[|all| - 1] == last;
      JoinAllCons(first, front);
      if front != [] && JoinAll(all).Ok? {
        assert first.value + "," + (JoinAll(front).value + "," + last.value)
            == (first.value + "," + JoinAll(front).value) + "," + last.value;
      }
    }
  }

  ghost predicate AreItemTexts(items: seq<Value>, ts: seq<Written>) {
    |ts| == |items| && forall i :: 0 <= i < |items| ==> ts[i] == WriteCanonical(items[i])
  }

  lemma {:induction false} WriteItemsJoins(items: seq<Value>, ts: seq<Written>)
    requires AreItemTexts(items, ts)
    ensures WriteItems(items) == JoinAll(ts)
  {
    if items == [] {
    } else {
      assert ts == [ts[0]] + ts[1..];
      WriteItemsJoins(items[1..], ts[1..]);
      JoinAllCons(ts[0], ts[1..]);
    }
  }

  function WriteMember(v: Value, k: string): Written
    requires v.Obj? && k in v.fields
  {
    match WriteCanonical(v.fields[k])
    case Err => Err
    case Ok(text) => Ok(Quote(false, k) + ":" + text)
  }

  ghost predicate AreMemberTexts(v: Value, ks: seq<string>, ts: seq<Written>) {
    && v.Obj?
    && |ts| == |ks|
    && forall i :: 0 <= i < |ks| ==> ks[i] in v.fields && ts[i] == WriteMember(v, ks[i])
  }

  lemma {:induction false} WriteMembersJoins(v: Value, ks: seq<string>, ts: seq<Written>)
    requires AreMemberTexts(v, ks, ts)
    ensures WriteMembers(v, ks) == JoinAll(ts)
  {
    if ks == [] {
    } else {
      assert ts == [ts[0]] + ts[1..];
      WriteMembersJoins(v, ks[1..], ts[1..]);
      JoinAllCons(ts[0], ts[1..]);
    }
  }

  // ----- keys ------------------------------------------------------------------------------

  /** A map's keys, in whatever order the iteration happens to visit them. */
  method CollectKeys(fields: map<string, Value>) returns (keys: seq<string>)
    ensures forall k :: k in keys <==> k in fields
    ensures forall i, j :: 0 <= i < j < |keys| ==> keys[i] != keys[j]
  {
    keys := [];
    var left := fields.Keys;
    while left != {}
      invariant left <= fields.Keys
      invariant forall k :: k in keys <==> k in fields && k !in left
      invariant forall i, j :: 0 <= i < j < |keys| ==> keys[i] != keys[j]
      decreases left
    {
      var k :| k in left;
      keys := keys + [k];
      left := left - {k};
    }
  }

  lemma InsertedListing(ks: seq<string>, keys: set<string>, k: string, i: nat)
    requires IsKeyListing(ks, keys) && i <= |ks|
    requires forall j :: 0 <= j < i ==> KeyLess(ks[j], k)
    requires forall j :: i <= j < |ks| ==> KeyLess(k, ks[j])
    ensures IsKeyListing(ks[..i] + [k] + ks[i..], keys + {k})
  {
    var out := ks[..i] + [k] + ks[i..];
    assert ks == ks[..i] + ks[i..];
    forall q ensures q in out <==> q in keys + {k} {
      assert q in out <==> q in ks[..i] || q == k || q in ks[i..];
    }
  }

  /** Puts one more key into a listing, before the first key that is greater. */
  method InsertKey(ks: seq<string>, ghost keys: set<string>, k: string) returns (out: seq<string>)
    requires IsKeyListing(ks, keys) && k !in keys
    ensures IsKeyListing(out, keys + {k})
  {
    var i := 0;
    while i < |ks| && KeyLess(ks[i], k)
      invariant i <= |ks|
      invariant forall j :: 0 <= j < i ==> KeyLess(ks[j], k)
    {
      i := i + 1;
    }
    forall j | i <= j < |ks| ensures KeyLess(k, ks[j]) {
      assert ks[i] in keys;
      LessTotal(Utf8(k), Utf8(ks[i]));
      if Utf8(k) == Utf8(ks[i]) { Utf8Injective(k, ks[i]); }
      if i < j { LessTransitive(Utf8(k), Utf8(ks[i]), Utf8(ks[j])); }
    }
    InsertedListing(ks, keys, k, i);
    out := ks[..i] + [k] + ks[i..];
  }

  function KeySet(ks: seq<string>): set<string> {
    set k | k in ks
  }

  /** The keys in byte order. Which order they came in makes no difference. */
  method SortKeys(keys: seq<string>) returns (sorted: seq<string>)
    requires forall i, j :: 0 <= i < j < |keys| ==> keys[i] != keys[j]
    ensures sorted == SortedKeys(KeySet(keys))
    ensures forall i, j :: 0 <= i < j < |sorted| ==> Below(Utf8(sorted[i]), Utf8(sorted[j]))
  {
    sorted := [];
    for i := 0 to |keys|
      invariant IsKeyListing(sorted, KeySet(keys[..i]))
    {
      ghost var seen := KeySet(keys[..i]);
      sorted := InsertKey(sorted, seen, keys[i]);
      assert KeySet(keys[..i + 1]) == seen + {keys[i]};
    }
    assert keys[..|keys|] == keys;
    KeyListingUnique(sorted, KeySet(keys));
    KeysInByteOrder(KeySet(keys));
  }

  // ----- the encoder -----------------------------------------------------------------------

  /** Appends the canonical text of v, or fails; either way as WriteCanonical says. */
  method WriteTo(buf: Buffer, v: Value) returns (ok: bool)
    modifies buf
    ensures ok <==> WriteCanonical(v).Ok?
    ensures ok ==> buf.data == old(buf.data) + WriteCanonical(v).value
    decreases !IsPlain(v), v, 1
  {
    ok := true;
    match v {
      case Null => buf.Write("null");
      case Bool(b) => buf.Write(if b then "true" else "false");
      case Str(s) => buf.Write(Quote(false, s));
      case Num(lit) =>
        if lit == "" { return false; }
        buf.Write(lit);
      case Arr(items) => ok := WriteArrayTo(buf, v);
      case Obj(fields) => ok := WriteObjectTo(buf, v);
      case NilSlice =>
        buf.Write("[");
        buf.Write("]");
      case NilMap =>
        buf.Write("{");
        buf.Write("}");
      case Opaque => ok := false;
      case Named(view) =>
        var normalized := NormalizeValue(v);
        NormalizeExact(v);
        if normalized.Err? { return false; }
        var w := normalized.value;
        if !w.Obj? && !w.Arr? {
          var text := MarshalText(w);
          ScalarIsMarshalled(w, MAX_DEPTH);
          if text.Err? { return false; }
          buf.Write(text.value);
        } else {
          NormalIsPlain(w, MAX_DEPTH);
          ok := WriteTo(buf, w);
        }
    }
  }

  method WriteArrayTo(buf: Buffer, v: Value) returns (ok: bool)
    requires v.Arr?
    modifies buf
    ensures ok <==> WriteCanonical(v).Ok?
    ensures ok ==> buf.data == old(buf.data) + WriteCanonical(v).value
    decreases !IsPlain(v), v, 0, 2
  {
    ghost var ts := seq(|v.items|, i requires 0 <= i < |v.items| => WriteCanonical(v.items[i]));
    WriteItemsJoins(v.items, ts);
    buf.Write("[");
    ok := WriteItemsTo(buf, v, ts);
    if ok {
      buf.Write("]");
      Regroup(old(buf.data), "[", JoinAll(ts).value, "]");
    }
  }

  method WriteItemsTo(buf: Buffer, v: Value, ghost ts: seq<Written>) returns (ok: bool)
    requires v.Arr? && AreItemTexts(v.items, ts)
    modifies buf
    ensures ok <==> JoinAll(ts).Ok?
    ensures ok ==> buf.data == old(buf.data) + JoinAll(ts).value
    decreases !IsPlain(v), v, 0, 1
  {
    for i := 0 to |v.items|
      invariant JoinAll(ts[..i]).Ok?
      invariant buf.data == old(buf.data) + JoinAll(ts[..i]).value
    {
      assert ts[..i + 1][..i] == ts[..i];
      if i > 0 { buf.Write(","); }
      var good := WriteTo(buf, v.items[i]);
      if !good {
        JoinAllFails(ts, i);
        return false;
      }
      Regroup(old(buf.data), JoinAll(ts[..i]).value, ",", ts[i].value);
    }
    assert ts[..|ts|] == ts;
    ok := true;
  }

  method WriteObjectTo(buf: Buffer, v: Value) returns (ok: bool)
    requires v.Obj?
    modifies buf
    ensures ok <==> WriteMembers(v, SortedKeys(v.fields.Keys)).Ok?
    ensures ok ==> buf.data == old(buf.data) + ("{" + WriteMembers(v, SortedKeys(v.fields.Keys)).value + "}")
    decreases !IsPlain(v), v, 0, 2
  {
    var unsorted := CollectKeys(v.fields);
    var ks := SortKeys(unsorted);
    assert KeySet(unsorted) == v.fields.Keys;
    ghost var ts := seq(|ks|, i requires 0 <= i < |ks| => WriteMember(v, ks[i]));
    WriteMembersJoins(v, ks, ts);
    buf.Write("{");
    ok := WriteMembersTo(buf, v, ks, ts);
    if ok {
      buf.Write("}");
      Regroup(old(buf.data), "{", JoinAll(ts).value, "}");
    }
  }

  method WriteMembersTo(buf: Buffer, v: Value, ks: seq<string>, ghost ts: seq<Written>) returns (ok: bool)
    requires AreMemberTexts(v, ks, ts)
    modifies buf
    ensures ok <==> JoinAll(ts).Ok?
    ensures ok ==> buf.data == old(buf.data) + JoinAll(ts).value
    decreases !IsPlain(v), v, 0, 1
  {
    for i := 0 to |ks|
      invariant JoinAll(ts[..i]).Ok?
      invariant buf.data == old(buf.data) + JoinAll(ts[..i]).value
    {
      assert ts[..i + 1][..i] == ts[..i];
      if i > 0 { buf.Write(","); }
      var good := WriteMemberTo(buf, v, ks[i], ts[i]);
      if !good {
        JoinAllFails(ts, i);
        return false;
      }
      Regroup(old(buf.data), JoinAll(ts[..i]).value, ",", ts[i].value);
    }
    assert ts[..|ts|] == ts;
    ok := true;
  }

  method WriteMemberTo(buf: Buffer, v: Value, k: string, ghost want: Result<string>) returns (ok: bool)
    requires v.Obj? && k in v.fields && want == WriteMember(v, k)
    modifies buf
    ensures ok <==> want.Ok?
    ensures ok ==> buf.data == old(buf.data) + want.value
    decreases !IsPlain(v), v, 0, 0
  {
    buf.Write(Quote(false, k));
    buf.Write(":");
    ok := WriteTo(buf, v.fields[k]);
  }

  /** CanonicalJSON: the text alone, from a fresh buffer. */
  method CanonicalJSON(v: Value) returns (r: Result<string>)
    ensures r == WriteCanonical(v)
  {
    var buf := new Buffer();
    var ok := WriteTo(buf, v);
    assert forall s: string :: "" + s == s;
    r := if ok then Ok(buf.data) else Err;
  }
}
