/**
 JSON values, the order of object keys, and the text that Go's encoding/json writes for a
 value, with or without its escaping of HTML characters.
 */
module Json {
  import opened ByteStrings

  /**
   A Go value handed to the encoder. The first six cases are the shapes a decoder produces, with
   every number kept as its literal text. NilSlice and NilMap are a nil `[]any` and a nil map, which
   encoding/json prints as null. Named is a struct or a named type, given by the value encoding/json
   sees in it, and Opaque is a value encoding/json refuses (a channel, a function).
   */
  datatype Value =
    | Null
    | Bool(b: bool)
    | Str(s: string)
    | Num(lit: string)
    | Arr(items: seq<Value>)
    | Obj(fields: map<string, Value>)
    | NilSlice
    | NilMap
    | Named(view: Value)
    | Opaque

  // ----- object keys in byte order ---------------------------------------------------------

  predicate KeyLess(a: string, b: string) {
    Less(Utf8(a), Utf8(b))
  }

  predicate IsLeastKey(k: string, keys: set<string>) {
    k in keys && forall j :: j in keys && j != k ==> KeyLess(k, j)
  }

  lemma {:induction false} LeastKeyExists(keys: set<string>)
    requires keys != {}
    ensures exists k :: IsLeastKey(k, keys)
  {
    var k :| k in keys;
    var rest := keys - {k};
    if rest == {} {
      assert keys == {k};
      assert IsLeastKey(k, keys);
    } else {
      LeastKeyExists(rest);
      var m :| IsLeastKey(m, rest);
      LessTotal(Utf8(k), Utf8(m));
      if KeyLess(m, k) {
        assert IsLeastKey(m, keys);
      } else {
        if Utf8(k) == Utf8(m) { Utf8Injective(k, m); }
        forall j | j in keys && j != k ensures KeyLess(k, j) {
          if j != m {
            assert KeyLess(m, j);
            LessTransitive(Utf8(k), Utf8(m), Utf8(j));
          }
        }
        assert IsLeastKey(k, keys);
      }
    }
  }

  lemma LeastKeyUnique(keys: set<string>, a: string, b: string)
    requires IsLeastKey(a, keys) && IsLeastKey(b, keys)
    ensures a == b
  {
    if a != b { LessAsymmetric(Utf8(a), Utf8(b)); }
  }

  function LeastKey(keys: set<string>): (k: string)
    requires keys != {}
    ensures IsLeastKey(k, keys)
  {
    LeastKeyExists(keys);
    assert forall a, b :: IsLeastKey(a, keys) && IsLeastKey(b, keys) ==> a == b by {
      forall a, b | IsLeastKey(a, keys) && IsLeastKey(b, keys) ensures a == b { LeastKeyUnique(keys, a, b); }
    }
    var k :| IsLeastKey(k, keys);
    k
  }

  /** A listing of a set of keys, strictly increasing in byte order. */
  ghost predicate IsKeyListing(ks: seq<string>, keys: set<string>) {
    && (forall k :: k in ks <==> k in keys)
    && (forall i, j :: 0 <= i < j < |ks| ==> KeyLess(ks[i], ks[j]))
  }

  function SortedKeys(keys: set<string>): (ks: seq<string>)
    ensures IsKeyListing(ks, keys)
    ensures |ks| == |keys|
  {
    if keys == {} then []
    else
      var k := LeastKey(keys);
      [k] + SortedKeys(keys - {k})
  }

  /** The sorted listing is the only one, so it cannot depend on how a map was iterated. */
  lemma {:induction false} KeyListingUnique(ks: seq<string>, keys: set<string>)
    requires IsKeyListing(ks, keys)
    ensures ks == SortedKeys(keys)
  {
    if ks == [] {
      assert keys == {};
    } else {
      var k := ks[0];
      forall j | j in keys && j != k ensures KeyLess(k, j) {
        assert j in ks;
      }
      assert IsLeastKey(k, keys);
      LeastKeyUnique(keys, k, LeastKey(keys));
      var tail := ks[1..];
      forall j ensures j in tail <==> j in keys - {k} {
        if j in tail {
          var i :| 0 <= i < |tail| && tail[i] == j;
          assert KeyLess(ks[0], ks[i + 1]);
          if j == k { LessAsymmetric(Utf8(k), Utf8(k)); }
          assert j in ks;
        }
      }
      KeyListingUnique(tail, keys - {k});
      assert ks == [k] + tail;
    }
  }

  /** The listing holds exactly the keys, each before those that come after it in byte order. */
  lemma KeysInByteOrder(keys: set<string>)
    ensures var ks := SortedKeys(keys);
      && (forall k :: k in ks <==> k in keys)
      && (forall i, j :: 0 <= i < j < |ks| ==> Below(Utf8(ks[i]), Utf8(ks[j])))
  {
    var ks := SortedKeys(keys);
    forall i, j | 0 <= i < j < |ks| ensures Below(Utf8(ks[i]), Utf8(ks[j])) {
      assert KeyLess(ks[i], ks[j]);
      LessExact(Utf8(ks[i]), Utf8(ks[j]));
    }
  }

  // ----- strings ---------------------------------------------------------------------------

  function HexChar(d: nat): char
    requires d < 16
  {
    if d < 10 then '0' + d as char else 'a' + (d - 10) as char
  }

  /** How the encoder writes one character inside a string literal. */
  function Escape(html: bool, c: char): (e: string)
    ensures e != [] && e[0] != '\"'
  {
    if c == '\"' then "\\\""
    else if c == '\\' then "\\\\"
    else if c == '\U{08}' then "\\b"
    else if c == '\U{0C}' then "\\f"
    else if c == '\n' then "\\n"
    else if c == '\r' then "\\r"
    else if c == '\t' then "\\t"
    else if c < ' ' then "\\u00" + [HexChar(c as int / 16), HexChar(c as int % 16)]
    else if html && c == '<' then "\\u003c"
    else if html && c == '>' then "\\u003e"
    else if html && c == '&' then "\\u0026"
    else if c == '\U{2028}' then "\\u2028"
    else if c == '\U{2029}' then "\\u2029"
    else [c]
  }

  /** The characters that cannot stand for themselves; with HTML escaping three more. */
  predicate NeedsEscape(html: bool, c: char) {
    c < ' ' || c in {'\"', '\\', '\U{2028}', '\U{2029}'} || (html && c in {'<', '>', '&'})
  }

  predicate HasShortEscape(c: char) {
    c in {'\"', '\\', '\U{08}', '\U{0C}', '\n', '\r', '\t'}
  }

  /**
   Every other character stands for itself, some have an escape of two characters, and the rest are
   given by four lower-case hexadecimal digits. Which character an escape means, the decoder says.
   */
  lemma EscapeForm(html: bool, c: char)
    ensures var e := Escape(html, c);
      if !NeedsEscape(html, c) then e == [c]
      else if HasShortEscape(c) then |e| == 2 && e[0] == '\\'
      else |e| == 6 && e[..2] == "\\u" && forall i :: 2 <= i < 6 ==> e[i] in "0123456789abcdef"
  {
    if c < ' ' { HexCharForm(c as int / 16); HexCharForm(c as int % 16); }
  }

  lemma HexCharForm(d: nat)
    requires d < 16
    ensures HexChar(d) == "0123456789abcdef"[d]
  {
  }

  function EscapeAll(html: bool, s: string): string {
    if s == [] then [] else Escape(html, s[0]) + EscapeAll(html, s[1..])
  }

  function Quote(html: bool, s: string): string {
    "\"" + EscapeAll(html, s) + "\""
  }

  // ----- number literals -------------------------------------------------------------------

  predicate IsDigit(c: char) { '0' <= c <= '9' }

  /** The first position at or after i that holds no digit. */
  function SkipDigits(s: string, i: nat): (j: nat)
    requires i <= |s|
    ensures i <= j <= |s|
    ensures j < |s| ==> !IsDigit(s[j])
    ensures forall k :: i <= k < j ==> IsDigit(s[k])
    decreases |s| - i
  {
    if i < |s| && IsDigit(s[i]) then SkipDigits(s, i + 1) else i
  }

  /** Each scanner returns the position after its part of the literal, or -1 on a syntax error. */
  function ScanInt(s: string): (j: int)
    ensures -1 <= j <= |s|
    ensures j > 0 || j == -1
  {
    var i := if s != [] && s[0] == '-' then 1 else 0;
    if i >= |s| || !IsDigit(s[i]) then -1
    else if s[i] == '0' then i + 1
    else SkipDigits(s, i + 1)
  }

  function ScanFrac(s: string, i: nat): (j: int)
    requires i <= |s|
    ensures j == -1 || i <= j <= |s|
  {
    if i < |s| && s[i] == '.' then
      if i + 1 < |s| && IsDigit(s[i + 1]) then SkipDigits(s, i + 1) else -1
    else i
  }

  function ScanExp(s: string, i: nat): (j: int)
    requires i <= |s|
    ensures j == -1 || i <= j <= |s|
  {
    if i < |s| && (s[i] == 'e' || s[i] == 'E') then
      var k := if i + 1 < |s| && (s[i + 1] == '+' || s[i + 1] == '-') then i + 2 else i + 1;
      if k < |s| && IsDigit(s[k]) then SkipDigits(s, k) else -1
    else i
  }

  /** The length of the number literal that s starts with, or -1 (section 6 of RFC 8259). */
  function ScanNumber(s: string): (j: int)
    ensures -1 <= j <= |s|
    ensures j > 0 || j == -1
  {
    var i := ScanInt(s);
    if i == -1 then -1
    else
      var f := ScanFrac(s, i);
      if f == -1 then -1 else ScanExp(s, f)
  }

  predicate IsNumber(lit: string) {
    lit != [] && ScanNumber(lit) == |lit|
  }

  predicate DigitsIn(s: string, i: nat, j: nat) {
    i < j <= |s| && forall k :: i <= k < j ==> IsDigit(s[k])
  }

  /** A minus sign or not, digits without a leading zero, a fraction or not, and an exponent or not. */
  predicate NumberAt(s: string, a: nat, b: nat, c: nat) {
    && a <= 1 && a <= b <= c <= |s| && (a == 1 ==> s[0] == '-')
    && DigitsIn(s, a, b) && (s[a] == '0' ==> b == a + 1)
    && (b == c || (s[b] == '.' && DigitsIn(s, b + 1, c)))
    && (c == |s| || (s[c] in {'e', 'E'} &&
                     (DigitsIn(s, c + 1, |s|) || (c + 1 < |s| && s[c + 1] in {'+', '-'} && DigitsIn(s, c + 2, |s|)))))
  }

  lemma {:induction false} SkipsExactly(s: string, i: nat, j: nat)
    requires i <= j <= |s| && (forall k :: i <= k < j ==> IsDigit(s[k])) && (j < |s| ==> !IsDigit(s[j]))
    ensures SkipDigits(s, i) == j
    decreases j - i
  {
    if i == j {
    } else {
      SkipsExactly(s, i + 1, j);
    }
  }

  lemma IntScans(s: string, a: nat, b: nat, c: nat)
    requires NumberAt(s, a, b, c)
    ensures ScanInt(s) == b
  {
    assert IsDigit(s[a]);
    if s[a] != '0' { SkipsExactly(s, a + 1, b); }
  }

  lemma FracScans(s: string, a: nat, b: nat, c: nat)
    requires NumberAt(s, a, b, c)
    ensures ScanFrac(s, b) == c
  {
    if b < c { SkipsExactly(s, b + 1, c); }
  }

  lemma ExpScans(s: string, a: nat, b: nat, c: nat)
    requires NumberAt(s, a, b, c)
    ensures ScanExp(s, c) == |s|
  {
    if c < |s| { SkipsExactly(s, if s[c + 1] in {'+', '-'} then c + 2 else c + 1, |s|); }
  }

  /** The literals accepted are those of the grammar of section 6 of RFC 8259. */
  lemma NumberGrammar(s: string)
    ensures IsNumber(s) <==> exists a: nat, b: nat, c: nat :: NumberAt(s, a, b, c)
  {
    if IsNumber(s) {
      var a: nat := if s[0] == '-' then 1 else 0;
      var b: nat := ScanInt(s);
      assert NumberAt(s, a, b, ScanFrac(s, b));
    }
    if exists a: nat, b: nat, c: nat :: NumberAt(s, a, b, c) {
      var a: nat, b: nat, c: nat :| NumberAt(s, a, b, c);
      IntScans(s, a, b, c);
      FracScans(s, a, b, c);
      ExpScans(s, a, b, c);
    }
  }

  // ----- what the encoder accepts and what the decoder returns -----------------------------

  /** How deeply encoding/json lets arrays and objects nest before its decoder gives up. */
  const MAX_DEPTH: nat := 10000

  /** The values json.Marshal accepts whose text nests no deeper than the given number of levels. */
  predicate Encodable(v: Value, room: nat)
    decreases v
  {
    match v
    case Null => true
    case Bool(_) => true
    case Str(_) => true
    case Num(lit) => lit == "" || IsNumber(lit)
    case Arr(items) => room > 0 && forall i :: 0 <= i < |items| ==> Encodable(items[i], room - 1)
    case Obj(fields) => room > 0 && forall k :: k in fields ==> Encodable(fields[k], room - 1)
    case NilSlice => true
    case NilMap => true
    case Named(view) => Encodable(view, room)
    case Opaque => false
  }

  /** The shapes a decoder produces: no named types, and every number a valid literal. */
  predicate Normal(v: Value, room: nat)
    decreases v
  {
    match v
    case Null => true
    case Bool(_) => true
    case Str(_) => true
    case Num(lit) => IsNumber(lit)
    case Arr(items) => room > 0 && forall i :: 0 <= i < |items| ==> Normal(items[i], room - 1)
    case Obj(fields) => room > 0 && forall k :: k in fields ==> Normal(fields[k], room - 1)
    case NilSlice => false
    case NilMap => false
    case Named(_) => false
    case Opaque => false
  }

  /** The value as plain data: named types unwrapped, the empty number read as zero. */
  function Data(v: Value): Value
    decreases v, 1
  {
    match v
    case Null => v
    case Bool(_) => v
    case Str(_) => v
    case Num(lit) => if lit == "" then Num("0") else v
    case Arr(items) => Arr(DataItems(items))
    case Obj(fields) => Obj(map k | k in fields :: Data(fields[k]))
    case NilSlice => Null
    case NilMap => Null
    case Named(view) => Data(view)
    case Opaque => v
  }

  function DataItems(items: seq<Value>): (ds: seq<Value>)
    ensures |ds| == |items|
    decreases items, 0
  {
    if items == [] then [] else [Data(items[0])] + DataItems(items[1..])
  }

  /** No nil slice or map outside a named type. */
  predicate NoNil(v: Value) {
    match v
    case Arr(items) => forall i :: 0 <= i < |items| ==> NoNil(items[i])
    case Obj(fields) => forall k :: k in fields ==> NoNil(fields[k])
    case NilSlice => false
    case NilMap => false
    case _ => true
  }

  /** The value with nil slices and maps outside named types made empty ones. */
  function Emptied(v: Value): Value
    decreases v, 1
  {
    match v
    case Arr(items) => Arr(EmptiedItems(items))
    case Obj(fields) => Obj(map k | k in fields :: Emptied(fields[k]))
    case NilSlice => Arr([])
    case NilMap => Obj(map[])
    case _ => v
  }

  function EmptiedItems(items: seq<Value>): (es: seq<Value>)
    ensures |es| == |items|
    decreases items, 0
  {
    if items == [] then [] else [Emptied(items[0])] + EmptiedItems(items[1..])
  }

  // ----- text ------------------------------------------------------------------------------

  /**
   Marshal is json.Marshal; Plain is the same text without HTML escapes; Canonical is the text the
   audit log hashes, which falls back to Marshal for a named type that turns out to be a scalar.
   */
  datatype Mode = Marshal | Plain | Canonical

  predicate IsComposite(v: Value)
  {
    match v
    case Arr(_) => true
    case Obj(_) => true
    case Named(view) => IsComposite(view)
    case _ => false
  }

  function Print(mode: Mode, v: Value): string
    decreases v, 1
  {
    match v
    case Null => "null"
    case Bool(b) => if b then "true" else "false"
    case Str(s) => Quote(mode.Marshal?, s)
    case Num(lit) => if lit == "" then "0" else lit
    case Arr(items) => "[" + PrintItems(mode, items) + "]"
    case Obj(fields) => "{" + PrintMembers(mode, v, SortedKeys(fields.Keys)) + "}"
    case NilSlice => if mode.Canonical? then "[]" else "null"
    case NilMap => if mode.Canonical? then "{}" else "null"
    case Named(view) => Print(ModeInside(mode, view), view)
    case Opaque => ""
  }

  function ModeInside(mode: Mode, view: Value): Mode {
    if !mode.Canonical? then mode else if IsComposite(view) then Plain else Marshal
  }

  function PrintItems(mode: Mode, items: seq<Value>): string
    decreases items, 0
  {
    if items == [] then ""
    else if |items| == 1 then Print(mode, items[0])
    else Print(mode, items[0]) + "," + PrintItems(mode, items[1..])
  }

  function PrintMember(mode: Mode, v: Value, k: string): string
    requires v.Obj? && k in v.fields
    decreases v, 0, 0
  {
    Quote(mode.Marshal?, k) + ":" + Print(mode, v.fields[k])
  }

  function PrintMembers(mode: Mode, v: Value, ks: seq<string>): string
    requires v.Obj? && forall k :: k in ks ==> k in v.fields
    decreases v, 0, |ks|
  {
    if ks == [] then ""
    else if |ks| == 1 then PrintMember(mode, v, ks[0])
    else PrintMember(mode, v, ks[0]) + "," + PrintMembers(mode, v, ks[1..])
  }
}
