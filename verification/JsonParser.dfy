/**
 The decoder: sections 4 to 7 of RFC 8259 as Go's encoding/json reads them with UseNumber set.
 White space is allowed between tokens, the last of several equal keys wins, an unpaired surrogate
 becomes U+FFFD, and the text after the first value is left alone.
 */
module JsonParser {
  import opened Wrappers
  import opened Json

  predicate IsSpace(c: char) { c == ' ' || c == '\t' || c == '\n' || c == '\r' }

  function SkipSpace(s: string): (r: string)
    ensures |r| <= |s|
    ensures r != [] ==> !IsSpace(r[0])
  {
    if s != [] && IsSpace(s[0]) then SkipSpace(s[1..]) else s
  }

  // ----- strings ---------------------------------------------------------------------------

  function HexValue(c: char): int {
    if '0' <= c <= '9' then c as int - '0' as int
    else if 'a' <= c <= 'f' then c as int - 'a' as int + 10
    else if 'A' <= c <= 'F' then c as int - 'A' as int + 10
    else -1
  }

  /** The 16-bit unit written as backslash, u and four hexadecimal digits at the start of s, or -1. */
  function Unit(s: string): (u: int)
    ensures -1 <= u < 0x10000
    ensures u >= 0 ==> |s| >= 6
  {
    if |s| < 6 || s[0] != '\\' || s[1] != 'u' then -1
    else
      var a, b, c, d := HexValue(s[2]), HexValue(s[3]), HexValue(s[4]), HexValue(s[5]);
      if a < 0 || b < 0 || c < 0 || d < 0 then -1
      else ((a * 16 + b) * 16 + c) * 16 + d
  }

  predicate IsHighSurrogate(u: int) { 0xD800 <= u < 0xDC00 }
  predicate IsLowSurrogate(u: int) { 0xDC00 <= u < 0xE000 }

  /** One character of a string literal, escaped or not, and the text after it. */
  function ParseChar(s: string): (r: Option<(char, string)>)
    ensures r.Some? ==> |r.value.1| < |s|
  {
    if s == [] || s[0] < ' ' || s[0] == '\"' then None
    else if s[0] != '\\' then Some((s[0], s[1..]))
    else if |s| < 2 then None
    else
      match s[1]
      case '\"' => Some(('\"', s[2..]))
      case '\\' => Some(('\\', s[2..]))
      case '/' => Some(('/', s[2..]))
      case 'b' => Some(('\U{08}', s[2..]))
      case 'f' => Some(('\U{0C}', s[2..]))
      case 'n' => Some(('\n', s[2..]))
      case 'r' => Some(('\r', s[2..]))
      case 't' => Some(('\t', s[2..]))
      case 'u' => ParseUnit(s)
      case _ => None
  }

  function ParseUnit(s: string): (r: Option<(char, string)>)
    ensures r.Some? ==> |r.value.1| < |s|
  {
    var u := Unit(s);
    if u < 0 then None
    else if IsHighSurrogate(u) && IsLowSurrogate(Unit(s[6..])) then
      Some(((0x10000 + (u - 0xD800) * 1024 + (Unit(s[6..]) - 0xDC00)) as char, s[12..]))
    else if IsHighSurrogate(u) || IsLowSurrogate(u) then Some(('\U{FFFD}', s[6..]))
    else Some((u as char, s[6..]))
  }

  /** The rest of a string literal, up to and including its closing quote. */
  function ParseChars(s: string): (r: Option<(string, string)>)
    ensures r.Some? ==> |r.value.1| < |s|
    decreases |s|
  {
    if s == [] then None
    else if s[0] == '\"' then Some(("", s[1..]))
    else
      match ParseChar(s)
      case None => None
      case Some((c, t)) =>
        match ParseChars(t)
        case None => None
        case Some((cs, r)) => Some(([c] + cs, r))
  }

  // ----- values ----------------------------------------------------------------------------

  function Expect(word: string, v: Value, s: string): (r: Option<(Value, string)>)
    requires word != []
    ensures r.Some? ==> |r.value.1| < |s|
  {
    if word <= s then Some((v, s[|word|..])) else None
  }

  function ParseNumber(s: string): (r: Option<(Value, string)>)
    ensures r.Some? ==> |r.value.1| < |s|
  {
    var j := ScanNumber(s);
    if j == -1 then None else Some((Num(s[..j]), s[j..]))
  }

  function ParseValue(s: string, room: nat): (r: Option<(Value, string)>)
    ensures r.Some? ==> |r.value.1| < |s|
    decreases |s|, 2
  {
    var t := SkipSpace(s);
    if t == [] then None
    else if t[0] == 'n' then Expect("null", Null, t)
    else if t[0] == 't' then Expect("true", Bool(true), t)
    else if t[0] == 'f' then Expect("false", Bool(false), t)
    else if t[0] == '\"' then
      match ParseChars(t[1..])
      case None => None
      case Some((cs, r)) => Some((Str(cs), r))
    else if t[0] == '[' then ParseArray(t[1..], room)
    else if t[0] == '{' then ParseObject(t[1..], room)
    else ParseNumber(t)
  }

  function ParseArray(s: string, room: nat): (r: Option<(Value, string)>)
    ensures r.Some? ==> |r.value.1| < |s|
    decreases |s|, 4
  {
    if room == 0 then None
    else
      var t := SkipSpace(s);
      if t != [] && t[0] == ']' then Some((Arr([]), t[1..]))
      else
        match ParseItems(s, room - 1)
        case None => None
        case Some((items, r)) => Some((Arr(items), r))
  }

  function ParseItems(s: string, room: nat): (r: Option<(seq<Value>, string)>)
    ensures r.Some? ==> |r.value.1| < |s|
    decreases |s|, 3
  {
    match ParseValue(s, room)
    case None => None
    case Some((v, t)) =>
      var u := SkipSpace(t);
      if u != [] && u[0] == ']' then Some(([v], u[1..]))
      else if u != [] && u[0] == ',' then
        match ParseItems(u[1..], room)
        case None => None
        case Some((vs, r)) => Some(([v] + vs, r))
      else None
  }

  function ParseObject(s: string, room: nat): (r: Option<(Value, string)>)
    ensures r.Some? ==> |r.value.1| < |s|
    decreases |s|, 5
  {
    if room == 0 then None
    else
      var t := SkipSpace(s);
      if t != [] && t[0] == '}' then Some((Obj(map[]), t[1..]))
      else
        match ParseMembers(s, room - 1, map[])
        case None => None
        case Some((fields, r)) => Some((Obj(fields), r))
  }

  /** One key and its value, and the text after them. */
  function ParseMember(s: string, room: nat): (r: Option<(string, Value, string)>)
    ensures r.Some? ==> |r.value.2| < |s|
    decreases |s|, 3
  {
    var t := SkipSpace(s);
    if t == [] || t[0] != '\"' then None
    else
      match ParseChars(t[1..])
      case None => None
      case Some((k, u)) =>
        var w := SkipSpace(u);
        if w == [] || w[0] != ':' then None
        else
          match ParseValue(w[1..], room)
          case None => None
          case Some((v, r)) => Some((k, v, r))
  }

  function ParseMembers(s: string, room: nat, acc: map<string, Value>): (r: Option<(map<string, Value>, string)>)
    ensures r.Some? ==> |r.value.1| < |s|
    decreases |s|, 4
  {
    match ParseMember(s, room)
    case None => None
    case Some((k, v, t)) =>
      var u := SkipSpace(t);
      if u != [] && u[0] == '}' then Some((acc[k := v], u[1..]))
      else if u != [] && u[0] == ',' then ParseMembers(u[1..], room, acc[k := v])
      else None
  }
}
