/**
 Byte strings and the three byte-level codecs that the audit hash rests on: the eight-byte
 big-endian length prefix, lower-case hexadecimal, and UTF-8.
 */
module ByteStrings {
  import opened Wrappers


  type byte = b: int | 0 <= b < 256

  /** A Go string or byte slice. */
  type Bytes = seq<byte>

  function Repeat(b: byte, n: nat): (bs: Bytes)
    ensures |bs| == n && forall i :: 0 <= i < n ==> bs[i] == b
  {
    seq(n, _ => b)
  }

  // ----- big-endian integers ---------------------------------------------------------------

  function Pow256(k: nat): (p: nat)
    ensures p > 0
  {
    if k == 0 then 1 else 256 * Pow256(k - 1)
  }

  /** The byte of n that counts 256 to the power i. */
  function Digit(n: nat, i: nat): byte {
    if i == 0 then n % 256 else Digit(n / 256, i - 1)
  }

  /** The k low-order bytes of n, most significant first; higher-order bytes are cut off. */
  function BigEndian(n: nat, k: nat): (bs: Bytes)
    ensures |bs| == k
  {
    seq(k, i requires 0 <= i < k => Digit(n, k - 1 - i))
  }

  /** The number that bytes stand for, the most significant first. */
  function BigEndianValue(bs: Bytes): nat {
    if bs == [] then 0 else 256 * BigEndianValue(bs[..|bs| - 1]) + bs[|bs| - 1]
  }

  /** Reading the bytes gives the number back. */
  lemma {:induction false} BigEndianReads(n: nat, k: nat)
    requires n < Pow256(k)
    ensures BigEndianValue(BigEndian(n, k)) == n
  {
    if k == 0 {
    } else {
      var bs := BigEndian(n, k);
      assert bs[k - 1] == Digit(n, 0) == n % 256;
      forall i | 0 <= i < k - 1 ensures bs[i] == BigEndian(n / 256, k - 1)[i] {
        assert bs[i] == Digit(n, k - 1 - i) == Digit(n / 256, k - 2 - i);
      }
      assert bs[..k - 1] == BigEndian(n / 256, k - 1);
      BigEndianReads(n / 256, k - 1);
    }
  }

  lemma BigEndianInjective(n: nat, m: nat, k: nat)
    requires n < Pow256(k) && m < Pow256(k)
    requires BigEndian(n, k) == BigEndian(m, k)
    ensures n == m
  {
    BigEndianReads(n, k);
    BigEndianReads(m, k);
  }

  // ----- length-prefixed fields ------------------------------------------------------------

  /** Lengths below this bound survive the conversion to a 64-bit unsigned prefix. */
  const UINT64_LIMIT: nat := 0x1_0000_0000_0000_0000

  /** One field as it is fed to the digest: an eight-byte length, then the bytes. */
  function Field(b: Bytes): Bytes {
    BigEndian(|b|, 8) + b
  }

  function Fields(fs: seq<Bytes>): Bytes {
    if fs == [] then [] else Field(fs[0]) + Fields(fs[1..])
  }

  /** Fields one after another, fed from the left. */
  lemma {:induction false} FieldsSnoc(fs: seq<Bytes>, b: Bytes)
    ensures Fields(fs + [b]) == Fields(fs) + Field(b)
  {
    if fs == [] {
      assert [b][1..] == [];
    } else {
      assert (fs + [b])[1..] == fs[1..] + [b];
      FieldsSnoc(fs[1..], b);
    }
  }

  /** A field is read as its length, eight bytes with the most significant first, and its bytes. */
  lemma FieldReads(b: Bytes)
    requires |b| < 0x1_0000_0000_0000_0000
    ensures |Field(b)| == 8 + |b| && BigEndianValue(Field(b)[..8]) == |b| && Field(b)[8..] == b
  {
    Pow256Of8();
    BigEndianReads(|b|, 8);
    assert Field(b)[..8] == BigEndian(|b|, 8);
  }

  lemma Pow256Of8()
    ensures Pow256(8) == UINT64_LIMIT
  {
    assert Pow256(2) == 0x1_0000;
    assert Pow256(4) == 0x1_0000_0000;
    assert Pow256(6) == 0x1_0000_0000_0000;
  }

  /** No split of the digest input into fields other than the one that produced it exists. */
  lemma {:induction false} FieldPrefixFree(a: Bytes, b: Bytes, x: Bytes, y: Bytes)
    requires |a| < UINT64_LIMIT && |b| < UINT64_LIMIT
    requires Field(a) + x == Field(b) + y
    ensures a == b && x == y
  {
    var l, r := Field(a) + x, Field(b) + y;
    assert l[..8] == BigEndian(|a|, 8);
    assert r[..8] == BigEndian(|b|, 8);
    Pow256Of8();
    BigEndianInjective(|a|, |b|, 8);
    assert l[8..8 + |a|] == a && r[8..8 + |b|] == b;
    assert l[8 + |a|..] == x && r[8 + |b|..] == y;
  }

  lemma {:induction false} FieldsInjective(fs: seq<Bytes>, gs: seq<Bytes>)
    requires |fs| == |gs|
    requires forall i :: 0 <= i < |fs| ==> |fs[i]| < UINT64_LIMIT && |gs[i]| < UINT64_LIMIT
    requires Fields(fs) == Fields(gs)
    ensures fs == gs
  {
    if fs == [] {
    } else {
      FieldPrefixFree(fs[0], gs[0], Fields(fs[1..]), Fields(gs[1..]));
      FieldsInjective(fs[1..], gs[1..]);
      assert fs == [fs[0]] + fs[1..] && gs == [gs[0]] + gs[1..];
    }
  }

  // ----- hexadecimal -----------------------------------------------------------------------

  function HexDigit(d: nat): (b: byte)
    requires d < 16
    ensures 48 <= b < 58 || 97 <= b < 103
  {
    if d < 10 then 48 + d else 87 + d
  }

  function Hex(s: Bytes): (h: Bytes)
    ensures |h| == 2 * |s|
  {
    if s == [] then [] else [HexDigit(s[0] / 16), HexDigit(s[0] % 16)] + Hex(s[1..])
  }

  /** The value of a lower-case hexadecimal digit, or -1. */
  function DigitValue(b: byte): int {
    if '0' as int <= b <= '9' as int then b - '0' as int
    else if 'a' as int <= b <= 'f' as int then b - 'a' as int + 10
    else -1
  }

  /** The bytes that pairs of hexadecimal digits stand for, the high half first. */
  function Unhex(h: Bytes): Option<Bytes> {
    if h == [] then Some([])
    else if |h| == 1 || DigitValue(h[0]) < 0 || DigitValue(h[1]) < 0 then None
    else
      match Unhex(h[2..])
      case None => None
      case Some(rest) => Some([16 * DigitValue(h[0]) + DigitValue(h[1])] + rest)
  }

  /** Reading the digits gives the bytes back. */
  lemma {:induction false} HexReads(s: Bytes)
    ensures Unhex(Hex(s)) == Some(s)
  {
    if s == [] {
    } else {
      HexReads(s[1..]);
      var h := Hex(s);
      assert h[0] == HexDigit(s[0] / 16) && h[1] == HexDigit(s[0] % 16) && h[2..] == Hex(s[1..]);
      assert s == [s[0]] + s[1..];
    }
  }

  lemma HexInjective(s: Bytes, t: Bytes)
    requires Hex(s) == Hex(t)
    ensures s == t
  {
    HexReads(s);
    HexReads(t);
  }

  // ----- UTF-8 -----------------------------------------------------------------------------

  function Utf8Char(c: char): (bs: Bytes)
    ensures 1 <= |bs| <= 4
  {
    var n := c as int;
    if n < 0x80 then [n]
    else if n < 0x800 then [0xC0 + n / 64, 0x80 + n % 64]
    else if n < 0x10000 then [0xE0 + n / 4096, 0x80 + n / 64 % 64, 0x80 + n % 64]
    else [0xF0 + n / 262144, 0x80 + n / 4096 % 64, 0x80 + n / 64 % 64, 0x80 + n % 64]
  }

  function Utf8(s: string): Bytes {
    if s == [] then [] else Utf8Char(s[0]) + Utf8(s[1..])
  }

  /** The code point whose UTF-8 form begins with these four bytes (unused ones are ignored). */
  function LeadingCodePoint(b0: int, b1: int, b2: int, b3: int): int {
    if b0 < 0xC0 then b0
    else if b0 < 0xE0 then (b0 - 0xC0) * 64 + (b1 - 0x80)
    else if b0 < 0xF0 then (b0 - 0xE0) * 4096 + (b1 - 0x80) * 64 + (b2 - 0x80)
    else (b0 - 0xF0) * 262144 + (b1 - 0x80) * 4096 + (b2 - 0x80) * 64 + (b3 - 0x80)
  }

  lemma SixBitGroups(n: nat)
    requires n < 0x110000
    ensures n == n / 64 * 64 + n % 64
    ensures n == n / 4096 * 4096 + n / 64 % 64 * 64 + n % 64
    ensures n == n / 262144 * 262144 + n / 4096 % 64 * 4096 + n / 64 % 64 * 64 + n % 64
  {
    assert n / 4096 == n / 64 / 64 && n / 262144 == n / 4096 / 64;
  }

  lemma LeadingCodePointCorrect(c: char, bs: Bytes)
    requires |bs| >= 4 && Utf8Char(c) <= bs
    ensures LeadingCodePoint(bs[0], bs[1], bs[2], bs[3]) == c as int
  {
    var n, u := c as int, Utf8Char(c);
    SixBitGroups(n);
    assert forall i :: 0 <= i < |u| ==> bs[i] == u[i];
  }

  lemma Utf8PrefixFree(c: char, d: char, x: Bytes, y: Bytes)
    requires Utf8Char(c) + x == Utf8Char(d) + y
    ensures c == d && x == y
  {
    var pad: Bytes := [0, 0, 0];
    var bs := Utf8Char(c) + x + pad;
    LeadingCodePointCorrect(c, bs);
    LeadingCodePointCorrect(d, bs);
    assert c == d;
    assert (Utf8Char(c) + x)[|Utf8Char(c)|..] == x;
    assert (Utf8Char(d) + y)[|Utf8Char(d)|..] == y;
  }

  lemma {:induction false} Utf8Injective(s: string, t: string)
    requires Utf8(s) == Utf8(t)
    ensures s == t
  {
    if s == [] || t == [] {
    } else {
      Utf8PrefixFree(s[0], t[0], Utf8(s[1..]), Utf8(t[1..]));
      Utf8Injective(s[1..], t[1..]);
      assert s == [s[0]] + s[1..] && t == [t[0]] + t[1..];
    }
  }

  // ----- byte order ------------------------------------------------------------------------

  /** Lexicographic order on bytes, the order in which Go compares strings. */
  predicate Less(a: Bytes, b: Bytes) {
    if b == [] then false
    else if a == [] then true
    else a[0] < b[0] || (a[0] == b[0] && Less(a[1..], b[1..]))
  }

  lemma {:induction false} LessTransitive(a: Bytes, b: Bytes, c: Bytes)
    requires Less(a, b) && Less(b, c)
    ensures Less(a, c)
  {
    if a != [] && a[0] == b[0] == c[0] {
      LessTransitive(a[1..], b[1..], c[1..]);
    }
  }

  lemma {:induction false} LessTotal(a: Bytes, b: Bytes)
    ensures a == b || Less(a, b) || Less(b, a)
  {
    if a != [] && b != [] && a[0] == b[0] {
      LessTotal(a[1..], b[1..]);
      assert a == [a[0]] + a[1..] && b == [b[0]] + b[1..];
    }
  }

  lemma {:induction false} LessAsymmetric(a: Bytes, b: Bytes)
    requires Less(a, b)
    ensures !Less(b, a)
  {
    if a != [] && a[0] == b[0] {
      LessAsymmetric(a[1..], b[1..]);
    }
  }

  /** The first n bytes agree, and then a ends or has the smaller byte. */
  predicate BelowFrom(a: Bytes, b: Bytes, n: nat) {
    n <= |a| && n <= |b| && a[..n] == b[..n] && (n == |a| < |b| || (n < |a| && n < |b| && a[n] < b[n]))
  }

  /** Byte order: a proper prefix comes first, and so does the smaller byte at the first difference. */
  ghost predicate Below(a: Bytes, b: Bytes) {
    exists n: nat :: BelowFrom(a, b, n)
  }

  lemma BelowTail(a: Bytes, b: Bytes, n: nat)
    requires a != [] && b != [] && a[0] == b[0]
    ensures BelowFrom(a[1..], b[1..], n) <==> BelowFrom(a, b, n + 1)
  {
    if n < |a| && n < |b| {
      assert a[..n + 1] == [a[0]] + a[1..][..n] && b[..n + 1] == [b[0]] + b[1..][..n];
    }
  }

  lemma CommonStart(a: Bytes, b: Bytes, n: nat)
    requires BelowFrom(a, b, n)
    ensures n > 0 ==> a != [] && b != [] && a[0] == b[0]
  {
    if n > 0 { assert a[..n][0] == b[..n][0]; }
  }

  lemma {:induction false} LessExact(a: Bytes, b: Bytes)
    ensures Less(a, b) <==> Below(a, b)
  {
    if a == [] || b == [] || a[0] != b[0] {
      assert Less(a, b) ==> BelowFrom(a, b, 0);
      forall n: nat | BelowFrom(a, b, n) ensures n == 0 { CommonStart(a, b, n); }
    } else {
      LessExact(a[1..], b[1..]);
      if Below(a[1..], b[1..]) {
        var n: nat :| BelowFrom(a[1..], b[1..], n);
        BelowTail(a, b, n);
      }
      if Below(a, b) {
        var n: nat :| BelowFrom(a, b, n);
        assert !BelowFrom(a, b, 0);
        BelowTail(a, b, n - 1);
      }
    }
  }
}
