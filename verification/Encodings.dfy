/** Byte encodings a decoder can undo: big-endian lengths and UTF-8. */
module Encodings {
  import opened Posix

  function Pow256(width: nat): (p: nat)
    ensures p > 0
  {
    if width == 0 then 1 else 256 * Pow256(width - 1)
  }

  /** int.to_bytes(width, "big") of a number that fits. */
  function BigEndian(n: nat, width: nat): (b: seq<byte>)
    ensures |b| == width
  {
    if width == 0 then [] else BigEndian(n / 256, width - 1) + [n % 256]
  }

  function FromBigEndian(b: seq<byte>): nat {
    if b == [] then 0 else FromBigEndian(b[..|b| - 1]) * 256 + b[|b| - 1]
  }

  /** The number comes back exactly when it fits; int.to_bytes raises when it does not. */
  lemma {:induction false} BigEndianDecodes(n: nat, width: nat)
    ensures FromBigEndian(BigEndian(n, width)) == n <==> n < Pow256(width)
  {
    if width > 0 {
      var b := BigEndian(n, width);
      assert b[..|b| - 1] == BigEndian(n / 256, width - 1);
      BigEndianDecodes(n / 256, width - 1);
      BigEndianFits(n / 256, width - 1);
    }
  }

  lemma {:induction false} BigEndianFits(n: nat, width: nat)
    ensures FromBigEndian(BigEndian(n, width)) <= n
  {
    if width > 0 {
      var b := BigEndian(n, width);
      assert b[..|b| - 1] == BigEndian(n / 256, width - 1);
      BigEndianFits(n / 256, width - 1);
    }
  }

  /** The most significant byte comes first. */
  lemma {:induction false} BigEndianDigits(n: nat, width: nat, i: nat)
    requires i < width
    ensures BigEndian(n, width)[i] == n / Pow256(width - 1 - i) % 256
  {
    if i == width - 1 {
      assert n / 1 == n;
    } else {
      BigEndianDigits(n / 256, width - 1, i);
      DividedTwice(n, Pow256(width - 2 - i));
    }
  }

  lemma DividedTwice(n: nat, p: nat)
    requires p > 0
    ensures n / 256 / p == n / (256 * p)
  {
    var q, r := n / 256 / p, n / 256 % p;
    assert n / 256 == p * q + r;
    assert n == 256 * (n / 256) + n % 256;
    var rest := 256 * r + n % 256;
    assert n == (256 * p) * q + rest;
    assert rest < 256 * p;
    Quotient(n, 256 * p, q, rest);
  }

  lemma Quotient(n: nat, d: nat, q: nat, r: nat)
    requires n == d * q + r && r < d
    ensures n / d == q
  {
    var k := n / d;
    assert d * (q - k) == n % d - r;
    Multiple(d, q - k);
  }

  lemma Multiple(d: nat, x: int)
    ensures (x >= 1 ==> d * x >= d) && (x <= -1 ==> d * x + d <= 0)
  {
  }

  lemma Widths()
    ensures Pow256(4) == 0x1_0000_0000 && Pow256(8) == 0x1_0000_0000_0000_0000
  {
    assert Pow256(2) == 65536;
    assert Pow256(4) == 65536 * 65536;
    assert Pow256(6) == 256 * (256 * Pow256(4));
    assert Pow256(8) == 256 * (256 * Pow256(6));
  }

  // ---- UTF-8 ---------------------------------------------------------------------------------

  /** str.encode("utf-8") of one Unicode scalar value. */
  function EncodeChar(c: char): (b: seq<byte>)
    ensures 1 <= |b| <= 4
  {
    var n := c as int;
    if n < 0x80 then [n]
    else if n < 0x800 then [0xC0 + n / 64, 0x80 + n % 64]
    else if n < 0x1_0000 then [0xE0 + n / 4096, 0x80 + n / 64 % 64, 0x80 + n % 64]
    else [0xF0 + n / 262144, 0x80 + n / 4096 % 64, 0x80 + n / 64 % 64, 0x80 + n % 64]
  }

  function Utf8(s: string): seq<byte> {
    if s == [] then [] else EncodeChar(s[0]) + Utf8(s[1..])
  }

  /** How long the first character of some bytes is, by its lead byte. */
  function LeadLength(b: byte): nat {
    if b < 0x80 then 1 else if b < 0xE0 then 2 else if b < 0xF0 then 3 else 4
  }

  /** The character encoded by a well-formed group of bytes. */
  function DecodeChar(b: seq<byte>): int
    requires 1 <= |b| <= 4
  {
    var lead: int := b[0];
    if |b| == 1 then lead
    else if |b| == 2 then Continued(lead - 0xC0, b[1])
    else if |b| == 3 then Continued(Continued(lead - 0xE0, b[1]), b[2])
    else Continued(Continued(Continued(lead - 0xF0, b[1]), b[2]), b[3])
  }

  function Continued(high: int, b: int): int {
    high * 64 + (b - 0x80)
  }

  lemma CharDecodes(c: char)
    ensures DecodeChar(EncodeChar(c)) == c as int
    ensures LeadLength(EncodeChar(c)[0]) == |EncodeChar(c)|
  {
    var n := c as int;
    assert n / 4096 == n / 64 / 64 && n / 262144 == n / 4096 / 64;
  }

  predicate Within(b: byte, low: int, high: int) {
    low <= b <= high
  }

  /** The well-formed byte sequences of one character (The Unicode Standard, section 3.9, table 3-7). */
  predicate WellFormed(b: seq<byte>) {
    || (|b| == 1 && Within(b[0], 0x00, 0x7F))
    || (|b| == 2 && Within(b[0], 0xC2, 0xDF) && Within(b[1], 0x80, 0xBF))
    || (|b| == 3 && b[0] == 0xE0 && Within(b[1], 0xA0, 0xBF) && Within(b[2], 0x80, 0xBF))
    || (|b| == 3 && (Within(b[0], 0xE1, 0xEC) || Within(b[0], 0xEE, 0xEF)) && Within(b[1], 0x80, 0xBF) && Within(b[2], 0x80, 0xBF))
    || (|b| == 3 && b[0] == 0xED && Within(b[1], 0x80, 0x9F) && Within(b[2], 0x80, 0xBF))
    || (|b| == 4 && b[0] == 0xF0 && Within(b[1], 0x90, 0xBF) && Within(b[2], 0x80, 0xBF) && Within(b[3], 0x80, 0xBF))
    || (|b| == 4 && Within(b[0], 0xF1, 0xF3) && Within(b[1], 0x80, 0xBF) && Within(b[2], 0x80, 0xBF) && Within(b[3], 0x80, 0xBF))
    || (|b| == 4 && b[0] == 0xF4 && Within(b[1], 0x80, 0x8F) && Within(b[2], 0x80, 0xBF) && Within(b[3], 0x80, 0xBF))
  }

  /** No character has an encoding longer than it needs, or one that stands for a surrogate. */
  lemma CharIsWellFormed(c: char)
    ensures WellFormed(EncodeChar(c))
  {
    var n := c as int;
    assert n < 0xD800 || 0xE000 <= n <= 0x10FFFF;
    if 0x800 <= n < 0x1_0000 {
      ThreeBytes(n);
    } else if n >= 0x1_0000 {
      FourBytes(n);
    }
  }

  lemma ThreeBytes(n: int)
    requires 0x800 <= n < 0xD800 || 0xE000 <= n < 0x1_0000
    ensures WellFormed([0xE0 + n / 4096, 0x80 + n / 64 % 64, 0x80 + n % 64])
  {
  }

  lemma FourBytes(n: int)
    requires 0x1_0000 <= n <= 0x10FFFF
    ensures WellFormed([0xF0 + n / 262144, 0x80 + n / 4096 % 64, 0x80 + n / 64 % 64, 0x80 + n % 64])
  {
  }

  /** Distinct strings have distinct encodings. */
  lemma {:induction false} Utf8Injective(s: string, t: string)
    requires Utf8(s) == Utf8(t)
    ensures s == t
  {
    if s != [] && t != [] {
      var u, v := EncodeChar(s[0]), EncodeChar(t[0]);
      CharDecodes(s[0]);
      CharDecodes(t[0]);
      assert u[0] == Utf8(s)[0] && v[0] == Utf8(t)[0];
      assert u == Utf8(s)[..|u|] && v == Utf8(t)[..|v|];
      assert Utf8(s[1..]) == Utf8(s)[|u|..] && Utf8(t[1..]) == Utf8(t)[|v|..];
      Utf8Injective(s[1..], t[1..]);
      assert s == [s[0]] + s[1..] && t == [t[0]] + t[1..];
    }
  }
}
