/** Byte strings: little-endian integers and hexadecimal digits, with their injectivity. */
module Bytes {
  type Byte = n: nat | n < 256
  type U64 = n: nat | n < 0x1_0000_0000_0000_0000

  function Pow(base: nat, n: nat): nat {
    if n == 0 then 1 else base * Pow(base, n - 1)
  }

  /** The low `width` bytes, least significant first. */
  function LittleEndian(n: nat, width: nat): (s: seq<Byte>)
    ensures |s| == width
  {
    if width == 0 then [] else [n % 256] + LittleEndian(n / 256, width - 1)
  }

  lemma {:induction false} LittleEndianInjective(a: nat, b: nat, width: nat)
    requires a < Pow(256, width) && b < Pow(256, width)
    requires LittleEndian(a, width) == LittleEndian(b, width)
    ensures a == b
  {
    if width > 0 {
      var sa, sb := LittleEndian(a, width), LittleEndian(b, width);
      assert sa[0] == sb[0] && sa[1..] == sb[1..];
      LittleEndianInjective(a / 256, b / 256, width - 1);
    }
  }

  lemma Regrouped(a: nat, b: nat, c: nat)
    ensures a * (b * c) == a * b * c
  {
  }

  lemma {:induction false} PowSum(base: nat, m: nat, n: nat)
    ensures Pow(base, m + n) == Pow(base, m) * Pow(base, n)
  {
    if m > 0 {
      assert Pow(base, m) == base * Pow(base, m - 1) && Pow(base, m + n) == base * Pow(base, m - 1 + n);
      hide Pow;
      PowSum(base, m - 1, n);
      Regrouped(base, Pow(base, m - 1), Pow(base, n));
    }
  }

  lemma EightBits()
    ensures Pow(2, 8) == 256
  {
    assert Pow(2, 4) == 16 by {
      assert Pow(2, 2) == 4;
      PowSum(2, 2, 2);
    }
    PowSum(2, 4, 4);
  }

  lemma SixtyFourBits()
    ensures Pow(256, 8) == Pow(16, 16) == Pow(2, 64) == 0x1_0000_0000_0000_0000
  {
    assert Pow(256, 4) == Pow(16, 8) == Pow(2, 32) == 0x1_0000_0000 by {
      assert Pow(256, 2) == Pow(16, 4) == Pow(2, 16) == 0x1_0000 by {
        assert Pow(16, 2) == Pow(2, 8) == 0x100;
        PowSum(16, 2, 2);
        PowSum(2, 8, 8);
      }
      PowSum(256, 2, 2);
      PowSum(16, 4, 4);
      PowSum(2, 16, 16);
    }
    PowSum(256, 4, 4);
    PowSum(16, 8, 8);
    PowSum(2, 32, 32);
  }

  /** A lower-case hexadecimal digit. */
  function HexDigit(n: nat): Byte
    requires n < 16
  {
    if n < 10 then 48 + n else 87 + n
  }

  /** Exactly `width` hexadecimal digits, most significant first. */
  function HexNumber(n: nat, width: nat): (s: seq<Byte>)
    ensures |s| == width
  {
    if width == 0 then [] else HexNumber(n / 16, width - 1) + [HexDigit(n % 16)]
  }

  lemma {:induction false} HexNumberInjective(a: nat, b: nat, width: nat)
    requires a < Pow(16, width) && b < Pow(16, width)
    requires HexNumber(a, width) == HexNumber(b, width)
    ensures a == b
  {
    if width > 0 {
      var sa, sb := HexNumber(a, width), HexNumber(b, width);
      assert sa[width - 1] == sb[width - 1] && sa[..width - 1] == sb[..width - 1];
      HexNumberInjective(a / 16, b / 16, width - 1);
    }
  }

  /** Two hexadecimal digits per byte. */
  function HexBytes(s: seq<Byte>): (r: seq<Byte>)
    ensures |r| == 2 * |s|
  {
    if s == [] then [] else HexNumber(s[0], 2) + HexBytes(s[1..])
  }

  lemma {:induction false} HexBytesInjective(a: seq<Byte>, b: seq<Byte>)
    requires HexBytes(a) == HexBytes(b)
    ensures a == b
  {
    assert |a| == |b|;
    if a != [] {
      var ha, hb := HexBytes(a), HexBytes(b);
      assert ha[..2] == HexNumber(a[0], 2) && hb[..2] == HexNumber(b[0], 2);
      assert ha[2..] == HexBytes(a[1..]) && hb[2..] == HexBytes(b[1..]);
      assert Pow(16, 2) == 256;
      HexNumberInjective(a[0], b[0], 2);
      HexBytesInjective(a[1..], b[1..]);
      assert a == [a[0]] + a[1..] && b == [b[0]] + b[1..];
    }
  }

  /** Each byte is the number shifted down by that many bytes. */
  lemma {:induction false} LittleEndianByte(n: nat, width: nat, i: nat)
    requires i < width
    ensures Pow(256, i) > 0 && LittleEndian(n, width)[i] == n / Pow(256, i) % 256
  {
    if i > 0 {
      LittleEndianByte(n / 256, width - 1, i - 1);
      var p := Pow(256, i - 1);
      assert Pow(256, i) == 256 * p;
      assert LittleEndian(n, width)[i] == LittleEndian(n / 256, width - 1)[i - 1];
      hide Pow, LittleEndian;
      DivideTwice(n, p);
    }
  }

  lemma DivideTwice(n: nat, p: nat)
    requires p > 0
    ensures n / 256 / p == n / (256 * p)
  {
    var a := n / 256;
    var q, r := a / p, a % p;
    assert a == q * p + r;
    var low := n % 256;
    assert n == 256 * a + low;
    assert n == q * (256 * p) + (256 * r + low) by {
      assert 256 * (q * p) == q * (256 * p);
    }
    QuotientIs(n, 256 * p, q, 256 * r + low);
  }

  lemma QuotientIs(n: nat, d: nat, q: nat, r: nat)
    requires d > 0 && n == q * d + r && r < d
    ensures n / d == q
  {
    var q', r' := n / d, n % d;
    assert n == q' * d + r';
    Distributed(q, q', d);
    ZeroMultiple(q - q', d, r' - r);
  }

  lemma Distributed(x: int, y: int, d: int)
    ensures (x - y) * d == x * d - y * d
  {
  }

  lemma ZeroMultiple(k: int, d: int, x: int)
    requires d > 0 && k * d == x && -d < x < d
    ensures k == 0
  {
    assert k >= 1 ==> k * d >= d;
    assert k <= -1 ==> k * d <= -d;
  }

  /** The value of a hexadecimal digit, lower case. */
  function HexValue(c: Byte): nat {
    if 48 <= c <= 57 then c - 48 else if 97 <= c <= 102 then c - 87 else 0
  }

  /** The value of hexadecimal digits, most significant first. */
  function HexRead(s: seq<Byte>): nat {
    if s == [] then 0 else 16 * HexRead(s[..|s| - 1]) + HexValue(s[|s| - 1])
  }

  /** Digits read back as the number. */
  lemma {:induction false} HexReads(n: nat, width: nat)
    requires n < Pow(16, width)
    ensures HexRead(HexNumber(n, width)) == n
  {
    if width > 0 {
      var s := HexNumber(n, width);
      assert s[..width - 1] == HexNumber(n / 16, width - 1) && s[width - 1] == HexDigit(n % 16);
      HexReads(n / 16, width - 1);
    }
  }
}
