/** The 64-bit FNV-1a fingerprint behind object ETags and the legacy ledger hash. */
module Fnv {
  import opened Bytes

  const PRIME: nat := 0x0000_0100_0000_01b3
  const OFFSET: U64 := 0xcbf2_9ce4_8422_2325
  const MODULUS: nat := 0x1_0000_0000_0000_0000

  /** The inverse of the prime modulo 2^64. */
  const INVERSE: nat := 0xce96_5057_aff6_957b

  /** Bitwise exclusive or. */
  function Xor(a: nat, b: nat): nat
    decreases b
  {
    if b == 0 then a else (a + b) % 2 + 2 * Xor(a / 2, b / 2)
  }

  lemma XorUnfold(a: nat, b: nat)
    requires b != 0
    ensures Xor(a, b) == (a + b) % 2 + 2 * Xor(a / 2, b / 2)
    ensures Xor(a, b) % 2 == (a + b) % 2 && Xor(a, b) / 2 == Xor(a / 2, b / 2)
  {
    var x, bit, half := Xor(a, b), (a + b) % 2, Xor(a / 2, b / 2);
    assert x == bit + 2 * half;
    hide Xor;
    Halves(x, bit, half);
  }

  lemma Halves(x: nat, bit: nat, half: nat)
    requires x == bit + 2 * half && bit < 2
    ensures x % 2 == bit && x / 2 == half
  {
  }

  lemma SameParity(a: nat, b: nat, x: nat)
    requires x % 2 == (a + b) % 2
    ensures (x + b) % 2 == a % 2
  {
  }

  lemma {:induction false} XorInvolution(a: nat, b: nat)
    ensures Xor(Xor(a, b), b) == a
    decreases b
  {
    if b != 0 {
      var x := Xor(a, b);
      XorUnfold(a, b);
      XorUnfold(x, b);
      XorInvolution(a / 2, b / 2);
      hide Xor;
      SameParity(a, b, x);
    }
  }

  lemma {:induction false} XorCommutes(a: nat, b: nat)
    ensures Xor(a, b) == Xor(b, a)
    decreases a + b
  {
    if a != 0 && b != 0 {
      XorCommutes(a / 2, b / 2);
    } else if a == 0 && b != 0 {
      XorCommutes(0, b / 2);
    } else if a != 0 && b == 0 {
      XorCommutes(a / 2, 0);
    }
  }

  lemma {:induction false} XorBounded(a: nat, b: nat, bits: nat)
    requires a < Pow(2, bits) && b < Pow(2, bits)
    ensures Xor(a, b) < Pow(2, bits)
    decreases bits
  {
    if b != 0 && bits > 0 {
      XorBounded(a / 2, b / 2, bits - 1);
    }
  }

  /** One round: xor in a byte, multiply, keep 64 bits. */
  function Mix(h: U64, b: Byte): U64 {
    Xor(h, b) * PRIME % MODULUS
  }

  function Feed(h: U64, data: seq<Byte>): U64 {
    if data == [] then h else Mix(Feed(h, data[..|data| - 1]), data[|data| - 1])
  }

  lemma {:induction false} FeedAppend(h: U64, a: seq<Byte>, b: seq<Byte>)
    ensures Feed(h, a + b) == Feed(Feed(h, a), b)
    decreases |b|
  {
    if b == [] {
      assert a + b == a;
    } else {
      var n := |b| - 1;
      assert (a + b)[..|a| + n] == a + b[..n];
      FeedAppend(h, a, b[..n]);
    }
  }

  /** Multiplication by the odd prime is injective modulo 2^64. */
  lemma MultiplyInjective(x: nat, y: nat)
    requires x < MODULUS && y < MODULUS && x * PRIME % MODULUS == y * PRIME % MODULUS
    ensures x == y
  {
    var t := x * PRIME / MODULUS - y * PRIME / MODULUS;
    assert (x - y) * PRIME == t * MODULUS;
    assert PRIME * INVERSE == 1 + 887285111055 * MODULUS;
    assert x - y == MODULUS * (t * INVERSE - (x - y) * 887285111055);
  }

  lemma XorFits(h: U64, b: Byte)
    ensures Xor(h, b) < MODULUS
  {
    SixtyFourBits();
    XorBounded(h, b, 64);
  }

  /** A round is injective in the state and in the byte. */
  lemma MixInjective(g: U64, h: U64, b: Byte, c: Byte)
    requires Mix(g, b) == Mix(h, c) && (b == c || g == h)
    ensures g == h && b == c
  {
    XorFits(g, b);
    XorFits(h, c);
    MultiplyInjective(Xor(g, b), Xor(h, c));
    XorInvolution(g, b);
    XorInvolution(h, c);
    XorInvolution(b, g);
    XorInvolution(c, g);
    XorCommutes(g, b);
    XorCommutes(g, c);
  }

  /** A common suffix keeps different states apart. */
  lemma {:induction false} FeedKeepsApart(g: U64, h: U64, data: seq<Byte>)
    requires g != h
    ensures Feed(g, data) != Feed(h, data)
  {
    if data != [] {
      var n := |data| - 1;
      FeedKeepsApart(g, h, data[..n]);
      if Mix(Feed(g, data[..n]), data[n]) == Mix(Feed(h, data[..n]), data[n]) {
        MixInjective(Feed(g, data[..n]), Feed(h, data[..n]), data[n], data[n]);
      }
    }
  }

  /** The strings have equal length and differ at `i` and nowhere else. */
  predicate OneByteApart(a: seq<Byte>, b: seq<Byte>, i: nat) {
    i < |a| == |b| && a[i] != b[i] && a[..i] == b[..i] && a[i + 1..] == b[i + 1..]
  }

  /** Changing exactly one byte always changes the state, from whatever state the feeding started. */
  lemma OneByteChanges(h: U64, a: seq<Byte>, b: seq<Byte>, i: nat)
    requires OneByteApart(a, b, i)
    ensures Feed(h, a) != Feed(h, b)
  {
    var pre, post := a[..i], a[i + 1..];
    assert a == pre + [a[i]] + post && b == pre + [b[i]] + post;
    FeedAppend(h, pre + [a[i]], post);
    FeedAppend(h, pre + [b[i]], post);
    FeedAppend(h, pre, [a[i]]);
    FeedAppend(h, pre, [b[i]]);
    var g := Feed(h, pre);
    FeedOne(g, a[i]);
    FeedOne(g, b[i]);
    if Mix(g, a[i]) == Mix(g, b[i]) {
      MixInjective(g, g, a[i], b[i]);
    }
    FeedKeepsApart(Mix(g, a[i]), Mix(g, b[i]), post);
  }

  lemma FeedOne(h: U64, b: Byte)
    ensures Feed(h, [b]) == Mix(h, b)
  {
    assert [b][..0] == [];
  }

  /** The ETag of an object: 16 hexadecimal digits of the fingerprint. */
  method EtagOf(data: seq<Byte>) returns (etag: seq<Byte>)
    ensures etag == Etag(data)
  {
    var h := OFFSET;
    for i := 0 to |data|
      invariant h == Feed(OFFSET, data[..i])
    {
      assert data[..i + 1][..i] == data[..i];
      h := Mix(h, data[i]);
    }
    assert data[..|data|] == data;
    etag := HexNumber(h, 16);
  }

  function Etag(data: seq<Byte>): seq<Byte> {
    HexNumber(Feed(OFFSET, data), 16)
  }

  /** A one-byte edit always changes the ETag. */
  lemma EtagOneByteChanges(a: seq<Byte>, b: seq<Byte>, i: nat)
    requires OneByteApart(a, b, i)
    ensures Etag(a) != Etag(b)
  {
    OneByteChanges(OFFSET, a, b, i);
    SixtyFourBits();
    if Etag(a) == Etag(b) {
      HexNumberInjective(Feed(OFFSET, a), Feed(OFFSET, b), 16);
    }
  }

  const ZERO_STRING: seq<Byte> := [0xd5, 0x6b, 0xb9, 0x53, 0x42, 0x87, 0x08, 0x36]

  /** The low `bits` bits are zero. */
  predicate Shifted(top: nat, bits: nat) {
    bits == 0 || (top % 2 == 0 && Shifted(top / 2, bits - 1))
  }

  lemma ShiftedMore(top: nat, twice: nat, bits: nat)
    requires twice == 2 * top && Shifted(top, bits)
    ensures Shifted(twice, bits + 1)
  {
  }

  lemma ShiftedByte(high: nat)
    ensures Shifted(256 * high, 8)
  {
    hide Shifted;
    ShiftedNone(high);
    ShiftedMore(high, 2 * high, 0);
    ShiftedMore(2 * high, 4 * high, 1);
    ShiftedMore(4 * high, 8 * high, 2);
    ShiftedMore(8 * high, 16 * high, 3);
    ShiftedMore(16 * high, 32 * high, 4);
    ShiftedMore(32 * high, 64 * high, 5);
    ShiftedMore(64 * high, 128 * high, 6);
    ShiftedMore(128 * high, 256 * high, 7);
  }

  lemma ShiftedNone(top: nat)
    ensures Shifted(top, 0)
  {
  }

  lemma EvenPart(top: nat, half: nat, low: nat, b: nat)
    requires top == 2 * half
    ensures (top + low) / 2 == half + low / 2 && (top + low + b) % 2 == (low + b) % 2
  {
  }

  lemma XorZero(a: nat)
    ensures Xor(a, 0) == a
  {
  }

  /** Xor with `b < 2^bits` leaves the higher bits alone. */
  lemma {:induction false} XorLow(top: nat, low: nat, b: nat, bits: nat)
    requires low < Pow(2, bits) && b < Pow(2, bits) && Shifted(top, bits)
    ensures Xor(top + low, b) == top + Xor(low, b)
    decreases bits
  {
    if b == 0 {
      hide Xor, Pow;
      XorZero(top + low);
      XorZero(low);
    } else {
      var half, limit := top / 2, Pow(2, bits - 1);
      assert bits > 0 && Pow(2, bits) == 2 * limit && top == 2 * half && Shifted(half, bits - 1);
      hide Xor, Pow, Shifted;
      XorLow(half, low / 2, b / 2, bits - 1);
      XorLowStep(top, half, low, b, Xor(low / 2, b / 2));
    }
  }

  lemma XorLowStep(top: nat, half: nat, low: nat, b: nat, rest: nat)
    requires b != 0 && top == 2 * half && rest == Xor(low / 2, b / 2) && Xor(half + low / 2, b / 2) == half + rest
    ensures Xor(top + low, b) == top + Xor(low, b)
  {
    hide Xor;
    EvenPart(top, half, low, b);
    XorUnfold(top + low, b);
    XorUnfold(low, b);
  }

  lemma XorByte(h: nat, b: Byte, top: nat, low: Byte, x: Byte)
    requires h == top + low && Shifted(top, 8) && Xor(low, b) == x
    ensures Xor(h, b) == top + x
  {
    EightBits();
    hide Xor, Pow, Shifted;
    XorLow(top, low, b, 8);
  }

  /** One round by its arithmetic: `low` and `x` are the byte before and after the xor. */
  lemma Round(h: U64, b: Byte, high: nat, low: Byte, x: Byte, quotient: nat, next: U64)
    requires h == high * 256 + low && Xor(low, b) == x
    requires (high * 256 + x) * PRIME == quotient * MODULUS + next
    ensures Mix(h, b) == next
  {
    hide Xor, Mix, Shifted;
    var top := 256 * high;
    ShiftedByte(high);
    XorByte(h, b, top, low, x);
    RoundOf(h, b, top + x, quotient, next);
  }

  lemma RoundOf(h: U64, b: Byte, y: nat, quotient: nat, next: U64)
    requires Xor(h, b) == y && y * PRIME == quotient * MODULUS + next
    ensures Mix(h, b) == next
  {
    hide Xor;
    QuotientUnique(y * PRIME, quotient, next);
  }

  lemma QuotientUnique(y: nat, q: nat, r: nat)
    requires y == q * MODULUS + r && r < MODULUS
    ensures y % MODULUS == r
  {
  }

  lemma FeedStep(data: seq<Byte>, n: nat)
    requires n < |data|
    ensures Feed(OFFSET, data[..n + 1]) == Mix(Feed(OFFSET, data[..n]), data[n])
  {
    assert data[..n + 1][..n] == data[..n];
  }

  // The eight xors of the zero string, unfolded bit by bit from the top.
  lemma Xor1() ensures Xor(0x25, 0xd5) == 0xf0 {
    assert Xor(0, 1) == 1; assert Xor(0, 3) == 3; assert Xor(1, 6) == 7; assert Xor(2, 13) == 15;
    assert Xor(4, 26) == 30; assert Xor(9, 53) == 60; assert Xor(18, 106) == 120;
  }

  lemma Xor2() ensures Xor(0xd0, 0x6b) == 0xbb {
    assert Xor(3, 1) == 2; assert Xor(6, 3) == 5; assert Xor(13, 6) == 11; assert Xor(26, 13) == 23;
    assert Xor(52, 26) == 46; assert Xor(104, 53) == 93;
  }

  lemma Xor3() ensures Xor(0xc1, 0xb9) == 0x78 {
    assert Xor(1, 1) == 0; assert Xor(3, 2) == 1; assert Xor(6, 5) == 3; assert Xor(12, 11) == 7;
    assert Xor(24, 23) == 15; assert Xor(48, 46) == 30; assert Xor(96, 92) == 60;
  }

  lemma Xor4() ensures Xor(0xe8, 0x53) == 0xbb {
    assert Xor(3, 1) == 2; assert Xor(7, 2) == 5; assert Xor(14, 5) == 11; assert Xor(29, 10) == 23;
    assert Xor(58, 20) == 46; assert Xor(116, 41) == 93;
  }

  lemma Xor5() ensures Xor(0xc1, 0x42) == 0x83 {
    assert Xor(3, 1) == 2; assert Xor(6, 2) == 4; assert Xor(12, 4) == 8; assert Xor(24, 8) == 16;
    assert Xor(48, 16) == 32; assert Xor(96, 33) == 65;
  }

  lemma Xor6() ensures Xor(0x99, 0x87) == 0x1e {
    assert Xor(1, 1) == 0; assert Xor(2, 2) == 0; assert Xor(4, 4) == 0; assert Xor(9, 8) == 1;
    assert Xor(19, 16) == 3; assert Xor(38, 33) == 7; assert Xor(76, 67) == 15;
  }

  lemma Xor7() ensures Xor(0xfa, 0x8) == 0xf2 {
    assert Xor(31, 1) == 30; assert Xor(62, 2) == 60; assert Xor(125, 4) == 121;
  }

  lemma Xor8() ensures Xor(0x36, 0x36) == 0x0 {
    assert Xor(1, 1) == 0; assert Xor(3, 3) == 0; assert Xor(6, 6) == 0; assert Xor(13, 13) == 0;
    assert Xor(27, 27) == 0;
  }

  lemma ZeroString()
    ensures Feed(OFFSET, ZERO_STRING) == 0
  {
    Xor1(); Xor2(); Xor3(); Xor4(); Xor5(); Xor6(); Xor7(); Xor8();
    hide Mix, Feed, Xor;
    Round(0xcbf29ce484222325, 0xd5, 0xcbf29ce4842223, 0x25, 0xf0, 0xcbf29ce5de, 0xaf64884c860310d0);
    Round(0xaf64884c860310d0, 0x6b, 0xaf64884c860310, 0xd0, 0xbb, 0xaf64884db0, 0xae45507b7356dc1);
    Round(0xae45507b7356dc1, 0xb9, 0xae45507b7356d, 0xc1, 0x78, 0xae45507c9, 0xb769f41c4fc902e8);
    Round(0xb769f41c4fc902e8, 0x53, 0xb769f41c4fc902, 0xe8, 0xbb, 0xb769f41d87, 0x720c871b928fa3c1);
    Round(0x720c871b928fa3c1, 0x42, 0x720c871b928fa3, 0xc1, 0x83, 0x720c871c54, 0x5aed16da0a12d799);
    Round(0x5aed16da0a12d799, 0x87, 0x5aed16da0a12d7, 0x99, 0x1e, 0x5aed16daa4, 0x93b4f27f1e0387fa);
    Round(0x93b4f27f1e0387fa, 0x8, 0x93b4f27f1e0387, 0xfa, 0xf2, 0x93b4f28019, 0x36);
    Round(0x36, 0x36, 0x0, 0x36, 0x0, 0x0, 0x0);
    var s := ZERO_STRING;
    FeedNothing(s[..0]);
    FeedStep(s, 0); FeedStep(s, 1); FeedStep(s, 2); FeedStep(s, 3); FeedStep(s, 4); FeedStep(s, 5); FeedStep(s, 6);
    FeedStep(s, 7);
    assert s[..8] == s;
  }

  lemma FeedNothing(s: seq<Byte>)
    requires s == []
    ensures Feed(OFFSET, s) == OFFSET
  {
  }

  /** The ETag does not determine the bytes: appending zeros to a string of fingerprint zero changes nothing. */
  lemma EtagCollides()
    ensures Feed(OFFSET, ZERO_STRING) == 0
    ensures Etag(ZERO_STRING) == Etag(ZERO_STRING + [0])
  {
    ZeroString();
    ZeroStays();
    hide Feed, Mix, HexNumber;
    FeedAppend(OFFSET, ZERO_STRING, [0]);
    FeedOne(0, 0);
  }

  lemma ZeroStays()
    ensures Mix(0, 0) == 0
  {
  }
}
