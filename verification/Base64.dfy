/** The client's base64 encoder, inverted by a decoder written from section 4 of RFC 4648. */
module Base64 {
  import opened Common
  import opened Bytes

  type Sextet = n: nat | n < 64

  /** Table 1 of RFC 4648. */
  function Letter(n: Sextet): char {
    if n < 26 then 'A' + n as char
    else if n < 52 then 'a' + (n - 26) as char
    else if n < 62 then '0' + (n - 52) as char
    else if n == 62 then '+' else '/'
  }

  function SextetOf(c: char): (r: Option<int>)
    ensures r.Some? ==> 0 <= r.value < 64
  {
    if 'A' <= c <= 'Z' then Some((c - 'A') as int)
    else if 'a' <= c <= 'z' then Some((c - 'a') as int + 26)
    else if '0' <= c <= '9' then Some((c - '0') as int + 52)
    else if c == '+' then Some(62)
    else if c == '/' then Some(63)
    else None
  }

  lemma LetterReads(n: Sextet)
    ensures SextetOf(Letter(n)) == Some(n) && Letter(n) != '='
  {
  }

  lemma PadReads()
    ensures SextetOf('=') == None
  {
  }

  /** A group of four characters: three bytes, or one or two with padding. */
  function DecodeGroup(s: string): Option<seq<Byte>>
    requires |s| == 4
  {
    match (SextetOf(s[0]), SextetOf(s[1]), SextetOf(s[2]), SextetOf(s[3]))
    case (Some(a), Some(b), Some(c), Some(d)) => Some([4 * a + b / 16, (b % 16) * 16 + c / 4, (c % 4) * 64 + d])
    case (Some(a), Some(b), Some(c), None) =>
      if s[3] == '=' && c % 4 == 0 then Some([4 * a + b / 16, (b % 16) * 16 + c / 4]) else None
    case (Some(a), Some(b), None, None) =>
      if s[2] == '=' && s[3] == '=' && b % 16 == 0 then Some([4 * a + b / 16]) else None
    case _ => None
  }

  /** Only the last group may be padded. */
  function Decode(s: string): Option<seq<Byte>> {
    if s == [] then Some([])
    else if |s| < 4 then None
    else
      match DecodeGroup(s[..4])
      case None => None
      case Some(bytes) =>
        if |bytes| < 3 then (if |s| == 4 then Some(bytes) else None)
        else
          match Decode(s[4..])
          case None => None
          case Some(rest) => Some(bytes + rest)
  }

  /** The characters of one chunk; absent bytes are zero and show as padding. */
  function EncodeChunk(chunk: seq<Byte>): (s: string)
    requires 1 <= |chunk| <= 3
    ensures |s| == 4
  {
    var b0 := chunk[0];
    var b1 := if |chunk| > 1 then chunk[1] else 0;
    var b2 := if |chunk| > 2 then chunk[2] else 0;
    [Letter(b0 / 4), Letter((b0 % 4) * 16 + b1 / 16),
     if |chunk| > 1 then Letter((b1 % 16) * 4 + b2 / 64) else '=',
     if |chunk| > 2 then Letter(b2 % 64) else '=']
  }

  function Encode(data: seq<Byte>): string {
    if data == [] then [] else EncodeChunk(data[..Min(3, |data|)]) + Encode(data[Min(3, |data|)..])
  }

  /** The bits of three bytes spread over four sextets and gathered again. */
  lemma Regroup(b0: Byte, b1: Byte, b2: Byte)
    ensures var a, b, c, d := b0 / 4, (b0 % 4) * 16 + b1 / 16, (b1 % 16) * 4 + b2 / 64, b2 % 64;
      b / 16 == b0 % 4 && b % 16 == b1 / 16 && c / 4 == b1 % 16 && c % 4 == b2 / 64
      && 4 * a + b / 16 == b0 && (b % 16) * 16 + c / 4 == b1 && (c % 4) * 64 + d == b2
  {
  }

  lemma GroupReads(chunk: seq<Byte>)
    requires 1 <= |chunk| <= 3
    ensures DecodeGroup(EncodeChunk(chunk)) == Some(chunk)
  {
    hide Letter, SextetOf;
    PadReads();
    var b0 := chunk[0];
    var b1 := if |chunk| > 1 then chunk[1] else 0;
    var b2 := if |chunk| > 2 then chunk[2] else 0;
    Regroup(b0, b1, b2);
    LetterReads(b0 / 4);
    LetterReads((b0 % 4) * 16 + b1 / 16);
    LetterReads((b1 % 16) * 4 + b2 / 64);
    LetterReads(b2 % 64);
    if |chunk| == 1 {
      assert chunk == [b0];
    } else if |chunk| == 2 {
      assert chunk == [b0, b1];
    } else {
      assert chunk == [b0, b1, b2];
    }
  }

  /** A last chunk reads back alone; a full chunk reads back before what follows it. */
  lemma ChunkReads(chunk: seq<Byte>, rest: string)
    requires 1 <= |chunk| <= 3 && (|chunk| < 3 ==> rest == [])
    ensures Decode(EncodeChunk(chunk) + rest)
         == if |chunk| < 3 then Some(chunk) else if Decode(rest).None? then None else Some(chunk + Decode(rest).value)
  {
    hide EncodeChunk, DecodeGroup;
    var s := EncodeChunk(chunk) + rest;
    assert s[..4] == EncodeChunk(chunk) && s[4..] == rest;
    GroupReads(chunk);
  }

  lemma {:induction false} EncodeReads(data: seq<Byte>)
    ensures Decode(Encode(data)) == Some(data)
  {
    if data != [] {
      var n := Min(3, |data|);
      var chunk, rest := data[..n], data[n..];
      hide Decode, EncodeChunk;
      assert n < 3 ==> rest == [] && chunk == data;
      assert chunk + rest == data;
      ChunkReads(chunk, Encode(rest));
      EncodeReads(rest);
    }
  }

  lemma EncodeStep(data: seq<Byte>, i: nat)
    requires i < |data|
    ensures var n := Min(3, |data| - i); Encode(data[i..]) == EncodeChunk(data[i..i + n]) + Encode(data[i + n..])
  {
    var n := Min(3, |data| - i);
    assert data[i..][..n] == data[i..i + n] && data[i..][n..] == data[i + n..];
  }

  lemma FourMore(s: string, a: char, b: char, c: char, d: char)
    ensures s + [a] + [b] + [c] + [d] == s + [a, b, c, d]
  {
  }

  /** Pushes four characters per chunk of three bytes. */
  method Base64Encode(data: seq<Byte>) returns (result: string)
    ensures result == Encode(data) && Decode(result) == Some(data)
  {
    hide Letter, Encode, Decode;
    result := [];
    var i := 0;
    assert data[0..] == data;
    while i < |data|
      invariant i <= |data| && result + Encode(data[i..]) == Encode(data)
    {
      EncodeStep(data, i);
      var n := Min(3, |data| - i);
      result := PushChunk(result, data[i..i + n]);
      i := i + n;
    }
    EncodeNothing(data);
    EncodeReads(data);
  }

  method PushChunk(before: string, chunk: seq<Byte>) returns (result: string)
    requires 1 <= |chunk| <= 3
    ensures result == before + EncodeChunk(chunk)
  {
    hide Letter;
    var n := |chunk|;
    var b0 := chunk[0];
    var b1 := if n > 1 then chunk[1] else 0;
    var b2 := if n > 2 then chunk[2] else 0;
    var a, b := Letter(b0 / 4), Letter((b0 % 4) * 16 + b1 / 16);
    var c := if n > 1 then Letter((b1 % 16) * 4 + b2 / 64) else '=';
    var d := if n > 2 then Letter(b2 % 64) else '=';
    FourMore(before, a, b, c, d);
    result := before + [a];
    result := result + [b];
    result := result + [c];
    result := result + [d];
  }

  lemma EncodeNothing(data: seq<Byte>)
    ensures Encode(data[|data|..]) == []
  {
  }
}
