/**
 * The `base64` crate's `general_purpose::STANDARD` engine: the alphabet of
 * section 4 of RFC 4648 with `=` padding on encode, and canonical decoding
 * (padding required, no stray padding, unused trailing bits must be zero).
 * Both `src/base64.rs` and `misc/src/base64.rs` are thin wrappers around this
 * engine, so the model defines it once.
 */
module Base64 {
  import opened Wrappers

  type byte = b: int | 0 <= b < 256
  type sextet = v: int | 0 <= v < 64

  const PAD: char := '='

  /** The character of the standard alphabet that stands for `v`. */
  function CharOf(v: sextet): (c: char)
    ensures ValueOf(c) == v
    ensures c != PAD
  {
    if v < 26 then ('A' as int + v) as char
    else if v < 52 then ('a' as int + (v - 26)) as char
    else if v < 62 then ('0' as int + (v - 52)) as char
    else if v == 62 then '+'
    else '/'
  }

  /** The value of an alphabet character, or -1 for any other character. */
  function ValueOf(c: char): (v: int)
    ensures -1 <= v < 64
    ensures v < 0 <==> !(('A' <= c <= 'Z') || ('a' <= c <= 'z') || ('0' <= c <= '9') || c == '+' || c == '/')
  {
    if 'A' <= c <= 'Z' then c as int - 'A' as int
    else if 'a' <= c <= 'z' then c as int - 'a' as int + 26
    else if '0' <= c <= '9' then c as int - '0' as int + 52
    else if c == '+' then 62
    else if c == '/' then 63
    else -1
  }

  predicate IsAlphabet(c: char) {
    ValueOf(c) >= 0
  }

  /** `CharOf` and `ValueOf` are inverse on the alphabet. */
  lemma CharOfValueOf(c: char)
    requires IsAlphabet(c)
    ensures CharOf(ValueOf(c)) == c
  {
  }

  /** Three bytes become four characters, six bits each, most significant first. */
  function EncodeGroup(a: byte, b: byte, c: byte): string {
    [CharOf(a / 4), CharOf((a % 4) * 16 + b / 16), CharOf((b % 16) * 4 + c / 64), CharOf(c % 64)]
  }

  /** `general_purpose::STANDARD.encode`: total, padded to a multiple of four. */
  function Encode(s: seq<byte>): (r: string)
    ensures |r| == 4 * ((|s| + 2) / 3)
    ensures forall i :: 0 <= i < |r| ==> IsAlphabet(r[i]) || r[i] == PAD
    ensures forall i :: 0 <= i < |r| && r[i] == PAD ==> |r| - 2 <= i
    decreases |s|
  {
    if |s| == 0 then []
    else if |s| == 1 then [CharOf(s[0] / 4), CharOf((s[0] % 4) * 16), PAD, PAD]
    else if |s| == 2 then [CharOf(s[0] / 4), CharOf((s[0] % 4) * 16 + s[1] / 16), CharOf((s[1] % 16) * 4), PAD]
    else EncodeGroup(s[0], s[1], s[2]) + Encode(s[3..])
  }

  /** Error kinds of the crate's `DecodeError`; offsets count from the start of the input. */
  datatype DecodeError =
    | InvalidByte(offset: nat, ch: char)
    | InvalidLength
    | InvalidLastSymbol(offset: nat, ch: char)
    | InvalidPadding

  /** `general_purpose::STANDARD.decode`. */
  function Decode(s: string): Result<seq<byte>, DecodeError> {
    DecodeFrom(s, 0)
  }

  /** Decodes `s`, which starts `offset` characters into the whole input. */
  function DecodeFrom(s: string, offset: nat): Result<seq<byte>, DecodeError>
    decreases |s|
  {
    if |s| == 0 then Success([])
    else if |s| < 4 then Failure(InvalidLength)
    else
      var head :- DecodeQuad(s[..4], offset, |s| == 4);
      var tail :- DecodeFrom(s[4..], offset + 4);
      Success(head + tail)
  }

  /** One group of four characters; padding is accepted only in the final group. */
  function DecodeQuad(q: string, offset: nat, last: bool): Result<seq<byte>, DecodeError>
    requires |q| == 4
  {
    var v0, v1, v2, v3 := ValueOf(q[0]), ValueOf(q[1]), ValueOf(q[2]), ValueOf(q[3]);
    if v0 < 0 then Failure(InvalidByte(offset, q[0]))
    else if v1 < 0 then Failure(InvalidByte(offset + 1, q[1]))
    else if q[2] == PAD then
      if q[3] != PAD then Failure(InvalidPadding)
      else if !last then Failure(InvalidByte(offset + 2, PAD))
      else if v1 % 16 != 0 then Failure(InvalidLastSymbol(offset + 1, q[1]))
      else Success([v0 * 4 + v1 / 16])
    else if v2 < 0 then Failure(InvalidByte(offset + 2, q[2]))
    else if q[3] == PAD then
      if !last then Failure(InvalidByte(offset + 3, PAD))
      else if v2 % 4 != 0 then Failure(InvalidLastSymbol(offset + 2, q[2]))
      else Success([v0 * 4 + v1 / 16, (v1 % 16) * 16 + v2 / 4])
    else if v3 < 0 then Failure(InvalidByte(offset + 3, q[3]))
    else Success([v0 * 4 + v1 / 16, (v1 % 16) * 16 + v2 / 4, (v2 % 4) * 64 + v3])
  }

  lemma Split4(k: int, r: int)
    requires 0 <= r < 4
    ensures (k * 4 + r) / 4 == k && (k * 4 + r) % 4 == r
  {
  }

  lemma Split16(k: int, r: int)
    requires 0 <= r < 16
    ensures (k * 16 + r) / 16 == k && (k * 16 + r) % 16 == r
  {
  }

  lemma Split64(k: int, r: int)
    requires 0 <= r < 64
    ensures (k * 64 + r) / 64 == k && (k * 64 + r) % 64 == r
  {
  }

  /** Regrouping three bytes into sextets and back is the identity. */
  lemma BytesToSextets(a: byte, b: byte, c: byte)
    ensures (a / 4) * 4 + ((a % 4) * 16 + b / 16) / 16 == a
    ensures (((a % 4) * 16 + b / 16) % 16) * 16 + ((b % 16) * 4 + c / 64) / 4 == b
    ensures (((b % 16) * 4 + c / 64) % 4) * 64 + c % 64 == c
  {
    Split16(a % 4, b / 16);
    Split4(b % 16, c / 64);
  }

  /** Regrouping four sextets into bytes and back is the identity. */
  lemma SextetsToBytes(v0: sextet, v1: sextet, v2: sextet, v3: sextet)
    ensures (v0 * 4 + v1 / 16) / 4 == v0
    ensures ((v0 * 4 + v1 / 16) % 4) * 16 + ((v1 % 16) * 16 + v2 / 4) / 16 == v1
    ensures (((v1 % 16) * 16 + v2 / 4) % 16) * 4 + ((v2 % 4) * 64 + v3) / 64 == v2
    ensures ((v2 % 4) * 64 + v3) % 64 == v3
  {
    Split4(v0, v1 / 16);
    Split16(v1 % 16, v2 / 4);
    Split64(v2 % 4, v3);
  }

  lemma DecodeGroup(a: byte, b: byte, c: byte, offset: nat, last: bool)
    ensures DecodeQuad(EncodeGroup(a, b, c), offset, last) == Success([a, b, c])
  {
    BytesToSextets(a, b, c);
  }

  lemma DecodeTail1(a: byte, offset: nat)
    ensures DecodeFrom(Encode([a]), offset) == Success([a])
  {
    var e := Encode([a]);
    Split16(a % 4, 0);
    assert ValueOf(e[0]) == a / 4 && ValueOf(e[1]) == (a % 4) * 16;
    assert DecodeQuad(e, offset, true) == Success([a]);
    assert e[..4] == e && e[4..] == [];
    assert [a] + [] == [a];
  }

  lemma DecodeTail2(a: byte, b: byte, offset: nat)
    ensures DecodeFrom(Encode([a, b]), offset) == Success([a, b])
  {
    var e := Encode([a, b]);
    BytesToSextets(a, b, 0);
    Split4(b % 16, 0);
    assert ValueOf(e[0]) == a / 4 && ValueOf(e[1]) == (a % 4) * 16 + b / 16 && ValueOf(e[2]) == (b % 16) * 4;
    assert DecodeQuad(e, offset, true) == Success([a, b]);
    assert e[..4] == e && e[4..] == [];
    assert [a, b] + [] == [a, b];
  }

  lemma {:induction false} DecodeFromEncode(s: seq<byte>, offset: nat)
    ensures DecodeFrom(Encode(s), offset) == Success(s)
    decreases |s|
  {
    if |s| == 0 {
    } else if |s| == 1 {
      assert s == [s[0]];
      DecodeTail1(s[0], offset);
    } else if |s| == 2 {
      assert s == [s[0], s[1]];
      DecodeTail2(s[0], s[1], offset);
    } else {
      var e := Encode(s);
      var g := EncodeGroup(s[0], s[1], s[2]);
      var rest := Encode(s[3..]);
      assert e[..4] == g && e[4..] == rest;
      DecodeGroup(s[0], s[1], s[2], offset, |e| == 4);
      DecodeFromEncode(s[3..], offset + 4);
      Regroup(s);
    }
  }

  lemma Regroup<T>(s: seq<T>)
    requires |s| >= 3
    ensures [s[0], s[1], s[2]] + s[3..] == s
  {
  }

  /** Round trip: decoding what was encoded gives the bytes back. */
  lemma DecodeEncode(s: seq<byte>)
    ensures Decode(Encode(s)) == Success(s)
  {
    DecodeFromEncode(s, 0);
  }

  lemma EncodeQuadOne(q: string, offset: nat, last: bool)
    requires |q| == 4 && DecodeQuad(q, offset, last).Success? && q[2] == PAD
    ensures var h := DecodeQuad(q, offset, last).value;
      |h| == 1 && last && Encode(h) == q
  {
    var v0, v1 := ValueOf(q[0]), ValueOf(q[1]);
    var x: byte := v0 * 4 + v1 / 16;
    assert DecodeQuad(q, offset, last).value == [x];
    Split4(v0, v1 / 16);
    assert v1 == (v1 / 16) * 16;
    CharOfValueOf(q[0]);
    CharOfValueOf(q[1]);
    assert Encode([x]) == [CharOf(v0), CharOf(v1), PAD, PAD];
  }

  lemma EncodeQuadTwo(q: string, offset: nat, last: bool)
    requires |q| == 4 && DecodeQuad(q, offset, last).Success? && q[2] != PAD && q[3] == PAD
    ensures var h := DecodeQuad(q, offset, last).value;
      |h| == 2 && last && Encode(h) == q
  {
    var v0, v1, v2 := ValueOf(q[0]), ValueOf(q[1]), ValueOf(q[2]);
    var x: byte := v0 * 4 + v1 / 16;
    var y: byte := (v1 % 16) * 16 + v2 / 4;
    assert DecodeQuad(q, offset, last).value == [x, y];
    Split4(v0, v1 / 16);
    Split16(v1 % 16, v2 / 4);
    assert v2 == (v2 / 4) * 4;
    CharOfValueOf(q[0]);
    CharOfValueOf(q[1]);
    CharOfValueOf(q[2]);
    assert Encode([x, y]) == [CharOf(v0), CharOf(v1), CharOf(v2), PAD];
  }

  lemma EncodeQuadThree(q: string, offset: nat, last: bool)
    requires |q| == 4 && DecodeQuad(q, offset, last).Success? && q[2] != PAD && q[3] != PAD
    ensures var h := DecodeQuad(q, offset, last).value;
      |h| == 3 && EncodeGroup(h[0], h[1], h[2]) == q
  {
    var v0, v1, v2, v3 := ValueOf(q[0]), ValueOf(q[1]), ValueOf(q[2]), ValueOf(q[3]);
    var x: byte := v0 * 4 + v1 / 16;
    var y: byte := (v1 % 16) * 16 + v2 / 4;
    var z: byte := (v2 % 4) * 64 + v3;
    assert DecodeQuad(q, offset, last).value == [x, y, z];
    SextetsToBytes(v0, v1, v2, v3);
    assert x / 4 == v0 && (x % 4) * 16 + y / 16 == v1 && (y % 16) * 4 + z / 64 == v2 && z % 64 == v3;
    CharOfValueOf(q[0]);
    CharOfValueOf(q[1]);
    CharOfValueOf(q[2]);
    CharOfValueOf(q[3]);
  }

  /** Re-encoding one decoded group gives the group back. */
  lemma EncodeQuad(q: string, offset: nat, last: bool)
    requires |q| == 4 && DecodeQuad(q, offset, last).Success?
    ensures var h := DecodeQuad(q, offset, last).value;
      && 1 <= |h| <= 3
      && (|h| < 3 ==> last && Encode(h) == q)
      && (|h| == 3 ==> EncodeGroup(h[0], h[1], h[2]) == q)
  {
    if q[2] == PAD {
      EncodeQuadOne(q, offset, last);
    } else if q[3] == PAD {
      EncodeQuadTwo(q, offset, last);
    } else {
      EncodeQuadThree(q, offset, last);
    }
  }

  lemma {:induction false} EncodeDecodeFrom(s: string, offset: nat)
    requires DecodeFrom(s, offset).Success?
    ensures Encode(DecodeFrom(s, offset).value) == s
    decreases |s|
  {
    if |s| != 0 {
      var q := s[..4];
      var head := DecodeQuad(q, offset, |s| == 4).value;
      EncodeQuad(q, offset, |s| == 4);
      var tail := DecodeFrom(s[4..], offset + 4).value;
      var all := head + tail;
      assert DecodeFrom(s, offset).value == all;
      if |head| < 3 {
        assert s[4..] == [] && tail == [] && all == head;
      } else {
        EncodeDecodeFrom(s[4..], offset + 4);
        assert all[..3] == head && all[3..] == tail;
        assert Encode(all) == q + Encode(tail);
        assert q + s[4..] == s;
      }
    }
  }

  /** Decoding accepts only canonical encodings: whatever it returns re-encodes to the input. */
  lemma EncodeDecode(s: string)
    requires Decode(s).Success?
    ensures Encode(Decode(s).value) == s
  {
    EncodeDecodeFrom(s, 0);
  }

  /** Decoding succeeds exactly on the strings that `Encode` produces. */
  lemma DecodeSucceedsIff(s: string)
    ensures Decode(s).Success? <==> exists b :: Encode(b) == s
  {
    if Decode(s).Success? {
      EncodeDecode(s);
    }
    if exists b :: Encode(b) == s {
      var b :| Encode(b) == s;
      DecodeEncode(b);
    }
  }

  /** A character outside the alphabet and the padding makes decoding fail. */
  lemma RejectsForeignChar(s: string, i: nat)
    requires i < |s| && !IsAlphabet(s[i]) && s[i] != PAD
    ensures Decode(s).Failure?
  {
    if Decode(s).Success? {
      EncodeDecode(s);
      assert false;
    }
  }

  /** Decoded output is three bytes per four characters, less the padding. */
  lemma DecodedLength(s: string)
    requires Decode(s).Success?
    ensures |s| == 4 * ((|Decode(s).value| + 2) / 3)
  {
    EncodeDecode(s);
  }
}
