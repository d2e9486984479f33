/**
 * UTF-8 as Python's codec implements it: `str.encode()`,
 * `bytes.decode('utf-8')` (strict: malformed input raises) and
 * `bytes.decode('utf-8', 'replace')` (each maximal ill-formed subpart
 * becomes one U+FFFD), as `urllib.parse.unquote` uses it.
 */
module Utf8 {
  import opened Wrappers

  type byte = x: int | 0 <= x < 256

  const Replacement: char := '�'

  /** The decoder's reading of the bytes at the head of a non-empty sequence. */
  datatype Step = Scalar(c: char, width: nat) | IllFormed(width: nat)

  predicate IsContinuation(b: byte) { 0x80 <= b <= 0xBF }

  /** How many continuation bytes a lead byte asks for (lead bytes C2..F4 only). */
  function Needed(b0: byte): nat
    requires 0xC2 <= b0 <= 0xF4
  {
    if b0 < 0xE0 then 1 else if b0 < 0xF0 then 2 else 3
  }

  /** The range the FIRST continuation byte must lie in; it excludes overlongs, surrogates and values past U+10FFFF. */
  function SecondLow(b0: byte): byte requires 0xC2 <= b0 <= 0xF4 {
    if b0 == 0xE0 then 0xA0 else if b0 == 0xF0 then 0x90 else 0x80
  }

  function SecondHigh(b0: byte): byte requires 0xC2 <= b0 <= 0xF4 {
    if b0 == 0xED then 0x9F else if b0 == 0xF4 then 0x8F else 0xBF
  }

  /** The number of bytes after the lead that continue the sequence correctly, at most Needed(bs[0]). */
  function Matched(bs: seq<byte>): (k: nat)
    requires |bs| >= 1 && 0xC2 <= bs[0] <= 0xF4
    ensures k <= Needed(bs[0]) && 1 + k <= |bs|
  {
    var n := Needed(bs[0]);
    if |bs| < 2 || !(SecondLow(bs[0]) <= bs[1] <= SecondHigh(bs[0])) then 0
    else if n < 2 || |bs| < 3 || !IsContinuation(bs[2]) then 1
    else if n < 3 || |bs| < 4 || !IsContinuation(bs[3]) then 2
    else 3
  }

  predicate IsScalarValue(n: int) {
    (0 <= n < 0xD800) || (0xE000 <= n < 0x11_0000)
  }

  /** The scalar value encoded by a complete, well-formed multi-byte sequence. */
  function Combine(bs: seq<byte>): (n: int)
    requires |bs| >= 1 && 0xC2 <= bs[0] <= 0xF4 && Matched(bs) == Needed(bs[0])
    ensures IsScalarValue(n) && n >= 0x80
  {
    var b0: int := bs[0];
    var b1: int := bs[1];
    if b0 < 0xE0 then (b0 - 0xC0) * 64 + (b1 - 0x80)
    else
      var b2: int := bs[2];
      if b0 < 0xF0 then (b0 - 0xE0) * 4096 + (b1 - 0x80) * 64 + (b2 - 0x80)
      else
        var b3: int := bs[3];
        (b0 - 0xF0) * 262144 + (b1 - 0x80) * 4096 + (b2 - 0x80) * 64 + (b3 - 0x80)
  }

  function DecodeStep(bs: seq<byte>): (s: Step)
    requires |bs| >= 1
    ensures 1 <= s.width <= |bs| && s.width <= 4
    ensures bs[0] < 0x80 ==> s == Scalar(bs[0] as char, 1)
  {
    var b0 := bs[0];
    if b0 < 0x80 then Scalar(b0 as char, 1)
    else if b0 < 0xC2 || b0 > 0xF4 then IllFormed(1)
    else
      var k := Matched(bs);
      if k < Needed(b0) then IllFormed(1 + k)
      else Scalar(Combine(bs) as char, 1 + k)
  }

  /** `bs.decode('utf-8', 'replace')`. */
  function DecodeReplace(bs: seq<byte>): (s: string)
    ensures |s| <= |bs|
    decreases |bs|
  {
    if bs == [] then []
    else
      match DecodeStep(bs)
      case Scalar(c, w) => [c] + DecodeReplace(bs[w..])
      case IllFormed(w) => [Replacement] + DecodeReplace(bs[w..])
  }

  /** `bs.decode('utf-8')`; None stands for the UnicodeDecodeError it raises. */
  function DecodeStrict(bs: seq<byte>): (r: Option<string>)
    ensures r.Some? ==> |r.value| <= |bs|
    decreases |bs|
  {
    if bs == [] then Some([])
    else
      match DecodeStep(bs)
      case IllFormed(_) => None
      case Scalar(c, w) =>
        match DecodeStrict(bs[w..])
        case None => None
        case Some(t) => Some([c] + t)
  }

  /** The UTF-8 encoding of one character. */
  function EncodeChar(c: char): (bs: seq<byte>)
    ensures 1 <= |bs| <= 4
    ensures (c as int < 0x80) <==> |bs| == 1
    ensures |bs| == 1 ==> bs[0] == c as int
    ensures |bs| > 1 ==> forall i :: 0 <= i < |bs| ==> bs[i] >= 0x80
  {
    var n := c as int;
    if n < 0x80 then [n]
    else if n < 0x800 then [0xC0 + n / 64, 0x80 + n % 64]
    else if n < 0x1_0000 then [0xE0 + n / 4096, 0x80 + (n / 64) % 64, 0x80 + n % 64]
    else [0xF0 + n / 262144, 0x80 + (n / 4096) % 64, 0x80 + (n / 64) % 64, 0x80 + n % 64]
  }

  /** `s.encode()`. */
  function Encode(s: string): (bs: seq<byte>)
    ensures |s| <= |bs| <= 4 * |s|
  {
    if s == [] then [] else EncodeChar(s[0]) + Encode(s[1..])
  }

  lemma {:induction false} EncodeAppend(a: string, b: string)
    ensures Encode(a + b) == Encode(a) + Encode(b)
  {
    if a != [] {
      assert (a + b)[1..] == a[1..] + b;
      EncodeAppend(a[1..], b);
    } else {
      assert a + b == b;
    }
  }

  /** The decoder reads back exactly the character the encoder wrote, whatever follows. */
  lemma DecodeStepOfEncodeChar(c: char, rest: seq<byte>)
    ensures DecodeStep(EncodeChar(c) + rest) == Scalar(c, |EncodeChar(c)|)
  {
    var n := c as int;
    var bs := EncodeChar(c) + rest;
    if n < 0x80 {
    } else if n < 0x800 {
      var q, r := n / 64, n % 64;
      assert n == 64 * q + r;
      assert bs[0] == 0xC0 + q && bs[1] == 0x80 + r;
      assert Matched(bs) == 1;
      assert Combine(bs) == n;
    } else if n < 0x1_0000 {
      var q, r := n / 64, n % 64;
      var q2, r2 := q / 64, q % 64;
      assert n == 4096 * q2 + 64 * r2 + r;
      assert n / 4096 == q2;
      assert bs[0] == 0xE0 + q2 && bs[1] == 0x80 + r2 && bs[2] == 0x80 + r;
      assert q2 == 0 ==> r2 >= 32;
      assert q2 == 13 ==> r2 < 32;
      assert Matched(bs) == 2;
      assert Combine(bs) == n;
    } else {
      var q, r := n / 64, n % 64;
      var q2, r2 := q / 64, q % 64;
      var q3, r3 := q2 / 64, q2 % 64;
      assert n == 262144 * q3 + 4096 * r3 + 64 * r2 + r;
      assert n / 262144 == q3 && (n / 4096) % 64 == r3;
      assert bs[0] == 0xF0 + q3 && bs[1] == 0x80 + r3 && bs[2] == 0x80 + r2 && bs[3] == 0x80 + r;
      assert q3 == 0 ==> r3 >= 16;
      assert q3 == 4 ==> r3 < 16;
      assert Matched(bs) == 3;
      assert Combine(bs) == n;
    }
  }

  /** Decoding what the encoder produced gives the text back, under both error policies. */
  lemma {:induction false} DecodeEncode(s: string)
    ensures DecodeStrict(Encode(s)) == Some(s)
    ensures DecodeReplace(Encode(s)) == s
  {
    if s != [] {
      var head := EncodeChar(s[0]);
      var bs := Encode(s);
      DecodeStepOfEncodeChar(s[0], Encode(s[1..]));
      assert bs[|head|..] == Encode(s[1..]);
      DecodeEncode(s[1..]);
      assert [s[0]] + s[1..] == s;
    }
  }

  /** Quotient and remainder by the radixes of the encoding: 64, 64^2 and 64^3. */
  lemma DivModSplit(a: int, b: int, m: int)
    requires a >= 0 && (m == 64 || m == 4096 || m == 262144) && 0 <= b < m
    ensures (a * m + b) / m == a && (a * m + b) % m == b
  {
    if m == 64 {
      assert (a * 64 + b) / 64 == a;
    } else if m == 4096 {
      assert (a * 4096 + b) / 4096 == a;
    } else {
      assert (a * 262144 + b) / 262144 == a;
    }
  }

  lemma EncodeTwo(n: int, b0: byte, b1: byte)
    requires 0xC2 <= b0 <= 0xDF && IsContinuation(b1)
    requires n == (b0 - 0xC0) * 64 + (b1 - 0x80)
    ensures 0x80 <= n < 0x800 && EncodeChar(n as char) == [b0, b1]
  {
    DivModSplit(b0 - 0xC0, b1 - 0x80, 64);
  }

  lemma EncodeThree(n: int, b0: byte, b1: byte, b2: byte)
    requires 0xE0 <= b0 <= 0xEF && IsContinuation(b1) && IsContinuation(b2)
    requires IsScalarValue(n) && n >= 0x800
    requires n == (b0 - 0xE0) * 4096 + (b1 - 0x80) * 64 + (b2 - 0x80)
    ensures EncodeChar(n as char) == [b0, b1, b2]
  {
    DivModSplit(b0 - 0xE0, (b1 - 0x80) * 64 + (b2 - 0x80), 4096);
    var hi := (b0 - 0xE0) * 64 + (b1 - 0x80);
    assert n == hi * 64 + (b2 - 0x80);
    DivModSplit(hi, b2 - 0x80, 64);
    DivModSplit(b0 - 0xE0, b1 - 0x80, 64);
  }

  lemma EncodeFour(n: int, b0: byte, b1: byte, b2: byte, b3: byte)
    requires 0xF0 <= b0 <= 0xF4 && IsContinuation(b1) && IsContinuation(b2) && IsContinuation(b3)
    requires IsScalarValue(n) && n >= 0x1_0000
    requires n == (b0 - 0xF0) * 262144 + (b1 - 0x80) * 4096 + (b2 - 0x80) * 64 + (b3 - 0x80)
    ensures EncodeChar(n as char) == [b0, b1, b2, b3]
  {
    DivModSplit(b0 - 0xF0, (b1 - 0x80) * 4096 + (b2 - 0x80) * 64 + (b3 - 0x80), 262144);
    var hi := (b0 - 0xF0) * 64 + (b1 - 0x80);
    assert n == hi * 4096 + ((b2 - 0x80) * 64 + (b3 - 0x80));
    DivModSplit(hi, (b2 - 0x80) * 64 + (b3 - 0x80), 4096);
    DivModSplit(b0 - 0xF0, b1 - 0x80, 64);
    var mid := hi * 64 + (b2 - 0x80);
    assert n == mid * 64 + (b3 - 0x80);
    DivModSplit(mid, b3 - 0x80, 64);
    DivModSplit(hi, b2 - 0x80, 64);
  }

  /** A well-formed sequence the decoder reads as one character is exactly that character's encoding. */
  lemma EncodeCharOfDecodeStep(bs: seq<byte>)
    requires |bs| >= 1 && DecodeStep(bs).Scalar?
    ensures EncodeChar(DecodeStep(bs).c) == bs[..DecodeStep(bs).width]
  {
    var b0 := bs[0];
    if b0 >= 0x80 {
      var n := Combine(bs);
      assert DecodeStep(bs).c as int == n;
      if b0 < 0xE0 {
        EncodeTwo(n, b0, bs[1]);
        assert bs[..2] == [b0, bs[1]];
      } else if b0 < 0xF0 {
        assert n >= 0x800 by {
          assert b0 == 0xE0 ==> bs[1] >= 0xA0;
        }
        EncodeThree(n, b0, bs[1], bs[2]);
        assert bs[..3] == [b0, bs[1], bs[2]];
      } else {
        assert n >= 0x1_0000 by {
          assert b0 == 0xF0 ==> bs[1] >= 0x90;
        }
        EncodeFour(n, b0, bs[1], bs[2], bs[3]);
        assert bs[..4] == [b0, bs[1], bs[2], bs[3]];
      }
    }
  }

  /** Strict decoding succeeds only on what the encoder can produce: its result encodes back to the input. */
  lemma {:induction false} EncodeDecodeStrict(bs: seq<byte>)
    requires DecodeStrict(bs).Some?
    ensures Encode(DecodeStrict(bs).value) == bs
    decreases |bs|
  {
    if bs != [] {
      var c := DecodeStep(bs).c;
      var w := DecodeStep(bs).width;
      EncodeCharOfDecodeStep(bs);
      EncodeDecodeStrict(bs[w..]);
      var t := DecodeStrict(bs[w..]).value;
      assert DecodeStrict(bs).value == [c] + t;
      assert ([c] + t)[0] == c && ([c] + t)[1..] == t;
      assert bs[..w] + bs[w..] == bs;
    }
  }

  /** `bs.decode('utf-8')` returns s exactly when `s.encode()` is bs; on any other bytes it raises. */
  lemma DecodeStrictIsInverse(bs: seq<byte>, s: string)
    ensures DecodeStrict(bs) == Some(s) <==> Encode(s) == bs
  {
    DecodeEncode(s);
    if DecodeStrict(bs) == Some(s) {
      EncodeDecodeStrict(bs);
    }
  }

  /** Strict decoding, when it succeeds, agrees with replacing decoding. */
  lemma {:induction false} StrictAgreesWithReplace(bs: seq<byte>)
    requires DecodeStrict(bs).Some?
    ensures DecodeReplace(bs) == DecodeStrict(bs).value
    decreases |bs|
  {
    if bs != [] {
      var w := DecodeStep(bs).width;
      StrictAgreesWithReplace(bs[w..]);
    }
  }
}
