/**
 * `urllib.parse.unquote_plus`, which api/slack/events.py applies to the
 * whole request body: every '+' becomes a space, then every `%XX` (two
 * hex digits, either case) becomes the byte 0xXX, and the bytes are read
 * as UTF-8 with errors='replace'. A '%' not followed by two hex digits
 * stays as it is.
 *
 * Python decodes each maximal run of ASCII characters as one byte string.
 * Here the scan hands the decoder each maximal run of escaped bytes
 * 0x80..0xFF instead; the two agree because an ASCII byte is never part of
 * a multi-byte UTF-8 sequence and ends any incomplete one.
 *
 * `QuotePlus` is the inverse direction, the form encoding a client (Slack
 * among them) applies to a field value; `UnquotePlusOfQuotePlus` proves
 * that decoding undoes it on every string.
 */
module UrlDecode {
  import opened Utf8

  predicate IsHexDigit(c: char) {
    ('0' <= c <= '9') || ('a' <= c <= 'f') || ('A' <= c <= 'F')
  }

  function HexValue(c: char): (v: nat)
    requires IsHexDigit(c)
    ensures v < 16
  {
    if '0' <= c <= '9' then c as int - '0' as int
    else if 'a' <= c <= 'f' then c as int - 'a' as int + 10
    else c as int - 'A' as int + 10
  }

  function HexUpper(d: nat): (c: char)
    requires d < 16
    ensures IsHexDigit(c) && HexValue(c) == d
  {
    if d < 10 then ('0' as int + d) as char else ('A' as int + d - 10) as char
  }

  /** `s.replace('+', ' ')`. */
  function PlusToSpace(s: string): (r: string)
    ensures |r| == |s|
    ensures forall i :: 0 <= i < |s| ==> r[i] == (if s[i] == '+' then ' ' else s[i])
  {
    if s == [] then [] else [if s[0] == '+' then ' ' else s[0]] + PlusToSpace(s[1..])
  }

  /** s begins with a %XX escape. */
  predicate StartsWithEscape(s: string) {
    |s| >= 3 && s[0] == '%' && IsHexDigit(s[1]) && IsHexDigit(s[2])
  }

  function EscapedByte(s: string): byte
    requires StartsWithEscape(s)
  {
    HexValue(s[1]) * 16 + HexValue(s[2])
  }

  /**
   * The unquote scan of s, where `pending` holds the escaped non-ASCII
   * bytes met since the last character that was not such an escape.
   */
  function UnquoteFrom(s: string, pending: seq<byte>): (r: string)
    ensures |r| <= |pending| + |s|
    decreases |s|
  {
    if s == [] then DecodeReplace(pending)
    else if StartsWithEscape(s) then
      var b := EscapedByte(s);
      if b < 0x80 then DecodeReplace(pending) + [b as char] + UnquoteFrom(s[3..], [])
      else UnquoteFrom(s[3..], pending + [b])
    else DecodeReplace(pending) + [s[0]] + UnquoteFrom(s[1..], [])
  }

  /** `urllib.parse.unquote(s)`. */
  function Unquote(s: string): (r: string)
    ensures |r| <= |s|
  {
    UnquoteFrom(s, [])
  }

  /** `urllib.parse.unquote_plus(s)`. */
  function UnquotePlus(s: string): (r: string)
    ensures |r| <= |s|
  {
    Unquote(PlusToSpace(s))
  }

  /** A prefix with no '%' in it comes through unquote unchanged. */
  lemma {:induction false} UnquoteLiteralPrefix(lit: string, t: string)
    requires '%' !in lit
    ensures Unquote(lit + t) == lit + Unquote(t)
  {
    if lit != [] {
      assert (lit + t)[1..] == lit[1..] + t;
      assert !StartsWithEscape(lit + t);
      UnquoteLiteralPrefix(lit[1..], t);
      assert [lit[0]] + lit[1..] == lit;
    } else {
      assert lit + t == t;
    }
  }

  /** unquote's fast path: a string without '%' is returned as it is. */
  lemma UnquoteWithoutPercent(s: string)
    requires '%' !in s
    ensures Unquote(s) == s
  {
    UnquoteLiteralPrefix(s, []);
    assert s + [] == s;
  }

  /** An escape of an ASCII byte decodes to that character on its own. */
  lemma UnquoteAsciiEscape(h1: char, h2: char, t: string)
    requires IsHexDigit(h1) && IsHexDigit(h2) && HexValue(h1) < 8
    ensures Unquote(['%', h1, h2] + t) == [(HexValue(h1) * 16 + HexValue(h2)) as char] + Unquote(t)
  {
    var s := ['%', h1, h2] + t;
    assert StartsWithEscape(s) && s[3..] == t;
  }

  /** A prefix with neither '%' nor '+' comes through unquote_plus unchanged. */
  lemma UnquotePlusLiteralPrefix(lit: string, t: string)
    requires '%' !in lit && '+' !in lit
    ensures UnquotePlus(lit + t) == lit + UnquotePlus(t)
  {
    PlusToSpaceAppend(lit, t);
    PlusFree(lit);
    UnquoteLiteralPrefix(lit, PlusToSpace(t));
  }

  /** unquote_plus of a leading escape of an ASCII byte. */
  lemma UnquotePlusAsciiEscape(h1: char, h2: char, t: string)
    requires IsHexDigit(h1) && IsHexDigit(h2) && HexValue(h1) < 8
    ensures UnquotePlus(['%', h1, h2] + t) == [(HexValue(h1) * 16 + HexValue(h2)) as char] + UnquotePlus(t)
  {
    PlusToSpaceAppend(['%', h1, h2], t);
    assert PlusToSpace(['%', h1, h2]) == ['%', h1, h2];
    UnquoteAsciiEscape(h1, h2, PlusToSpace(t));
  }

  /** `+` and `%2B`: the first is a space after decoding, the second a plus sign. */
  lemma PlusVersusEncodedPlus(t: string)
    requires '%' !in t && '+' !in t
    ensures UnquotePlus("+" + t) == " " + t
    ensures UnquotePlus("%2B" + t) == "+" + t
  {
    PlusFree("%2B" + t);
    assert PlusToSpace("+" + t) == " " + t;
    UnquoteLiteralPrefix(" ", t);
    UnquoteWithoutPercent(t);
    UnquoteAsciiEscape('2', 'B', t);
  }

  lemma PlusFree(s: string)
    requires '+' !in s
    ensures PlusToSpace(s) == s
  {
  }

  lemma PlusToSpaceAppend(a: string, b: string)
    ensures PlusToSpace(a + b) == PlusToSpace(a) + PlusToSpace(b)
  {
  }

  // ---- the inverse: form encoding ----

  /** The characters quote_plus leaves alone: ASCII letters, digits and `_.-~`. */
  predicate IsUnreserved(c: char) {
    ('a' <= c <= 'z') || ('A' <= c <= 'Z') || ('0' <= c <= '9') || c == '_' || c == '.' || c == '-' || c == '~'
  }

  /** `%XX` for every byte, upper-case hex. */
  function PercentEscapes(bs: seq<byte>): (s: string)
    ensures |s| == 3 * |bs|
    ensures '+' !in s
  {
    if bs == [] then [] else ['%', HexUpper(bs[0] / 16), HexUpper(bs[0] % 16)] + PercentEscapes(bs[1..])
  }

  function QuoteChar(c: char): string {
    if c == ' ' then "+"
    else if IsUnreserved(c) then [c]
    else PercentEscapes(EncodeChar(c))
  }

  /** `urllib.parse.quote_plus(s)`. */
  function QuotePlus(s: string): string {
    if s == [] then [] else QuoteChar(s[0]) + QuotePlus(s[1..])
  }

  /** A run of escapes of non-ASCII bytes only adds to the pending bytes. */
  lemma {:induction false} EscapesAccumulate(bs: seq<byte>, rest: string, pending: seq<byte>)
    requires forall i :: 0 <= i < |bs| ==> bs[i] >= 0x80
    ensures UnquoteFrom(PercentEscapes(bs) + rest, pending) == UnquoteFrom(rest, pending + bs)
  {
    if bs == [] {
      assert PercentEscapes(bs) + rest == rest;
      assert pending + bs == pending;
    } else {
      var s := PercentEscapes(bs) + rest;
      var tail := PercentEscapes(bs[1..]) + rest;
      assert s == ['%', HexUpper(bs[0] / 16), HexUpper(bs[0] % 16)] + tail;
      assert StartsWithEscape(s) && s[3..] == tail;
      assert EscapedByte(s) == bs[0];
      EscapesAccumulate(bs[1..], rest, pending + [bs[0]]);
      assert pending + [bs[0]] + bs[1..] == pending + bs;
    }
  }

  /** A character that does not start an escape is passed through, after the pending bytes. */
  lemma LiteralStep(c: char, t: string, pending: seq<byte>)
    requires c != '%'
    ensures UnquoteFrom([c] + t, pending) == DecodeReplace(pending) + [c] + UnquoteFrom(t, [])
  {
    assert ([c] + t)[1..] == t;
  }

  /** An escape of an ASCII byte is that character, after the pending bytes. */
  lemma AsciiEscapeStep(b: byte, t: string, pending: seq<byte>)
    requires b < 0x80
    ensures UnquoteFrom(PercentEscapes([b]) + t, pending) == DecodeReplace(pending) + [b as char] + UnquoteFrom(t, [])
  {
    var u := PercentEscapes([b]) + t;
    assert u == ['%', HexUpper(b / 16), HexUpper(b % 16)] + t;
    assert StartsWithEscape(u) && u[3..] == t;
    assert EscapedByte(u) == b;
  }

  /** The form encoding of a non-empty string is the piece for its first character, then the rest. */
  lemma QuotePlusSplit(s: string)
    requires s != []
    ensures PlusToSpace(QuotePlus(s)) == PlusToSpace(QuoteChar(s[0])) + PlusToSpace(QuotePlus(s[1..]))
  {
    PlusToSpaceAppend(QuoteChar(s[0]), QuotePlus(s[1..]));
  }

  /** What one character's piece leaves for the rest of the scan. */
  lemma PieceStep(c: char, t: string, p: string)
    ensures c == ' ' || IsUnreserved(c) || c as int < 0x80 ==>
              UnquoteFrom(PlusToSpace(QuoteChar(c)) + t, Encode(p)) == p + [c] + UnquoteFrom(t, [])
    ensures !(c == ' ' || IsUnreserved(c) || c as int < 0x80) ==>
              UnquoteFrom(PlusToSpace(QuoteChar(c)) + t, Encode(p)) == UnquoteFrom(t, Encode(p + [c]))
  {
    DecodeEncode(p);
    var piece := PlusToSpace(QuoteChar(c));
    if c == ' ' || IsUnreserved(c) {
      assert piece == [c];
      LiteralStep(c, t, Encode(p));
    } else if c as int < 0x80 {
      var b: byte := c as int;
      assert EncodeChar(c) == [b];
      PlusFree(PercentEscapes([b]));
      assert piece == PercentEscapes([b]);
      AsciiEscapeStep(b, t, Encode(p));
    } else {
      var e := EncodeChar(c);
      PlusFree(PercentEscapes(e));
      assert piece == PercentEscapes(e);
      EscapesAccumulate(e, t, Encode(p));
      EncodeAppend(p, [c]);
      assert Encode([c]) == e;
    }
  }

  /** The round trip, with the characters whose bytes are still pending accounted for. */
  lemma {:induction false} RoundTripFrom(s: string, p: string)
    ensures UnquoteFrom(PlusToSpace(QuotePlus(s)), Encode(p)) == p + s
    decreases |s|
  {
    if s == [] {
      DecodeEncode(p);
      assert PlusToSpace(QuotePlus(s)) == [];
    } else {
      var c := s[0];
      var t := PlusToSpace(QuotePlus(s[1..]));
      var whole := PlusToSpace(QuotePlus(s));
      QuotePlusSplit(s);
      assert whole == PlusToSpace(QuoteChar(c)) + t;
      PieceStep(c, t, p);
      if c == ' ' || IsUnreserved(c) || c as int < 0x80 {
        RoundTripFrom(s[1..], []);
        assert Encode([]) == [];
        assert UnquoteFrom(t, []) == s[1..];
        assert UnquoteFrom(whole, Encode(p)) == p + [c] + s[1..];
      } else {
        RoundTripFrom(s[1..], p + [c]);
        assert UnquoteFrom(whole, Encode(p)) == p + [c] + s[1..];
      }
      ConsAppend(p, s);
    }
  }

  lemma ConsAppend(p: string, s: string)
    requires s != []
    ensures p + [s[0]] + s[1..] == p + s
  {
    assert s == [s[0]] + s[1..];
  }

  /** unquote_plus undoes quote_plus on every string. */
  lemma UnquotePlusOfQuotePlus(s: string)
    ensures UnquotePlus(QuotePlus(s)) == s
  {
    RoundTripFrom(s, []);
  }
}
