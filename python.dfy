/**
 * The few pieces of the Python runtime the two handlers lean on: the
 * exceptions they can raise, `str()` and `int()` on integers, substring
 * search, and ASCII case folding of header names.
 */
module Python {
  import opened Wrappers

  /** The exceptions that can escape a handler. */
  datatype PyError =
    | KeyError            // dict subscript with a missing key
    | TypeError           // subscript or `in` on a value that does not support it, int(None)
    | AttributeError      // `.get`/`.encode` on a value that has no such method
    | ValueError          // int() of a malformed string, read() with a length below -1
    | UnicodeDecodeError  // bytes.decode('utf-8') on bytes that are not UTF-8
    | JSONDecodeError     // json.loads on a text that is not JSON
    | SlackApiError(message: string)  // the Slack API answered with ok=false; message is str(e)
    | URLError            // urllib.error.URLError: the Web API could not be reached
    | VerifierError       // SignatureVerifier.is_valid_request raised instead of answering

  predicate IsDigit(c: char) { '0' <= c <= '9' }

  function DigitChar(d: nat): (c: char)
    requires d < 10
    ensures IsDigit(c) && c as int - '0' as int == d
  {
    ('0' as int + d) as char
  }

  /** `str(n)` for a non-negative integer: decimal digits, most significant first. */
  function NatToDecimal(n: nat): (s: string)
    ensures |s| >= 1 && IsDigit(s[0])
    ensures forall i :: 0 <= i < |s| ==> IsDigit(s[i])
    ensures s[0] == '0' ==> n == 0
  {
    if n < 10 then [DigitChar(n)] else NatToDecimal(n / 10) + [DigitChar(n % 10)]
  }

  /** `str(n)`: a leading '-' for negative numbers. */
  function ToDecimal(n: int): (s: string)
    ensures |s| >= 1
    ensures (s[0] == '-') <==> n < 0
  {
    if n < 0 then "-" + NatToDecimal(-n) else NatToDecimal(n)
  }

  function DigitValue(c: char): (d: nat)
    requires IsDigit(c)
    ensures d < 10
  {
    c as int - '0' as int
  }

  /** Value of a non-empty string of decimal digits. */
  function DigitsValue(s: string): (v: nat)
    requires |s| >= 1 && forall i :: 0 <= i < |s| ==> IsDigit(s[i])
  {
    var last := DigitValue(s[|s| - 1]);
    if |s| == 1 then last else DigitsValue(s[..|s| - 1]) * 10 + last
  }

  /**
   * The digit part of a Python integer literal as int() accepts it:
   * digits, with single underscores allowed between two digits.
   */
  predicate WellFormedDigits(s: string) {
    && |s| >= 1
    && IsDigit(s[0]) && IsDigit(s[|s| - 1])
    && (forall i :: 0 <= i < |s| ==> IsDigit(s[i]) || s[i] == '_')
    && (forall i :: 0 <= i < |s| - 1 ==> s[i] == '_' ==> s[i + 1] != '_')
  }

  function RemoveUnderscores(s: string): (r: string)
    ensures forall i :: 0 <= i < |r| ==> r[i] != '_'
    ensures (forall i :: 0 <= i < |s| ==> IsDigit(s[i]) || s[i] == '_') ==>
              forall i :: 0 <= i < |r| ==> IsDigit(r[i])
    ensures |s| >= 1 && IsDigit(s[0]) ==> |r| >= 1 && r[0] == s[0]
    ensures (forall i :: 0 <= i < |s| ==> s[i] != '_') ==> r == s
  {
    if s == [] then []
    else if s[0] == '_' then RemoveUnderscores(s[1..])
    else [s[0]] + RemoveUnderscores(s[1..])
  }

  /** The whitespace that int() strips from both ends (ASCII only). */
  predicate IsSpace(c: char) {
    c == ' ' || c == '\t' || c == '\n' || c == '\r' || c as int == 0x0B || c as int == 0x0C
  }

  function StripSpace(s: string): (r: string)
    ensures |r| <= |s|
    ensures r != [] ==> !IsSpace(r[0]) && !IsSpace(r[|r| - 1])
    ensures (s == [] || (!IsSpace(s[0]) && !IsSpace(s[|s| - 1]))) ==> r == s
  {
    if s == [] then []
    else if IsSpace(s[0]) then StripSpace(s[1..])
    else if IsSpace(s[|s| - 1]) then StripSpace(s[..|s| - 1])
    else s
  }

  /**
   * `int(s)` for a string: optional surrounding whitespace, an optional
   * sign, then decimal digits (underscores between digits allowed).
   * None stands for the ValueError int() raises on anything else.
   */
  function ParseInt(s: string): (r: Option<int>)
    // empty or all-whitespace text is rejected
    ensures StripSpace(s) == [] ==> r.None?
    // what is accepted is, inside the whitespace, a sign in front and otherwise digits and underscores
    ensures r.Some? ==> var t := StripSpace(s);
              forall i :: 0 <= i < |t| ==> IsDigit(t[i]) || (0 < i < |t| - 1 && t[i] == '_') || (i == 0 && (t[i] == '-' || t[i] == '+'))
    ensures r.Some? && r.value < 0 ==> StripSpace(s)[0] == '-'
    // exactly text whose part after one optional sign is well-formed digits is accepted
    ensures r.Some? <==> StripSpace(s) != [] && WellFormedDigits(Unsigned(StripSpace(s)))
  {
    ParseSigned(StripSpace(s))
  }

  /** An optional sign, then the digits. */
  function ParseSigned(t: string): (r: Option<int>)
    ensures t == [] ==> r.None?
    ensures r.Some? ==>
              forall i :: 0 <= i < |t| ==> IsDigit(t[i]) || (0 < i < |t| - 1 && t[i] == '_') || (i == 0 && (t[i] == '-' || t[i] == '+'))
    ensures r.Some? && r.value < 0 ==> t[0] == '-'
    ensures r.Some? <==> t != [] && WellFormedDigits(Unsigned(t))
  {
    if t == [] then None
    else if t[0] == '-' then
      match ParseDigits(t[1..]) case Some(v) => Some(-v) case None => None
    else if t[0] == '+' then ParseDigits(t[1..])
    else ParseDigits(t)
  }

  /** The text after one leading sign, if there is one. */
  function Unsigned(t: string): (u: string)
    requires t != []
    ensures (t[0] == '-' || t[0] == '+') ==> [t[0]] + u == t
    ensures t[0] != '-' && t[0] != '+' ==> u == t
  {
    if t[0] == '-' || t[0] == '+' then t[1..] else t
  }

  /** Decimal digits with single underscores between them, and their value. */
  function ParseDigits(d: string): (r: Option<int>)
    ensures r.Some? <==> WellFormedDigits(d)
    ensures r.Some? ==> r.value >= 0 && |d| >= 1 && IsDigit(d[0]) && IsDigit(d[|d| - 1])
    ensures r.Some? ==> forall i :: 0 <= i < |d| ==> IsDigit(d[i]) || (0 < i < |d| - 1 && d[i] == '_')
  {
    if WellFormedDigits(d) then Some(DigitsValue(RemoveUnderscores(d)) as int) else None
  }

  /** int(str(n)) == n: the two conversions are inverse on every integer. */
  lemma ParseIntOfToDecimal(n: int)
    ensures ParseInt(ToDecimal(n)) == Some(n)
  {
    var m := if n < 0 then -n else n;
    var d := NatToDecimal(m);
    DigitsValueOfNatToDecimal(m);
    DigitsParse(d);
    if n < 0 {
      var s := "-" + d;
      assert s[|s| - 1] == d[|d| - 1];
      assert StripSpace(s) == s;
      assert s[1..] == d;
    } else {
      assert StripSpace(d) == d;
    }
  }

  /** Plain decimal digits parse to their value. */
  lemma DigitsParse(d: string)
    requires |d| >= 1 && forall i :: 0 <= i < |d| ==> IsDigit(d[i])
    ensures !IsSpace(d[0]) && !IsSpace(d[|d| - 1]) && d[0] != '-' && d[0] != '+'
    ensures ParseDigits(d) == Some(DigitsValue(d) as int)
  {
    assert forall i :: 0 <= i < |d| ==> d[i] != '_';
    assert RemoveUnderscores(d) == d;
  }

  lemma {:induction false} DigitsValueOfNatToDecimal(n: nat)
    ensures DigitsValue(NatToDecimal(n)) == n
  {
    var s := NatToDecimal(n);
    if n >= 10 {
      DigitsValueOfNatToDecimal(n / 10);
      assert s[..|s| - 1] == NatToDecimal(n / 10);
    }
  }

  /** `needle in hay` for two strings. */
  predicate IsSubstring(needle: string, hay: string) {
    exists i :: 0 <= i <= |hay| - |needle| && OccursAt(needle, hay, i)
  }

  predicate OccursAt(needle: string, hay: string, i: int)
    requires 0 <= i <= |hay| - |needle|
  {
    hay[i..i + |needle|] == needle
  }

  /** Lower-case ASCII letters; every other character is kept. */
  function AsciiLower(s: string): (r: string)
    ensures |r| == |s|
    ensures forall i :: 0 <= i < |s| ==> !('A' <= s[i] <= 'Z') ==> r[i] == s[i]
    ensures forall i :: 0 <= i < |s| ==> 'A' <= s[i] <= 'Z' ==> r[i] as int == s[i] as int + 32
  {
    if s == [] then []
    else
      var c := s[0];
      [if 'A' <= c <= 'Z' then (c as int + 32) as char else c] + AsciiLower(s[1..])
  }
}
