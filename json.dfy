/**
 * JSON values as `json.loads` hands them to the handlers, and the Python
 * operations the handlers apply to them: `in`, `[]`, `.get`, truthiness,
 * `==` against a string, and `str()` (used by f-strings).
 *
 * Python's None is JNull: `d.get(k)` on a missing key gives the same
 * value as a member whose value is `null`.
 */
module Json {
  import opened Wrappers
  import opened Python

  /**
   * A parsed document. An object keeps its members in document order,
   * repeated keys included; `json.loads` builds a dict from them in which
   * the LAST value of a repeated key wins.
   */
  datatype Json =
    | JNull
    | JBool(b: bool)
    | JNum(n: int)
    | JStr(s: string)
    | JArr(items: seq<Json>)
    | JObj(members: seq<(string, Json)>)

  predicate HasKey(ms: seq<(string, Json)>, k: string) {
    exists i :: 0 <= i < |ms| && ms[i].0 == k
  }

  /** The index of the member that supplies `d[k]`: the last one with key k. */
  function LastIndex(ms: seq<(string, Json)>, k: string): (i: nat)
    requires HasKey(ms, k)
    ensures i < |ms| && ms[i].0 == k
    ensures forall j :: i < j < |ms| ==> ms[j].0 != k
  {
    if ms[|ms| - 1].0 == k then |ms| - 1
    else
      assert HasKey(ms[..|ms| - 1], k) by {
        var j :| 0 <= j < |ms| && ms[j].0 == k;
        assert ms[..|ms| - 1][j].0 == k;
      }
      LastIndex(ms[..|ms| - 1], k)
  }

  /** The dict's value for k, None when k is not a key. */
  function Lookup(ms: seq<(string, Json)>, k: string): (r: Option<Json>)
    ensures r.Some? <==> HasKey(ms, k)
    ensures r.Some? ==> exists i :: 0 <= i < |ms| && ms[i] == (k, r.value)
  {
    if HasKey(ms, k) then Some(ms[LastIndex(ms, k)].1) else None
  }

  /** `v.get(k)`: None (JNull) for a missing key; only dicts have `.get`. */
  function Get(v: Json, k: string): (r: Result<Json, PyError>)
    ensures r.Success? <==> v.JObj?
    ensures v.JObj? && !HasKey(v.members, k) ==> r == Success(JNull)
    ensures v.JObj? && HasKey(v.members, k) ==> r == Success(Lookup(v.members, k).value)
  {
    match v
    case JObj(ms) => Success(match Lookup(ms, k) case Some(x) => x case None => JNull)
    case _ => Failure(AttributeError)
  }

  /** `v[k]` with a string key: KeyError for a missing key, TypeError on a non-dict. */
  function Subscript(v: Json, k: string): (r: Result<Json, PyError>)
    ensures r.Success? <==> v.JObj? && HasKey(v.members, k)
    ensures r.Success? ==> Some(r.value) == Lookup(v.members, k)
    ensures r.Failure? ==> r.error == (if v.JObj? then KeyError else TypeError)
  {
    match v
    case JObj(ms) => (match Lookup(ms, k) case Some(x) => Success(x) case None => Failure(KeyError))
    case _ => Failure(TypeError)
  }

  /**
   * `needle in v`: a key of a dict, an element of a list (only a string
   * equals a string), a substring of a string; numbers, booleans and None
   * are not containers.
   */
  function Contains(v: Json, needle: string): (r: Result<bool, PyError>)
    ensures r.Success? <==> (v.JObj? || v.JArr? || v.JStr?)
    ensures v.JObj? ==> r == Success(HasKey(v.members, needle))
    ensures v.JArr? ==> r == Success(JStr(needle) in v.items)
    ensures v.JStr? ==> r == Success(IsSubstring(needle, v.s))
    ensures r.Failure? ==> r.error == TypeError
  {
    match v
    case JObj(ms) => Success(HasKey(ms, needle))
    case JArr(items) => Success(JStr(needle) in items)
    case JStr(s) => Success(IsSubstring(needle, s))
    case _ => Failure(TypeError)
  }

  /** Python truthiness of a parsed value. */
  predicate Truthy(v: Json): (b: bool)
    ensures b ==> v != JNull
    // a dict is true exactly when it has some key
    ensures v.JObj? ==> (b <==> exists k :: HasKey(v.members, k))
    ensures v.JNum? ==> (b <==> v.n != 0)
  {
    assert v.JObj? && v.members != [] ==> HasKey(v.members, v.members[0].0);
    match v
    case JNull => false
    case JBool(b) => b
    case JNum(n) => n != 0
    case JStr(s) => s != []
    case JArr(items) => items != []
    case JObj(ms) => ms != []
  }

  /** `str(v)`, as an f-string renders a value: a string is itself, anything else its repr. */
  function PyStr(v: Json): (r: string)
    ensures v.JStr? ==> r == v.s
    ensures v.JNum? ==> ParseInt(r) == Some(v.n)
  {
    match v
    case JStr(s) => s
    case _ => PyRepr(v)
  }

  /** `repr(v)` of the Python value json.loads builds. */
  function PyRepr(v: Json): (r: string)
    ensures |r| >= 1
    // a string is shown quoted, a list bracketed, a dict braced
    ensures v.JStr? ==> |r| >= 2 && r[0] == r[|r| - 1] && (r[0] == '\'' || r[0] == '"')
    ensures v.JArr? ==> |r| >= 2 && r[0] == '[' && r[|r| - 1] == ']'
    ensures v.JObj? ==> |r| >= 2 && r[0] == '{' && r[|r| - 1] == '}'
    // a number is shown as the decimal int() reads back
    ensures v.JNum? ==> ParseInt(r) == Some(v.n)
    decreases v, 1
  {
    match v
    case JNull => "None"
    case JBool(b) => if b then "True" else "False"
    case JNum(n) => ParseIntOfToDecimal(n); ToDecimal(n)
    case JStr(s) => ReprString(s)
    case JArr(items) => "[" + ReprItems(items) + "]"
    case JObj(ms) => "{" + ReprEntries(v, DistinctKeys(ms)) + "}"
  }

  function ReprItems(items: seq<Json>): string
    decreases items, 0
  {
    if items == [] then ""
    else if |items| == 1 then PyRepr(items[0])
    else PyRepr(items[0]) + ", " + ReprItems(items[1..])
  }

  /** The entries of the dict built from obj's members: each key of `keys` with the value `d[k]` gives. */
  function ReprEntries(obj: Json, keys: seq<string>): string
    requires obj.JObj?
    requires forall i :: 0 <= i < |keys| ==> HasKey(obj.members, keys[i])
    decreases obj, 0, |keys|
  {
    if keys == [] then ""
    else
      var entry := obj.members[LastIndex(obj.members, keys[0])];
      assert entry in obj.members;
      var shown := ReprString(keys[0]) + ": " + PyRepr(entry.1);
      if |keys| == 1 then shown else shown + ", " + ReprEntries(obj, keys[1..])
  }

  /** The keys of the dict built from ms, in first-occurrence order. */
  function DistinctKeys(ms: seq<(string, Json)>): (keys: seq<string>)
    ensures forall i :: 0 <= i < |keys| ==> HasKey(ms, keys[i])
    ensures forall i :: 0 <= i < |ms| ==> ms[i].0 in keys
    ensures forall i, j :: 0 <= i < j < |keys| ==> keys[i] != keys[j]
  {
    if ms == [] then []
    else
      var init := DistinctKeys(ms[..|ms| - 1]);
      assert forall i :: 0 <= i < |init| ==> HasKey(ms, init[i]) by {
        forall i | 0 <= i < |init| ensures HasKey(ms, init[i]) {
          var j :| 0 <= j < |ms| - 1 && ms[..|ms| - 1][j].0 == init[i];
          assert ms[j].0 == init[i];
        }
      }
      var k := ms[|ms| - 1].0;
      assert forall i :: 0 <= i < |ms| - 1 ==> ms[i].0 in init by {
        forall i | 0 <= i < |ms| - 1 ensures ms[i].0 in init {
          assert ms[..|ms| - 1][i].0 == ms[i].0;
        }
      }
      if k in init then init else init + [k]
  }

  /** Python's repr of a str: single quotes unless only double quotes avoid escaping. */
  function ReprString(s: string): string {
    var q := if '\'' in s && '"' !in s then '"' else '\'';
    [q] + EscapeFor(s, q) + [q]
  }

  function EscapeFor(s: string, q: char): string {
    if s == [] then [] else EscapeChar(s[0], q) + EscapeFor(s[1..], q)
  }

  function HexLower(d: nat): char
    requires d < 16
  {
    if d < 10 then ('0' as int + d) as char else ('a' as int + d - 10) as char
  }

  /** repr's escape of one character: backslash, the quote, \t \n \r, other control characters as \xhh. */
  function EscapeChar(c: char, q: char): string {
    if c == '\\' || c == q then ['\\', c]
    else if c == '\t' then "\\t"
    else if c == '\n' then "\\n"
    else if c == '\r' then "\\r"
    else if c < ' ' || (0x7F <= c as int <= 0xA0) || c as int == 0xAD then
      "\\x" + [HexLower(c as int / 16), HexLower(c as int % 16)]
    else [c]
  }
}
