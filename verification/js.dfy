/**
 * The slice of JavaScript semantics the comment service relies on: numbers that
 * may be NaN, JSON request values, `String.prototype.trim`, the `Number(string)`
 * conversion and the decimal rendering of a number inside a template string.
 */
module Js {

  /** A JavaScript number as this model sees it: NaN or an integer. */
  datatype Number = NaN | Int(n: int)

  /** A JSON value as the body parser delivers it. */
  datatype Value =
    | Num(x: Number)
    | Str(s: string)
    | Bool(b: bool)
    | Null
    | Arr(items: seq<Value>)
    | Obj(fields: map<string, Value>)

  /** The ECMAScript WhiteSpace and LineTerminator code points: what `trim` strips. */
  predicate IsWhitespace(c: char) {
    || c == '\t' || c == '\n' || c == '\U{000B}' || c == '\U{000C}' || c == '\r'
    || c == ' ' || c == '\U{00A0}' || c == '\U{1680}' || '\U{2000}' <= c <= '\U{200A}'
    || c == '\U{2028}' || c == '\U{2029}' || c == '\U{202F}' || c == '\U{205F}'
    || c == '\U{3000}' || c == '\U{FEFF}'
  }

  predicate AllWhitespace(s: string) {
    forall i :: 0 <= i < |s| ==> IsWhitespace(s[i])
  }

  /** `s` with its leading whitespace removed. */
  function TrimStart(s: string): (r: string)
    ensures |r| <= |s| && r == s[|s| - |r|..]
    ensures AllWhitespace(s[..|s| - |r|])
    ensures |r| > 0 ==> !IsWhitespace(r[0])
  {
    if |s| > 0 && IsWhitespace(s[0]) then TrimStart(s[1..]) else s
  }

  /** `s` with its trailing whitespace removed. */
  function TrimEnd(s: string): (r: string)
    ensures |r| <= |s| && r == s[..|r|]
    ensures AllWhitespace(s[|r|..])
    ensures |r| > 0 ==> !IsWhitespace(r[|r| - 1])
  {
    if |s| > 0 && IsWhitespace(s[|s| - 1]) then TrimEnd(s[..|s| - 1]) else s
  }

  /**
   * `s.trim()`: `s` without its leading and trailing whitespace. The result
   * neither starts nor ends with whitespace, and it is empty exactly when `s`
   * is all whitespace.
   */
  function Trim(s: string): (r: string)
    ensures |r| <= |s|
    ensures |r| > 0 ==> !IsWhitespace(r[0]) && !IsWhitespace(r[|r| - 1])
    ensures |r| == 0 <==> AllWhitespace(s)
  {
    var t := TrimStart(s);
    var r := TrimEnd(t);
    BlankParts(s, |s| - |t|);
    assert |r| > 0 ==> r[0] == t[0];
    r
  }

  /** A string is blank exactly when both parts of any split of it are. */
  lemma BlankParts(s: string, k: nat)
    requires k <= |s|
    ensures AllWhitespace(s) <==> AllWhitespace(s[..k]) && AllWhitespace(s[k..])
  {
    if AllWhitespace(s[..k]) && AllWhitespace(s[k..]) {
      forall i | 0 <= i < |s| ensures IsWhitespace(s[i]) {
        if i < k { assert s[i] == s[..k][i]; } else { assert s[i] == s[k..][i - k]; }
      }
    }
  }

  predicate IsDigit(c: char) {
    '0' <= c <= '9'
  }

  predicate AllDigits(s: string) {
    forall i :: 0 <= i < |s| ==> IsDigit(s[i])
  }

  /** The value of a string of decimal digits. */
  function DigitsValue(s: string): nat
    requires AllDigits(s)
  {
    if |s| == 0 then 0 else DigitsValue(s[..|s| - 1]) * 10 + (s[|s| - 1] as int - '0' as int)
  }

  /**
   * `Number(s)` for a string: surrounding whitespace is ignored, a blank
   * string is 0, an optional sign followed by decimal digits is an integer,
   * and everything else is NaN.
   */
  function ParseNumber(s: string): (r: Number)
    ensures AllWhitespace(s) ==> r == Int(0)
  {
    var t := Trim(s);
    if |t| == 0 then Int(0)
    else if |t| > 1 && t[0] == '-' && AllDigits(t[1..]) then
      assert IsDigit(t[1]);
      Int(-(DigitsValue(t[1..]) as int))
    else if |t| > 1 && t[0] == '+' && AllDigits(t[1..]) then
      assert IsDigit(t[1]);
      Int(DigitsValue(t[1..]))
    else if AllDigits(t) then
      assert IsDigit(t[0]);
      Int(DigitsValue(t))
    else NaN
  }

  /** The decimal digits of `n`, most significant first, without leading zeros. */
  function NatToString(n: nat): (r: string)
    ensures |r| > 0 && AllDigits(r)
    ensures r[0] != '0' || n == 0
    ensures DigitsValue(r) == n
  {
    var d := ['0' + (n % 10) as char];
    if n < 10 then d
    else
      var p := NatToString(n / 10);
      assert (p + d)[..|p|] == p;
      p + d
  }

  /** A number interpolated into a template string: `${x}`. */
  function NumberToString(x: Number): string {
    match x
    case NaN => "NaN"
    case Int(n) => if n < 0 then "-" + NatToString(-n) else NatToString(n)
  }

  /** `Number(v)`, the coercion `isNaN` applies to its argument. */
  function ToNumber(v: Value): (r: Number)
    ensures v.Num? ==> r == v.x
    ensures v.Obj? ==> r == NaN
  {
    match v
    case Num(x) => x
    case Str(s) => ParseNumber(s)
    case Bool(b) => Int(if b then 1 else 0)
    case Null => Int(0)
    case Arr(_) => NaN
    case Obj(_) => NaN
  }

  /** A string without whitespace at either end is its own trim. */
  lemma TrimOfTrimmed(s: string)
    requires |s| > 0 && !IsWhitespace(s[0]) && !IsWhitespace(s[|s| - 1])
    ensures Trim(s) == s
  {
    assert TrimStart(s) == s;
    assert TrimEnd(s) == s;
  }

  /** A run of decimal digits parses to the number it spells. */
  lemma ParseDigits(d: string)
    requires |d| > 0 && AllDigits(d)
    ensures ParseNumber(d) == Int(DigitsValue(d))
  {
    assert IsDigit(d[0]) && IsDigit(d[|d| - 1]);
    TrimOfTrimmed(d);
  }

  /** A minus sign before a run of decimal digits parses to the negated number. */
  lemma ParseNegatedDigits(s: string)
    requires |s| > 1 && s[0] == '-' && AllDigits(s[1..])
    ensures ParseNumber(s) == Int(-(DigitsValue(s[1..]) as int))
  {
    assert IsDigit(s[1..][|s| - 2]);
    TrimOfTrimmed(s);
  }

  /** Text that starts with neither a sign nor a digit parses to NaN. */
  lemma ParseNonNumeric(s: string)
    requires |s| > 0 && !IsWhitespace(s[0]) && !IsWhitespace(s[|s| - 1])
    requires !IsDigit(s[0]) && s[0] != '-' && s[0] != '+'
    ensures ParseNumber(s) == NaN
  {
    TrimOfTrimmed(s);
  }

  /** Rendering a number and parsing it back yields the same number. */
  lemma {:induction false} NumberRoundTrip(x: Number)
    ensures ParseNumber(NumberToString(x)) == x
  {
    if x.NaN? {
      RoundTripNaN();
    } else if x.n < 0 {
      var s := NumberToString(x);
      assert s[0] == '-' && s[1..] == NatToString(-x.n);
      ParseNegatedDigits(s);
    } else {
      var d := NatToString(x.n);
      assert NumberToString(x) == d;
      ParseDigits(d);
    }
  }

  /** NaN renders as text that parses back to NaN. */
  lemma RoundTripNaN()
    ensures ParseNumber(NumberToString(NaN)) == NaN
  {
    var s := NumberToString(NaN);
    assert s[0] == 'N' && s[|s| - 1] == 'N';
    ParseNonNumeric(s);
  }

  /** The controller's default page bounds parse to the numbers they spell. */
  lemma ParseDefaults()
    ensures ParseNumber("0") == Int(0)
    ensures ParseNumber("10") == Int(10)
  {
    assert Trim("0") == "0" by { TrimOfTrimmed("0"); }
    assert Trim("10") == "10" by { TrimOfTrimmed("10"); }
    assert DigitsValue("0") == 0 by { assert "0"[..0] == ""; }
    assert DigitsValue("10") == 10 by {
      assert "10"[..1] == "1" && "1"[..0] == "";
    }
  }
}
