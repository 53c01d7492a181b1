/** JavaScript numbers as the sources use them: `Number(s)`, `parseInt(s)`,
    `parseFloat(s)` on decimal text, and the `x || d` default. A number is
    NaN or a real; the infinities and floating-point rounding are not
    represented. */
module JsNumbers {
  import opened Strings
  import opened Wrappers

  datatype JsNum = NaN | Num(value: real)

  /** A number is falsy when it is 0 or NaN. */
  predicate Truthy(n: JsNum) {
    n.Num? && n.value != 0.0
  }

  /** `n || d` for a number `n` and a numeric default `d`. */
  function OrElse(n: JsNum, d: real): real {
    if Truthy(n) then n.value else d
  }

  /** `n || d` for an integer result of `parseInt` (None is NaN). */
  function OrElseInt(n: Option<int>, d: int): int {
    if n.Some? && n.value != 0 then n.value else d
  }

  /** `s || d` for a string property that may be undefined. */
  function OrText(s: Option<string>, d: string): string {
    if s.Some? && s.value != "" then s.value else d
  }

  /** `x / y` when `y` is a non-zero number. */
  function Divide(x: JsNum, y: real): JsNum
    requires y != 0.0
  {
    if x.NaN? then NaN else Num(x.value / y)
  }

  function Pow10(n: nat): (r: nat)
    ensures r >= 1
  {
    if n == 0 then 1 else 10 * Pow10(n - 1)
  }

  predicate IsSpace(c: char) {
    c == ' ' || c == '\t' || c == '\n' || c == '\r'
  }

  function TrimStart(s: string): (r: string)
    ensures r == [] || !IsSpace(r[0])
    decreases |s|
  {
    if s != [] && IsSpace(s[0]) then TrimStart(s[1..]) else s
  }

  lemma {:induction false} TrimStartSuffix(s: string)
    ensures |TrimStart(s)| <= |s| && TrimStart(s) == s[|s| - |TrimStart(s)|..]
    decreases |s|
  {
    if s != [] && IsSpace(s[0]) {
      TrimStartSuffix(s[1..]);
    }
  }

  function TrimEnd(s: string): (r: string)
    ensures r == [] || !IsSpace(r[|r| - 1])
    decreases |s|
  {
    if s != [] && IsSpace(s[|s| - 1]) then TrimEnd(s[..|s| - 1]) else s
  }

  /** The longest prefix of decimal digits. */
  function LeadingDigits(s: string): (r: string)
    ensures IsDigits(r) && StartsWith(s, r)
    ensures |r| == |s| || !IsDigit(s[|r|])
    decreases |s|
  {
    if s != [] && IsDigit(s[0]) then
      var rest := LeadingDigits(s[1..]);
      assert s[..|rest| + 1] == [s[0]] + s[1..][..|rest|];
      [s[0]] + rest
    else ""
  }

  /** The value of `whole.frac` with the digit strings given. */
  function DecimalParts(whole: string, frac: string): real
    requires IsDigits(whole) && IsDigits(frac)
  {
    DecimalValue(whole) as real + DecimalValue(frac) as real / Pow10(|frac|) as real
  }

  /** A leading '-' or '+' split off. */
  function SplitSign(t: string): (bool, string) {
    if t != [] && t[0] == '-' then (true, t[1..])
    else if t != [] && t[0] == '+' then (false, t[1..])
    else (false, t)
  }

  function ApplySign(negative: bool, v: real): real {
    if negative then -v else v
  }

  /** An unsigned decimal literal: digits, or digits '.' digits with at
      least one digit in all. */
  function UnsignedDecimal(s: string): Option<real> {
    var parts := Split(s, '.');
    if |parts| == 1 then
      if s != "" && IsDigits(s) then Some(DecimalValue(s) as real) else None
    else if |parts| == 2 && IsDigits(parts[0]) && IsDigits(parts[1]) && parts[0] + parts[1] != "" then
      Some(DecimalParts(parts[0], parts[1]))
    else None
  }

  /** `Number(s)`: surrounding blanks ignored, the empty string is 0, and the
      whole rest must be a signed decimal literal. */
  function StringToNumber(s: string): (r: JsNum)
    ensures TrimEnd(TrimStart(s)) == "" ==> r == Num(0.0)
  {
    var t := TrimEnd(TrimStart(s));
    if t == "" then Num(0.0)
    else
      var (negative, body) := SplitSign(t);
      match UnsignedDecimal(body)
      case None => NaN
      case Some(v) => Num(ApplySign(negative, v))
  }

  /** `parseInt(s)`: leading blanks and a sign, then as many digits as there
      are; None (NaN) when there are none. */
  function ParseInt(s: string): (r: Option<int>)
    ensures r.None? <==> LeadingDigits(SplitSign(TrimStart(s)).1) == ""
  {
    var (negative, body) := SplitSign(TrimStart(s));
    var digits := LeadingDigits(body);
    if digits == "" then None
    else
      var v: int := DecimalValue(digits);
      Some(if negative then -v else v)
  }

  /** `parseFloat(s)`: leading blanks and a sign, then the longest prefix of
      the form digits '.' digits; NaN when that holds no digit. */
  function ParseFloat(s: string): (r: JsNum)
    ensures r.Num? ==> exists i :: 0 <= i < |s| && IsDigit(s[i])
  {
    var t := TrimStart(s);
    var (negative, body) := SplitSign(t);
    var whole := LeadingDigits(body);
    var rest := body[|whole|..];
    var frac := if rest != [] && rest[0] == '.' then LeadingDigits(rest[1..]) else "";
    if whole == "" && frac == "" then NaN
    else
      TrimStartSuffix(s);
      assert body == s[|s| - |body|..];
      var j := if whole != "" then 0 else 1;
      assert IsDigit(body[j]) && body[j] == s[|s| - |body| + j];
      Num(ApplySign(negative, DecimalParts(whole, frac)))
  }

  lemma {:induction false} TrimDigits(s: string)
    requires IsDigits(s)
    ensures TrimStart(s) == s && TrimEnd(s) == s
  {
    if s != [] {
      assert IsDigit(s[0]) && IsDigit(s[|s| - 1]);
    }
  }

  lemma {:induction false} LeadingDigitsOfDigits(s: string)
    requires IsDigits(s)
    ensures LeadingDigits(s) == s
    decreases |s|
  {
    if s != [] {
      assert IsDigit(s[0]);
      LeadingDigitsOfDigits(s[1..]);
      assert [s[0]] + s[1..] == s;
    }
  }

  /** `Number` reads the digits of `n` back as `n`. */
  lemma NumberOfDecimal(n: nat)
    ensures StringToNumber(NatToDecimal(n)) == Num(n as real)
  {
    var s := NatToDecimal(n);
    TrimDigits(s);
    DecimalRoundTrip(n);
    assert IsDigit(s[0]);
    assert SplitSign(s) == (false, s);
    assert forall i :: 0 <= i < |s| ==> s[i] != '.';
    SplitWithoutSep(s, '.');
  }

  /** `parseInt` reads the digits of `n` back as `n`. */
  lemma ParseIntOfDecimal(n: nat)
    ensures ParseInt(NatToDecimal(n)) == Some(n)
  {
    var s := NatToDecimal(n);
    TrimDigits(s);
    DecimalRoundTrip(n);
    assert IsDigit(s[0]);
    assert SplitSign(s) == (false, s);
    LeadingDigitsOfDigits(s);
  }

  /** `parseFloat` reads the digits of `n` back as `n`. */
  lemma ParseFloatOfDecimal(n: nat)
    ensures ParseFloat(NatToDecimal(n)) == Num(n as real)
  {
    var s := NatToDecimal(n);
    TrimDigits(s);
    DecimalRoundTrip(n);
    assert IsDigit(s[0]);
    assert SplitSign(s) == (false, s);
    LeadingDigitsOfDigits(s);
    assert s[|s|..] == [];
    assert DecimalParts(s, "") == n as real;
  }

  /** The digits of `n` read back by any of the three conversions give `n`. */
  lemma DecimalTextConversions(n: nat)
    ensures StringToNumber(NatToDecimal(n)) == Num(n as real)
    ensures ParseInt(NatToDecimal(n)) == Some(n)
    ensures ParseFloat(NatToDecimal(n)) == Num(n as real)
  {
    NumberOfDecimal(n);
    ParseIntOfDecimal(n);
    ParseFloatOfDecimal(n);
  }

  /** `parseInt` stops at the first character that is not a digit. */
  lemma ParseIntStopsAtNonDigit(n: nat, tail: string)
    requires tail == [] || !IsDigit(tail[0])
    ensures ParseInt(NatToDecimal(n) + tail) == Some(n)
  {
    var s := NatToDecimal(n);
    var t := s + tail;
    assert IsDigit(s[0]) && t[0] == s[0];
    assert TrimStart(t) == t;
    assert SplitSign(t) == (false, t);
    LeadingDigitsPrefix(s, tail);
    DecimalRoundTrip(n);
  }

  lemma {:induction false} LeadingDigitsPrefix(s: string, tail: string)
    requires IsDigits(s)
    requires tail == [] || !IsDigit(tail[0])
    ensures LeadingDigits(s + tail) == s
    decreases |s|
  {
    if s == [] {
      assert s + tail == tail;
    } else {
      assert IsDigit(s[0]) && (s + tail)[0] == s[0];
      assert (s + tail)[1..] == s[1..] + tail;
      LeadingDigitsPrefix(s[1..], tail);
      assert [s[0]] + s[1..] == s;
    }
  }
}
