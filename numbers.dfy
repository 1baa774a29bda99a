/**
 * JavaScript numbers as the tool meets them: the result of `parseInt` on a
 * string (an integer or NaN), JavaScript truthiness of such a value, and the
 * `Number(string)` grammar that decides `isNaN` for a command-line argument.
 */
module Numbers {
  import opened Strings

  /** A JavaScript number that is an integer, or NaN. */
  datatype Number = NaN | Int(value: int)

  /** JavaScript truthiness: 0 and NaN are falsy. */
  predicate Truthy(n: Number) {
    n.Int? && n.value != 0
  }

  /** `n <= k`: any comparison with NaN is false. */
  predicate AtMost(n: Number, k: int) {
    n.Int? && n.value <= k
  }

  predicate IsHexDigit(c: char) {
    IsDigit(c) || ('a' <= c <= 'f') || ('A' <= c <= 'F')
  }

  function HexDigitValue(c: char): nat
    requires IsHexDigit(c)
    ensures HexDigitValue(c) < 16
  {
    if IsDigit(c) then DigitValue(c)
    else if 'a' <= c <= 'f' then c as int - 'a' as int + 10
    else c as int - 'A' as int + 10
  }

  /** The longest run at the front of `s` of characters satisfying `p`. */
  function PrefixWhile(s: string, p: char -> bool): (r: string)
    ensures StartsWith(s, r)
    ensures forall i :: 0 <= i < |r| ==> p(r[i])
    ensures |r| == |s| || !p(s[|r|])
    decreases |s|
  {
    if s != [] && p(s[0]) then [s[0]] + PrefixWhile(s[1..], p) else []
  }

  function HexValue(s: string): nat
    requires forall i :: 0 <= i < |s| ==> IsHexDigit(s[i])
  {
    if s == [] then 0 else HexValue(s[..|s| - 1]) * 16 + HexDigitValue(s[|s| - 1])
  }

  /** `parseInt(s)` without a radix: leading white space is skipped, one sign
      is read, a `0x`/`0X` prefix selects base 16, and the longest run of
      digits that follows is the value; no digit at all gives NaN. */
  function ParseInt(s: string): Number {
    var t := TrimStart(s);
    var negative := t != [] && t[0] == '-';
    var u := if t != [] && (t[0] == '-' || t[0] == '+') then t[1..] else t;
    if |u| >= 2 && u[0] == '0' && (u[1] == 'x' || u[1] == 'X') then
      var h := PrefixWhile(u[2..], IsHexDigit);
      var v: int := HexValue(h);
      if h == [] then NaN else Int(if negative then -v else v)
    else
      var d := PrefixWhile(u, IsDigit);
      var v: int := DigitsValue(d);
      if d == [] then NaN else Int(if negative then -v else v)
  }

  /** A string that starts with a character other than white space is its own `trimStart`. */
  lemma TrimStartFixed(s: string)
    requires s != [] && !IsSpace(s[0])
    ensures TrimStart(s) == s
  {
  }

  /** `parseInt` reads a run of decimal digits as its value. */
  lemma ParseIntOfPlainDigits(d: string)
    requires d != [] && AllDigits(d)
    ensures ParseInt(d) == Int(DigitsValue(d))
  {
    TrimStartFixed(d);
    assert !(|d| >= 2 && d[0] == '0' && (d[1] == 'x' || d[1] == 'X')) by {
      if |d| >= 2 {
        assert IsDigit(d[1]);
      }
    }
    PrefixWhileAll(d, IsDigit);
  }

  /** `parseInt` reads a minus sign and a run of decimal digits as the
      negated value. */
  lemma ParseIntOfNegatedDigits(d: string)
    requires d != [] && AllDigits(d)
    ensures ParseInt("-" + d) == Int(-(DigitsValue(d) as int))
  {
    var s := "-" + d;
    TrimStartFixed(s);
    assert s[1..] == d;
    assert !(|d| >= 2 && d[0] == '0' && (d[1] == 'x' || d[1] == 'X')) by {
      if |d| >= 2 {
        assert IsDigit(d[1]);
      }
    }
    PrefixWhileAll(d, IsDigit);
  }

  /** `parseInt` reads back the numeral `String(i)` of every integer. */
  lemma ParseIntOfNumeral(i: int)
    ensures ParseInt(IntToString(i)) == Int(i)
  {
    var d := NatToString(if i < 0 then -i else i);
    NatToStringValue(if i < 0 then -i else i);
    if i < 0 {
      assert IntToString(i) == "-" + d;
      ParseIntOfNegatedDigits(d);
    } else {
      assert IntToString(i) == d;
      ParseIntOfPlainDigits(d);
    }
  }

  lemma {:induction false} PrefixWhileAll(s: string, p: char -> bool)
    requires forall i :: 0 <= i < |s| ==> p(s[i])
    ensures PrefixWhile(s, p) == s
    decreases |s|
  {
    if s != [] {
      PrefixWhileAll(s[1..], p);
    }
  }

  predicate AllOf(s: string, p: char -> bool) {
    forall i :: 0 <= i < |s| ==> p(s[i])
  }

  /** `0x…`, `0o…` or `0b…` with at least one digit of that base. */
  predicate IsNonDecimalLiteral(t: string) {
    |t| > 2 && t[0] == '0' &&
    (((t[1] == 'x' || t[1] == 'X') && AllOf(t[2..], IsHexDigit))
     || ((t[1] == 'o' || t[1] == 'O') && AllOf(t[2..], c => '0' <= c <= '7'))
     || ((t[1] == 'b' || t[1] == 'B') && AllOf(t[2..], c => c == '0' || c == '1')))
  }

  /** Digits with an optional fraction, or a fraction alone, at least one digit. */
  predicate IsMantissa(m: string) {
    if '.' in m then
      var k := IndexOf(m, '.');
      AllOf(m[..k], IsDigit) && AllOf(m[k + 1..], IsDigit) && |m| >= 2
    else
      m != [] && AllOf(m, IsDigit)
  }

  predicate IsExponent(e: string) {
    var d := if e != [] && (e[0] == '+' || e[0] == '-') then e[1..] else e;
    d != [] && AllOf(d, IsDigit)
  }

  predicate IsExpMark(c: char) { c == 'e' || c == 'E' }

  /** An unsigned decimal literal: `Infinity`, or a mantissa with an optional exponent. */
  predicate IsUnsignedDecimal(u: string) {
    u == "Infinity" ||
    if exists i :: 0 <= i < |u| && IsExpMark(u[i]) then
      var k := FirstExpMark(u);
      IsMantissa(u[..k]) && IsExponent(u[k + 1..])
    else
      IsMantissa(u)
  }

  function FirstExpMark(u: string): (k: nat)
    requires exists i :: 0 <= i < |u| && IsExpMark(u[i])
    ensures k < |u| && IsExpMark(u[k])
    ensures forall i :: 0 <= i < k ==> !IsExpMark(u[i])
  {
    if IsExpMark(u[0]) then 0
    else
      assert exists i :: 0 <= i < |u[1..]| && IsExpMark(u[1..][i]) by {
        var i :| 0 <= i < |u| && IsExpMark(u[i]);
        assert u[1..][i - 1] == u[i];
      }
      1 + FirstExpMark(u[1..])
  }

  /** The StringNumericLiteral grammar `Number(s)` accepts: white space alone
      (the value 0), or, after trimming, a non-decimal literal or a signed
      decimal one. `isNaN(s)` is false exactly for these strings. */
  predicate IsNumericString(s: string) {
    var t := Trim(s);
    t == [] || IsNonDecimalLiteral(t)
    || IsUnsignedDecimal(if t[0] == '+' || t[0] == '-' then t[1..] else t)
  }

  /** A run of decimal digits, with or without a minus sign, is numeric. */
  lemma SignedDigitsNumeric(s: string, d: string)
    requires d != [] && AllDigits(d) && (s == d || s == "-" + d)
    ensures IsNumericString(s)
  {
    assert s[|s| - 1] == d[|d| - 1];
    TrimFixed(s);
    assert (if s[0] == '+' || s[0] == '-' then s[1..] else s) == d;
    assert forall k :: 0 <= k < |d| ==> !IsExpMark(d[k]);
    assert '.' !in d;
  }

  /** Every integer numeral is numeric, and the empty string is too (its value is 0). */
  lemma NumeralIsNumeric(i: int)
    ensures IsNumericString(IntToString(i))
    ensures IsNumericString("")
  {
    SignedDigitsNumeric(IntToString(i), NatToString(if i < 0 then -i else i));
  }
}
