/**
 * The few JavaScript built-ins the modelled code relies on, given exact definitions:
 * `parseInt` (no radix), `String.prototype.toLowerCase` on ASCII letters,
 * `String.prototype.includes`, `localeCompare` fixed to code-unit order, and `Math.round`
 * of a completion percentage computed exactly over integers.
 */
module JsRuntime {
  import opened Wrappers

  // ---------------------------------------------------------------- digits

  predicate IsDecimalDigit(c: char) { '0' <= c <= '9' }

  function DigitValue(c: char, radix: nat): (v: Option<nat>)
    requires radix == 10 || radix == 16
    ensures v.Some? ==> v.value < radix
  {
    if '0' <= c <= '9' then Some(c as int - '0' as int)
    else if radix == 16 && 'a' <= c <= 'f' then Some(c as int - 'a' as int + 10)
    else if radix == 16 && 'A' <= c <= 'F' then Some(c as int - 'A' as int + 10)
    else None
  }

  /** Length of the longest prefix of `s` made of digits in `radix`. */
  function LeadingDigits(s: string, radix: nat): (n: nat)
    requires radix == 10 || radix == 16
    ensures n <= |s|
    ensures forall i :: 0 <= i < n ==> DigitValue(s[i], radix).Some?
    ensures n < |s| ==> DigitValue(s[n], radix).None?
  {
    if s == [] || DigitValue(s[0], radix).None? then 0 else 1 + LeadingDigits(s[1..], radix)
  }

  /** The number a string of digits denotes, most significant digit first. */
  function DigitsValue(d: string, radix: nat): nat
    requires radix == 10 || radix == 16
    requires forall i :: 0 <= i < |d| ==> DigitValue(d[i], radix).Some?
  {
    if d == [] then 0
    else DigitsValue(d[..|d| - 1], radix) * radix + DigitValue(d[|d| - 1], radix).value
  }

  // ---------------------------------------------------------------- parseInt

  /**
   * The characters parseInt and Number skip: ECMAScript's WhiteSpace (tab, vertical tab,
   * form feed, space, NBSP, BOM and the Unicode space separators) and LineTerminator.
   */
  predicate IsJsWhiteSpace(c: char) {
    c == ' ' || c == '\t' || c == '\n' || c == '\r' || c == '\U{000B}' || c == '\U{000C}'
    || c == '\U{00A0}' || c == '\U{FEFF}' || c == '\U{1680}' || '\U{2000}' <= c <= '\U{200A}'
    || c == '\U{2028}' || c == '\U{2029}' || c == '\U{202F}' || c == '\U{205F}' || c == '\U{3000}'
  }

  function TrimStart(s: string): (r: string)
    ensures |r| <= |s| && r == s[|s| - |r|..]
    ensures r == [] || !IsJsWhiteSpace(r[0])
  {
    if s != [] && IsJsWhiteSpace(s[0]) then TrimStart(s[1..]) else s
  }

  /**
   * `parseInt(s)` with no radix: leading white space is skipped, one sign is read, a
   * "0x"/"0X" prefix selects base 16, and the longest digit prefix is converted. None
   * stands for NaN (no digit at all).
   */
  function ParseInt(s: string): (r: Option<int>)
    ensures r.Some? ==> TrimStart(s) != []
    ensures r.Some? && r.value < 0 ==> TrimStart(s)[0] == '-'
  {
    var t := TrimStart(s);
    var u := if t != [] && (t[0] == '-' || t[0] == '+') then t[1..] else t;
    match ParseUnsigned(u)
    case None => None
    case Some(v) =>
      var w: int := v;
      Some(if t != [] && t[0] == '-' then -w else w)
  }

  /** After the sign: a "0x"/"0X" prefix selects base 16, otherwise base 10. */
  function ParseUnsigned(u: string): (r: Option<nat>)
  {
    if |u| >= 2 && u[0] == '0' && (u[1] == 'x' || u[1] == 'X') then DigitPrefixValue(u[2..], 16)
    else DigitPrefixValue(u, 10)
  }

  /** The value of the longest digit prefix, None when there is no digit at all. */
  function DigitPrefixValue(body: string, radix: nat): (r: Option<nat>)
    requires radix == 10 || radix == 16
  {
    var n := LeadingDigits(body, radix);
    if n == 0 then None
    else
      assert forall i :: 0 <= i < n ==> body[..n][i] == body[i];
      Some(DigitsValue(body[..n], radix))
  }

  /** The decimal numeral of a natural number, as `String(n)` writes it. */
  function DecimalString(n: nat): (s: string)
    ensures |s| >= 1
    ensures forall i :: 0 <= i < |s| ==> IsDecimalDigit(s[i])
    ensures s[0] == '0' ==> n == 0
    decreases n
  {
    var d := ['0' + (n % 10) as char];
    if n < 10 then d else DecimalString(n / 10) + d
  }

  lemma {:induction false} DecimalStringValue(n: nat)
    ensures forall i :: 0 <= i < |DecimalString(n)| ==> DigitValue(DecimalString(n)[i], 10).Some?
    ensures DigitsValue(DecimalString(n), 10) == n
    decreases n
  {
    var s := DecimalString(n);
    if n >= 10 {
      DecimalStringValue(n / 10);
      assert s[..|s| - 1] == DecimalString(n / 10);
    }
  }

  lemma {:induction false} LeadingDigitsOfDigits(s: string)
    requires forall i :: 0 <= i < |s| ==> IsDecimalDigit(s[i])
    ensures LeadingDigits(s, 10) == |s|
  {
    if s != [] {
      LeadingDigitsOfDigits(s[1..]);
    }
  }

  /** A digit string without a leading zero (other than "0" itself) is read as its value. */
  lemma ParseIntOfDigits(d: string)
    requires d != [] && forall i :: 0 <= i < |d| ==> IsDecimalDigit(d[i])
    requires |d| >= 2 ==> d[0] != '0'
    ensures forall i :: 0 <= i < |d| ==> DigitValue(d[i], 10).Some?
    ensures ParseInt(d) == Some(DigitsValue(d, 10))
  {
    assert IsDecimalDigit(d[0]);
    ParseIntUnsigned(d);
    DigitPrefixOfDigits(d);
  }

  /** A string with no leading blank or sign is read by its unsigned part alone. */
  lemma ParseIntUnsigned(u: string)
    requires u != [] && !IsJsWhiteSpace(u[0]) && u[0] != '-' && u[0] != '+'
    ensures ParseInt(u) == ParseUnsigned(u)
  {
    assert TrimStart(u) == u;
  }

  lemma DigitPrefixOfDigits(d: string)
    requires d != [] && forall i :: 0 <= i < |d| ==> IsDecimalDigit(d[i])
    ensures forall i :: 0 <= i < |d| ==> DigitValue(d[i], 10).Some?
    ensures DigitPrefixValue(d, 10) == Some(DigitsValue(d, 10))
  {
    LeadingDigitsOfDigits(d);
    assert d[..|d|] == d;
  }

  /** parseInt reads back exactly the number whose decimal numeral it is given. */
  lemma ParseIntDecimalString(n: nat)
    ensures ParseInt(DecimalString(n)) == Some(n)
  {
    var s := DecimalString(n);
    assert |s| >= 2 ==> s[0] != '0' by {
      if s[0] == '0' { assert n == 0; assert s == "0"; }
    }
    ParseIntOfDigits(s);
    DecimalStringValue(n);
  }

  /** A string that starts with a letter other than white space, a sign or a digit is NaN. */
  lemma ParseIntOfNonNumeric(s: string)
    requires s != [] && !IsJsWhiteSpace(s[0]) && s[0] != '-' && s[0] != '+' && !IsDecimalDigit(s[0])
    ensures ParseInt(s) == None
  {
    assert TrimStart(s) == s;
  }

  // ---------------------------------------------------------------- Number(s)

  function TrimEnd(s: string): (r: string)
    ensures |r| <= |s| && r == s[..|r|]
    ensures r == [] || !IsJsWhiteSpace(r[|r| - 1])
  {
    if s != [] && IsJsWhiteSpace(s[|s| - 1]) then TrimEnd(s[..|s| - 1]) else s
  }

  function Pow10(n: nat): (p: nat)
    ensures p >= 1
  {
    if n == 0 then 1 else 10 * Pow10(n - 1)
  }

  /**
   * The string-to-number conversion a relational comparison applies, for plain decimal
   * numerals: surrounding white space is ignored, an all-blank string is 0, one sign and
   * one '.' are allowed and at least one digit is needed. None stands for NaN.
   */
  function StringToNumber(s: string): (r: Option<real>)
    ensures TrimEnd(TrimStart(s)) == [] ==> r == Some(0.0)
    ensures r.Some? && r.value < 0.0 ==> TrimStart(s)[0] == '-'
  {
    var t := TrimEnd(TrimStart(s));
    if t == [] then Some(0.0)
    else
      var u := if t[0] == '-' || t[0] == '+' then t[1..] else t;
      match UnsignedNumeral(u)
      case None => None
      case Some(v) => Some(if t[0] == '-' then -v else v)
  }

  /** Digits, optionally followed by '.' and more digits, with at least one digit in all. */
  function UnsignedNumeral(u: string): (r: Option<real>)
    ensures r.Some? ==> r.value >= 0.0
  {
    var n := LeadingDigits(u, 10);
    var whole := DigitsValue(u[..n], 10) as real;
    var rest := u[n..];
    var m := if rest != [] && rest[0] == '.' then LeadingDigits(rest[1..], 10) else 0;
    if rest != [] && (rest[0] != '.' || m != |rest| - 1) then None
    else if n + m == 0 then None
    else
      var fraction := if rest == [] then 0.0 else DigitsValue(rest[1..], 10) as real / Pow10(m) as real;
      Some(whole + fraction)
  }

  /** A string of decimal digits is the whole number it denotes. */
  lemma UnsignedNumeralOfDigits(d: string)
    requires d != [] && forall i :: 0 <= i < |d| ==> IsDecimalDigit(d[i])
    ensures forall i :: 0 <= i < |d| ==> DigitValue(d[i], 10).Some?
    ensures UnsignedNumeral(d) == Some(DigitsValue(d, 10) as real)
  {
    LeadingDigitsOfDigits(d);
    assert d[..|d|] == d;
  }

  /** Without surrounding blanks or a sign, the conversion is that of the numeral itself. */
  lemma StringToNumberUnsigned(u: string)
    requires u != [] && !IsJsWhiteSpace(u[0]) && !IsJsWhiteSpace(u[|u| - 1])
    requires u[0] != '-' && u[0] != '+'
    ensures StringToNumber(u) == UnsignedNumeral(u)
  {
    assert TrimStart(u) == u;
    assert TrimEnd(u) == u;
  }

  /** The numeral `String(n)` converts back to n. */
  lemma StringToNumberDecimal(n: nat)
    ensures StringToNumber(DecimalString(n)) == Some(n as real)
  {
    var d := DecimalString(n);
    assert IsDecimalDigit(d[0]) && IsDecimalDigit(d[|d| - 1]);
    StringToNumberUnsigned(d);
    UnsignedNumeralOfDigits(d);
    DecimalStringValue(n);
  }

  // ---------------------------------------------------------------- strings

  function LowerChar(c: char): char {
    if 'A' <= c <= 'Z' then (c as int + 32) as char else c
  }

  /** `toLowerCase`, restricted to the ASCII letters. */
  function ToLower(s: string): (r: string)
    ensures |r| == |s|
    ensures forall i :: 0 <= i < |s| ==> r[i] == LowerChar(s[i])
    ensures forall i :: 0 <= i < |r| ==> !('A' <= r[i] <= 'Z')
  {
    if s == [] then [] else [LowerChar(s[0])] + ToLower(s[1..])
  }

  lemma ToLowerIdempotent(s: string)
    ensures ToLower(ToLower(s)) == ToLower(s)
  {
  }

  /** `s.includes(sub)`: `sub` occurs in `s` at some position. */
  predicate Includes(s: string, sub: string)
    ensures Includes(s, sub) ==> |sub| <= |s|
    decreases |s|
  {
    if |sub| > |s| then false
    else if s[..|sub|] == sub then true
    else Includes(s[1..], sub)
  }

  lemma {:induction false} IncludesAt(s: string, sub: string, k: nat)
    requires k + |sub| <= |s| && s[k..k + |sub|] == sub
    ensures Includes(s, sub)
    decreases k
  {
    if s[..|sub|] != sub {
      assert k > 0;
      assert s[1..][k - 1..k - 1 + |sub|] == s[k..k + |sub|];
      IncludesAt(s[1..], sub, k - 1);
    }
  }

  lemma {:induction false} IncludesWitness(s: string, sub: string) returns (k: nat)
    requires Includes(s, sub)
    ensures k + |sub| <= |s| && s[k..k + |sub|] == sub
    decreases |s|
  {
    if s[..|sub|] == sub {
      k := 0;
    } else {
      var j := IncludesWitness(s[1..], sub);
      k := j + 1;
      assert s[1..][j..j + |sub|] == s[k..k + |sub|];
    }
  }

  lemma IncludesEmpty(s: string)
    ensures Includes(s, "")
  {
    IncludesAt(s, "", 0);
  }

  // ---------------------------------------------------------------- localeCompare

  /**
   * `a.localeCompare(b)` with the locale fixed to comparison of code units: negative when
   * `a` sorts first, zero when equal, positive otherwise.
   */
  function LocaleCompare(a: string, b: string): (r: int)
    ensures -1 <= r <= 1
    ensures r == 0 <==> a == b
  {
    if a == [] && b == [] then 0
    else if a == [] then -1
    else if b == [] then 1
    else if a[0] < b[0] then -1
    else if a[0] > b[0] then 1
    else LocaleCompare(a[1..], b[1..])
  }

  lemma {:induction false} LocaleCompareAntisymmetric(a: string, b: string)
    ensures LocaleCompare(a, b) == -LocaleCompare(b, a)
  {
    if a != [] && b != [] && a[0] == b[0] {
      LocaleCompareAntisymmetric(a[1..], b[1..]);
    }
  }

  lemma {:induction false} LocaleCompareTransitive(a: string, b: string, c: string)
    requires LocaleCompare(a, b) <= 0 && LocaleCompare(b, c) <= 0
    ensures LocaleCompare(a, c) <= 0
  {
    if a != [] && b != [] && c != [] && a[0] == b[0] == c[0] {
      LocaleCompareTransitive(a[1..], b[1..], c[1..]);
    }
  }

  // ---------------------------------------------------------------- Math.round

  /**
   * `Math.round(completed / total * 100)`, computed exactly: the integer nearest to
   * 100·completed/total, halves rounded up.
   */
  function RoundedPercentage(completed: nat, total: nat): (p: int)
    requires total > 0
    ensures (p as real) - 0.5 <= 100.0 * (completed as real) / (total as real) < (p as real) + 0.5
  {
    var p := (200 * completed + total) / (2 * total);
    RoundedPercentageBounds(completed, total, p);
    p
  }

  lemma RoundedPercentageBounds(c: nat, t: nat, p: int)
    requires t > 0 && p == (200 * c + t) / (2 * t)
    ensures (p as real) - 0.5 <= 100.0 * (c as real) / (t as real) < (p as real) + 0.5
  {
    var q := 200 * c + t;
    var r := q % (2 * t);
    assert q == p * (2 * t) + r && 0 <= r < 2 * t;
    // in integers: (2p - 1)·t <= 200·c < (2p + 1)·t
    assert (2 * p - 1) * t == 200 * c - r;
    assert (2 * p + 1) * t == 200 * c - r + 2 * t;
    var x := 100.0 * (c as real) / (t as real);
    var tr := t as real;
    assert x * tr == 100.0 * (c as real);
    assert ((2 * p - 1) as real) * tr <= 2.0 * x * tr;
    assert 2.0 * x * tr < ((2 * p + 1) as real) * tr;
    RealScale((2 * p - 1) as real, 2.0 * x, tr);
    RealScaleStrict(2.0 * x, (2 * p + 1) as real, tr);
  }

  lemma RealScale(a: real, b: real, t: real)
    requires t > 0.0 && a * t <= b * t
    ensures a <= b
  {
  }

  lemma RealScaleStrict(a: real, b: real, t: real)
    requires t > 0.0 && a * t < b * t
    ensures a < b
  {
  }

  lemma RoundedPercentageRange(completed: nat, total: nat)
    requires total > 0 && completed <= total
    ensures 0 <= RoundedPercentage(completed, total) <= 100
    ensures completed == total ==> RoundedPercentage(completed, total) == 100
    ensures completed == 0 ==> RoundedPercentage(completed, total) == 0
  {
    var q, d := 200 * completed + total, 2 * total;
    assert RoundedPercentage(completed, total) == q / d;
    assert q < 101 * d;
    DivLess(q, d, 101);
    if completed == total {
      assert 100 * d <= q < 101 * d;
      DivExact(q, d, 100);
    }
    if completed == 0 {
      DivExact(q, d, 0);
    }
  }

  lemma DivLess(q: nat, d: nat, k: int)
    requires d > 0 && q < k * d
    ensures q / d < k
  {
    var p, r := q / d, q % d;
    assert q == p * d + r && 0 <= r;
    if p >= k {
      MulMono(k, p, d);
    }
  }

  lemma DivExact(q: nat, d: nat, k: int)
    requires d > 0 && k * d <= q < (k + 1) * d
    ensures q / d == k
  {
    var p, r := q / d, q % d;
    assert q == p * d + r && 0 <= r < d;
    if p < k {
      MulMono(p + 1, k, d);
    } else if p > k {
      MulMono(k + 1, p, d);
    }
  }

  lemma MulMono(a: int, b: int, d: nat)
    requires a <= b
    ensures a * d <= b * d
  {
    assert b * d - a * d == (b - a) * d;
  }
}
