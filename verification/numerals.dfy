/** Integer rendering and the number parsers behind `int.TryParse` and `double.TryParse`. */
module Numerals {
  import opened Outcomes
  import opened Text

  const MinInt32: int := -0x8000_0000
  const MaxInt32: int := 0x7FFF_FFFF

  /** The C# `int`. */
  type Int32 = n: int | MinInt32 <= n <= MaxInt32

  predicate IsDigit(c: char) {
    '0' <= c <= '9'
  }

  predicate AllDigits(s: string) {
    forall k :: 0 <= k < |s| ==> IsDigit(s[k])
  }

  function DigitValue(c: char): nat
    requires IsDigit(c)
  {
    c as int - '0' as int
  }

  function DigitChar(d: nat): (c: char)
    requires d < 10
    ensures IsDigit(c) && DigitValue(c) == d
  {
    ('0' as int + d) as char
  }

  /** The value of a decimal digit string, most significant digit first. */
  function DigitsValue(ds: string): nat
    requires AllDigits(ds)
  {
    if |ds| == 0 then 0 else DigitsValue(ds[..|ds| - 1]) * 10 + DigitValue(ds[|ds| - 1])
  }

  function Pow10(k: nat): (p: nat)
    ensures p >= 1
  {
    if k == 0 then 1 else 10 * Pow10(k - 1)
  }

  /** The shortest decimal digits of `n`. */
  function NatDigits(n: nat): (ds: string)
    ensures |ds| > 0 && AllDigits(ds)
    ensures DigitsValue(ds) == n
  {
    if n < 10 then [DigitChar(n)]
    else
      var ds := NatDigits(n / 10) + [DigitChar(n % 10)];
      assert ds[..|ds| - 1] == NatDigits(n / 10);
      ds
  }

  /** An integer as `{n}` interpolation renders it: a minus sign, then the digits. */
  function IntToString(n: int): (s: string)
    ensures |s| > 0
    ensures forall k :: 0 <= k < |s| ==> IsDigit(s[k]) || (k == 0 && s[k] == '-')
  {
    if n < 0 then "-" + NatDigits(-n) else NatDigits(n)
  }

  /** Splits an optional leading `+` or `-` off `t`: (negative, rest). */
  function SplitSign(t: string): (bool, string) {
    if |t| > 0 && (t[0] == '-' || t[0] == '+') then (t[0] == '-', t[1..]) else (false, t)
  }

  /** `int.TryParse` (`NumberStyles.Integer`): white space around an optionally signed
      run of digits whose value fits in 32 bits. */
  function ParseInt32(s: string): (r: Option<Int32>)
    ensures r.Some? ==> |TrimWhite(s)| > 0
    ensures r.Some? ==> forall k :: 0 <= k < |TrimWhite(s)| ==> IsNumeralChar(TrimWhite(s)[k]) && TrimWhite(s)[k] != '.'
  {
    var (negative, ds) := SplitSign(TrimWhite(s));
    if |ds| == 0 || !AllDigits(ds) then None
    else
      var n := if negative then -(DigitsValue(ds) as int) else DigitsValue(ds) as int;
      if MinInt32 <= n <= MaxInt32 then Some(n) else None
  }

  function IndexOf(s: string, c: char): (r: Option<nat>)
    ensures r.Some? ==> r.value < |s| && s[r.value] == c && c !in s[..r.value]
    ensures r.None? ==> c !in s
  {
    if |s| == 0 then None
    else if s[0] == c then Some(0)
    else match IndexOf(s[1..], c)
      case None => None
      case Some(i) => assert s[..i + 1] == [s[0]] + s[1..][..i]; Some(i + 1)
  }

  /** Digits with at most one decimal point and at least one digit. */
  function DecimalValue(body: string): Option<real> {
    var dot := IndexOf(body, '.');
    var whole := if dot.Some? then body[..dot.value] else body;
    var fraction := if dot.Some? then body[dot.value + 1..] else "";
    if AllDigits(whole) && AllDigits(fraction) && |whole| + |fraction| > 0 then
      Some(DigitsValue(whole) as real + DigitsValue(fraction) as real / Pow10(|fraction|) as real)
    else None
  }

  /** An optionally signed decimal numeral with no surrounding white space. */
  function Numeral(t: string): Option<real> {
    var (negative, body) := SplitSign(t);
    match DecimalValue(body)
    case None => None
    case Some(x) => Some(if negative then -x else x)
  }

  /** `double.TryParse(s, NumberStyles.Any, CultureInfo.InvariantCulture)` on the
      decimal-point numerals (the other `NumberStyles.Any` forms are not modelled). */
  function ParseNumber(s: string): (r: Option<real>)
    ensures r.Some? ==> |TrimWhite(s)| > 0
    ensures r.Some? ==> forall k :: 0 <= k < |TrimWhite(s)| ==> IsNumeralChar(TrimWhite(s)[k])
  {
    var t := TrimWhite(s);
    var r := Numeral(t);
    if r.Some? then NumeralChars(t); r else r
  }

  predicate IsNumeralChar(c: char) {
    IsDigit(c) || c == '-' || c == '+' || c == '.'
  }

  /** Only digits, signs and decimal points can make up a numeral. */
  lemma NumeralChars(t: string)
    requires Numeral(t).Some?
    ensures forall k :: 0 <= k < |t| ==> IsNumeralChar(t[k])
  {
    var body := SplitSign(t).1;
    DecimalChars(body);
    if t != body {
      assert t == [t[0]] + body;
    }
  }

  /** Only digits and decimal points can make up a decimal value. */
  lemma DecimalChars(body: string)
    requires DecimalValue(body).Some?
    ensures forall k :: 0 <= k < |body| ==> IsNumeralChar(body[k])
  {
    var dot := IndexOf(body, '.');
    if dot.Some? {
      var whole := body[..dot.value];
      var fraction := body[dot.value + 1..];
      assert AllDigits(whole) && AllDigits(fraction);
      assert body == whole + ['.'] + fraction;
    } else {
      assert AllDigits(body);
    }
  }

  /** A string that, once trimmed, starts with something other than a numeral character is no number. */
  lemma NotANumber(s: string)
    requires |TrimWhite(s)| > 0 && !IsNumeralChar(TrimWhite(s)[0])
    ensures ParseNumber(s).None?
  {
    if ParseNumber(s).Some? {
      NumeralChars(TrimWhite(s));
    }
  }

  /** A rendered integer has no white space at either end. */
  lemma IntToStringTrimmed(n: int)
    ensures TrimWhite(IntToString(n)) == IntToString(n)
  {
    var s := IntToString(n);
    assert !IsSpace(s[0]) && !IsSpace(s[|s| - 1]);
    TrimUntouched(s, IsSpace);
  }

  /** `int.TryParse` reads back every rendered 32-bit integer. */
  lemma ParseInt32IntToString(n: Int32)
    ensures ParseInt32(IntToString(n)) == Some(n)
  {
    IntToStringTrimmed(n);
    var s := IntToString(n);
    if n < 0 {
      assert SplitSign(s).1 == NatDigits(-(n as int));
    } else {
      assert SplitSign(s).1 == NatDigits(n);
    }
  }

  /** `double.TryParse` reads back every rendered integer as that integer. */
  lemma ParseNumberIntToString(n: int)
    ensures ParseNumber(IntToString(n)) == Some(n as real)
  {
    IntToStringTrimmed(n);
    var ds := if n < 0 then NatDigits(-n) else NatDigits(n);
    assert SplitSign(IntToString(n)) == (n < 0, ds);
    DecimalOfDigits(ds);
  }

  /** A run of digits is a decimal numeral worth its digits' value. */
  lemma DecimalOfDigits(ds: string)
    requires |ds| > 0 && AllDigits(ds)
    ensures DecimalValue(ds) == Some(DigitsValue(ds) as real)
  {
    assert forall k :: 0 <= k < |ds| ==> ds[k] != '.';
    assert AllDigits("") && DigitsValue("") == 0 && Pow10(0) == 1;
  }
}
