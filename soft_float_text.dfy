/** Decimal text for SoftFloat: `Display`, and the string half of
    `From<f64>` (the f64 is given by its sign bit and the text Rust's
    `format!("{}", …)` gives for its absolute value). */
module SoftFloatText {
  import opened Prelude
  import opened SoftFloats

  // ---------------------------------------------------------------------
  // Decimal numerals

  predicate IsDigit(c: char)
  {
    '0' <= c <= '9'
  }

  predicate AllDigits(s: string)
  {
    forall i :: 0 <= i < |s| ==> IsDigit(s[i])
  }

  function DigitChar(d: nat): (c: char)
    requires d < 10
    ensures IsDigit(c)
  {
    (48 + d) as char
  }

  function DigitValue(c: char): (d: nat)
    requires IsDigit(c)
    ensures d < 10 && DigitChar(d) == c
  {
    c as int - 48
  }

  /** `u64::to_string`: the shortest decimal numeral. */
  function DigitString(n: nat): (s: string)
    ensures |s| >= 1 && AllDigits(s)
    ensures n < 10 <==> |s| == 1
    ensures s[0] == '0' <==> n == 0
  {
    if n < 10 then [DigitChar(n)] else DigitString(n / 10) + [DigitChar(n % 10)]
  }

  /** The number a string of ASCII digits denotes. */
  function ParseDigits(s: string): nat
    requires AllDigits(s)
  {
    if s == [] then 0 else ParseDigits(s[..|s| - 1]) * 10 + DigitValue(s[|s| - 1])
  }

  /** Reading back a printed number gives the number. */
  lemma {:induction false} ParseDigitString(n: nat)
    ensures ParseDigits(DigitString(n)) == n
  {
    if n >= 10 {
      var s := DigitString(n);
      assert s[..|s| - 1] == DigitString(n / 10);
      ParseDigitString(n / 10);
    }
  }

  /** Printing a parsed numeral without leading zeros gives the numeral. */
  lemma {:induction false} DigitStringParse(s: string)
    requires AllDigits(s) && |s| >= 1 && (|s| == 1 || s[0] != '0')
    ensures DigitString(ParseDigits(s)) == s
  {
    if |s| > 1 {
      var p := s[..|s| - 1];
      ParseLeadingDigit(p);
      DigitStringParse(p);
      var n := ParseDigits(s);
      assert n / 10 == ParseDigits(p);
      assert n % 10 == DigitValue(s[|s| - 1]);
      assert s == p + [s[|s| - 1]];
    }
  }

  /** A numeral of L digits is below 10^L. */
  lemma {:induction false} DigitStringBelow(n: nat)
    ensures n < Pow10(|DigitString(n)|)
  {
    if n >= 10 {
      DigitStringBelow(n / 10);
      assert |DigitString(n)| == |DigitString(n / 10)| + 1;
    }
  }

  /** A number below 10^k has at most k digits. */
  lemma {:induction false} DigitStringShort(n: nat, k: nat)
    requires k >= 1 && n < Pow10(k)
    ensures |DigitString(n)| <= k
  {
    if n >= 10 {
      assert Pow10(k) == 10 * Pow10(k - 1);
      DigitStringShort(n / 10, k - 1);
    }
  }

  lemma {:induction false} ParseLeadingDigit(s: string)
    requires AllDigits(s) && |s| >= 1 && s[0] != '0'
    ensures ParseDigits(s) >= 1
  {
    if |s| > 1 {
      ParseLeadingDigit(s[..|s| - 1]);
    }
  }

  function Zeros(n: nat): (z: string)
    ensures |z| == n && AllDigits(z)
  {
    seq(n, _ => '0')
  }

  /** Leading zeros do not change a numeral's value. */
  lemma {:induction false} ParseLeadingZeros(n: nat, s: string)
    requires AllDigits(s)
    ensures AllDigits(Zeros(n) + s)
    ensures ParseDigits(Zeros(n) + s) == ParseDigits(s)
  {
    var t := Zeros(n) + s;
    assert AllDigits(t) by {
      forall i | 0 <= i < |t| ensures IsDigit(t[i]) {
        if i >= n {
          assert t[i] == s[i - n];
        }
      }
    }
    if s == [] {
      ParseZeros(n);
      assert t == Zeros(n);
    } else {
      var p := s[..|s| - 1];
      ParseLeadingZeros(n, p);
      assert t[..|t| - 1] == Zeros(n) + p;
    }
  }

  lemma {:induction false} ParseZeros(n: nat)
    ensures ParseDigits(Zeros(n)) == 0
  {
    if n > 0 {
      assert Zeros(n)[..n - 1] == Zeros(n - 1);
      ParseZeros(n - 1);
    }
  }

  // ---------------------------------------------------------------------
  // Display

  /** `Display for SoftFloat` without its sign: the digits of the
      significand, with a '.' inserted |exponent| digits from the right when
      the exponent is negative, and "0." plus leading zeros when there are
      fewer digits than that. The index `len + exponent` is i32 arithmetic
      that cannot overflow, since a u64 has at most 20 digits. */
  function DisplayMagnitude(x: SoftFloat): (s: string)
    ensures |s| >= 1 && IsDigit(s[0])
    ensures '.' in s <==> x.exponent < 0
    ensures x.exponent >= 0 ==> s == DigitString(x.significand)
  {
    var digits := DigitString(x.significand);
    if x.exponent < 0 then
      var idx := |digits| + x.exponent;
      if idx <= 0 then
        assert ("0." + Zeros(-idx) + digits)[1] == '.';
        "0." + Zeros(-idx) + digits
      else
        assert (digits[..idx] + "." + digits[idx..])[idx] == '.';
        digits[..idx] + "." + digits[idx..]
    else
      NoDot(digits);
      digits
  }

  /** `Display for SoftFloat`: a '-' prefix exactly when `positive` is
      false, then the magnitude. */
  function Display(x: SoftFloat): (s: string)
    ensures |s| >= 1 && (s[0] == '-' <==> !x.positive)
  {
    var m := DisplayMagnitude(x);
    (if x.positive then "" else "-") + m
  }

  /** The to_string tests with a hand-built SoftFloat. */
  lemma DisplayBelowOneExample()
    ensures Display(SoftFloat(true, -7, 125)) == "0.0000125"
  {
    assert DigitString(125) == "125";
  }

  lemma DisplayWithPointExample()
    ensures Display(SoftFloat(true, -5, 6089523)) == "60.89523"
  {
    MagnitudeWithPointExample(true);
  }

  lemma DisplayNegativeExample()
    ensures Display(SoftFloat(false, -5, 6089523)) == "-60.89523"
  {
    MagnitudeWithPointExample(false);
  }

  lemma DigitsExample()
    ensures DigitString(6089523) == "6089523"
  {
    assert DigitString(6) == "6";
    assert DigitString(60) == "6" + "0";
    assert DigitString(608) == "60" + "8";
    assert DigitString(6089) == "608" + "9";
    assert DigitString(60895) == "6089" + "5";
    assert DigitString(608952) == "60895" + "2";
    assert DigitString(6089523) == "608952" + "3";
  }

  lemma MagnitudeWithPointExample(positive: bool)
    ensures DisplayMagnitude(SoftFloat(positive, -5, 6089523)) == "60.89523"
  {
    DigitsExample();
    var digits := DigitString(6089523);
    assert |digits| == 7;
    assert DisplayMagnitude(SoftFloat(positive, -5, 6089523)) == digits[..2] + "." + digits[2..];
    assert digits[..2] == "60" && digits[2..] == "89523";
  }

  // ---------------------------------------------------------------------
  // From<f64>, after the float has been formatted

  /** `str::split(sep)`: the pieces between separators, empty ones included. */
  function Split(s: string, sep: char): (parts: seq<string>)
    ensures |parts| >= 1
  {
    if s == [] then [[]]
    else
      var rest := Split(s[1..], sep);
      if s[0] == sep then [[]] + rest else [[s[0]] + rest[0]] + rest[1..]
  }

  /** `parts.join("")`. */
  function Join(parts: seq<string>): string
  {
    if parts == [] then [] else parts[0] + Join(parts[1..])
  }

  lemma {:induction false} SplitNone(s: string, sep: char)
    requires sep !in s
    ensures Split(s, sep) == [s]
  {
    if s != [] {
      assert sep !in s[1..];
      SplitNone(s[1..], sep);
      assert [s[0]] + s[1..] == s;
    }
  }

  lemma {:induction false} SplitOnce(a: string, b: string, sep: char)
    requires sep !in a && sep !in b
    ensures Split(a + [sep] + b, sep) == [a, b]
  {
    var s := a + [sep] + b;
    if a == [] {
      assert s[1..] == b;
      SplitNone(b, sep);
    } else {
      assert s[1..] == a[1..] + [sep] + b;
      assert sep !in a[1..];
      SplitOnce(a[1..], b, sep);
      assert [a[0]] + a[1..] == a;
    }
  }

  lemma NoDot(s: string)
    requires AllDigits(s)
    ensures '.' !in s
  {
    forall i | 0 <= i < |s|
      ensures s[i] != '.'
    {
      assert IsDigit(s[i]);
    }
  }

  /** `str::parse::<u64>()`: an optional '+', then one or more ASCII digits
      whose value fits a u64; anything else is an error. */
  function ParseU64(s: string): (r: Option<u64>)
    ensures r.Some? ==> |s| >= 1
  {
    var digits := if |s| > 0 && s[0] == '+' then s[1..] else s;
    if |digits| == 0 || !AllDigits(digits) then None
    else if ParseDigits(digits) > U64_MAX then None
    else Some(ParseDigits(digits))
  }

  /** `usize as i32`: keep the low 32 bits, read them as two's complement. */
  function AsI32(n: nat): (r: i32)
    ensures n <= I32_MAX ==> r == n
  {
    var m := n % 0x1_0000_0000;
    if m <= I32_MAX then m else m - 0x1_0000_0000
  }

  /** A text whose every character is '0' or '.': the text of a zero. */
  predicate DenotesZero(text: string)
  {
    forall i :: 0 <= i < |text| ==> text[i] == '0' || text[i] == '.'
  }

  /** `From<f64> for SoftFloat` after `format!("{}", |a|)`: the float is
      negative when its sign bit is set and it is not zero; the exponent is
      minus the length of the piece after the first '.', as
      `-1 * (len as i32)`, which overflows when the cast gives i32::MIN; the
      significand is every piece joined and parsed, and a parse error is the
      panic of `unwrap`. */
  function FromFloatText(signBit: bool, text: string): (r: Outcome<SoftFloat>)
    ensures r.Ok? ==> r.value.exponent > I32_MIN
    ensures r.Ok? && '.' !in text ==> r.value.exponent == 0
    ensures r.Ok? && !signBit ==> r.value.positive
  {
    SplitWithoutPoint(text);
    var parts := Split(text, '.');
    Assemble(!(signBit && !DenotesZero(text)), FractionExponent(parts), ParseU64(Join(parts)))
  }

  lemma SplitWithoutPoint(text: string)
    ensures '.' !in text ==> Split(text, '.') == [text]
  {
    if '.' !in text {
      SplitNone(text, '.');
    }
  }

  /** `-1 * (parts[1].len() as i32)` when there is a second piece, else 0. */
  function FractionExponent(parts: seq<string>): (r: Outcome<i32>)
    ensures |parts| > 1 && |parts[1]| <= I32_MAX ==> r == Ok(-|parts[1]|)
    ensures |parts| <= 1 ==> r == Ok(0)
    ensures r.Ok? ==> r.value > I32_MIN
  {
    if |parts| > 1 then
      var n := AsI32(|parts[1]|);
      if n == I32_MIN then Panic else Ok(-n)
    else Ok(0)
  }

  /** The struct literal, after `unwrap` of the parsed significand. */
  function Assemble(positive: bool, exponent: Outcome<i32>, significand: Option<u64>): Outcome<SoftFloat>
  {
    match (exponent, significand)
    case (Panic, _) => Panic
    case (_, None) => Panic
    case (Ok(e), Some(s)) => Ok(SoftFloat(positive, e, s))
  }

  /** Text of the shape Rust prints for a finite f64: an integer part, then
      optionally '.' and a fractional part. */
  predicate Decimal(whole: string, fraction: string)
  {
    |whole| >= 1 && AllDigits(whole) && AllDigits(fraction)
  }

  /** Parsing "whole.fraction": the exponent is minus the number of
      fractional digits and the significand is all the digits read as one
      number; it panics exactly when that number leaves u64. */
  lemma FromFractionText(signBit: bool, whole: string, fraction: string)
    requires Decimal(whole, fraction) && |fraction| <= I32_MAX
    ensures AllDigits(whole + fraction)
    ensures var r := FromFloatText(signBit, whole + "." + fraction);
      (r.Ok? <==> ParseDigits(whole + fraction) <= U64_MAX) &&
      (r.Ok? ==> r.value.exponent == -|fraction| &&
                 r.value.significand == ParseDigits(whole + fraction) &&
                 r.value.positive == !(signBit && !DenotesZero(whole + "." + fraction)))
  {
    var text := whole + "." + fraction;
    var all := whole + fraction;
    NoDot(whole);
    NoDot(fraction);
    SplitOnce(whole, fraction, '.');
    assert text == whole + ['.'] + fraction;
    var parts := Split(text, '.');
    assert parts == [whole, fraction];
    assert Join(parts) == all by {
      assert Join(parts[1..]) == fraction + Join([]);
    }
    assert AllDigits(all) by {
      forall i | 0 <= i < |all| ensures IsDigit(all[i]) {
        if i >= |whole| {
          assert all[i] == fraction[i - |whole|];
        }
      }
    }
    assert all[0] != '+';
    assert FractionExponent(parts) == Ok(-|fraction|);
  }

  /** Parsing a text with no '.': exponent 0. */
  lemma FromWholeText(signBit: bool, whole: string)
    requires |whole| >= 1 && AllDigits(whole)
    ensures var r := FromFloatText(signBit, whole);
      (r.Ok? <==> ParseDigits(whole) <= U64_MAX) &&
      (r.Ok? ==> r.value.exponent == 0 && r.value.significand == ParseDigits(whole) &&
                 r.value.positive == !(signBit && !DenotesZero(whole)))
  {
    NoDot(whole);
    SplitNone(whole, '.');
    assert Join([whole]) == whole;
    assert whole[0] != '+' by {
      assert IsDigit(whole[0]);
    }
    var positive := !(signBit && !DenotesZero(whole));
    assert FromFloatText(signBit, whole) == Assemble(positive, Ok(0), ParseU64(whole));
  }

  /** Negative zero parses as +0. */
  lemma FromNegativeZero()
    ensures FromFloatText(true, "0") == Ok(Zero)
    ensures FromFloatText(false, "0") == Ok(Zero)
  {
    FromWholeText(true, "0");
    FromWholeText(false, "0");
  }

  /** The convert_from_float_works test cases without a fraction. */
  lemma FromWholeExamples()
    ensures FromFloatText(false, "100") == Ok(SoftFloat(true, 0, 100))
  {
    FromWholeText(false, "100");
    assert ParseDigits("100") == 100 by {
      assert "100"[..2] == "10";
      assert "10"[..1] == "1";
    }
  }

  /** The convert_from_float_works test cases with a fraction. */
  lemma FromFractionLeadingZeros()
    ensures FromFloatText(false, "0.001") == Ok(SoftFloat(true, -3, 1))
  {
    FromFractionText(false, "0", "001");
    assert "0" + "." + "001" == "0.001";
    assert ParseDigits("0" + "001") == 1 by {
      ParseLeadingZeros(3, "1");
      assert "0" + "001" == Zeros(3) + "1";
    }
  }

  lemma FromFractionMixed()
    ensures FromFloatText(false, "12.5") == Ok(SoftFloat(true, -1, 125))
  {
    FromFractionText(false, "12", "5");
    assert "12" + "." + "5" == "12.5";
    assert ParseDigits("12" + "5") == 125 by {
      assert "12" + "5" == "125";
      assert "125"[..2] == "12";
      assert "12"[..1] == "1";
    }
  }

  // ---------------------------------------------------------------------
  // Round trips

  lemma DigitStringZero(n: nat)
    ensures DenotesZero(DigitString(n)) <==> n == 0
  {
  }

  /** Parsing the displayed text of a SoftFloat with a non-positive exponent
      gives back the same SoftFloat (negative zero excepted: it parses as +0). */
  lemma FromDisplay(x: SoftFloat)
    requires Fractional(x)
    requires x.positive || x.significand != 0
    ensures FromFloatText(!x.positive, DisplayMagnitude(x)) == Ok(x)
  {
    ParseDigitString(x.significand);
    if x.exponent == 0 {
      var digits := DigitString(x.significand);
      FromWholeText(!x.positive, digits);
      DigitStringZero(x.significand);
    } else if |DigitString(x.significand)| + x.exponent <= 0 {
      FromDisplayBelowOne(x);
    } else {
      FromDisplayAboveOne(x);
    }
  }

  lemma FromDisplayBelowOne(x: SoftFloat)
    requires Fractional(x) && x.exponent < 0
    requires x.positive || x.significand != 0
    requires |DigitString(x.significand)| + x.exponent <= 0
    requires ParseDigits(DigitString(x.significand)) == x.significand
    ensures FromFloatText(!x.positive, DisplayMagnitude(x)) == Ok(x)
  {
    var digits := DigitString(x.significand);
    var z: nat := -(|digits| + x.exponent);
    var fraction := Zeros(z) + digits;
    ZeroPointDigits(z, digits);
    assert DisplayMagnitude(x) == "0" + "." + fraction;
    FromFractionText(!x.positive, "0", fraction);
    ZeroPointSign(z, x.significand);
  }

  /** "0" followed by zeros and a numeral reads as the numeral. */
  lemma ZeroPointDigits(z: nat, digits: string)
    requires AllDigits(digits)
    ensures AllDigits(Zeros(z) + digits)
    ensures AllDigits("0" + (Zeros(z) + digits))
    ensures ParseDigits("0" + (Zeros(z) + digits)) == ParseDigits(digits)
  {
    ParseLeadingZeros(z, digits);
    assert "0" + (Zeros(z) + digits) == Zeros(z + 1) + digits;
    ParseLeadingZeros(z + 1, digits);
  }

  /** "0." followed by zeros and the digits of n is the text of a zero
      exactly when n is zero. */
  lemma ZeroPointSign(z: nat, n: nat)
    ensures var text := "0" + "." + (Zeros(z) + DigitString(n));
      DenotesZero(text) <==> n == 0
  {
    var digits := DigitString(n);
    var text := "0" + "." + (Zeros(z) + digits);
    if n != 0 {
      assert text[2 + z] == digits[0];
    } else {
      assert digits == "0";
      assert forall i :: 0 <= i < |text| ==> text[i] == '0' || text[i] == '.';
    }
  }

  lemma FromDisplayAboveOne(x: SoftFloat)
    requires Fractional(x) && x.exponent < 0
    requires |DigitString(x.significand)| + x.exponent > 0
    requires ParseDigits(DigitString(x.significand)) == x.significand
    ensures FromFloatText(!x.positive, DisplayMagnitude(x)) == Ok(x)
  {
    var digits := DigitString(x.significand);
    var idx := |digits| + x.exponent;
    var whole, fraction := digits[..idx], digits[idx..];
    var text := DisplayMagnitude(x);
    assert whole + fraction == digits;
    assert text == whole + "." + fraction;
    FromFractionText(!x.positive, whole, fraction);
    assert text[0] == digits[0];
  }

  /** Displaying what was parsed from a decimal text gives the text back,
      prefixed with '-' exactly for a nonzero negative float, when the text
      is canonical: no leading zero in the integer part unless it is "0",
      and at least one digit after a '.'. */
  lemma DisplayFromFraction(signBit: bool, whole: string, fraction: string)
    requires Decimal(whole, fraction) && 1 <= |fraction| <= I32_MAX
    requires whole == "0" || whole[0] != '0'
    requires AllDigits(whole + fraction) && ParseDigits(whole + fraction) <= U64_MAX
    ensures var text := whole + "." + fraction;
      FromFloatText(signBit, text).Ok? &&
      Display(FromFloatText(signBit, text).value) ==
        (if signBit && !DenotesZero(text) then "-" else "") + text
  {
    FromFractionText(signBit, whole, fraction);
    var x := FromFloatText(signBit, whole + "." + fraction).value;
    if whole != "0" {
      DisplayAboveOne(whole, fraction, x);
    } else {
      DisplayBelowOne(fraction, x);
    }
  }

  lemma DisplayAboveOne(whole: string, fraction: string, x: SoftFloat)
    requires Decimal(whole, fraction) && 1 <= |fraction| <= I32_MAX && whole[0] != '0'
    requires AllDigits(whole + fraction)
    requires x.exponent == -|fraction| && x.significand == ParseDigits(whole + fraction)
    ensures DisplayMagnitude(x) == whole + "." + fraction
  {
    var all := whole + fraction;
    DigitStringParse(all);
    assert all[..|whole|] == whole && all[|whole|..] == fraction;
  }

  lemma DisplayBelowOne(fraction: string, x: SoftFloat)
    requires Decimal("0", fraction) && 1 <= |fraction| <= I32_MAX
    requires AllDigits("0" + fraction)
    requires x.exponent == -|fraction| && x.significand == ParseDigits("0" + fraction)
    ensures DisplayMagnitude(x) == "0" + "." + fraction
  {
    var z := LeadingZeros(fraction);
    DropLeadingZeros(fraction);
    DisplayZerosThen(z, fraction[z..], fraction, x);
  }

  lemma DisplayZerosThen(z: nat, rest: string, fraction: string, x: SoftFloat)
    requires fraction == Zeros(z) + rest && |fraction| >= 1
    requires AllDigits(rest) && (rest == [] || rest[0] != '0')
    requires AllDigits("0" + fraction)
    requires x.exponent == -|fraction| && x.significand == ParseDigits("0" + fraction)
    ensures DisplayMagnitude(x) == "0" + "." + fraction
  {
    ZeroPointDigits(z, rest);
    if rest == [] {
      assert fraction == Zeros(z);
      DisplayZeroFraction(x);
    } else {
      DisplayLeadingZeros(z, rest, x);
    }
  }

  lemma DropLeadingZeros(s: string)
    requires AllDigits(s)
    ensures s == Zeros(LeadingZeros(s)) + s[LeadingZeros(s)..]
    ensures AllDigits(s[LeadingZeros(s)..])
  {
    var z := LeadingZeros(s);
    assert s == s[..z] + s[z..];
  }

  lemma DisplayZeroFraction(x: SoftFloat)
    requires x.significand == 0 && x.exponent < 0
    ensures DisplayMagnitude(x) == "0." + Zeros(-(x.exponent as int))
  {
    var n := -(x.exponent as int);
    assert DigitString(0) == "0";
    assert Zeros(n - 1) + "0" == Zeros(n);
  }

  lemma DisplayLeadingZeros(z: nat, rest: string, x: SoftFloat)
    requires |rest| >= 1 && AllDigits(rest) && rest[0] != '0'
    requires x.significand == ParseDigits(rest) && x.exponent == -(z + |rest|)
    ensures DisplayMagnitude(x) == "0." + Zeros(z) + rest
  {
    DigitStringParse(rest);
  }

  /** The same for a text with no '.'. */
  lemma DisplayFromWhole(signBit: bool, whole: string)
    requires |whole| >= 1 && AllDigits(whole) && (whole == "0" || whole[0] != '0')
    requires ParseDigits(whole) <= U64_MAX
    ensures FromFloatText(signBit, whole).Ok? &&
      Display(FromFloatText(signBit, whole).value) ==
        (if signBit && !DenotesZero(whole) then "-" else "") + whole
  {
    FromWholeText(signBit, whole);
    DigitStringParse(whole);
  }

  /** The number of '0' characters a string starts with. */
  function LeadingZeros(s: string): (z: nat)
    ensures z <= |s| && s[..z] == Zeros(z)
    ensures z < |s| ==> s[z] != '0'
  {
    if s == [] || s[0] != '0' then 0
    else
      var z := LeadingZeros(s[1..]);
      assert s[..z + 1] == [s[0]] + s[1..][..z];
      z + 1
  }

  // ---------------------------------------------------------------------
  // Stripping zeros past the decimal point

  /** 0.5 + 9.5: remove_trailing_zeros turns the sum 10.0 (significand 100,
      exponent -1) into significand 1, exponent 1. The value is right, but
      Display prints "1", and a further addition of 0.5 pads neither
      significand (both exponents have absolute value 1), giving 0.6. */
  lemma StripPastPoint()
    ensures var half, nineHalf := SoftFloat(true, -1, 5), SoftFloat(true, -1, 95);
      Add(half, nineHalf) == Ok(SoftFloat(true, 1, 1)) &&
      Value(SoftFloat(true, 1, 1)) == 10.0 &&
      Display(SoftFloat(true, 1, 1)) == "1" &&
      Add(SoftFloat(true, 1, 1), half) == Ok(SoftFloat(true, -1, 6)) &&
      Value(SoftFloat(true, -1, 6)) == 6.0 / 10.0
  {
    var sum := SoftFloat(true, -1, 100);
    assert StripZeros(100, -1) == (1, 1) by {
      assert StripZeros(1, 1) == (1, 1);
      assert StripZeros(10, 0) == (1, 1);
    }
    assert Normalized(sum) == SoftFloat(true, 1, 1);
    assert Shift(1.0, 1) == 10.0 * Shift(1.0, 0);
    assert Shift(6.0, -1) == Shift(6.0, 0) / 10.0;
    assert DigitString(1) == "1";
  }

  /** With stripping that stops at the decimal point, 0.5 + 9.5 keeps
      significand 10 at exponent 0 and is displayed "10". */
  lemma StripFractionExample()
    ensures NormalizedFraction(SoftFloat(true, -1, 100)) == SoftFloat(true, 0, 10)
    ensures Display(SoftFloat(true, 0, 10)) == "10"
  {
    assert StripFraction(100, -1) == (10, 0);
    assert DigitString(10) == "10";
  }

  /** The corrected sum repairs the chain: 0.5 + 9.5 is 10·10^0, printed
      "10", and adding 0.5 to it gives 105·10^-1, printed "10.5". */
  lemma FractionSumChain()
    ensures var half, nineHalf := SoftFloat(true, -1, 5), SoftFloat(true, -1, 95);
      AddAlignedFraction(half, nineHalf) == Ok(SoftFloat(true, 0, 10)) &&
      AddAlignedFraction(SoftFloat(true, 0, 10), half) == Ok(SoftFloat(true, -1, 105)) &&
      Display(SoftFloat(true, -1, 105)) == "10.5"
  {
    StripFractionExample();
    assert StripFraction(105, -1) == (105, -1);
    assert DigitString(105) == "105" by {
      assert DigitString(10) == "10";
    }
  }

  /** With stripping that stops at the decimal point, a normalised value
      with a non-positive exponent keeps one, so its displayed text parses
      back to the very same SoftFloat. */
  lemma NormalizedFractionDisplays(x: SoftFloat)
    requires Fractional(x)
    ensures var r := NormalizedFraction(x);
      Value(r) == Value(x) && Fractional(r) &&
      FromFloatText(!r.positive, DisplayMagnitude(r)) == Ok(r)
  {
    var r := NormalizedFraction(x);
    FromDisplay(r);
  }
}
