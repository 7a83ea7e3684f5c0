/** The decimal software float: a sign, an i32 decimal exponent and a u64
    significand, standing for ±significand·10^exponent. Arithmetic follows a
    debug build of the Rust code: every integer overflow is a panic. */
module SoftFloats {
  import opened Prelude

  datatype SoftFloat = SoftFloat(positive: bool, exponent: i32, significand: u64)

  /** The one representation of zero that normalisation produces. */
  const Zero: SoftFloat := SoftFloat(true, 0, 0)

  /** |x|: the significand shifted by the exponent. It is zero exactly for
      a zero significand, whatever the exponent and the sign. */
  function Magnitude(x: SoftFloat): (m: real)
    ensures m >= 0.0
    ensures m == 0.0 <==> x.significand == 0
  {
    if x.significand == 0 then
      ShiftZero(x.exponent);
      Shift(x.significand as real, x.exponent)
    else
      ShiftPositive(x.significand as real, x.exponent);
      Shift(x.significand as real, x.exponent)
  }

  /** The number a SoftFloat stands for: ±significand·10^exponent. A zero
      significand stands for 0 under either sign; otherwise the sign flag is
      the sign of the number. */
  function Value(x: SoftFloat): (v: real)
    ensures v == 0.0 <==> x.significand == 0
    ensures x.significand != 0 ==> (v > 0.0 <==> x.positive)
    ensures (if v < 0.0 then -v else v) == Magnitude(x)
  {
    if x.positive then Magnitude(x) else -Magnitude(x)
  }

  function Abs(e: int): nat
  {
    if e < 0 then -e else e
  }

  function Min(a: int, b: int): int
  {
    if a < b then a else b
  }

  function Max(a: int, b: int): int
  {
    if a < b then b else a
  }

  // ---------------------------------------------------------------------
  // remove_trailing_zeros

  /** The loop of remove_trailing_zeros: while the significand is a nonzero
      multiple of ten, divide it by ten and raise the exponent by one. */
  function StripZeros(sig: nat, exp: int): (r: (nat, int))
    decreases sig
    ensures r.1 >= exp && r.0 <= sig
    ensures sig == r.0 * Pow10(r.1 - exp)
    ensures r.0 == 0 || r.0 % 10 != 0
  {
    if sig > 0 && sig % 10 == 0 then
      var r := StripZeros(sig / 10, exp + 1);
      StripStep(sig, r.0, r.1 - exp);
      r
    else
      (sig, exp)
  }

  /** One division by ten undone: a multiple of ten is ten times its
      tenth. */
  lemma StripStep(sig: nat, s: nat, k: nat)
    requires k >= 1 && sig % 10 == 0 && sig / 10 == s * Pow10(k - 1)
    ensures sig == s * Pow10(k)
  {
    var p := Pow10(k - 1);
    assert Pow10(k) == 10 * p;
    assert s * (10 * p) == 10 * (s * p);
  }

  /** A u64 holds at most nineteen factors of ten. */
  lemma StripBound(sig: nat, exp: int)
    requires 0 < sig <= U64_MAX
    ensures StripZeros(sig, exp).1 <= exp + 19
  {
    var r := StripZeros(sig, exp);
    var k: nat := r.1 - exp;
    AtLeastFactor(sig, r.0, Pow10(k));
    Pow10U64Bound(k);
  }

  /** A product with a positive integer factor is at least the other
      factor. */
  lemma AtLeastFactor(n: nat, a: nat, p: nat)
    requires a >= 1 && n == a * p
    ensures n >= p
  {
  }

  /** remove_trailing_zeros as a function of the old value: with a negative
      exponent, strip trailing decimal zeros; then a zero significand
      becomes +0 with exponent 0. */
  function Normalized(x: SoftFloat): (r: SoftFloat)
    ensures Value(r) == Value(x)
    ensures r.significand == 0 <==> x.significand == 0
    ensures r.significand == 0 ==> r == Zero
    ensures x.exponent < 0 && r.significand != 0 ==> r.significand % 10 != 0
    ensures x.exponent >= 0 && x.significand != 0 ==> r == x
    ensures x.significand != 0 ==> r.positive == x.positive
  {
    NormalizedValue(x);
    if x.significand == 0 then Zero
    else if x.exponent >= 0 then x
    else
      var s := StripZeros(x.significand, x.exponent);
      StripBound(x.significand, x.exponent);
      SoftFloat(x.positive, s.1, s.0)
  }

  lemma NormalizedValue(x: SoftFloat)
    ensures x.significand == 0 ==> Value(x) == 0.0 && Value(Zero) == 0.0
    ensures x.significand != 0 && x.exponent < 0 ==>
      var s := StripZeros(x.significand, x.exponent);
      Shift(s.0 as real, s.1) == Magnitude(x)
  {
    var s := StripZeros(x.significand, x.exponent);
    StrippedMagnitude(x.significand, x.exponent, s.0, s.1);
  }

  /** sig·10^exp, written as s·10^(e - exp)·10^exp, is s·10^e. */
  lemma StrippedMagnitude(sig: nat, exp: int, s: nat, e: int)
    requires e >= exp && sig == s * Pow10(e - exp)
    ensures Shift(s as real, e) == Shift(sig as real, exp)
  {
    var d: nat := e - exp;
    CastMul(s, Pow10(d));
    ShiftPow(s as real, d, exp, sig as real);
  }

  /** remove_trailing_zeros, loop for loop. The Rust method updates `self`
      in place; the SoftFloat is a copy value, so the new value is returned. */
  method RemoveTrailingZeros(x: SoftFloat) returns (r: SoftFloat)
    ensures r == Normalized(x)
  {
    var positive, exponent, significand := x.positive, x.exponent, x.significand;
    if exponent < 0 {
      if significand != 0 {
        StripBound(significand, exponent);
      }
      while significand > 0 && significand % 10 == 0
        invariant StripZeros(significand, exponent) == StripZeros(x.significand, x.exponent)
        invariant significand != 0 ==> StripZeros(significand, exponent).1 <= x.exponent + 19
        invariant x.exponent <= exponent
        decreases significand
      {
        significand := significand / 10;
        exponent := exponent + 1;
      }
    }
    if significand == 0 {
      exponent := 0;
      positive := true;
    }
    r := SoftFloat(positive, exponent, significand);
  }

  /** Normalising twice is normalising once. */
  lemma NormalizedIdempotent(x: SoftFloat)
    ensures Normalized(Normalized(x)) == Normalized(x)
  {
    var r := Normalized(x);
    if r.significand != 0 && r.exponent < 0 {
      assert StripZeros(r.significand, r.exponent) == (r.significand, r.exponent);
    }
  }

  /** Stripping that stops once the exponent reaches 0, so that only zeros
      of the fractional part are removed. */
  function StripFraction(sig: nat, exp: int): (r: (nat, int))
    decreases sig
    ensures exp <= r.1 && (exp <= 0 ==> r.1 <= 0)
    ensures sig == r.0 * Pow10(r.1 - exp)
    ensures r.1 < 0 ==> r.0 == 0 || r.0 % 10 != 0
  {
    if exp < 0 && sig > 0 && sig % 10 == 0 then
      var r := StripFraction(sig / 10, exp + 1);
      assert Pow10(r.1 - exp) == 10 * Pow10(r.1 - (exp + 1));
      r
    else
      (sig, exp)
  }

  /** remove_trailing_zeros as its comments describe it: trailing zeros of
      the fractional part go, the integer part keeps its zeros, so an
      exponent ≤ 0 stays ≤ 0. */
  function NormalizedFraction(x: SoftFloat): (r: SoftFloat)
    ensures Value(r) == Value(x)
    ensures x.exponent <= 0 ==> x.exponent <= r.exponent <= 0
    ensures r.significand == 0 <==> x.significand == 0
    ensures r.significand == 0 ==> r == Zero
    ensures r.exponent < 0 && r.significand != 0 ==> r.significand % 10 != 0
  {
    NormalizedFractionValue(x);
    if x.significand == 0 then Zero
    else if x.exponent >= 0 then x
    else
      var s := StripFraction(x.significand, x.exponent);
      SoftFloat(x.positive, s.1, s.0)
  }

  lemma NormalizedFractionValue(x: SoftFloat)
    ensures x.significand == 0 ==> Value(x) == 0.0 && Value(Zero) == 0.0
    ensures x.significand != 0 && x.exponent < 0 ==>
      var s := StripFraction(x.significand, x.exponent);
      Shift(s.0 as real, s.1) == Magnitude(x)
  {
    var s := StripFraction(x.significand, x.exponent);
    var d := s.1 - x.exponent;
    CastMul(s.0, Pow10(d));
    ShiftPow(s.0 as real, d, x.exponent, x.significand as real);
  }

  // ---------------------------------------------------------------------
  // expand_significand_to

  /** `10u64.pow(zeros)` followed by `significand *= …`, both checked. */
  function Pad(sig: u64, zeros: nat): (r: Outcome<u64>)
    ensures r.Ok? <==> zeros <= 19 && sig * Pow10(zeros) <= U64_MAX
    ensures r.Ok? ==> r.value == sig * Pow10(zeros)
  {
    match CheckedPow10(zeros)
    case Panic => Panic
    case Ok(p) => if sig * p <= U64_MAX then Ok(sig * p) else Panic
  }

  /** Whether expand_significand_to runs without a panic: no exponent is
      i32::MIN (its `abs` overflows), and the significand with fewer decimal
      places still fits a u64 once padded to the other's count. */
  predicate ExpandFits(a: SoftFloat, b: SoftFloat)
  {
    a.exponent != I32_MIN && b.exponent != I32_MIN &&
    var places := Max(Abs(a.exponent), Abs(b.exponent));
    places - Abs(a.exponent) <= 19 && places - Abs(b.exponent) <= 19 &&
    a.significand * Pow10(places - Abs(a.exponent)) <= U64_MAX &&
    b.significand * Pow10(places - Abs(b.exponent)) <= U64_MAX
  }

  /** expand_significand_to: pads the significand whose exponent has the
      smaller absolute value with zeros, up to the other's count of decimal
      places. Exponents are left as they were, so the pair it gives is no
      longer a valid pair of SoftFloats: only the significands are returned. */
  function Expand(a: SoftFloat, b: SoftFloat): (r: Outcome<(u64, u64)>)
    ensures r.Ok? <==> ExpandFits(a, b)
    ensures r.Ok? ==>
      var places := Max(Abs(a.exponent), Abs(b.exponent));
      r.value.0 == a.significand * Pow10(places - Abs(a.exponent)) &&
      r.value.1 == b.significand * Pow10(places - Abs(b.exponent))
  {
    if a.exponent == I32_MIN || b.exponent == I32_MIN then Panic
    else
      var aExp, bExp := Abs(a.exponent), Abs(b.exponent);
      if aExp < bExp then
        match Pad(a.significand, bExp - aExp)
        case Panic => Panic
        case Ok(s) => Ok((s, b.significand))
      else if aExp > bExp then
        match Pad(b.significand, aExp - bExp)
        case Panic => Panic
        case Ok(s) => Ok((a.significand, s))
      else
        Ok((a.significand, b.significand))
  }

  /** For exponents ≤ 0 (the ones parsing produces), expansion aligns both
      significands to the smaller exponent without changing either value. */
  lemma ExpandAligns(a: SoftFloat, b: SoftFloat)
    requires I32_MIN < a.exponent <= 0 && I32_MIN < b.exponent <= 0
    requires Expand(a, b).Ok?
    ensures var m := Min(a.exponent, b.exponent);
      Shift(Expand(a, b).value.0 as real, m) == Magnitude(a) &&
      Shift(Expand(a, b).value.1 as real, m) == Magnitude(b)
  {
    var r := Expand(a, b).value;
    var m := Min(a.exponent, b.exponent);
    assert Max(Abs(a.exponent), Abs(b.exponent)) == -m;
    PadAligns(a.significand, a.exponent, m, r.0);
    PadAligns(b.significand, b.exponent, m, r.1);
  }

  /** A significand padded with e - m zeros, read at exponent m, is unchanged. */
  lemma PadAligns(sig: nat, e: int, m: int, padded: nat)
    requires m <= e
    requires padded == sig * Pow10(e - m)
    ensures Shift(padded as real, m) == Shift(sig as real, e)
  {
    var d: nat := e - m;
    CastMul(sig, Pow10(d));
    ShiftPow(sig as real, d, m, padded as real);
  }

  // ---------------------------------------------------------------------
  // Add and Sub

  function Negatives(x: SoftFloat, y: SoftFloat): nat
  {
    (if x.positive then 0 else 1) + (if y.positive then 0 else 1)
  }

  /** `impl Add for SoftFloat`. Mixed signs become a subtraction of
      magnitudes; equal signs add the expanded significands. Every sum comes
      back normalised, and a zero sum is +0. */
  function Add(x: SoftFloat, y: SoftFloat): (r: Outcome<SoftFloat>)
    decreases Negatives(x, y)
    ensures r.Ok? ==> Normalized(r.value) == r.value
    ensures r.Ok? && r.value.significand == 0 ==> r.value == Zero
  {
    if x.positive && !y.positive then
      Sub(x, y.(positive := true))
    else if !x.positive && y.positive then
      Sub(y, x.(positive := true))
    else
      AddAligned(x, y)
  }

  /** The equal-sign branch of Add: the sum of the expanded significands at
      the smaller exponent, normalised; a sum past u64 panics. A nonzero left
      operand gives a nonzero sum. */
  function AddAligned(x: SoftFloat, y: SoftFloat): (r: Outcome<SoftFloat>)
    ensures r.Ok? ==> Normalized(r.value) == r.value
    ensures r.Ok? && r.value.significand == 0 ==> r.value == Zero
    ensures r.Ok? && x.significand != 0 ==> r.value.significand != 0
  {
    match Expand(x, y)
    case Panic => Panic
    case Ok(s) =>
      if s.0 + s.1 > U64_MAX then Panic
      else
        var raw := SoftFloat(x.positive && y.positive, Min(x.exponent, y.exponent), s.0 + s.1);
        NormalizedIdempotent(raw);
        ExpandKeepsNonZero(x, y);
        Ok(Normalized(raw))
  }

  /** Padding never turns a nonzero significand into zero. */
  lemma ExpandKeepsNonZero(x: SoftFloat, y: SoftFloat)
    requires Expand(x, y).Ok?
    ensures x.significand != 0 ==> Expand(x, y).value.0 != 0
  {
    if x.significand != 0 {
      var places := Max(Abs(x.exponent), Abs(y.exponent));
      var p := Pow10(places - Abs(x.exponent));
      AtLeastFactor(Expand(x, y).value.0, x.significand, p);
    }
  }

  /** `impl Sub for SoftFloat`. Mixed signs become an addition of
      magnitudes; equal signs subtract the smaller expanded significand from
      the larger and choose the sign from which was larger. The difference
      comes back normalised, and a zero difference is +0, unless the left
      operand is -0: (-0) - (+0) keeps the forced negative sign. */
  function Sub(x: SoftFloat, y: SoftFloat): (r: Outcome<SoftFloat>)
    decreases Negatives(x, y)
    ensures r.Ok? && (x.positive || x.significand != 0) ==> Normalized(r.value) == r.value
    ensures r.Ok? && (x.positive || x.significand != 0) && r.value.significand == 0 ==> r.value == Zero
  {
    if !x.positive && y.positive then
      var x' := x.(positive := true);
      match Add(x', y)
      case Panic => Panic
      case Ok(a) =>
        assert x.significand != 0 ==> Normalized(a.(positive := false)) == a.(positive := false) by {
          if x.significand != 0 {
            assert Add(x', y) == AddAligned(x', y);
            NormalizedNegated(a);
          }
        }
        Ok(a.(positive := false))
    else if x.positive && !y.positive then
      Add(x, y.(positive := true))
    else
      SubAligned(x, y)
  }

  /** The equal-sign branch of Sub: the larger expanded significand minus
      the smaller, at the smaller exponent, normalised. */
  function SubAligned(x: SoftFloat, y: SoftFloat): (r: Outcome<SoftFloat>)
    ensures r.Ok? ==> Normalized(r.value) == r.value
    ensures r.Ok? && r.value.significand == 0 ==> r.value == Zero
    ensures r.Ok? ==> Expand(x, y).Ok? && (r.value.significand == 0 <==> Expand(x, y).value.0 == Expand(x, y).value.1)
  {
    match Expand(x, y)
    case Panic => Panic
    case Ok(s) =>
      var bothNegative := !x.positive && !y.positive;
      var exponent := Min(x.exponent, y.exponent);
      if s.0 < s.1 then
        var raw := SoftFloat(bothNegative, exponent, s.1 - s.0);
        NormalizedIdempotent(raw);
        Ok(Normalized(raw))
      else
        var raw := SoftFloat(!bothNegative, exponent, s.0 - s.1);
        NormalizedIdempotent(raw);
        Ok(Normalized(raw))
  }

  /** Exponents that parsing produces: never positive, never i32::MIN. */
  predicate Fractional(x: SoftFloat)
  {
    I32_MIN < x.exponent <= 0
  }

  /** Same-sign addition is exact when it does not panic. */
  lemma AddSameSignExact(x: SoftFloat, y: SoftFloat)
    requires Fractional(x) && Fractional(y) && x.positive == y.positive
    requires Add(x, y).Ok?
    ensures Value(Add(x, y).value) == Value(x) + Value(y)
  {
    assert Add(x, y) == AddAligned(x, y);
    AlignedSumExact(x, y);
  }

  lemma AlignedSumExact(x: SoftFloat, y: SoftFloat)
    requires Fractional(x) && Fractional(y) && x.positive == y.positive
    requires AddAligned(x, y).Ok?
    ensures Value(AddAligned(x, y).value) == Value(x) + Value(y)
  {
    var s := Expand(x, y).value;
    var m := Min(x.exponent, y.exponent);
    var raw := SoftFloat(x.positive && y.positive, m, s.0 + s.1);
    assert AddAligned(x, y) == Ok(Normalized(raw));
    ExpandAligns(x, y);
    ShiftAddAt(s.0 as real, s.1 as real, m, (s.0 + s.1) as real);
    assert Magnitude(raw) == Magnitude(x) + Magnitude(y);
  }

  /** The equal-sign branch of Add with the corrected normalisation, which
      strips fractional zeros only. It panics exactly when Add's branch does;
      for operands with exponents ≤ 0 the sum is exact and keeps an exponent
      ≤ 0, so a chain of such sums stays exact. */
  function AddAlignedFraction(x: SoftFloat, y: SoftFloat): (r: Outcome<SoftFloat>)
    ensures r.Ok? <==> AddAligned(x, y).Ok?
    ensures r.Ok? && Fractional(x) && Fractional(y) && x.positive == y.positive ==>
      Fractional(r.value) && Value(r.value) == Value(x) + Value(y)
  {
    match Expand(x, y)
    case Panic => Panic
    case Ok(s) =>
      if s.0 + s.1 > U64_MAX then Panic
      else
        var raw := SoftFloat(x.positive && y.positive, Min(x.exponent, y.exponent), s.0 + s.1);
        assert AddAligned(x, y) == Ok(Normalized(raw));
        if Fractional(x) && Fractional(y) && x.positive == y.positive then
          AlignedSumExact(x, y);
          Ok(NormalizedFraction(raw))
        else
          Ok(NormalizedFraction(raw))
  }

  /** Same-sign subtraction is exact when it does not panic. */
  lemma SubSameSignExact(x: SoftFloat, y: SoftFloat)
    requires Fractional(x) && Fractional(y) && x.positive == y.positive
    requires Sub(x, y).Ok?
    ensures Value(Sub(x, y).value) == Value(x) - Value(y)
  {
    assert Sub(x, y) == SubAligned(x, y);
    AlignedDifferenceExact(x, y);
  }

  lemma AlignedDifferenceExact(x: SoftFloat, y: SoftFloat)
    requires Fractional(x) && Fractional(y) && x.positive == y.positive
    requires SubAligned(x, y).Ok?
    ensures Value(SubAligned(x, y).value) == Value(x) - Value(y)
  {
    var s := Expand(x, y).value;
    var m := Min(x.exponent, y.exponent);
    var bothNegative := !x.positive && !y.positive;
    ExpandAligns(x, y);
    if s.0 < s.1 {
      var raw := SoftFloat(bothNegative, m, s.1 - s.0);
      assert SubAligned(x, y) == Ok(Normalized(raw));
      ShiftAddAt(s.0 as real, (s.1 - s.0) as real, m, s.1 as real);
      assert Magnitude(raw) == Magnitude(y) - Magnitude(x);
    } else {
      var raw := SoftFloat(!bothNegative, m, s.0 - s.1);
      assert SubAligned(x, y) == Ok(Normalized(raw));
      ShiftAddAt(s.1 as real, (s.0 - s.1) as real, m, s.0 as real);
      assert Magnitude(raw) == Magnitude(x) - Magnitude(y);
    }
  }

  /** Addition of two SoftFloats with exponents ≤ 0 gives the exact sum
      whenever it does not panic, in all four sign cases. */
  lemma AddExact(x: SoftFloat, y: SoftFloat)
    requires Fractional(x) && Fractional(y)
    requires Add(x, y).Ok?
    ensures Value(Add(x, y).value) == Value(x) + Value(y)
  {
    if x.positive && !y.positive {
      SubSameSignExact(x, y.(positive := true));
    } else if !x.positive && y.positive {
      SubSameSignExact(y, x.(positive := true));
    } else {
      AddSameSignExact(x, y);
    }
  }

  /** Subtraction of two SoftFloats with exponents ≤ 0 gives the exact
      difference whenever it does not panic, in all four sign cases. */
  lemma SubExact(x: SoftFloat, y: SoftFloat)
    requires Fractional(x) && Fractional(y)
    requires Sub(x, y).Ok?
    ensures Value(Sub(x, y).value) == Value(x) - Value(y)
  {
    if !x.positive && y.positive {
      var x' := x.(positive := true);
      AddSameSignExact(x', y);
      var r := Add(x', y).value;
      assert Value(r.(positive := false)) == -Value(r);
    } else if x.positive && !y.positive {
      AddSameSignExact(x, y.(positive := true));
    } else {
      SubSameSignExact(x, y);
    }
  }

  /** Flipping the sign of a nonzero normalised value keeps it normalised. */
  lemma NormalizedNegated(a: SoftFloat)
    requires Normalized(a) == a && a.significand != 0
    ensures Normalized(a.(positive := !a.positive)) == a.(positive := !a.positive)
  {
    if a.exponent < 0 {
      assert a.significand % 10 != 0;
      assert StripZeros(a.significand, a.exponent) == (a.significand as nat, a.exponent as int);
    }
  }

  /** The one way to a negative zero: (-0) - (+0). */
  lemma SubNegativeZero()
    ensures Sub(SoftFloat(false, 0, 0), Zero) == Ok(SoftFloat(false, 0, 0))
  {
  }

  /** The fixing_fractal_expand_overflow test: aligning 19 and 21 decimal
      places overflows the u64, so the addition panics. */
  lemma AddExpandOverflow()
    ensures Add(SoftFloat(true, -19, 5530062307277344492), SoftFloat(true, -21, 17378069019548090773)) == Panic
  {
    assert Pow10(2) == 100;
  }

  // ---------------------------------------------------------------------
  // Mul

  /** The truncation loop of Mul: divide a u128 product by ten until it fits
      a u64. Gives the truncated significand and the number of divisions. */
  function Truncate(p: nat): (r: (nat, nat))
    decreases p
    ensures r.0 <= U64_MAX
    ensures r.0 == p / Pow10(r.1)
    ensures r.1 > 0 ==> p / Pow10(r.1 - 1) > U64_MAX
  {
    if p <= U64_MAX then (p, 0)
    else
      var r := Truncate(p / 10);
      TruncateStep(p, r.0, r.1);
      (r.0, r.1 + 1)
  }

  /** One more division by ten in front of a truncation of p / 10. */
  lemma TruncateStep(p: nat, q: nat, k: nat)
    requires p > U64_MAX
    requires q == p / 10 / Pow10(k)
    requires k > 0 ==> p / 10 / Pow10(k - 1) > U64_MAX
    ensures q == p / Pow10(k + 1)
    ensures p / Pow10(k) > U64_MAX
  {
    DivDiv(p, 10, Pow10(k));
    assert Pow10(k + 1) == 10 * Pow10(k);
    if k > 0 {
      DivDiv(p, 10, Pow10(k - 1));
      assert Pow10(k) == 10 * Pow10(k - 1);
    }
  }

  /** What `impl Mul for SoftFloat` computes: the sign is the product of the
      signs, the exponent the sum of the exponents plus one per division of
      the product by ten, then the result is normalised. The exponent sum
      and each increment are checked i32 arithmetic. */
  function MulSpec(x: SoftFloat, y: SoftFloat): (r: Outcome<SoftFloat>)
    ensures r.Ok? ==> Normalized(r.value) == r.value
    ensures r.Ok? && r.value.significand != 0 ==> r.value.positive == (x.positive == y.positive)
    ensures r.Ok? && r.value.significand == 0 ==> r.value == Zero
  {
    var e := x.exponent + y.exponent;
    var t := Truncate(x.significand * y.significand);
    if e < I32_MIN || e + t.1 > I32_MAX then Panic
    else
      var raw := SoftFloat(x.positive == y.positive, e + t.1, t.0);
      NormalizedIdempotent(raw);
      Ok(Normalized(raw))
  }

  /** `impl Mul for SoftFloat`, loop for loop. The u128 product of two u64
      never overflows, so only the exponent arithmetic can panic. */
  method Mul(x: SoftFloat, y: SoftFloat) returns (r: Outcome<SoftFloat>)
    ensures r == MulSpec(x, y)
  {
    var positive := x.positive == y.positive;
    var e := x.exponent + y.exponent;
    if e < I32_MIN || e > I32_MAX {
      return Panic;
    }
    var exponent: i32 := e;
    var tmp: nat := x.significand * y.significand;
    while tmp > U64_MAX
      invariant Truncate(tmp).0 == Truncate(x.significand * y.significand).0
      invariant Truncate(tmp).1 + (exponent - e) == Truncate(x.significand * y.significand).1
      decreases tmp
    {
      tmp := tmp / 10;
      if exponent == I32_MAX {
        return Panic;
      }
      exponent := exponent + 1;
    }
    var significand: u64 := tmp;
    var res := RemoveTrailingZeros(SoftFloat(positive, exponent, significand));
    r := Ok(res);
  }

  /** The product is truncated toward zero by less than one unit in its last
      kept place: |x·y| - 10^(e+k) < |result| ≤ |x·y|, where e is the exponent
      sum and k the number of divisions by ten. With no division it is exact. */
  lemma MulTruncation(x: SoftFloat, y: SoftFloat)
    requires MulSpec(x, y).Ok?
    ensures var k := Truncate(x.significand * y.significand).1;
      var unit := Shift(1.0, x.exponent + y.exponent + k);
      Magnitude(MulSpec(x, y).value) <= Magnitude(x) * Magnitude(y) < Magnitude(MulSpec(x, y).value) + unit
    ensures Truncate(x.significand * y.significand).1 == 0 ==>
      Value(MulSpec(x, y).value) == Value(x) * Value(y)
  {
    var p := x.significand * y.significand;
    var e := x.exponent + y.exponent;
    var t := Truncate(p);
    var raw := SoftFloat(x.positive == y.positive, e + t.1, t.0);
    assert MulSpec(x, y) == Ok(Normalized(raw));
    var exact := ExactProduct(x, y, p);
    TruncationBounds(p, t.0, t.1, e);
    NormalizedMagnitude(raw);
    assert Magnitude(raw) == Shift(t.0 as real, e + t.1);
    if t.1 == 0 {
      SignedProduct(x, y);
    }
  }

  /** |x|·|y| is the integer product of the significands at the sum of the
      exponents. */
  lemma ExactProduct(x: SoftFloat, y: SoftFloat, p: nat) returns (m: real)
    requires p == x.significand * y.significand
    ensures m == Magnitude(x) * Magnitude(y) == Shift(p as real, x.exponent + y.exponent)
  {
    ProductMagnitude(x, y);
    CastMul(x.significand, y.significand);
    assert p as real == (x.significand as real) * (y.significand as real);
    m := Magnitude(x) * Magnitude(y);
  }

  lemma ProductMagnitude(x: SoftFloat, y: SoftFloat)
    ensures Magnitude(x) * Magnitude(y) == Shift((x.significand as real) * (y.significand as real), x.exponent + y.exponent)
  {
    var a, b := x.significand as real, y.significand as real;
    var ab := a * b;
    ShiftMul(a, b, x.exponent, y.exponent, ab);
    assert Magnitude(x) * Magnitude(y) == Shift(a, x.exponent) * Shift(b, y.exponent);
    assert ab == (x.significand as real) * (y.significand as real);
    assert Magnitude(x) * Magnitude(y) == Shift(ab, x.exponent + y.exponent);
  }

  /** Dropping the k low digits of p loses less than one unit at 10^(e+k). */
  lemma TruncationBounds(p: nat, q: nat, k: nat, e: int)
    requires q == p / Pow10(k)
    ensures Shift(q as real, e + k) <= Shift(p as real, e) < Shift(q as real, e + k) + Shift(1.0, e + k)
    ensures k == 0 ==> Shift(q as real, e + k) == Shift(p as real, e)
  {
    var P := Pow10(k);
    var rem := p % P;
    var qp := q * P;
    DivSplit(p, P, q, rem, qp);
    var lo := KeptPart(q, k, e, qp);
    var unit := UnitPart(k, e, P);
    var r := RemainderPart(qp, rem, e, p, P);
    if k == 0 {
      ShiftZero(e);
    }
    Sandwich(lo, Shift(qp as real, e), r, Shift(p as real, e), unit);
  }

  /** The kept digits q, read k places up, are q·10^k read in place. */
  lemma KeptPart(q: nat, k: nat, e: int, qp: nat) returns (lo: real)
    requires qp == q * Pow10(k)
    ensures lo == Shift(q as real, e + k) == Shift(qp as real, e)
  {
    CastMul(q, Pow10(k));
    ShiftPow(q as real, k, e, qp as real);
    lo := Shift(q as real, e + k);
  }

  /** One unit at 10^(e+k) is 10^k units at 10^e. */
  lemma UnitPart(k: nat, e: int, P: nat) returns (unit: real)
    requires P == Pow10(k)
    ensures unit == Shift(1.0, e + k) == Shift(P as real, e)
  {
    CastMul(1, P);
    ShiftPow(1.0, k, e, P as real);
    unit := Shift(1.0, e + k);
  }

  /** The dropped digits add a non-negative amount below one unit. */
  lemma RemainderPart(qp: nat, rem: nat, e: int, p: nat, P: nat) returns (r: real)
    requires p == qp + rem && rem < P
    ensures r == Shift(rem as real, e)
    ensures Shift(p as real, e) == Shift(qp as real, e) + r
    ensures 0.0 <= r < Shift(P as real, e)
  {
    ShiftAddAt(qp as real, rem as real, e, p as real);
    ShiftNonNegative(rem as real, e);
    ShiftMonotone(rem as real, P as real, e);
    r := Shift(rem as real, e);
  }

  lemma Sandwich(lo: real, mid: real, r: real, whole: real, unit: real)
    requires lo == mid && whole == mid + r && 0.0 <= r < unit
    ensures lo <= whole < lo + unit
  {
  }

  /** Euclidean division by P splits p into a multiple of P and a
      remainder below P. */
  lemma DivSplit(p: nat, P: nat, q: nat, rem: nat, qp: nat)
    requires P >= 1 && q == p / P && rem == p % P && qp == q * P
    ensures p == qp + rem && rem < P
    ensures P == 1 ==> rem == 0
  {
  }

  lemma NormalizedMagnitude(x: SoftFloat)
    ensures Magnitude(Normalized(x)) == Magnitude(x)
    ensures x.significand != 0 ==> Normalized(x).positive == x.positive
  {
  }

  lemma SignedProduct(x: SoftFloat, y: SoftFloat)
    ensures Value(x) * Value(y) == if x.positive == y.positive then Magnitude(x) * Magnitude(y) else -(Magnitude(x) * Magnitude(y))
  {
  }

  /** The multiplication_works test: 0.00001 × 10000 = 0.1. */
  lemma MulExample()
    ensures MulSpec(SoftFloat(true, -5, 1), SoftFloat(true, 0, 10000)) == Ok(SoftFloat(true, -1, 1))
  {
    var x, y := SoftFloat(true, -5, 1), SoftFloat(true, 0, 10000);
    assert Truncate(x.significand * y.significand) == (10000, 0);
    NormalizedTenThousand();
  }

  /** 10000·10^-5 drops its four trailing zeros. */
  lemma NormalizedTenThousand()
    ensures Normalized(SoftFloat(true, -5, 10000)) == SoftFloat(true, -1, 1)
  {
    assert StripZeros(10000, -5) == (1, -1) by {
      assert StripZeros(1, -1) == (1, -1);
      assert StripZeros(10, -2) == (1, -1);
      assert StripZeros(100, -3) == (1, -1);
      assert StripZeros(1000, -4) == (1, -1);
    }
  }

  /** The fixing_fractal_mul_overflow test: squaring -0.7436438870371587
      truncates the 32-digit product by thirteen digits, keeping nineteen
      decimal places where the test expects sixteen. */
  lemma MulOverflowExample()
    ensures var x := SoftFloat(false, -16, 7436438870371587);
      MulSpec(x, x) == Ok(SoftFloat(true, -19, 5530062307277344492))
  {
    var p := 7436438870371587 * 7436438870371587;
    assert p == 55300623072773444920911456898569;
    Pow10Value19();
    var k := 13;
    Pow10Add(10, 3);
    assert Pow10(3) == 1000;
    Pow10Add(5, 5);
    assert Pow10(5) == 100_000;
    assert p / Pow10(k) == 5530062307277344492;
    assert p / Pow10(k - 1) > U64_MAX;
    TruncateUnique(p, 5530062307277344492, k);
  }

  /** The number of divisions is the least one that makes the product fit. */
  lemma TruncateUnique(p: nat, q: nat, k: nat)
    requires q == p / Pow10(k) && q <= U64_MAX
    requires k > 0 ==> p / Pow10(k - 1) > U64_MAX
    ensures Truncate(p) == (q, k)
  {
    var t := Truncate(p);
    if t.1 < k {
      DivMonotone(p, t.1, k - 1);
      assert false;
    } else if t.1 > k {
      DivMonotone(p, k, t.1 - 1);
      assert false;
    }
  }

  /** Dividing by a larger power of ten never gives more. */
  lemma DivMonotone(p: nat, i: nat, j: nat)
    requires i <= j
    ensures p / Pow10(j) <= p / Pow10(i)
  {
    Pow10Add(i, j - i);
    DivByFactor(p, Pow10(i), Pow10(j - i), Pow10(j));
  }

  lemma DivByFactor(p: nat, a: nat, b: nat, c: nat)
    requires a >= 1 && b >= 1 && c == a * b
    ensures p / c <= p / a
  {
    DivDiv(p, a, b);
    DivShrinks(p / a, b);
  }

  lemma DivShrinks(x: nat, b: nat)
    requires b >= 1
    ensures x / b <= x
  {
    var q := x / b;
    assert x == b * q + x % b;
    if q > 0 {
      AtLeastFactor(b * q, b, q);
    }
  }
}
