/** The ordering of SoftFloats: `PartialOrd::partial_cmp` as written, and
    the exact comparison of the numbers they stand for. */
module SoftFloatOrder {
  import opened Prelude
  import opened SoftFloats
  import opened SoftFloatText

  datatype Ordering = Less | Equal | Greater

  /** `Ord::cmp` on integers. */
  function Cmp(a: int, b: int): (r: Ordering)
    ensures r == Less <==> a < b
    ensures r == Equal <==> a == b
  {
    if a < b then Less else if a == b then Equal else Greater
  }

  /** `10u64.pow(exponent.abs() as u32)`: `abs` of i32::MIN and a power
      above 10^19 both overflow. */
  function SplitPower(e: i32): (r: Outcome<u64>)
    ensures r.Ok? <==> -19 <= e <= 19
    ensures r.Ok? ==> r.value == Pow10(Abs(e))
  {
    if e == I32_MIN then Panic else CheckedPow10(Abs(e))
  }

  /** `format!("{}", n).len()`. */
  function DecLen(n: nat): nat
  {
    |DigitString(n)|
  }

  /** `partial_cmp`. Equal signs: after swapping negative operands, split
      each significand at its exponent into a whole part and a fraction,
      pad the fraction with fewer printed digits so both have as many, and
      decide by whole parts, then fractions and exponents, in the source's
      order of cases. Different signs: the positive operand is greater.
      The source also returns Less when the power of ten is 0, which a
      checked `pow` never gives; that case is left out. */
  function PartialCmp(x: SoftFloat, y: SoftFloat): (r: Outcome<Option<Ordering>>)
    ensures r.Ok? ==> r.value.Some?
    ensures x.positive != y.positive ==> r == Ok(Some(if x.positive then Greater else Less))
    ensures x.positive == y.positive ==>
      (r.Ok? <==> -19 <= x.exponent <= 19 && -19 <= y.exponent <= 19)
  {
    if x.positive == y.positive then
      var (a, b) := if x.positive then (x, y) else (y, x);
      match SplitPower(a.exponent)
      case Panic => Panic
      case Ok(aSplit) =>
        match SplitPower(b.exponent)
        case Panic => Panic
        case Ok(bSplit) => Ok(Some(CompareSplit(a, b, aSplit, bSplit)))
    else if x.positive then Ok(Some(Greater))
    else Ok(Some(Less))
  }

  /** The part of partial_cmp after both powers of ten are known. The
      whole parts decide first: a smaller whole part is Less and a larger one
      Greater, whatever the fractions. */
  function CompareSplit(a: SoftFloat, b: SoftFloat, aSplit: nat, bSplit: nat): (r: Ordering)
    requires aSplit >= 1 && bSplit >= 1
    ensures a.significand / aSplit < b.significand / bSplit ==> r == Less
    ensures a.significand / aSplit > b.significand / bSplit ==> r == Greater
  {
    var aWhole, aFraction := a.significand / aSplit, a.significand % aSplit;
    var bWhole, bFraction := b.significand / bSplit, b.significand % bSplit;
    var aLen, bLen := DecLen(aFraction), DecLen(bFraction);
    var zeros := Abs(aLen - bLen);
    var aFrac := if aLen < bLen then aFraction * Pow10(zeros) else aFraction;
    var aNorm := if aLen < bLen then a.exponent - zeros else a.exponent;
    var bFrac := if aLen > bLen then bFraction * Pow10(zeros) else bFraction;
    var bNorm := if aLen > bLen then b.exponent - zeros else b.exponent;
    if aWhole == bWhole then
      if aFrac == bFrac then
        if aNorm == bNorm then Equal else Cmp(a.exponent, b.exponent)
      else if aFrac < bFrac then
        if a.exponent == b.exponent then Cmp(aFrac, bFrac) else Cmp(a.exponent, b.exponent)
      else
        if aNorm == bNorm then Cmp(aFrac, bFrac) else Cmp(a.exponent, b.exponent)
    else
      Cmp(aWhole, bWhole)
  }

  /** The padding of the shorter fraction in partial_cmp never overflows a
      u64: a fraction below 10^19 has at most 19 digits, and padding makes it
      as long as the other, so it stays below 10^19. */
  lemma FractionPadFits(fraction: nat, other: nat, places: nat, otherPlaces: nat)
    requires places <= 19 && otherPlaces <= 19
    requires fraction < Pow10(places) && other < Pow10(otherPlaces)
    requires DecLen(fraction) < DecLen(other)
    ensures fraction * Pow10(DecLen(other) - DecLen(fraction)) <= U64_MAX
  {
    var aLen, bLen := DecLen(fraction), DecLen(other);
    DigitStringBelow(fraction);
    var k := if otherPlaces == 0 then 1 else otherPlaces;
    Pow10Monotone(otherPlaces, k);
    DigitStringShort(other, k);
    PadBelow(fraction, aLen, bLen);
    Pow10Monotone(bLen, 19);
    Pow10Value19();
  }

  lemma PadBelow(f: nat, lf: nat, lo: nat)
    requires f < Pow10(lf) && lf <= lo
    ensures f * Pow10(lo - lf) < Pow10(lo)
  {
    var p := Pow10(lo - lf);
    Pow10Add(lf, lo - lf);
    MulBelow(f, Pow10(lf), p);
  }

  lemma MulBelow(f: nat, a: nat, p: nat)
    requires f < a && p >= 1
    ensures f * p < a * p
  {
    var d := a - f;
    assert a * p == f * p + d * p;
    MulAwayFromZero(p, d);
  }

  // ---------------------------------------------------------------------
  // The exact order

  /** A SoftFloat's signed significand, padded with zeros to exponent m. */
  function AlignedAt(x: SoftFloat, m: int): int
    requires m <= x.exponent
  {
    var n := x.significand * Pow10(x.exponent - m);
    if x.positive then n else -n
  }

  /** The comparison partial_cmp evidently intends: align both significands
      to the smaller exponent and compare them as signed integers. It agrees
      with the order of the numbers, in all three outcomes. */
  function CompareExact(x: SoftFloat, y: SoftFloat): (r: Ordering)
    ensures r == Less <==> Value(x) < Value(y)
    ensures r == Equal <==> Value(x) == Value(y)
    ensures r == Greater <==> Value(x) > Value(y)
  {
    var m := Min(x.exponent, y.exponent);
    var a, b := AlignedAt(x, m), AlignedAt(y, m);
    AlignedValue(x, m);
    AlignedValue(y, m);
    if a < b then
      ShiftMonotone(a as real, b as real, m);
      Cmp(a, b)
    else if a > b then
      ShiftMonotone(b as real, a as real, m);
      Cmp(a, b)
    else
      Cmp(a, b)
  }

  lemma AlignedValue(x: SoftFloat, m: int)
    requires m <= x.exponent
    ensures Value(x) == Shift(AlignedAt(x, m) as real, m)
  {
    var n := x.significand * Pow10(x.exponent - m);
    PadAligns(x.significand, x.exponent, m, n);
    if !x.positive {
      ShiftScaleAt(n as real, -1.0, m, (-n) as real);
    }
  }

  /** For an exponent ≤ 0 the whole part that partial_cmp splits off is the
      integer part of the magnitude. */
  lemma WholePart(x: SoftFloat)
    requires x.exponent <= 0
    ensures var w := x.significand / Pow10(-(x.exponent as int));
      w as real <= Magnitude(x) < (w + 1) as real
  {
    var k: nat := -(x.exponent as int);
    var sig: nat := x.significand;
    var w := sig / Pow10(k);
    assert Magnitude(x) == Shift(sig as real, -(k as int));
    var low, high := FloorBounds(sig, Pow10(k));
    ShiftMultiple(w, k, low);
    ShiftMultiple(w + 1, k, high);
    ShiftBetween(low, sig, high, -(k as int));
  }

  /** n lies between the multiples of p on either side of it. */
  lemma FloorBounds(n: nat, p: nat) returns (low: nat, high: nat)
    requires p >= 1
    ensures low == (n / p) * p && high == (n / p + 1) * p
    ensures low <= n < high
  {
    low, high := (n / p) * p, (n / p + 1) * p;
    assert n == p * (n / p) + n % p;
  }

  /** w·10^k read at exponent -k is w. */
  lemma ShiftMultiple(w: nat, k: nat, wp: nat)
    requires wp == w * Pow10(k)
    ensures Shift(wp as real, -(k as int)) == w as real
  {
    CastMul(w, Pow10(k));
    ShiftPow(w as real, k, -(k as int), wp as real);
  }

  lemma ShiftBetween(low: nat, n: nat, high: nat, e: int)
    requires low <= n < high
    ensures Shift(low as real, e) <= Shift(n as real, e) < Shift(high as real, e)
  {
    if low < n {
      ShiftMonotone(low as real, n as real, e);
    }
    ShiftMonotone(n as real, high as real, e);
  }

  /** Where partial_cmp is right: operands of one sign with exponents in
      -19..0 whose whole parts differ are ordered as the numbers are. */
  lemma PartialCmpWholeSound(x: SoftFloat, y: SoftFloat)
    requires x.positive == y.positive
    requires -19 <= x.exponent <= 0 && -19 <= y.exponent <= 0
    requires x.significand / Pow10(-(x.exponent as int)) != y.significand / Pow10(-(y.exponent as int))
    ensures PartialCmp(x, y) == Ok(Some(CompareExact(x, y)))
  {
    WholePart(x);
    WholePart(y);
    var px, py := Pow10(-(x.exponent as int)), Pow10(-(y.exponent as int));
    assert SplitPower(x.exponent) == Ok(px);
    assert SplitPower(y.exponent) == Ok(py);
    if x.positive {
      assert PartialCmp(x, y) == Ok(Some(CompareSplit(x, y, px, py)));
    } else {
      assert PartialCmp(x, y) == Ok(Some(CompareSplit(y, x, py, px)));
    }
  }

  /** partial_cmp(1.5, 1.55): the fractions 5 and 55 are padded to 50 and
      55, 50 < 55, but the exponents -1 and -2 differ, so the result is the
      order of the exponents, Greater, although 1.5 < 1.55. */
  lemma PartialCmpMisorders()
    ensures var a, b := SoftFloat(true, -1, 15), SoftFloat(true, -2, 155);
      PartialCmp(a, b) == Ok(Some(Greater)) &&
      CompareExact(a, b) == Less && Value(a) < Value(b)
  {
    var a, b := SoftFloat(true, -1, 15), SoftFloat(true, -2, 155);
    assert DigitString(5) == "5";
    assert DigitString(55) == "55";
  }

  // The comparsion_works test, each float written as the SoftFloat that
  // converting it gives (100.2345 is SoftFloat(true, -4, 1002345)).

  /** 100.2345 < 100.2346, and 1.2346 lies below both. */
  lemma PartialCmpPositiveTests()
    ensures PartialCmp(SoftFloat(true, -4, 1002345), SoftFloat(true, -4, 1002346)) == Ok(Some(Less))
    ensures PartialCmp(SoftFloat(true, -4, 1002346), SoftFloat(true, -4, 1002345)) == Ok(Some(Greater))
    ensures PartialCmp(SoftFloat(true, -4, 1002346), SoftFloat(true, -4, 12346)) == Ok(Some(Greater))
    ensures PartialCmp(SoftFloat(true, -4, 12346), SoftFloat(true, -4, 1002345)) == Ok(Some(Less))
  {
    var a, b, c := SoftFloat(true, -4, 1002345), SoftFloat(true, -4, 1002346), SoftFloat(true, -4, 12346);
    assert SplitPower(-4) == Ok(10000);
    assert DigitString(2345) == "2345";
    assert DigitString(2346) == "2346";
    assert CompareSplit(a, b, 10000, 10000) == Less;
    assert CompareSplit(b, a, 10000, 10000) == Greater;
    assert CompareSplit(b, c, 10000, 10000) == Greater;
    assert CompareSplit(c, a, 10000, 10000) == Less;
  }

  /** -99999.99999 < 1.2346 < ..., -99999.99999 < -99999.99998 < -0.098. */
  lemma PartialCmpSignedTests()
    ensures PartialCmp(SoftFloat(false, -5, 9999999999), SoftFloat(true, -4, 12346)) == Ok(Some(Less))
    ensures PartialCmp(SoftFloat(true, -4, 12346), SoftFloat(false, -5, 9999999999)) == Ok(Some(Greater))
    ensures PartialCmp(SoftFloat(false, -5, 9999999998), SoftFloat(false, -3, 98)) == Ok(Some(Less))
    ensures PartialCmp(SoftFloat(false, -3, 98), SoftFloat(false, -5, 9999999998)) == Ok(Some(Greater))
    ensures PartialCmp(SoftFloat(false, -5, 9999999999), SoftFloat(false, -5, 9999999998)) == Ok(Some(Less))
  {
    var d, e, f := SoftFloat(false, -5, 9999999999), SoftFloat(false, -5, 9999999998), SoftFloat(false, -3, 98);
    assert SplitPower(-5) == Ok(100000);
    assert SplitPower(-3) == Ok(1000);
    assert DigitString(99999) == "99999";
    assert DigitString(99998) == "99998";
    assert DigitString(98) == "98";
    assert CompareSplit(f, e, 1000, 100000) == Less;
    assert CompareSplit(e, f, 100000, 1000) == Greater;
    assert CompareSplit(e, d, 100000, 100000) == Less;
  }

  /** 11.01 > 11.001 and 0.09 > 0.011. */
  lemma PartialCmpPaddingTests()
    ensures PartialCmp(SoftFloat(true, -2, 1101), SoftFloat(true, -3, 11001)) == Ok(Some(Greater))
    ensures PartialCmp(SoftFloat(true, -2, 9), SoftFloat(true, -3, 11)) == Ok(Some(Greater))
  {
    assert SplitPower(-2) == Ok(100);
    assert SplitPower(-3) == Ok(1000);
    assert DigitString(1) == "1";
    assert DigitString(9) == "9";
    assert DigitString(11) == "11";
    assert CompareSplit(SoftFloat(true, -2, 1101), SoftFloat(true, -3, 11001), 100, 1000) == Greater;
    assert CompareSplit(SoftFloat(true, -2, 9), SoftFloat(true, -3, 11), 100, 1000) == Greater;
  }

  /** 9.1234 > 9.123 and 0.1 > 0.000123. */
  lemma PartialCmpLongerTests()
    ensures PartialCmp(SoftFloat(true, -4, 91234), SoftFloat(true, -3, 9123)) == Ok(Some(Greater))
    ensures PartialCmp(SoftFloat(true, -1, 1), SoftFloat(true, -6, 123)) == Ok(Some(Greater))
  {
    assert SplitPower(-4) == Ok(10000);
    assert SplitPower(-3) == Ok(1000);
    assert SplitPower(-1) == Ok(10);
    assert SplitPower(-6) == Ok(1000000);
    assert DigitString(1234) == "1234";
    assert DigitString(123) == "123";
    assert DigitString(1) == "1";
    assert CompareSplit(SoftFloat(true, -4, 91234), SoftFloat(true, -3, 9123), 10000, 1000) == Greater;
    assert CompareSplit(SoftFloat(true, -1, 1), SoftFloat(true, -6, 123), 10, 1000000) == Greater;
  }

  /** The table rows with equal fractions: 1.23 == 1.23, 1.0023 < 1.23,
      1.23 > 1.023, and the whole-part row 2.0 < 3.0. */
  lemma PartialCmpEqualFractionRows()
    ensures PartialCmp(SoftFloat(true, -2, 123), SoftFloat(true, -2, 123)) == Ok(Some(Equal))
    ensures PartialCmp(SoftFloat(true, -4, 10023), SoftFloat(true, -2, 123)) == Ok(Some(Less))
    ensures PartialCmp(SoftFloat(true, -2, 123), SoftFloat(true, -3, 1023)) == Ok(Some(Greater))
    ensures PartialCmp(SoftFloat(true, 0, 2), SoftFloat(true, 0, 3)) == Ok(Some(Less))
  {
    assert SplitPower(-2) == Ok(100);
    assert SplitPower(-3) == Ok(1000);
    assert SplitPower(-4) == Ok(10000);
    assert SplitPower(0) == Ok(1);
    assert DigitString(23) == "23";
    assert DigitString(0) == "0";
    assert CompareSplit(SoftFloat(true, -2, 123), SoftFloat(true, -2, 123), 100, 100) == Equal;
    assert CompareSplit(SoftFloat(true, -4, 10023), SoftFloat(true, -2, 123), 10000, 100) == Less;
    assert CompareSplit(SoftFloat(true, -2, 123), SoftFloat(true, -3, 1023), 100, 1000) == Greater;
    assert CompareSplit(SoftFloat(true, 0, 2), SoftFloat(true, 0, 3), 1, 1) == Less;
  }

  /** The table rows with a smaller first fraction: 1.11 < 1.99,
      1.011 < 1.99, 1.11 > 1.099. */
  lemma PartialCmpSmallerFractionRows()
    ensures PartialCmp(SoftFloat(true, -2, 111), SoftFloat(true, -2, 199)) == Ok(Some(Less))
    ensures PartialCmp(SoftFloat(true, -3, 1011), SoftFloat(true, -2, 199)) == Ok(Some(Less))
    ensures PartialCmp(SoftFloat(true, -2, 111), SoftFloat(true, -3, 1099)) == Ok(Some(Greater))
  {
    assert SplitPower(-2) == Ok(100);
    assert SplitPower(-3) == Ok(1000);
    assert DigitString(11) == "11";
    assert DigitString(99) == "99";
    assert CompareSplit(SoftFloat(true, -2, 111), SoftFloat(true, -2, 199), 100, 100) == Less;
    assert CompareSplit(SoftFloat(true, -3, 1011), SoftFloat(true, -2, 199), 1000, 100) == Less;
    assert CompareSplit(SoftFloat(true, -2, 111), SoftFloat(true, -3, 1099), 100, 1000) == Greater;
  }

  /** The table rows with a larger first fraction: 1.99 > 1.11,
      1.099 < 1.11, 1.99 > 1.011. */
  lemma PartialCmpLargerFractionRows()
    ensures PartialCmp(SoftFloat(true, -2, 199), SoftFloat(true, -2, 111)) == Ok(Some(Greater))
    ensures PartialCmp(SoftFloat(true, -3, 1099), SoftFloat(true, -2, 111)) == Ok(Some(Less))
    ensures PartialCmp(SoftFloat(true, -2, 199), SoftFloat(true, -3, 1011)) == Ok(Some(Greater))
  {
    assert SplitPower(-2) == Ok(100);
    assert SplitPower(-3) == Ok(1000);
    assert DigitString(11) == "11";
    assert DigitString(99) == "99";
    assert CompareSplit(SoftFloat(true, -2, 199), SoftFloat(true, -2, 111), 100, 100) == Greater;
    assert CompareSplit(SoftFloat(true, -3, 1099), SoftFloat(true, -2, 111), 1000, 100) == Less;
    assert CompareSplit(SoftFloat(true, -2, 199), SoftFloat(true, -3, 1011), 100, 1000) == Greater;
  }
}
