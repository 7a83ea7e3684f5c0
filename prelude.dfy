/** Fixed-width integers, the panic outcome of Rust's checked arithmetic,
    and powers of ten, shared by every other module. */
module Prelude {

  const U32_MAX: int := 0xFFFF_FFFF
  const I32_MIN: int := -0x8000_0000
  const I32_MAX: int := 0x7FFF_FFFF
  const U64_MAX: int := 0xFFFF_FFFF_FFFF_FFFF

  type u32 = x: int | 0 <= x <= 0xFFFF_FFFF
  type i32 = x: int | -0x8000_0000 <= x <= 0x7FFF_FFFF
  type u64 = x: int | 0 <= x <= 0xFFFF_FFFF_FFFF_FFFF
  type byte = x: int | 0 <= x <= 255

  datatype Option<T> = None | Some(value: T)

  /** The result of an operation that may panic. Rust's integer arithmetic
      panics on overflow in a debug build (`+`, `-`, `*`, `pow`, `abs`), and
      `unwrap` panics on an error; both are `Panic` here. */
  datatype Outcome<T> = Ok(value: T) | Panic

  function Pow10(k: nat): (p: nat)
    ensures p >= 1
  {
    if k == 0 then 1 else 10 * Pow10(k - 1)
  }

  lemma {:induction false} Pow10Monotone(i: nat, j: nat)
    requires i <= j
    ensures Pow10(i) <= Pow10(j)
  {
    if i < j {
      Pow10Monotone(i, j - 1);
    }
  }

  lemma {:induction false} Pow10Add(i: nat, j: nat)
    ensures Pow10(i + j) == Pow10(i) * Pow10(j)
  {
    if j > 0 {
      Pow10Add(i, j - 1);
      assert Pow10(i + j) == 10 * Pow10(i + j - 1);
    }
  }

  /** 10^20 is the first power of ten that no u64 holds. */
  lemma Pow10U64Bound(k: nat)
    ensures Pow10(k) <= U64_MAX <==> k <= 19
  {
    Pow10Value19();
    if k <= 19 {
      Pow10Monotone(k, 19);
    } else {
      Pow10Monotone(20, k);
    }
  }

  lemma Pow10Value19()
    ensures Pow10(19) == 10_000_000_000_000_000_000
    ensures Pow10(20) == 100_000_000_000_000_000_000
  {
    Pow10Add(10, 9);
    Pow10Add(10, 10);
    assert Pow10(5) == 100_000;
    Pow10Add(5, 5);
    Pow10Add(5, 4);
  }

  /** `10u64.pow(k)`: panics (debug build) when the power leaves u64. */
  function CheckedPow10(k: nat): (r: Outcome<u64>)
    ensures r.Ok? <==> k <= 19
    ensures r.Ok? ==> r.value == Pow10(k)
  {
    Pow10U64Bound(k);
    if Pow10(k) <= U64_MAX then Ok(Pow10(k)) else Panic
  }

  /** v * 10^e, for any integer e, built one factor of ten at a time so
      that every step is linear in v. */
  function Shift(v: real, e: int): real
    decreases if e < 0 then -e else e
  {
    if e == 0 then v
    else if e > 0 then 10.0 * Shift(v, e - 1)
    else Shift(v, e + 1) / 10.0
  }

  lemma {:induction false} ShiftStep(v: real, e: int)
    ensures Shift(v, e + 1) == 10.0 * Shift(v, e)
  {
  }

  lemma {:induction false} ShiftAdd(v: real, w: real, e: int)
    ensures Shift(v + w, e) == Shift(v, e) + Shift(w, e)
    decreases if e < 0 then -e else e
  {
    if e > 0 {
      ShiftAdd(v, w, e - 1);
    } else if e < 0 {
      ShiftAdd(v, w, e + 1);
    }
  }

  lemma {:induction false} ShiftScale(v: real, c: real, e: int)
    ensures Shift(c * v, e) == c * Shift(v, e)
    decreases if e < 0 then -e else e
  {
    if e > 0 {
      ShiftScale(v, c, e - 1);
    } else if e < 0 {
      ShiftScale(v, c, e + 1);
    }
  }

  /** ShiftScale with the product named, so that callers need not match it. */
  lemma ShiftScaleAt(v: real, c: real, e: int, cv: real)
    requires cv == c * v
    ensures Shift(cv, e) == c * Shift(v, e)
  {
    ShiftScale(v, c, e);
  }

  lemma {:induction false} ShiftPositive(v: real, e: int)
    requires v > 0.0
    ensures Shift(v, e) > 0.0
    decreases if e < 0 then -e else e
  {
    if e > 0 {
      ShiftPositive(v, e - 1);
    } else if e < 0 {
      ShiftPositive(v, e + 1);
    }
  }

  /** Multiplying by 10^d is the same as moving the exponent up by d. */
  lemma {:induction false} ShiftPow(n: real, d: nat, e: int, np: real)
    requires np == n * (Pow10(d) as real)
    ensures Shift(np, e) == Shift(n, e + d)
  {
    if d > 0 {
      var m := n * (Pow10(d - 1) as real);
      ShiftPow(n, d - 1, e, m);
      assert Shift(n, e + d) == 10.0 * Shift(n, e + d - 1);
      assert np == 10.0 * m;
      ShiftScaleAt(m, 10.0, e, np);
    } else {
      assert np == n;
    }
  }

  /** ShiftAdd with the sum named. */
  lemma ShiftAddAt(v: real, w: real, e: int, vw: real)
    requires vw == v + w
    ensures Shift(vw, e) == Shift(v, e) + Shift(w, e)
  {
    ShiftAdd(v, w, e);
  }

  lemma ShiftZero(e: int)
    ensures Shift(0.0, e) == 0.0
  {
    ShiftScaleAt(1.0, 0.0, e, 0.0);
  }

  lemma ShiftMonotone(v: real, w: real, e: int)
    requires v < w
    ensures Shift(v, e) < Shift(w, e)
  {
    var d := w - v;
    ShiftAddAt(v, d, e, w);
    ShiftPositive(d, e);
  }

  lemma ShiftNonNegative(v: real, e: int)
    requires v >= 0.0
    ensures Shift(v, e) >= 0.0
  {
    if v == 0.0 {
      ShiftZero(e);
    } else {
      ShiftPositive(v, e);
    }
  }

  lemma {:induction false} ShiftCompose(v: real, e1: int, e2: int)
    ensures Shift(Shift(v, e1), e2) == Shift(v, e1 + e2)
    decreases if e2 < 0 then -e2 else e2
  {
    if e2 > 0 {
      ShiftCompose(v, e1, e2 - 1);
      ShiftStep(v, e1 + e2 - 1);
    } else if e2 < 0 {
      ShiftCompose(v, e1, e2 + 1);
      ShiftStep(v, e1 + e2);
    }
  }

  /** (a·10^e1)·(b·10^e2) = ab·10^(e1+e2). */
  lemma ShiftMul(a: real, b: real, e1: int, e2: int, ab: real)
    requires ab == a * b
    ensures Shift(a, e1) * Shift(b, e2) == Shift(ab, e1 + e2)
  {
    var sa := Shift(a, e1);
    var sab := sa * b;
    ShiftScaleAt(b, sa, e2, sab);
    ShiftScaleAt(a, b, e1, ab);
    assert sab == Shift(ab, e1);
    ShiftCompose(ab, e1, e2);
    assert Shift(sab, e2) == Shift(ab, e1 + e2);
  }

  lemma CastMul(a: nat, b: nat)
    ensures (a * b) as real == (a as real) * (b as real)
  {
  }

  /** Euclidean division by a product is division by each factor in turn. */
  lemma DivDiv(p: nat, a: nat, b: nat)
    requires a > 0 && b > 0
    ensures p / a / b == p / (a * b)
  {
    var q, r := p / a, p % a;
    var q2, r2 := q / b, q % b;
    DivDivSplit(p, a, b, a * b, q, r, q2, r2);
    DivUnique(p, a * b, q2, a * r2 + r);
  }

  /** The two Euclidean divisions combined: p = ab·q2 + (a·r2 + r), with
      a·r2 + r below ab. */
  lemma DivDivSplit(p: int, a: int, b: int, ab: int, q: int, r: int, q2: int, r2: int)
    requires a > 0 && b > 0 && ab == a * b
    requires p == a * q + r && 0 <= r < a
    requires q == b * q2 + r2 && 0 <= r2 < b
    ensures p == ab * q2 + (a * r2 + r) && a * r2 + r < ab
  {
    assert a * q == ab * q2 + a * r2 by {
      assert a * q == a * (b * q2) + a * r2;
      assert a * (b * q2) == (a * b) * q2;
    }
    assert a * r2 <= a * (b - 1);
    assert a * (b - 1) == ab - a;
  }

  lemma DivUnique(p: int, d: int, q: int, r: int)
    requires d > 0 && 0 <= r < d && p == d * q + r
    ensures p / d == q && p % d == r
  {
    var q', r' := p / d, p % d;
    assert p == d * q' + r';
    assert d * (q' - q) == r - r';
    MulAwayFromZero(d, q' - q);
  }

  lemma MulAwayFromZero(d: int, k: int)
    requires d > 0
    ensures k >= 1 ==> d * k >= d
    ensures k <= -1 ==> d * k <= -d
  {
  }

  /** The middle of a side of length w sits at half of it. */
  lemma HalfOf(w: real)
    requires w > 0.0
    ensures w / 2.0 / w == 0.5
  {
    var q := w / 2.0 / w;
    assert q * w == w / 2.0;
    assert (q - 0.5) * w == 0.0;
  }

  /** (v / d) * s lies above or below s / 2 as v lies above or below d / 2. */
  lemma ScaledAgainstHalf(v: real, d: real, s: real)
    requires d > 0.0 && s > 0.0
    ensures v > d / 2.0 ==> (v / d) * s > s / 2.0
    ensures v < d / 2.0 ==> (v / d) * s < s / 2.0
  {
    var q := v / d;
    assert v == q * d;
    if v > d / 2.0 {
      assert q > 0.5;
      assert q * s > 0.5 * s;
    } else if v < d / 2.0 {
      assert q < 0.5;
      assert q * s < 0.5 * s;
    }
  }

  /** (v / d) * s - s / 2 is the offset of v from d / 2, scaled by s / d. */
  lemma ScaledOffset(v: real, d: real, s: real)
    requires d > 0.0
    ensures (v / d) * s - s / 2.0 == (v - d / 2.0) * (s / d)
  {
    var q := s / d;
    assert s == q * d;
    assert (v / d) * s == v * q;
    assert (d / 2.0) * q == s / 2.0;
  }
}
