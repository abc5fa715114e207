/** Overflow-checked arithmetic (include/hgm/checked.hpp). */
module Checked {
  import opened Base

  const PPM_SCALE: U64 := 1_000_000

  function AddOk(a: U64, b: U64): Option<U64> {
    if a > U64_MAX - b then None else Some(a + b)
  }

  function MulOk(a: U64, b: U64): Option<U64> {
    if a != 0 && b > U64_MAX / a then None
    else
      MulFits(a, b);
      Some(a * b)
  }

  lemma MulFits(a: U64, b: U64)
    ensures a != 0 && b > U64_MAX / a <==> a * b > U64_MAX
  {
    if a != 0 {
      DivMod(U64_MAX, a);
      var q := U64_MAX / a;
      if b > q {
        MulMono(a, q + 1, b);
      } else {
        MulMono(a, b, q);
      }
    }
  }

  lemma DivMod(x: nat, d: nat)
    requires d > 0
    ensures x == d * (x / d) + x % d && 0 <= x % d < d
  {
  }

  lemma MulMono(a: nat, b: nat, c: nat)
    requires b <= c
    ensures a * b <= a * c
  {
  }

  function SatAdd(a: U64, b: U64): (r: U64)
    ensures r == Min(a + b, U64_MAX)
  {
    var sum := AddOk(a, b);
    if sum.Some? then sum.value else U64_MAX
  }

  /** The branch of ratio_ppm taken when the scaled remainder overflows: a
      floating-point quotient truncated to an integer. Over the reals it is
      below one million; any rounding keeps it at or below one million. */
  function ScaledApproximately(rem: U64, whole: U64): (r: U64)
    requires rem < whole
    ensures r <= PPM_SCALE
  {
    var quotient := rem as real * 1_000_000.0 / whole as real;
    RealQuotientBelowScale(rem, whole);
    quotient.Floor
  }

  lemma RealQuotientBelowScale(rem: nat, whole: nat)
    requires rem < whole
    ensures 0.0 <= rem as real * 1_000_000.0 / whole as real <= 1_000_000.0
  {
    RealQuotientBounds(rem as real * 1_000_000.0, whole as real, 1_000_000.0);
  }

  lemma RealQuotientBounds(x: real, w: real, k: real)
    requires w > 0.0 && 0.0 <= x <= k * w
    ensures 0.0 <= x / w <= k
  {
    assert x / w * w == x;
  }

  function ScaledRemainder(rem: U64, whole: U64): (r: U64)
    requires rem < whole
    ensures r <= PPM_SCALE || r == rem * PPM_SCALE
  {
    var product := MulOk(rem, PPM_SCALE);
    if product.Some? then product.value else ScaledApproximately(rem, whole)
  }

  /** What the remainder of a division adds, in parts per million. */
  function RemainderPpm(rem: U64, whole: U64): (r: U64)
    requires rem < whole
    ensures r <= PPM_SCALE
  {
    ScaledOverWhole(rem, whole, ScaledRemainder(rem, whole));
    ScaledRemainder(rem, whole) / whole
  }

  /** part/whole in parts per million; every intermediate value is a U64, so
      no step wraps. None when whole is zero. */
  function RatioPpm(part: U64, whole: U64): (r: Option<U32>)
    ensures r.Some? <==> whole != 0
  {
    if whole == 0 then None
    else
      DivMod(part, whole);
      DivAtMost(part, whole);
      var q: U64 := part / whole;
      if q >= U32_MAX then Some(U32_MAX)
      else
        var total: U64 := q * PPM_SCALE + RemainderPpm(part % whole, whole);
        if total > U32_MAX then Some(U32_MAX) else Some(total)
  }

  lemma DivAtMost(x: nat, d: nat)
    requires d > 0
    ensures 0 <= x / d <= x
  {
    QuotientBetween(x, d, x / d);
  }

  lemma QuotientBetween(x: nat, d: nat, q: int)
    requires d > 0 && d * q <= x < d * q + d
    ensures 0 <= q <= x
  {
    if q < 0 {
      MulMonoInt(d, q, -1);
    }
    if q > x {
      MulMonoInt(d, x + 1, q);
    }
  }

  /** The remainder's contribution is less than one million, so adding it to
      the integer part cannot wrap. */
  lemma ScaledOverWhole(rem: U64, whole: U64, scaled: U64)
    requires rem < whole
    requires scaled <= PPM_SCALE || scaled == rem * PPM_SCALE
    ensures 0 <= scaled / whole <= PPM_SCALE
  {
    DivAtMost(scaled, whole);
    QuotientAtMost(scaled, whole, PPM_SCALE);
  }

  /** The exact quotient, rounded down and clamped to 32 bits. */
  function ExactPpm(part: U64, whole: U64): int
    requires whole != 0
  {
    Min(part * PPM_SCALE / whole, U32_MAX)
  }

  predicate RemainderScales(part: U64, whole: U64)
    requires whole != 0
  {
    part % whole * PPM_SCALE <= U64_MAX
  }

  lemma ExactSplits(part: U64, whole: U64)
    requires whole != 0
    ensures part * PPM_SCALE / whole == part / whole * PPM_SCALE + part % whole * PPM_SCALE / whole
  {
    var q, rem := part / whole, part % whole;
    DivMod(part, whole);
    var e := rem * PPM_SCALE / whole;
    var left := rem * PPM_SCALE % whole;
    DivMod(rem * PPM_SCALE, whole);
    assert part * PPM_SCALE == whole * (q * PPM_SCALE + e) + left by {
      assert whole * (q * PPM_SCALE + e) == whole * q * PPM_SCALE + whole * e;
    }
    DivUnique(part * PPM_SCALE, whole, q * PPM_SCALE + e, left);
  }

  lemma DivUnique(x: nat, d: nat, q: int, r: nat)
    requires d > 0 && r < d && x == d * q + r
    ensures x / d == q
  {
    DivMod(x, d);
    var p := x / d;
    if p < q {
      MulMonoInt(d, p + 1, q);
    } else if p > q {
      MulMonoInt(d, q + 1, p);
    }
  }

  lemma MulMonoInt(a: nat, b: int, c: int)
    requires b <= c
    ensures a * b <= a * c
  {
  }

  /** When the scaled remainder overflows, the approximation is far below the
      whole and contributes nothing, although the exact share is at least one. */
  lemma RemainderPpmMeaning(rem: U64, whole: U64)
    requires rem < whole
    ensures rem * PPM_SCALE <= U64_MAX ==> RemainderPpm(rem, whole) == rem * PPM_SCALE / whole
    ensures rem * PPM_SCALE > U64_MAX ==> RemainderPpm(rem, whole) == 0 && rem * PPM_SCALE / whole >= 1
  {
    MulFits(rem, PPM_SCALE);
    if rem * PPM_SCALE > U64_MAX {
      SmallQuotient(ScaledRemainder(rem, whole), whole);
      LargeQuotient(rem * PPM_SCALE, whole, rem * PPM_SCALE / whole);
    }
  }

  lemma LargeQuotient(x: nat, d: nat, q: int)
    requires d > 0 && x >= d && x < d * q + d
    ensures q >= 1
  {
    if q < 1 {
      MulMonoInt(d, q, 0);
    }
  }

  /** ratio_ppm never exceeds the exact quotient, and equals it exactly when
      the scaled remainder fits in 64 bits or the integer part alone already
      reaches the 32-bit clamp. */
  lemma RatioPpmMeaning(part: U64, whole: U64)
    requires whole != 0
    ensures RatioPpm(part, whole).value <= ExactPpm(part, whole)
    ensures RatioPpm(part, whole).value == ExactPpm(part, whole)
            <==> RemainderScales(part, whole) || part / whole * PPM_SCALE >= U32_MAX
  {
    ExactSplits(part, whole);
    DivMod(part, whole);
    DivAtMost(part % whole * PPM_SCALE, whole);
    RemainderPpmMeaning(part % whole, whole);
  }

  lemma SmallQuotient(x: nat, d: nat)
    requires x < d
    ensures x / d == 0
  {
  }

  /** A concrete ratio of one half that ratio_ppm reports as zero. */
  lemma RatioPpmLosesHalf()
    ensures RatioPpm(0x4000_0000_0000_0000, 0x8000_0000_0000_0000) == Some(0)
    ensures ExactPpm(0x4000_0000_0000_0000, 0x8000_0000_0000_0000) == 500_000
  {
    RatioPpmMeaning(0x4000_0000_0000_0000, 0x8000_0000_0000_0000);
    SmallQuotient(0x4000_0000_0000_0000, 0x8000_0000_0000_0000);
  }

  /** A part within its whole never reports more than one million. */
  lemma ShareAtMostScale(part: U64, whole: U64)
    requires part <= whole && whole != 0
    ensures RatioPpm(part, whole).value <= PPM_SCALE
  {
    RatioPpmMeaning(part, whole);
    QuotientAtMost(part * PPM_SCALE, whole, PPM_SCALE);
  }

  lemma QuotientAtMost(x: nat, d: nat, k: nat)
    requires d > 0 && x <= k * d
    ensures x / d <= k
  {
    QuotientAtMostGiven(x, d, k, x / d);
  }

  lemma QuotientAtMostGiven(x: nat, d: nat, k: nat, q: int)
    requires d > 0 && x <= k * d && d * q <= x
    ensures q <= k
  {
    if q > k {
      MulMonoInt(d, k + 1, q);
    }
  }

  /** Rounding down only loses: scaling a ratio back never exceeds the part. */
  lemma RatioScaledBack(part: U64, whole: U64)
    requires whole != 0
    ensures RatioPpm(part, whole).value * whole <= part * PPM_SCALE
  {
    RatioPpmMeaning(part, whole);
    DivMod(part * PPM_SCALE, whole);
    var r, e := RatioPpm(part, whole).value, part * PPM_SCALE / whole;
    assert r <= e;
    MulMono(whole, r, e);
  }

  lemma Distribute(a: nat, b: nat, c: nat)
    ensures (a + b) * c == a * c + b * c
  {
  }

  lemma CancelWhole(total: nat, part: nat, whole: nat, k: nat)
    requires whole > 0 && part <= whole && total * whole <= part * k
    ensures total <= k
  {
    MulMono(k, part, whole);
    if total > k {
      MulMono(whole, k + 1, total);
    }
  }

  /** ratio_ppm(...).value_or(0). */
  function Ppm(part: U64, whole: U64): (r: U32)
    ensures whole == 0 ==> r == 0
  {
    var ratio := RatioPpm(part, whole);
    if ratio.Some? then ratio.value else 0
  }

  lemma PpmWithinScale(part: U64, whole: U64)
    requires part <= whole
    ensures Ppm(part, whole) <= PPM_SCALE
  {
    if whole != 0 {
      ShareAtMostScale(part, whole);
    }
  }

  // ----- reaching a floor -------------------------------------------------------------

  /** part/whole reaches a floor in parts per million: cross-multiplied where the
      scaled remainder fits in 64 bits, by the integer quotient alone where it does
      not. Against nothing at all, only a floor of zero is reached. */
  predicate Reaches(part: nat, whole: nat, floor: nat) {
    if whole == 0 then floor == 0
    else if part % whole * PPM_SCALE <= U64_MAX then part * PPM_SCALE >= floor * whole
    else part / whole * PPM_SCALE >= floor
  }

  /** The ratio reported is at least a floor exactly when the floor is reached. */
  lemma PpmReaches(part: U64, whole: U64, floor: U32)
    ensures Ppm(part, whole) >= floor <==> Reaches(part, whole, floor)
  {
    if whole != 0 {
      if RemainderScales(part, whole) {
        RatioPpmMeaning(part, whole);
        DivMod(part * PPM_SCALE, whole);
        QuotientReaches(part * PPM_SCALE, whole, floor, part * PPM_SCALE / whole);
        hide RatioPpm;
      } else {
        LostFraction(part, whole);
      }
    }
  }

  lemma QuotientReaches(x: nat, d: nat, floor: nat, q: int)
    requires d > 0 && d * q <= x < d * q + d
    ensures q >= floor <==> x >= floor * d
  {
    if q >= floor {
      MulMonoInt(d, floor, q);
    } else {
      MulMonoInt(d, q + 1, floor);
    }
  }

  /** Where the scaled remainder overflows, only the integer quotient is left. */
  lemma LostFraction(part: U64, whole: U64)
    requires whole != 0 && !RemainderScales(part, whole)
    ensures Ppm(part, whole) == Min(part / whole * PPM_SCALE, U32_MAX)
  {
    DivMod(part, whole);
    RemainderPpmMeaning(part % whole, whole);
    DivAtMost(part, whole);
  }

  /** A whole small enough to scale is cross-multiplied. */
  lemma ScalesReaches(part: nat, whole: nat, floor: nat)
    requires 0 < whole && whole * PPM_SCALE <= U64_MAX
    ensures Reaches(part, whole, floor) <==> part * PPM_SCALE >= floor * whole
  {
    DivMod(part, whole);
    MulMono(PPM_SCALE, part % whole, whole);
  }
}
