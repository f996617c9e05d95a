/** How far the multiplier is from the exact product. Products of two values
    in units of 2^-149 are counted in units of 2^-298, so a result is compared
    with them after scaling by 2^149. */
module FloatMulAccuracy {
  import opened Gates
  import opened Binary32
  import opened FloatMul

  lemma Regroup(a: int, u: int, b: int, v: int)
    ensures (a * u) * (b * v) == (a * b) * (u * v)
  {
  }

  function ExactProduct(n1: Float, n2: Float): nat
    requires Normal(n1) && Normal(n2)
  {
    Multiply(Magnitude(n1), Magnitude(n2))
  }

  function Multiply(a: nat, b: nat): nat { a * b }

  lemma ExactProductIs(n1: Float, n2: Float)
    requires Normal(n1) && Normal(n2)
    ensures ExactProduct(n1, n2) == RawProduct(n1, n2) * Pow2(Exp(n1) + Exp(n2) - 2)
  {
    Regroup(Significand(n1), Pow2(Exp(n1) - 1), Significand(n2), Pow2(Exp(n2) - 1));
    Pow2Sum(Exp(n1) - 1, Exp(n2) - 1);
  }

  /** The result's ulp, scaled, is the position at which the product was cut. */
  lemma ScaledUlp(n1: Float, n2: Float, r: Float)
    requires Normal(n1) && Normal(n2) && Normal(r) && Exp(r) == Target(n1, n2)
    ensures Ulp(r) * Pow2(149) == Scale(RawProduct(n1, n2)) * Pow2(Exp(n1) + Exp(n2) - 2)
  {
    UlpPower(r);
    CutPower(RawProduct(n1, n2), Exp(n1) + Exp(n2) - 2);
  }

  lemma UlpPower(r: Float)
    requires Normal(r)
    ensures Ulp(r) * Pow2(149) == Pow2(Exp(r) + 148)
  {
    Pow2Sum(Exp(r) - 1, 149);
  }

  lemma CutPower(p: nat, x: nat)
    ensures Scale(p) * Pow2(x) == Pow2(23 + Carry(p) + x)
  {
    ScalePower(p);
    Pow2Sum(23 + Carry(p), x);
  }

  lemma ScaledMagnitude(r: Float)
    requires Normal(r)
    ensures Magnitude(r) * Pow2(149) == Significand(r) * (Ulp(r) * Pow2(149))
  {
    Associate(Significand(r), Ulp(r), Pow2(149));
  }

  lemma ScalePower(p: nat)
    ensures Pow2(23 + Carry(p)) == Scale(p)
  {
    Pow23();
    Pow24();
  }

  lemma CeilingBounds(p: nat, d: nat)
    requires d > 0
    ensures p <= Ceiling(p, d) * d < p + d
  {
  }

  /** The band just below 2^47 whose rounding carries out of the fraction. */
  predicate CarriesOut(p: nat) {
    140737488355328 - 8388608 < p < 140737488355328
  }

  lemma CarryOutIff(p: nat)
    requires p <= 281474976710656 - 2 * 16777216 + 1
    ensures Ceiling(p, Scale(p)) >= 16777216 <==> CarriesOut(p)
  {
  }

  /** The stored significand: the ceiling, or 2^23 where the ceiling is 2^24. */
  lemma StoredSignificand(n1: Float, n2: Float, out: MulOut)
    requires Normal(n1) && Normal(n2) && ProductFields(n1, n2, out)
    ensures var p := RawProduct(n1, n2);
      Significand(out.result) == if CarriesOut(p) then 8388608 else Ceiling(p, Scale(p))
    ensures CarriesOut(RawProduct(n1, n2)) ==> Ceiling(RawProduct(n1, n2), Scale(RawProduct(n1, n2))) == 16777216
  {
    SignificandProduct(Significand(n1), Significand(n2));
    StoredBits(RawProduct(n1, n2), Frac(out.result));
  }

  lemma StoredBits(p: nat, frac: nat)
    requires p <= 281474976710656 - 2 * 16777216 + 1 && 8388608 <= Ceiling(p, Scale(p)) <= 16777216
    requires frac == (Ceiling(p, Scale(p)) - 8388608) % 8388608
    ensures 8388608 + frac == if CarriesOut(p) then 8388608 else Ceiling(p, Scale(p))
    ensures CarriesOut(p) ==> Ceiling(p, Scale(p)) == 16777216
  {
    CarryOutIff(p);
  }

  /** The result is at least exact and less than one ulp above it. */
  ghost predicate RoundedUp(n1: Float, n2: Float, r: Float)
    requires Normal(n1) && Normal(n2) && Normal(r)
  {
    RoundedUpAt(n1, n2, r, 149)
  }

  ghost predicate RoundedUpAt(n1: Float, n2: Float, r: Float, k: nat)
    requires Normal(n1) && Normal(n2) && Normal(r)
  {
    Within(ExactProduct(n1, n2), Magnitude(r) * Pow2(k), Ulp(r) * Pow2(k))
  }

  predicate Within(exact: int, mag: int, ulp: int) {
    exact <= mag < exact + ulp
  }

  /** Comparing significand and product at the cut is comparing the numbers. */
  lemma CompareAtCut(s: nat, d: nat, w: nat, p: nat, mag: nat, ulp: nat, exact: nat)
    requires w > 0 && ulp == d * w && mag == s * ulp && exact == p * w
    ensures exact <= mag < exact + ulp <==> p <= s * d < p + d
  {
  }

  /** For ALL normal operands: the result is a normal number and the exact product
      rounded up to it, within one ulp, if and only if the exponent aimed at is
      in range and the significand product is not in the band that carries out. */
  lemma MulRoundsUpIff(n1: Float, n2: Float)
    requires Normal(n1) && Normal(n2)
    ensures var r := Mul(n1, n2).result;
      && Sign(r) == (Sign(n1) != Sign(n2))
      && (Normal(r) && RoundedUp(n1, n2, r) <==>
            1 <= Target(n1, n2) <= 254 && !CarriesOut(RawProduct(n1, n2)))
  {
    MulFields(n1, n2);
    if 1 <= Target(n1, n2) <= 254 {
      MulInRange(n1, n2);
    } else if Normal(Mul(n1, n2).result) {
      WrappedWrong(n1, n2, Mul(n1, n2));
    }
  }

  /** An exponent that wrapped is too large or too small by 256. */
  lemma WrappedWrong(n1: Float, n2: Float, out: MulOut)
    requires Normal(n1) && Normal(n2) && !(1 <= Target(n1, n2) <= 254)
    requires ProductFields(n1, n2, out) && Normal(out.result)
    ensures !RoundedUp(n1, n2, out.result)
  {
    var r, x := out.result, Exp(n1) + Exp(n2) - 2;
    ExactProductIs(n1, n2);
    SignificandProduct(Significand(n1), Significand(n2));
    UlpPower(r);
    ScaledMagnitude(r);
    FarOff(RawProduct(n1, n2), x, Exp(r) + 148, Significand(r));
  }

  lemma FarOff(p: nat, x: nat, k: nat, s: nat)
    requires 70368744177664 <= p < 281474976710656 && (k >= x + 48 || k + 24 <= x + 46) && 2 <= s < 16777216
    ensures !(p * Pow2(x) <= s * Pow2(k) < p * Pow2(x) + Pow2(k))
  {
    if k >= x + 48 {
      FarAbove(p, x, k, s);
    } else {
      FarBelow(p, x, k, s);
    }
  }

  lemma FarAbove(p: nat, x: nat, k: nat, s: nat)
    requires p < 281474976710656 && k >= x + 48 && s >= 2
    ensures s * Pow2(k) >= p * Pow2(x) + Pow2(k)
  {
    Pow48();
    Raised(x, 48);
    Pow2Monotone(x + 48, k);
    Times(p, 281474976710656, Pow2(x));
    Times(2, s, Pow2(k));
  }

  lemma FarBelow(p: nat, x: nat, k: nat, s: nat)
    requires p >= 70368744177664 && k + 24 <= x + 46 && s < 16777216
    ensures s * Pow2(k) < p * Pow2(x)
  {
    Pow24();
    Pow46();
    Raised(k, 24);
    Raised(x, 46);
    Pow2Monotone(k + 24, x + 46);
    BelowByFactors(p, Pow2(x), s, Pow2(k));
  }

  lemma BelowByFactors(p: nat, u: nat, s: nat, v: nat)
    requires p >= 70368744177664 && s < 16777216 && v > 0 && 16777216 * v <= 70368744177664 * u
    ensures s * v < p * u
  {
    Distribute(s, v);
    Times(s + 1, 16777216, v);
    Times(70368744177664, p, u);
  }

  lemma Raised(x: nat, n: nat)
    ensures Pow2(x + n) == Pow2(n) * Pow2(x)
  {
    Pow2Sum(n, x);
  }

  lemma Distribute(s: nat, w: nat)
    requires w > 0
    ensures s * w < (s + 1) * w
  {
  }

  lemma Times(a: nat, b: nat, c: nat)
    requires a <= b
    ensures a * c <= b * c
  {
  }

  lemma MulInRange(n1: Float, n2: Float)
    requires Normal(n1) && Normal(n2) && 1 <= Target(n1, n2) <= 254
    ensures var r := Mul(n1, n2).result;
      Normal(r) && (RoundedUp(n1, n2, r) <==> !CarriesOut(RawProduct(n1, n2)))
  {
    MulFields(n1, n2);
    RoundsUpIff(n1, n2, Mul(n1, n2));
  }

  lemma RoundsUpIff(n1: Float, n2: Float, out: MulOut)
    requires Normal(n1) && Normal(n2) && 1 <= Target(n1, n2) <= 254 && ProductFields(n1, n2, out)
    ensures Normal(out.result) && (RoundedUp(n1, n2, out.result) <==> !CarriesOut(RawProduct(n1, n2)))
  {
    ExactProductIs(n1, n2);
    ScaledUlp(n1, n2, out.result);
    StoredSignificand(n1, n2, out);
    ScaledMagnitude(out.result);
    RoundedAtCut(n1, n2, out.result, RawProduct(n1, n2), Pow2(Exp(n1) + Exp(n2) - 2), 149);
  }

  lemma RoundedAtCut(n1: Float, n2: Float, r: Float, p: nat, w: nat, k: nat)
    requires Normal(n1) && Normal(n2) && Normal(r) && w > 0
    requires ExactProduct(n1, n2) == p * w && Ulp(r) * Pow2(k) == Scale(p) * w
    requires Significand(r) == if CarriesOut(p) then 8388608 else Ceiling(p, Scale(p))
    requires Magnitude(r) * Pow2(k) == Significand(r) * (Ulp(r) * Pow2(k))
    ensures RoundedUpAt(n1, n2, r, k) <==> !CarriesOut(p)
  {
    CutDecides(p, Significand(r), w, Magnitude(r) * Pow2(k), Ulp(r) * Pow2(k), ExactProduct(n1, n2));
  }

  lemma CutDecides(p: nat, s: nat, w: nat, mag: nat, ulp: nat, exact: nat)
    requires s == if CarriesOut(p) then 8388608 else Ceiling(p, Scale(p))
    requires w > 0 && ulp == Scale(p) * w && mag == s * ulp && exact == p * w
    ensures Within(exact, mag, ulp) <==> !CarriesOut(p)
  {
    CeilingBounds(p, Scale(p));
    CompareAtCut(s, Scale(p), w, p, mag, ulp, exact);
  }

  /** In that band the result is exactly half of the correctly rounded-up value. */
  lemma MulHalvesInBand(n1: Float, n2: Float)
    requires Normal(n1) && Normal(n2) && 1 <= Target(n1, n2) <= 254 && CarriesOut(RawProduct(n1, n2))
    ensures var r, p := Mul(n1, n2).result, RawProduct(n1, n2);
      && Carry(p) == 0 && Normal(r)
      && 2 * (Magnitude(r) * Pow2(149)) == Ceiling(p, Scale(p)) * (Ulp(r) * Pow2(149))
      && ExactProduct(n1, n2) <= 2 * (Magnitude(r) * Pow2(149)) < ExactProduct(n1, n2) + Ulp(r) * Pow2(149)
  {
    MulFields(n1, n2);
    HalvesInBand(n1, n2, Mul(n1, n2));
  }

  lemma HalvesInBand(n1: Float, n2: Float, out: MulOut)
    requires Normal(n1) && Normal(n2) && 1 <= Target(n1, n2) <= 254 && ProductFields(n1, n2, out)
    requires CarriesOut(RawProduct(n1, n2))
    ensures var r, p := out.result, RawProduct(n1, n2);
      && Normal(r)
      && 2 * (Magnitude(r) * Pow2(149)) == Ceiling(p, Scale(p)) * (Ulp(r) * Pow2(149))
      && ExactProduct(n1, n2) <= 2 * (Magnitude(r) * Pow2(149)) < ExactProduct(n1, n2) + Ulp(r) * Pow2(149)
  {
    var r, p := out.result, RawProduct(n1, n2);
    var w := Pow2(Exp(n1) + Exp(n2) - 2);
    ExactProductIs(n1, n2);
    ScaledUlp(n1, n2, r);
    StoredSignificand(n1, n2, out);
    CeilingBounds(p, Scale(p));
    ScaledMagnitude(r);
    var u := Ulp(r) * Pow2(149);
    assert Magnitude(r) * Pow2(149) == 8388608 * u;
    CompareAtCut(16777216, Scale(p), w, p, 16777216 * u, u, ExactProduct(n1, n2));
  }

  /** The multiplier's flags together miss exactly the products aimed at an
      exponent of 0 or 255, which the encoding reserves. */
  lemma MulFlagsIff(n1: Float, n2: Float)
    requires Normal(n1) && Normal(n2)
    ensures var out := Mul(n1, n2);
      (out.overflow || out.underflow <==> !(1 <= Target(n1, n2) <= 254))
      <==> Target(n1, n2) != 0 && Target(n1, n2) != 255
  {
    MulFields(n1, n2);
    MulFlagsFromFields(n1, n2, Mul(n1, n2));
  }

  lemma MulFlagsFromFields(n1: Float, n2: Float, out: MulOut)
    requires ProductFields(n1, n2, out)
    ensures (out.overflow || out.underflow <==> !(1 <= Target(n1, n2) <= 254))
       <==> Target(n1, n2) != 0 && Target(n1, n2) != 255
  {
  }

  /** The band is reached: significands 2^23 + 1 and 2^24 - 2, both with exponent 127. */
  lemma BandIsReached() returns (n1: Float, n2: Float)
    ensures Normal(n1) && Normal(n2) && 1 <= Target(n1, n2) <= 254
    ensures CarriesOut(RawProduct(n1, n2)) && Normal(Mul(n1, n2).result) && !RoundedUp(n1, n2, Mul(n1, n2).result)
  {
    n1 := Made(1, 127);
    n2 := Made(8388606, 127);
    assert RawProduct(n1, n2) == 8388609 * 16777214;
    MulInRange(n1, n2);
  }

  /** Both silent exponents are reached: 2^-126 * 2^-1 aims at exponent 0 and
      2^127 * 2 at exponent 255, and neither raises a flag. */
  lemma SilentProducts() returns (a: Float, b: Float, c: Float, d: Float)
    ensures Normal(a) && Normal(b) && Normal(c) && Normal(d)
    ensures Target(a, b) == 0 && Target(c, d) == 255
    ensures !Mul(a, b).overflow && !Mul(a, b).underflow && !Mul(c, d).overflow && !Mul(c, d).underflow
  {
    a := Made(0, 1);
    b := Made(0, 126);
    c := Made(0, 254);
    d := Made(0, 128);
    assert RawProduct(a, b) == RawProduct(c, d) == 8388608 * 8388608;
    MulFlagsIff(a, b);
    MulFlagsIff(c, d);
  }
}
