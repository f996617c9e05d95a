/** How far the adder-subtractor is from the exact sum or difference, all in
    units of 2^-149. */
module FloatAddAccuracy {
  import opened Gates
  import opened Binary32
  import opened FloatAdd
  import Modular

  /** n1 + n2, or n1 - n2 when `sub` is set. */
  function Exact(n1: Float, n2: Float, sub: bool): int
    requires Normal(n1) && Normal(n2)
  {
    if sub then Value(n1) - Value(n2) else Value(n1) + Value(n2)
  }

  function Absolute(x: int): nat { if x < 0 then -x else x }

  /** The larger exponent, and one unit of a significand there. */
  function Top(n1: Float, n2: Float): nat { Max(Exp(n1), Exp(n2)) }

  function Unit(e: nat): nat
    requires e >= 1
  {
    Pow2(e - 1)
  }

  // --------------------------------------------------------------- alignment

  lemma MulLess(a: int, b: int, c: int)
    requires c > 0
    ensures a < b ==> a * c + c <= b * c
    ensures a <= b ==> a * c <= b * c
  {
    Commute(a, c);
    Commute(b, c);
    if a < b {
      Modular.MulMonotone(c, a, b);
    }
  }

  lemma Commute(a: int, b: int)
    ensures a * b == b * a
  {
  }

  /** Aligning loses less than one unit, and nothing at the larger exponent. */
  lemma AlignLoss(n: Float, e: nat)
    requires Normal(n) && Exp(n) <= e
    ensures Aligned(n, e) * Unit(e) <= Magnitude(n) < Aligned(n, e) * Unit(e) + Unit(e)
    ensures Exp(n) == e ==> Magnitude(n) == Aligned(n, e) * Unit(e)
  {
    if Exp(n) < e {
      var d, w := Pow2(e - Exp(n)), Pow2(Exp(n) - 1);
      Pow2Sum(e - Exp(n), Exp(n) - 1);
      TruncationLoss(Significand(n), d, w, Aligned(n, e));
    }
  }

  lemma TruncationLoss(m: nat, d: nat, w: nat, q: nat)
    requires d > 0 && w > 0 && q == m / d
    ensures q * (d * w) <= m * w < q * (d * w) + d * w
  {
  }

  lemma Distributes(a: int, b: int, w: int)
    ensures (a + b) * w == a * w + b * w && (a - b) * w == a * w - b * w
  {
  }

  /** Exact sum and difference of magnitudes, measured at the larger exponent:
      at most one of the two operands loses anything. */
  lemma LossesAtTop(n1: Float, n2: Float, a: nat, b: nat, w: nat)
    requires Normal(n1) && Normal(n2) && w == Unit(Top(n1, n2))
    requires a == Aligned(n1, Top(n1, n2)) && b == Aligned(n2, Top(n1, n2))
    ensures a * w + b * w <= Magnitude(n1) + Magnitude(n2) < a * w + b * w + w
    ensures Absolute((a * w - b * w) - (Magnitude(n1) - Magnitude(n2))) < w
    ensures Exp(n1) == Exp(n2) ==> a * w - b * w == Magnitude(n1) - Magnitude(n2)
  {
    AlignLoss(n1, Top(n1, n2));
    AlignLoss(n2, Top(n1, n2));
  }

  lemma SumAtTop(n1: Float, n2: Float)
    requires Normal(n1) && Normal(n2)
    ensures var s, w := AlignedSum(n1, n2), Unit(Top(n1, n2));
      s * w <= Magnitude(n1) + Magnitude(n2) < s * w + w
  {
    var a, b, w := Aligned(n1, Top(n1, n2)), Aligned(n2, Top(n1, n2)), Unit(Top(n1, n2));
    LossesAtTop(n1, n2, a, b, w);
    Distributes(a, b, w);
  }

  lemma DifferenceAtTop(n1: Float, n2: Float)
    requires Normal(n1) && Normal(n2)
    ensures var e := Top(n1, n2); var a, b, w := Aligned(n1, e), Aligned(n2, e), Unit(e);
      && Absolute(((a - b) * w) - (Magnitude(n1) - Magnitude(n2))) < w
      && (Exp(n1) == Exp(n2) ==> (a - b) * w == Magnitude(n1) - Magnitude(n2))
  {
    var a, b, w := Aligned(n1, Top(n1, n2)), Aligned(n2, Top(n1, n2)), Unit(Top(n1, n2));
    LossesAtTop(n1, n2, a, b, w);
    Distributes(a, b, w);
  }

  // ----------------------------------------------------------------- addition

  /** Less than one ulp off; at most half an ulp when the significand sum carries. */
  ghost predicate SumIsClose(n1: Float, n2: Float, sub: bool, r: Float)
    requires Normal(n1) && Normal(n2)
  {
    && Normal(r) && Sign(r) == Sign(n1)
    && (AlignedSum(n1, n2) < 16777216 ==> Absolute(Value(r) - Exact(n1, n2, sub)) < Ulp(r))
    && (AlignedSum(n1, n2) >= 16777216 ==> 2 * Absolute(Value(r) - Exact(n1, n2, sub)) <= Ulp(r))
  }

  lemma SameSigns(n1: Float, n2: Float, sub: bool)
    requires Normal(n1) && Normal(n2) && !RealOper(n1, n2, sub)
    ensures Exact(n1, n2, sub) == if Sign(n1) then -(Magnitude(n1) + Magnitude(n2)) else Magnitude(n1) + Magnitude(n2)
  {
  }

  lemma OppositeSigns(n1: Float, n2: Float, sub: bool)
    requires Normal(n1) && Normal(n2) && RealOper(n1, n2, sub)
    ensures Exact(n1, n2, sub) == if Sign(n1) then Magnitude(n2) - Magnitude(n1) else Magnitude(n1) - Magnitude(n2)
  {
  }

  /** The sum's exponent stays below the reserved 255. */
  predicate SumFits(n1: Float, n2: Float) {
    Top(n1, n2) <= 253 || AlignedSum(n1, n2) < 16777216
  }

  /** Magnitude of the sum, from its fields. */
  lemma SumMagnitude(n1: Float, n2: Float, out: AddOut)
    requires Normal(n1) && Normal(n2) && SumFits(n1, n2) && SumFields(n1, n2, out)
    ensures var s, w, r := AlignedSum(n1, n2), Unit(Top(n1, n2)), out.result;
      && Normal(r)
      && (s < 16777216 ==> Ulp(r) == w && Magnitude(r) == s * w)
      && (s >= 16777216 ==> Ulp(r) == 2 * w && Magnitude(r) == (s + s % 2) * w)
  {
    if AlignedSum(n1, n2) >= 16777216 {
      HalvedTwice(AlignedSum(n1, n2), Unit(Top(n1, n2)));
    }
  }

  lemma HalvedTwice(s: nat, w: nat)
    ensures (s + 1) / 2 * (2 * w) == (s + s % 2) * w
  {
    assert (s + 1) / 2 * 2 == s + s % 2;
    Associate((s + 1) / 2, 2, w);
  }

  lemma CloseMagnitudes(s: nat, w: nat, exact: nat, mag: nat)
    requires w > 0 && s * w <= exact < s * w + w
    ensures mag == s * w ==> Absolute(mag - exact) < w
    ensures mag == (s + s % 2) * w ==> Absolute(mag - exact) <= w
  {
  }

  lemma SumCloseFromFields(n1: Float, n2: Float, sub: bool, out: AddOut)
    requires Normal(n1) && Normal(n2) && !RealOper(n1, n2, sub) && SumFits(n1, n2) && SumFields(n1, n2, out)
    ensures SumIsClose(n1, n2, sub, out.result)
  {
    SameSigns(n1, n2, sub);
    SumAtTop(n1, n2);
    SumMagnitude(n1, n2, out);
    CloseMagnitudes(AlignedSum(n1, n2), Unit(Top(n1, n2)), Magnitude(n1) + Magnitude(n2), Magnitude(out.result));
  }

  /** For all normal operands of equal effective sign: within less than one ulp,
      and within half an ulp on a carry, if and only if the larger exponent is at
      most 253 or the significands do not carry. */
  lemma AdditionAccurateIff(n1: Float, n2: Float, sub: bool)
    requires Normal(n1) && Normal(n2) && !RealOper(n1, n2, sub)
    ensures SumIsClose(n1, n2, sub, AddSub(n1, n2, sub).result) <==>
            Top(n1, n2) <= 253 || AlignedSum(n1, n2) < 16777216
  {
    AddFields(n1, n2, sub);
    if SumFits(n1, n2) {
      SumCloseFromFields(n1, n2, sub, AddSub(n1, n2, sub));
    }
  }

  // -------------------------------------------------------------- subtraction

  /** The aligned difference is at least the smallest normal number. */
  predicate NotTiny(d: nat, e: nat)
    requires e >= 1
  {
    d * Unit(e) >= 8388608
  }

  lemma ShiftFits(d: nat, e: nat, shift: nat, m: nat)
    requires e >= 1 && m == d * Pow2(shift) && 8388608 <= m < 16777216
    ensures NotTiny(d, e) <==> e > shift
    ensures e > shift ==> m * Pow2(e - shift - 1) == d * Unit(e)
  {
    if e > shift {
      Pow2Sum(shift, e - shift - 1);
      Associate(d, Pow2(shift), Pow2(e - shift - 1));
      Grow(m, Pow2(e - shift - 1));
    } else {
      Pow2Sum(e - 1, shift - e + 1);
      Associate(d, Unit(e), Pow2(shift - e + 1));
      TwiceAtLeast(d * Unit(e), Pow2(shift - e));
    }
  }

  lemma TwiceAtLeast(x: nat, p: nat)
    requires p > 0
    ensures x * (2 * p) >= 2 * x
  {
  }

  /** The wrapped exponent makes the result at least four times too large. */
  lemma WrapScale(d: nat, e: nat, shift: nat, m: nat) returns (factor: nat)
    requires e >= 1 && m == d * Pow2(shift) && e <= shift < e + 253
    ensures factor >= 4 && m * Pow2(e + 255 - shift) == (d * Unit(e)) * factor
  {
    factor := Pow2(256);
    Pow2Sum(shift, e + 255 - shift);
    Pow2Sum(e - 1, 256);
    Associate(d, Pow2(shift), Pow2(e + 255 - shift));
    Associate(d, Unit(e), Pow2(256));
    Pow2Monotone(2, 256);
    assert Pow2(2) == 4;
  }

  /** Off by less than one unit at the larger exponent; for equal exponents, exact. */
  ghost predicate DifferenceIsClose(n1: Float, n2: Float, sub: bool, r: Float)
    requires Normal(n1) && Normal(n2)
  {
    && Normal(r)
    && Absolute(Value(r) - Exact(n1, n2, sub)) < Unit(Top(n1, n2))
    && (Exp(n1) == Exp(n2) ==> Value(r) == Exact(n1, n2, sub))
  }

  lemma DifferenceMagnitude(n1: Float, n2: Float, out: AddOut, shift: nat)
    requires Normal(n1) && Normal(n2) && DifferenceFields(n1, n2, out, shift)
    requires !Unseen(AlignedDistance(n1, n2)) && NotTiny(AlignedDistance(n1, n2), Top(n1, n2))
    ensures Normal(out.result) && Magnitude(out.result) == AlignedDistance(n1, n2) * Unit(Top(n1, n2))
  {
    ShiftFits(AlignedDistance(n1, n2), Top(n1, n2), shift, Significand(out.result));
  }

  lemma SignedDistance(a: nat, b: nat, w: nat)
    ensures Distance(a, b) * w == if a >= b then (a - b) * w else -((a - b) * w)
  {
  }

  lemma DifferenceCloseFromFields(n1: Float, n2: Float, sub: bool, out: AddOut, shift: nat)
    requires Normal(n1) && Normal(n2) && RealOper(n1, n2, sub) && DifferenceFields(n1, n2, out, shift)
    requires !Unseen(AlignedDistance(n1, n2)) && NotTiny(AlignedDistance(n1, n2), Top(n1, n2))
    ensures DifferenceIsClose(n1, n2, sub, out.result)
  {
    var e := Top(n1, n2);
    OppositeSigns(n1, n2, sub);
    DifferenceAtTop(n1, n2);
    DifferenceMagnitude(n1, n2, out, shift);
    SignedDistance(Aligned(n1, e), Aligned(n2, e), Unit(e));
  }

  /** A larger operand hi, and lo truncated k >= 1 places to q: the aligned
      difference is at least the exact one, by less than a unit. */
  lemma TruncatedDifference(hi: nat, lo: nat, k: nat, v: nat, q: nat, w: nat)
    requires 8388608 <= hi < 16777216 && lo < 16777216 && k >= 1 && v > 0
    requires q == Quotient(lo, Pow2(k)) && w == Pow2(k) * v
    ensures q < hi && 0 < hi * w - lo * v <= (hi - q) * w < hi * w - lo * v + w
    ensures hi - q == 1 ==> 2 * (hi * w - lo * v) >= w
  {
    TruncationLoss(lo, Pow2(k), v, q);
    Halves(lo, k, q);
    Distributes(hi, q, w);
    MulLess(q, hi, w);
    if hi - q == 1 {
      ClosestTruncation(hi, lo, k, v, q);
    }
  }

  lemma Halves(lo: nat, k: nat, q: nat)
    requires k >= 1 && q == Quotient(lo, Pow2(k)) && lo < 16777216
    ensures 2 * q <= lo && (k >= 2 ==> 4 * q <= lo)
  {
    QuotientBelow(lo, Pow2(k), 2);
    if k >= 2 {
      assert Pow2(k) == 4 * Pow2(k - 2);
      QuotientBelow(lo, Pow2(k), 4);
    }
  }

  lemma QuotientBelow(lo: nat, p: nat, c: nat)
    requires p >= c > 0
    ensures c * Quotient(lo, p) <= lo
  {
    MulLess(c, p, Quotient(lo, p) + 1);
    QuotientTimes(lo, p);
    Regroup(c, p, Quotient(lo, p));
  }

  lemma QuotientTimes(lo: nat, p: nat)
    requires p > 0
    ensures p * Quotient(lo, p) <= lo
  {
  }

  lemma Regroup(c: nat, p: nat, q: nat)
    requires c <= p
    ensures c * q <= p * q
  {
  }

  /** Aligned neighbours: k == 1, hi == 2^23 and lo at least 2^24 - 2. */
  lemma ClosestTruncation(hi: nat, lo: nat, k: nat, v: nat, q: nat)
    requires 8388608 <= hi && lo < 16777216 && k >= 1 && v > 0
    requires q == Quotient(lo, Pow2(k)) && hi - q == 1
    ensures 2 * (hi * (Pow2(k) * v) - lo * v) >= Pow2(k) * v
  {
    Halves(lo, k, q);
    assert k == 1 && Pow2(1) == 2;
    MulLess(lo, 16777216, v);
    assert hi * (2 * v) == 16777216 * v;
  }

  /** The exact difference against the aligned one: never above it, less than a
      unit below it, zero together, and at least half a unit where it is one. */
  lemma ExactDifference(n1: Float, n2: Float, sub: bool)
    requires Normal(n1) && Normal(n2) && RealOper(n1, n2, sub)
    ensures NearlyAligned(AlignedDistance(n1, n2), Unit(Top(n1, n2)), Absolute(Exact(n1, n2, sub)))
  {
    var e := Top(n1, n2);
    OppositeSigns(n1, n2, sub);
    if Exp(n1) > Exp(n2) {
      MagnitudesApart(n1, n2);
    } else if Exp(n1) < Exp(n2) {
      MagnitudesApart(n2, n1);
    } else {
      SignedDistance(Significand(n1), Significand(n2), Unit(e));
      Distributes(Significand(n1), Significand(n2), Unit(e));
      EqualExponents(Significand(n1), Significand(n2), Unit(e), Absolute(Exact(n1, n2, sub)));
    }
  }

  ghost predicate NearlyAligned(d: nat, w: nat, x: nat) {
    x <= d * w < x + w && (d == 0 <==> x == 0) && (d == 1 ==> 2 * x >= w)
  }

  lemma MagnitudesApart(n1: Float, n2: Float)
    requires Normal(n1) && Normal(n2) && Exp(n1) > Exp(n2)
    ensures Magnitude(n1) > Magnitude(n2)
    ensures NearlyAligned(AlignedDistance(n1, n2), Unit(Exp(n1)), Magnitude(n1) - Magnitude(n2))
    ensures AlignedDistance(n2, n1) == AlignedDistance(n1, n2)
  {
    var k := Exp(n1) - Exp(n2);
    Pow2Sum(k, Exp(n2) - 1);
    TruncatedDifference(Significand(n1), Significand(n2), k, Unit(Exp(n2)), Aligned(n2, Exp(n1)), Unit(Exp(n1)));
  }

  lemma EqualExponents(a: nat, b: nat, w: nat, x: nat)
    requires w > 0 && (x == a * w - b * w || x == b * w - a * w)
    requires Distance(a, b) * w == if a >= b then (a - b) * w else -((a - b) * w)
    requires (a - b) * w == a * w - b * w
    ensures NearlyAligned(Distance(a, b), w, x)
  {
    MulLess(a, b, w);
    MulLess(b, a, w);
  }

  lemma ExactNear(n1: Float, n2: Float, sub: bool)
    requires Normal(n1) && Normal(n2) && RealOper(n1, n2, sub)
    ensures var w := Unit(Top(n1, n2)); Absolute(Exact(n1, n2, sub)) < AlignedDistance(n1, n2) * w + w
  {
    ExactDifference(n1, n2, sub);
  }

  /** A difference the table cannot see comes out as 2^23 units. */
  lemma UnseenWrong(n1: Float, n2: Float, sub: bool, out: AddOut, shift: nat)
    requires Normal(n1) && Normal(n2) && RealOper(n1, n2, sub)
    requires DifferenceFields(n1, n2, out, shift) && Unseen(AlignedDistance(n1, n2))
    ensures Normal(out.result) && !DifferenceIsClose(n1, n2, sub, out.result)
  {
    ExactNear(n1, n2, sub);
    TooFar(AlignedDistance(n1, n2), Unit(Top(n1, n2)), Value(out.result), Exact(n1, n2, sub));
  }

  lemma TooFar(d: nat, w: nat, value: int, exact: int)
    requires d < 32 && w > 0 && Absolute(value) == 8388608 * w && Absolute(exact) < d * w + w
    ensures Absolute(value - exact) >= w
  {
    MulLess(d, 32, w);
  }

  /** A result too small to normalise wraps its exponent round. */
  lemma TinyWrong(n1: Float, n2: Float, sub: bool, out: AddOut, shift: nat)
    requires Normal(n1) && Normal(n2) && RealOper(n1, n2, sub) && DifferenceFields(n1, n2, out, shift)
    requires !Unseen(AlignedDistance(n1, n2)) && !NotTiny(AlignedDistance(n1, n2), Top(n1, n2))
    ensures !DifferenceIsClose(n1, n2, sub, out.result)
  {
    if Normal(out.result) {
      var factor := TinyMagnitude(n1, n2, out, shift);
      ExactNear(n1, n2, sub);
      FarFromExact(AlignedDistance(n1, n2), Unit(Top(n1, n2)), factor, out.result, Exact(n1, n2, sub));
    }
  }

  lemma TinyMagnitude(n1: Float, n2: Float, out: AddOut, shift: nat) returns (factor: nat)
    requires Normal(n1) && Normal(n2) && Normal(out.result) && DifferenceFields(n1, n2, out, shift)
    requires !Unseen(AlignedDistance(n1, n2)) && !NotTiny(AlignedDistance(n1, n2), Top(n1, n2))
    ensures factor >= 4 && Magnitude(out.result) == (AlignedDistance(n1, n2) * Unit(Top(n1, n2))) * factor
  {
    var e, d := Top(n1, n2), AlignedDistance(n1, n2);
    ShiftFits(d, e, shift, Significand(out.result));
    factor := WrapScale(d, e, shift, Significand(out.result));
  }

  lemma FarFromExact(d: nat, w: nat, factor: nat, r: Float, exact: int)
    requires d > 0 && w > 0 && factor >= 4 && Normal(r) && Magnitude(r) == (d * w) * factor
    requires Absolute(exact) < d * w + w
    ensures Absolute(Value(r) - exact) >= w
  {
    MulLess(0, d, w);
    HugeDiffers(d * w, w, factor, Value(r), exact);
  }

  lemma HugeDiffers(x: nat, w: nat, factor: nat, value: int, exact: int)
    requires x >= w > 0 && factor >= 4 && Absolute(value) == x * factor && Absolute(exact) < x + w
    ensures Absolute(value - exact) >= w
  {
    AtLeastFour(x, factor);
  }

  lemma AtLeastFour(x: nat, p: nat)
    requires p >= 4
    ensures x * p >= 4 * x
  {
  }

  /** For ALL normal operands of opposite effective sign: less than one unit of
      the larger operand off, and exact for equal exponents, if and only if the
      case table sees the aligned difference (it is neither 0 nor 16 to 31) and
      that difference is at least the smallest normal number. */
  lemma SubtractionAccurateIff(n1: Float, n2: Float, sub: bool)
    requires Normal(n1) && Normal(n2) && RealOper(n1, n2, sub)
    ensures var d := AlignedDistance(n1, n2);
      DifferenceIsClose(n1, n2, sub, AddSub(n1, n2, sub).result) <==> !Unseen(d) && NotTiny(d, Top(n1, n2))
  {
    var shift := SubFields(n1, n2, sub);
    CloseIffFromFields(n1, n2, sub, AddSub(n1, n2, sub), shift);
  }

  lemma CloseIffFromFields(n1: Float, n2: Float, sub: bool, out: AddOut, shift: nat)
    requires Normal(n1) && Normal(n2) && RealOper(n1, n2, sub) && DifferenceFields(n1, n2, out, shift)
    ensures var d := AlignedDistance(n1, n2);
      DifferenceIsClose(n1, n2, sub, out.result) <==> !Unseen(d) && NotTiny(d, Top(n1, n2))
  {
    if Unseen(AlignedDistance(n1, n2)) {
      UnseenWrong(n1, n2, sub, out, shift);
    } else if NotTiny(AlignedDistance(n1, n2), Top(n1, n2)) {
      DifferenceCloseFromFields(n1, n2, sub, out, shift);
    } else {
      TinyWrong(n1, n2, sub, out, shift);
    }
  }

  /** For equal exponents an effective subtraction is exact and correctly signed
      if and only if the significand difference is neither 0 nor 16 to 31 and
      the difference is at least the smallest normal number. */
  lemma SubtractionExactIff(n1: Float, n2: Float, sub: bool)
    requires Normal(n1) && Normal(n2) && Exp(n1) == Exp(n2) && RealOper(n1, n2, sub)
    ensures var r, d := AddSub(n1, n2, sub).result, Distance(Significand(n1), Significand(n2));
      Normal(r) && Value(r) == Exact(n1, n2, sub) <==> !Unseen(d) && NotTiny(d, Exp(n1))
  {
    SubtractionAccurateIff(n1, n2, sub);
    var r := AddSub(n1, n2, sub).result;
    assert Normal(r) && Value(r) == Exact(n1, n2, sub) <==> DifferenceIsClose(n1, n2, sub, r);
  }

  // ------------------------------------------------------------------- flags

  /** Where the overflow flag and a result exponent of 255 part: an addition at
      exponent 254 that does not carry; a subtraction at exponent 254 that needs
      no normalising shift; and a subtraction so small that its exponent wraps
      from 1 below zero to 255. */
  predicate OverflowMisleads(n1: Float, n2: Float, sub: bool) {
    var e, d := Top(n1, n2), AlignedDistance(n1, n2);
    if RealOper(n1, n2, sub) then
      || (e == 254 && (Unseen(d) || d >= 8388608))
      || (!Unseen(d) && InBinade(d, e + 1))
    else e == 254 && AlignedSum(n1, n2) < 16777216
  }

  /** Shifting d left by k brings its leading one to the significand's top bit. */
  predicate InBinade(d: nat, k: nat) {
    8388608 <= d * Pow2(k) < 16777216
  }

  lemma BinadeUnique(d: nat, shift: nat, k: nat)
    requires InBinade(d, shift)
    ensures InBinade(d, k) <==> k == shift
  {
    if k < shift {
      Pow2Sum(k, shift - k);
      Associate(d, Pow2(k), Pow2(shift - k));
      TwiceAtLeast(d * Pow2(k), Pow2(shift - k - 1));
    } else if k > shift {
      Pow2Sum(shift, k - shift);
      Associate(d, Pow2(shift), Pow2(k - shift));
      TwiceAtLeast(d * Pow2(shift), Pow2(k - shift - 1));
    }
  }

  /** For ALL normal operands: the overflow flag tells exactly when the result
      carries exponent 255 if and only if none of those three cases applies. */
  lemma OverflowFlagIff(n1: Float, n2: Float, sub: bool)
    requires Normal(n1) && Normal(n2)
    ensures var out := AddSub(n1, n2, sub);
      (out.overflow <==> Exp(out.result) == 255) <==> !OverflowMisleads(n1, n2, sub)
  {
    if RealOper(n1, n2, sub) {
      var shift := SubFields(n1, n2, sub);
      DifferenceFlags(n1, n2, AddSub(n1, n2, sub), shift);
    } else {
      AddFields(n1, n2, sub);
      SumFlags(n1, n2, AddSub(n1, n2, sub));
    }
  }

  lemma SumFlags(n1: Float, n2: Float, out: AddOut)
    requires Normal(n1) && Normal(n2) && SumFields(n1, n2, out)
    ensures (out.overflow <==> Exp(out.result) == 255) <==> Top(n1, n2) != 254 || AlignedSum(n1, n2) >= 16777216
  {
  }

  lemma DifferenceFlags(n1: Float, n2: Float, out: AddOut, shift: nat)
    requires Normal(n1) && Normal(n2) && DifferenceFields(n1, n2, out, shift)
    ensures var e, d := Top(n1, n2), AlignedDistance(n1, n2);
      && ((out.overflow <==> Exp(out.result) == 255) <==>
            !(e == 254 && (Unseen(d) || d >= 8388608)) && (Unseen(d) || !InBinade(d, e + 1)))
      && ((out.underflow <==> d > 0 && !NotTiny(d, e)) <==>
            if Unseen(d) then d == 0 || NotTiny(d, e) else !InBinade(d, e))
  {
    var e, d := Top(n1, n2), AlignedDistance(n1, n2);
    if !Unseen(d) {
      assert Pow2(0) == 1;
      BinadeUnique(d, shift, 0);
      BinadeUnique(d, shift, e);
      BinadeUnique(d, shift, e + 1);
      ShiftFits(d, e, shift, Significand(out.result));
    }
  }

  /** The smallest normal number, in units of 2^-149. */
  const SMALLEST := 8388608

  /** Where the underflow flag and an exact difference below the smallest normal
      number part: a difference that small that the table cannot see; one whose
      exponent lands on exactly 0; and one that the truncation lifts to exactly
      the smallest normal number. */
  predicate UnderflowMisleads(n1: Float, n2: Float, sub: bool)
    requires Normal(n1) && Normal(n2)
  {
    var e, d := Top(n1, n2), AlignedDistance(n1, n2);
    || (if Unseen(d) then d != 0 && !NotTiny(d, e) else InBinade(d, e))
    || (d * Unit(e) == SMALLEST && Absolute(Exact(n1, n2, sub)) < SMALLEST)
  }

  /** For ALL normal operands of opposite effective sign: the underflow flag tells
      exactly whether the exact difference is non-zero and below the smallest
      normal number, if and only if none of those three cases applies. */
  lemma UnderflowFlagIff(n1: Float, n2: Float, sub: bool)
    requires Normal(n1) && Normal(n2) && RealOper(n1, n2, sub)
    ensures (AddSub(n1, n2, sub).underflow <==> 0 < Absolute(Exact(n1, n2, sub)) < SMALLEST)
       <==> !UnderflowMisleads(n1, n2, sub)
  {
    var e, d, x := Top(n1, n2), AlignedDistance(n1, n2), Absolute(Exact(n1, n2, sub));
    var shift := SubFields(n1, n2, sub);
    DifferenceFlags(n1, n2, AddSub(n1, n2, sub), shift);
    ExactDifference(n1, n2, sub);
    LiftedExactly(d, e, x);
    UnderflowTruth(d, e, x, AddSub(n1, n2, sub).underflow);
  }

  lemma UnderflowTruth(d: nat, e: nat, x: nat, flag: bool)
    requires e >= 1 && NearlyAligned(d, Unit(e), x) && (d * Unit(e) > SMALLEST ==> x >= SMALLEST)
    requires (flag <==> d > 0 && !NotTiny(d, e)) <==> if Unseen(d) then d == 0 || NotTiny(d, e) else !InBinade(d, e)
    ensures (flag <==> 0 < x < SMALLEST) <==>
      !((if Unseen(d) then d != 0 && !NotTiny(d, e) else InBinade(d, e)) || (d * Unit(e) == SMALLEST && x < SMALLEST))
  {
    Associate(d, 2, Unit(e));
  }

  /** Truncation lifts a difference over the smallest normal number only to the
      number itself. */
  lemma LiftedExactly(d: nat, e: nat, x: nat)
    requires e >= 1 && NearlyAligned(d, Unit(e), x)
    ensures d * Unit(e) > SMALLEST ==> x >= SMALLEST
  {
    var w := Unit(e);
    if e <= 24 {
      Pow2Sum(24 - e, e - 1);
      Pow23();
      MulLess(Pow2(24 - e), d, w);
      MulLess(d, Pow2(24 - e), w);
    } else {
      Pow2Sum(24, e - 25);
      Pow24();
      Grow(16777216, Pow2(e - 25));
      if d >= 2 {
        MulLess(2, d, w);
      }
    }
  }

  // --------------------------------------------------------------- witnesses

  /** Significands 16 apart at exponent 127: not exact. */
  lemma UnseenIsReached() returns (n1: Float, n2: Float)
    ensures Normal(n1) && Normal(n2) && Exact(n1, n2, true) > 0
    ensures var r := AddSub(n1, n2, true).result; Normal(r) && Value(r) == 524288 * Exact(n1, n2, true)
  {
    n1 := Made(16, 127);
    n2 := Made(0, 127);
    var shift := SubFields(n1, n2, true);
    assert Pow2(0) == 1;
    assert AlignedDistance(n1, n2) == 16;
    DifferenceAtTop(n1, n2);
    OppositeSigns(n1, n2, true);
    SixteenUnits(n1, n2, AddSub(n1, n2, true), shift, Unit(127));
  }

  lemma SixteenUnits(n1: Float, n2: Float, out: AddOut, shift: nat, w: nat)
    requires Exp(n1) == Exp(n2) == 127 && Frac(n1) == 16 && Frac(n2) == 0 && !Sign(n1) && w == Unit(127)
    requires DifferenceFields(n1, n2, out, shift) && AlignedDistance(n1, n2) == 16
    ensures Normal(out.result) && Value(out.result) == 8388608 * w
    ensures Magnitude(n1) - Magnitude(n2) == 16 * w && w > 0
  {
  }

  /** Half the smallest normal number: the exponent lands on 0 and no flag is raised. */
  lemma SilentUnderflow() returns (n1: Float, n2: Float)
    ensures Normal(n1) && Normal(n2) && Exact(n1, n2, true) == 4194304
    ensures var out := AddSub(n1, n2, true); !Normal(out.result) && !out.underflow && !out.overflow
  {
    n1 := Made(4194304, 1);
    n2 := Made(0, 1);
    assert Pow2(0) == 1 && Pow2(1) == 2;
    OppositeSigns(n1, n2, true);
    var shift := SubFields(n1, n2, true);
    assert AlignedDistance(n1, n2) == 4194304;
    BinadeUnique(4194304, shift, 1);
  }

  /** 2^-125 - (2^-126 + 2^-149) is below the smallest normal number, comes out as
      that number, and raises no flag. */
  lemma TruncationHidesUnderflow() returns (n1: Float, n2: Float)
    ensures Normal(n1) && Normal(n2) && Exact(n1, n2, true) == SMALLEST - 1
    ensures var out := AddSub(n1, n2, true); Normal(out.result) && Value(out.result) == SMALLEST && !out.underflow
  {
    n1 := Made(0, 2);
    n2 := Made(1, 1);
    LiftedOperands(n1, n2);
    var shift := SubFields(n1, n2, true);
    LiftedFields(n1, n2, AddSub(n1, n2, true), shift);
  }

  lemma LiftedOperands(n1: Float, n2: Float)
    requires Exp(n1) == 2 && Exp(n2) == 1 && !Sign(n1) && !Sign(n2) && Frac(n1) == 0 && Frac(n2) == 1
    ensures Aligned(n1, 2) == 8388608 && Aligned(n2, 2) == 4194304
    ensures RealOper(n1, n2, true) && Exact(n1, n2, true) == SMALLEST - 1
  {
    assert Pow2(0) == 1 && Pow2(1) == 2;
  }

  lemma LiftedFields(n1: Float, n2: Float, out: AddOut, shift: nat)
    requires Exp(n1) == 2 && Exp(n2) == 1 && !Sign(n1)
    requires Aligned(n1, 2) == 8388608 && Aligned(n2, 2) == 4194304
    requires DifferenceFields(n1, n2, out, shift)
    ensures Normal(out.result) && Value(out.result) == SMALLEST && !out.underflow
  {
    assert Pow2(0) == 1 && Pow2(1) == 2;
    BinadeUnique(4194304, shift, 1);
  }

  /** The overflow flag on a finite, accurate sum: 2^127 + 2^126. */
  lemma FalseOverflowOnSum() returns (n1: Float, n2: Float)
    ensures Normal(n1) && Normal(n2)
    ensures var out := AddSub(n1, n2, false);
      out.overflow && Exp(out.result) == 254 && SumIsClose(n1, n2, false, out.result)
  {
    n1 := Made(0, 254);
    n2 := Made(0, 253);
    AlignedAtTop(n1, n2, 1, 2);
    AddFields(n1, n2, false);
    AdditionAccurateIff(n1, n2, false);
  }

  /** The overflow flag on a finite, accurate difference: 1.5 * 2^127 - 2^125. */
  lemma FalseOverflowOnDifference() returns (n1: Float, n2: Float)
    ensures Normal(n1) && Normal(n2)
    ensures var out := AddSub(n1, n2, true);
      out.overflow && Exp(out.result) == 254 && DifferenceIsClose(n1, n2, true, out.result)
  {
    n1 := Made(4194304, 254);
    n2 := Made(0, 252);
    AlignedAtTop(n1, n2, 2, 4);
    var shift := SubFields(n1, n2, true);
    LargeDifference(n1, n2, AddSub(n1, n2, true), shift);
    SubtractionAccurateIff(n1, n2, true);
  }

  /** At exponent 254 any aligned difference of at least 2^23 raises the flag. */
  lemma LargeDifference(n1: Float, n2: Float, out: AddOut, shift: nat)
    requires Normal(n1) && Normal(n2) && DifferenceFields(n1, n2, out, shift)
    requires Top(n1, n2) == 254 && AlignedDistance(n1, n2) >= 8388608
    ensures out.overflow && Exp(out.result) == 254
    ensures !Unseen(AlignedDistance(n1, n2)) && NotTiny(AlignedDistance(n1, n2), 254)
  {
    assert Pow2(0) == 1;
    LargeNotTiny(AlignedDistance(n1, n2), 254);
    BinadeUnique(AlignedDistance(n1, n2), shift, 0);
  }

  lemma LargeNotTiny(d: nat, e: nat)
    requires e >= 1 && d >= 8388608
    ensures NotTiny(d, e) && !Unseen(d)
  {
    Grow(d, Unit(e));
  }

  lemma AlignedAtTop(n1: Float, n2: Float, k: nat, p: nat)
    requires Exp(n1) == 254 && Exp(n2) == 254 - k && Frac(n2) == 0 && ((k == 1 && p == 2) || (k == 2 && p == 4))
    ensures Aligned(n1, 254) == Significand(n1) && Aligned(n2, 254) == 8388608 / p
  {
    assert Pow2(1) == 2 && Pow2(2) == 4;
  }
}
