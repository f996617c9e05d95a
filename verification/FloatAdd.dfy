/** The adder-subtractor: alignment by truncating shift, one 24-bit addition or
    complement subtraction, sign correction and normalisation. */
module FloatAdd {
  import Modular
  import opened Gates
  import opened Binary32

  // ----------------------------------------------------------- normalisation

  /** The casex patterns in order. Pattern k wants a leading one at bit 23 - k,
      except that the text of pattern 19 also asks for bit 8. */
  predicate Matches(m: Bits, k: nat)
    requires |m| == 24 && k < 24
  {
    if k == 19 then m[8] && m[4] && forall i :: 5 <= i < 24 && i != 8 ==> !m[i]
    else m[23 - k] && forall i :: 23 - k < i < 24 ==> !m[i]
  }

  /** The first pattern from k on that matches; 24 is the default branch. */
  function FirstMatch(m: Bits, k: nat): (j: nat)
    requires |m| == 24 && k <= 24
    ensures k <= j <= 24
    decreases 24 - k, m
  {
    if k == 24 then 24 else if Matches(m, k) then k else FirstMatch(m, k + 1)
  }

  datatype Normalized = Normalized(frac: Bits, shift: nat)

  /** M_result[23:1] plus M_result[0] in 23 bits. */
  function Halved(m: Bits): (f: Bits)
    requires |m| == 24
    ensures |f| == 23
  {
    ToBits((Val(m[1..]) + B(m[0])) % 8388608, 23)
  }

  /** Bits 22..0 of m << k. */
  function ShiftedLeft(m: Bits, k: nat): (f: Bits)
    requires |m| == 24 && k < 24
    ensures |f| == 23
  {
    (Zeros(k) + m[..24 - k])[..23]
  }

  /** normalizeMandfindShift */
  function NormalizeMandfindShift(m: Bits, carry: bool, realOper: bool): (r: Normalized)
    requires |m| == 24
    ensures |r.frac| == 23 && r.shift < 24
  {
    if carry && !realOper then
      Normalized(Halved(m), 0)
    else
      var k := FirstMatch(m, 0);
      if k == 24 then Normalized(Zeros(23), 0) else Normalized(ShiftedLeft(m, k), k)
  }

  /** Position of the leading one, counted down from bit 23. */
  ghost predicate LeadingAt(m: Bits, k: nat)
    requires |m| == 24
  {
    k < 24 && m[23 - k] && forall i :: 23 - k < i < 24 ==> !m[i]
  }

  lemma {:induction false} FirstMatchIs(m: Bits, k: nat, j: nat)
    requires |m| == 24 && LeadingAt(m, j) && k <= j
    ensures FirstMatch(m, k) == if j == 19 then 24 else j
    decreases j - k
  {
    if k < j {
      assert !Matches(m, k);
      FirstMatchIs(m, k + 1, j);
    } else if j == 19 {
      assert !Matches(m, 19);
      assert m[4] && !Matches(m, 20) && !Matches(m, 21) && !Matches(m, 22) && !Matches(m, 23);
      assert FirstMatch(m, 23) == 24 && FirstMatch(m, 22) == 24 && FirstMatch(m, 21) == 24 && FirstMatch(m, 20) == 24;
    }
  }

  lemma {:induction false} NoMatch(m: Bits, k: nat)
    requires |m| == 24 && k <= 24 && forall i :: 0 <= i < 24 ==> !m[i]
    ensures FirstMatch(m, k) == 24
    decreases 24 - k
  {
    if k < 24 {
      NoMatch(m, k + 1);
    }
  }

  lemma {:induction false} FindLeading(m: Bits, k: nat) returns (j: nat)
    requires |m| == 24 && k <= 24 && forall i :: 24 - k <= i < 24 ==> !m[i]
    ensures j < 24 ==> LeadingAt(m, j)
    ensures j == 24 ==> forall i :: 0 <= i < 24 ==> !m[i]
    ensures j <= 24
    decreases 24 - k
  {
    if k == 24 || m[23 - k] {
      j := k;
    } else {
      j := FindLeading(m, k + 1);
    }
  }

  /** A leading one at bit 23 - k puts the value in one binade. */
  lemma LeadingValue(m: Bits, k: nat)
    requires |m| == 24 && LeadingAt(m, k)
    ensures Val(m) == Val(m[..23 - k]) + Pow2(23 - k) && Val(m[..23 - k]) < Pow2(23 - k)
    ensures Val(m[..24 - k]) == Val(m)
  {
    AllZero(m[24 - k..]);
    Split(m, 24 - k);
    TopOf(m[..24 - k], 23 - k);
    assert m[..24 - k][..23 - k] == m[..23 - k];
  }

  /** Shifting a leading one into bit 23 and dropping it. */
  lemma ShiftedFraction(m: Bits, k: nat)
    requires |m| == 24 && LeadingAt(m, k)
    ensures 8388608 + Val(ShiftedLeft(m, k)) == Val(m) * Pow2(k)
  {
    LeadingValue(m, k);
    ShiftedValue(m, k);
    Pow2Sum(k, 23 - k);
    Pow23();
    Rescale(Pow2(k), Pow2(23 - k), Val(m[..23 - k]), Val(m));
  }

  lemma ShiftedValue(m: Bits, k: nat)
    requires |m| == 24 && k < 24
    ensures Val(ShiftedLeft(m, k)) == Pow2(k) * Val(m[..23 - k])
  {
    assert (Zeros(k) + m[..24 - k])[..23] == Zeros(k) + m[..23 - k];
    Concat(Zeros(k), m[..23 - k]);
    ZerosVal(k);
  }

  lemma Rescale(p: nat, q: nat, low: nat, v: nat)
    requires v == low + q
    ensures p * q + p * low == v * p
  {
  }

  /** Values whose leading one the case table cannot see: 0, and 16 to 31. */
  predicate Unseen(d: nat) {
    d == 0 || 16 <= d < 32
  }

  ghost predicate NormalizedExactly(d: nat, r: Normalized)
  {
    8388608 + Val(r.frac) == d * Pow2(r.shift)
  }

  /** The table normalises exactly the values it can see; the others become a
      one with zero fraction and no shift. */
  lemma NormalizeMeaning(m: Bits, carry: bool, realOper: bool)
    requires |m| == 24 && !(carry && !realOper)
    ensures var r := NormalizeMandfindShift(m, carry, realOper);
      if Unseen(Val(m)) then Val(r.frac) == 0 && r.shift == 0 else NormalizedExactly(Val(m), r)
  {
    var j := FindLeading(m, 0);
    if j == 24 {
      NoMatch(m, 0);
      AllZero(m);
      ZerosVal(23);
    } else {
      FirstMatchIs(m, 0, j);
      LeadingNineteen(m, j);
      TableRow(m, j, NormalizeMandfindShift(m, carry, realOper));
    }
  }

  lemma TableRow(m: Bits, j: nat, r: Normalized)
    requires |m| == 24 && LeadingAt(m, j) && Val(m) != 0 && (j == 19 <==> 16 <= Val(m) < 32)
    requires r == if j == 19 then Normalized(Zeros(23), 0) else Normalized(ShiftedLeft(m, j), j)
    ensures if Unseen(Val(m)) then Val(r.frac) == 0 && r.shift == 0 else NormalizedExactly(Val(m), r)
  {
    if j == 19 {
      ZerosVal(23);
    } else {
      ShiftedFraction(m, j);
    }
  }

  lemma {:induction false} PowerRange(k: nat)
    ensures if k <= 3 then Pow2(k) <= 8 else if k == 4 then Pow2(k) == 16 else Pow2(k) >= 32
  {
    if k > 0 {
      PowerRange(k - 1);
    }
  }

  lemma LeadingNineteen(m: Bits, j: nat)
    requires |m| == 24 && LeadingAt(m, j)
    ensures Val(m) != 0 && (j == 19 <==> 16 <= Val(m) < 32)
  {
    LeadingValue(m, j);
    PowerRange(23 - j);
  }

  /** With a carry, the sum is halved, rounding a half up. */
  lemma NormalizeCarry(m: Bits)
    requires |m| == 24 && Val(m) <= 16777214
    ensures NormalizeMandfindShift(m, true, false) == Normalized(Halved(m), 0)
    ensures Val(Halved(m)) == (Val(m) + 1) / 2
  {
    var half := Val(m[1..]) + B(m[0]);
    HalfUp(Val(m), Val(m[1..]), B(m[0]));
    Pow23();
    ToBitsVal(half % 8388608, 23);
  }

  lemma HalfUp(v: nat, h: nat, b: nat)
    requires v == b + 2 * h && b <= 1 && v <= 16777214
    ensures (h + b) % 8388608 == (v + 1) / 2 < 8388608
  {
  }

  // ----------------------------------------------------------- the data path

  datatype AddOut = AddOut(result: Float, overflow: bool, underflow: bool, exception: bool)

  function ExpBits(n: Float): (e: Bits)
    ensures |e| == 8
  {
    n[23..31]
  }

  /** E1 - E2 in two's complement; the carry says E1 >= E2. */
  function ExpCompare(n1: Float, n2: Float): (s: Sum)
    ensures |s.sum| == 8
  {
    Adder8bit(ExpBits(n1), Complement(ExpBits(n2)), true)
  }

  function ExpDiff(c: Sum): (d: Bits)
    requires |c.sum| == 8
    ensures |d| == 8
  {
    Mux(Complement8bit2s(c.sum), c.sum, c.cout)
  }

  /** The operand with the smaller exponent is shifted right, dropping bits.
      Both implied bits come from the exponent of n1. */
  function Align1(n1: Float, n2: Float, c: Sum): (m: Bits)
    requires |c.sum| == 8
    ensures |m| == 24
  {
    var m := n1[..23] + [ReductionOr(ExpBits(n1))];
    if c.cout then m else ShiftRight(m, Val(ExpDiff(c)))
  }

  function Align2(n1: Float, n2: Float, c: Sum): (m: Bits)
    requires |c.sum| == 8
    ensures |m| == 24
  {
    var m := n2[..23] + [ReductionOr(ExpBits(n1))];
    if c.cout then ShiftRight(m, Val(ExpDiff(c))) else m
  }

  function RealOper(n1: Float, n2: Float, sub: bool): bool {
    (sub != n1[31]) != n2[31]
  }

  function Combine(m1: Bits, m2: Bits, oper: bool): (s: Sum)
    requires |m1| == 24 && |m2| == 24
    ensures |s.sum| == 24
  {
    Adder24bit(m1, Mux(m2, Complement(m2), oper), oper)
  }

  function FinalSign(sign: bool, oper: bool, carry: bool): bool {
    (!sign && oper && !carry) || (!oper && sign) || (carry && sign)
  }

  function MagnitudeBits(s: Sum, oper: bool): (m: Bits)
    requires |s.sum| == 24
    ensures |m| == 24
  {
    Mux(s.sum, Complement24bit2s(s.sum), oper && !s.cout)
  }

  function OneAdded(e: Bits): (r: Bits)
    requires |e| == 8
    ensures |r| == 8
  {
    Adder8bit(e, [true] + Zeros(7), false).sum
  }

  /** new_E - shift_E; no carry means the difference is negative. */
  function FinalExp(newE: Bits, shift: nat): (s: Sum)
    requires |newE| == 8
    ensures |s.sum| == 8
  {
    Adder8bit(newE, Complement(ToBits(shift, 8)), true)
  }

  function AddSub(n1: Float, n2: Float, sub: bool): AddOut {
    var c := ExpCompare(n1, n2);
    var e := Mux(ExpBits(n2), ExpBits(n1), c.cout);
    var oper := RealOper(n1, n2, sub);
    var s := Combine(Align1(n1, n2, c), Align2(n1, n2, c), oper);
    Finish(n1, n2, oper, e, s)
  }

  function Finish(n1: Float, n2: Float, oper: bool, e: Bits, s: Sum): AddOut
    requires |e| == 8 && |s.sum| == 24
  {
    var newE := Mux(e, OneAdded(e), s.cout && !oper);
    var nm := NormalizeMandfindShift(MagnitudeBits(s, oper), s.cout, oper);
    var f := FinalExp(newE, nm.shift);
    AddOut(Pack(nm.frac, f.sum, FinalSign(n1[31], oper, s.cout)),
           ReductionAnd(OneAdded(e)) && nm.shift == 0,
           !f.cout,
           ReductionAnd(ExpBits(n1)) || ReductionAnd(ExpBits(n2)))
  }

  // ------------------------------------------------ what the gates compute

  function Max(a: nat, b: nat): nat { if a >= b then a else b }
  function Distance(a: nat, b: nat): nat { if a >= b then a - b else b - a }

  lemma ExpCompareValue(n1: Float, n2: Float)
    ensures var c := ExpCompare(n1, n2);
      (c.cout <==> Exp(n1) >= Exp(n2)) && Val(ExpDiff(c)) == Distance(Exp(n1), Exp(n2))
  {
    var c := ExpCompare(n1, n2);
    Adder8Correct(ExpBits(n1), Complement(ExpBits(n2)), true);
    ComplementVal(ExpBits(n2));
    assert Pow2(8) == 256;
    Width8(c.sum);
    DiffValue(c, Exp(n1), Exp(n2));
  }

  lemma DiffValue(c: Sum, e1: nat, e2: nat)
    requires |c.sum| == 8 && Val(c.sum) < 256 && e1 < 256 && e2 < 256
    requires Val(c.sum) + 256 * B(c.cout) == 256 + e1 - e2
    ensures (c.cout <==> e1 >= e2) && Val(ExpDiff(c)) == Distance(e1, e2)
  {
    Negate8(c.sum);
  }

  lemma ShiftRightVal(b: Bits, n: nat)
    ensures Val(ShiftRight(b, n)) == Val(b) / Pow2(n)
  {
    if n >= |b| {
      ZerosVal(|b|);
      ValBound(b);
      Pow2Sum(|b|, n - |b|);
      assert Pow2(n) >= Pow2(|b|) by { Grow(Pow2(|b|), Pow2(n - |b|)); }
      Modular.DivModUnique(Val(b), Pow2(n), 0, Val(b));
    } else {
      Split(b, n);
      Concat(b[n..], Zeros(n));
      ZerosVal(n);
      Modular.DivModUnique(Val(b), Pow2(n), Val(b[n..]), Val(b[..n]));
    }
  }

  lemma Grow(a: nat, b: nat)
    requires b > 0
    ensures a * b >= a
  {
  }

  lemma ImpliedBit(n: Float, other: Float)
    requires Normal(other)
    ensures Val(n[..23] + [ReductionOr(ExpBits(other))]) == Significand(n)
  {
    OrVal(ExpBits(other));
    Pow23();
    Append(n[..23], true);
  }

  /** The aligned significands: the one with the smaller exponent truncated. */
  function Aligned(n: Float, e: nat): nat {
    if Exp(n) >= e then Significand(n) else Quotient(Significand(n), Pow2(e - Exp(n)))
  }

  function Quotient(a: nat, b: nat): nat
    requires b > 0
  {
    a / b
  }

  lemma AlignValues(n1: Float, n2: Float)
    requires Normal(n1) && Normal(n2)
    ensures var c, e := ExpCompare(n1, n2), Max(Exp(n1), Exp(n2));
      && Val(Align1(n1, n2, c)) == Aligned(n1, e)
      && Val(Align2(n1, n2, c)) == Aligned(n2, e)
  {
    ExpCompareValue(n1, n2);
    AlignedBy(n1, n2, ExpCompare(n1, n2));
  }

  lemma AlignedBy(n1: Float, n2: Float, c: Sum)
    requires Normal(n1) && Normal(n2) && |c.sum| == 8
    requires (c.cout <==> Exp(n1) >= Exp(n2)) && Val(ExpDiff(c)) == Distance(Exp(n1), Exp(n2))
    ensures var e := Max(Exp(n1), Exp(n2));
      && Val(Align1(n1, n2, c)) == Aligned(n1, e)
      && Val(Align2(n1, n2, c)) == Aligned(n2, e)
  {
    AlignedOne(n1, n1, !c.cout, Val(ExpDiff(c)), Max(Exp(n1), Exp(n2)));
    AlignedOne(n2, n1, c.cout, Val(ExpDiff(c)), Max(Exp(n1), Exp(n2)));
  }

  /** One operand, shifted right when the other exponent is at least as large. */
  lemma AlignedOne(n: Float, other: Float, shift: bool, k: nat, e: nat)
    requires Normal(other) && Exp(n) <= e && (if shift then k == e - Exp(n) else e == Exp(n))
    ensures var m := n[..23] + [ReductionOr(ExpBits(other))];
      Val(if shift then ShiftRight(m, k) else m) == Aligned(n, e)
  {
    ImpliedBit(n, other);
    ShiftRightVal(n[..23] + [ReductionOr(ExpBits(other))], k);
    assert Pow2(0) == 1;
  }

  lemma CombineAdd(m1: Bits, m2: Bits)
    requires |m1| == 24 && |m2| == 24
    ensures var s := Combine(m1, m2, false); Val(s.sum) + 16777216 * B(s.cout) == Val(m1) + Val(m2)
  {
    Adder24Correct(m1, m2, false);
  }

  lemma CombineSub(m1: Bits, m2: Bits)
    requires |m1| == 24 && |m2| == 24
    ensures var s := Combine(m1, m2, true); Val(s.sum) + 16777216 * B(s.cout) == 16777216 + Val(m1) - Val(m2)
  {
    ComplementVal(m2);
    Pow24();
    Adder24Correct(m1, Complement(m2), true);
  }

  /** After a complement subtraction: the carry tells the sign, and the
      corrected significand is the distance. */
  lemma SubMagnitude(s: Sum, a: nat, b: nat)
    requires |s.sum| == 24 && Val(s.sum) + 16777216 * B(s.cout) == 16777216 + a - b
    requires a < 16777216 && b < 16777216
    ensures (s.cout <==> a >= b) && Val(MagnitudeBits(s, true)) == Distance(a, b)
  {
    Width24(s.sum);
    Negate24(s.sum);
  }

  lemma OneAddedValue(e: Bits)
    requires |e| == 8 && Val(e) < 255
    ensures Val(OneAdded(e)) == Val(e) + 1
  {
    OneVal(7);
    Adder8Correct(e, [true] + Zeros(7), false);
    Width8(OneAdded(e));
  }

  lemma FinalExpValue(newE: Bits, shift: nat)
    requires |newE| == 8 && shift < 24
    ensures var f := FinalExp(newE, shift);
      Val(f.sum) + 256 * B(f.cout) == 256 + Val(newE) - shift && Val(f.sum) < 256
  {
    assert Pow2(8) == 256;
    ToBitsVal(shift, 8);
    ComplementVal(ToBits(shift, 8));
    Adder8Correct(newE, Complement(ToBits(shift, 8)), true);
    Width8(FinalExp(newE, shift).sum);
  }

  // --------------------------------------------------- fields of the result

  /** Sum or difference of the aligned significands. */
  function AlignedSum(n1: Float, n2: Float): nat {
    var e := Max(Exp(n1), Exp(n2));
    Aligned(n1, e) + Aligned(n2, e)
  }

  function AlignedDistance(n1: Float, n2: Float): nat {
    var e := Max(Exp(n1), Exp(n2));
    Distance(Aligned(n1, e), Aligned(n2, e))
  }

  /** Effective addition: kept as it is below 2^24, else halved with a half
      rounded up and the exponent raised. */
  ghost predicate SumFields(n1: Float, n2: Float, out: AddOut) {
    var s, e := AlignedSum(n1, n2), Max(Exp(n1), Exp(n2));
    && 8388608 <= s < 33554432
    && Sign(out.result) == Sign(n1)
    && (s < 16777216 ==> Significand(out.result) == s && Exp(out.result) == e)
    && (s >= 16777216 ==> Significand(out.result) == (s + 1) / 2 && Exp(out.result) == e + 1)
    && out.overflow == (e == 254) && !out.underflow && !out.exception
  }

  /** Effective subtraction: normalised exactly where the case table sees the
      leading one, otherwise a one with zero fraction at exponent e. */
  ghost predicate DifferenceFields(n1: Float, n2: Float, out: AddOut, shift: nat) {
    var d, e := AlignedDistance(n1, n2), Max(Exp(n1), Exp(n2));
    && d < 16777216 && shift < 24
    && Sign(out.result) == (if Aligned(n1, e) >= Aligned(n2, e) then Sign(n1) else !Sign(n1))
    && (if Unseen(d) then Frac(out.result) == 0 && shift == 0 else Significand(out.result) == d * Pow2(shift))
    && Exp(out.result) == (if e >= shift then e - shift else e + 256 - shift)
    && out.underflow == (e < shift) && out.overflow == (e == 254 && shift == 0) && !out.exception
  }

  lemma AlignedRange(n: Float, e: nat)
    ensures Aligned(n, e) < 16777216 && (Exp(n) >= e ==> Aligned(n, e) >= 8388608)
  {
  }

  /** The adders after the combination, as numbers. */
  ghost predicate Finished(e: Bits, s: Sum, oper: bool, sign: bool, nm: Normalized, newE: nat, f: Sum, out: AddOut) {
    && |e| == 8 && |s.sum| == 24 && |nm.frac| == 23 && nm.shift < 24 && |f.sum| == 8
    && newE == Val(e) + B(s.cout && !oper)
    && Val(f.sum) + 256 * B(f.cout) == 256 + newE - nm.shift && Val(f.sum) < 256
    && out.result == Pack(nm.frac, f.sum, FinalSign(sign, oper, s.cout))
    && out.underflow == !f.cout
    && out.overflow == (Val(e) == 254 && nm.shift == 0) && !out.exception
  }

  lemma FinishSteps(n1: Float, n2: Float, oper: bool, e: Bits, s: Sum)
    requires Normal(n1) && Normal(n2) && |e| == 8 && |s.sum| == 24 && Val(e) <= 254
    ensures var nm := NormalizeMandfindShift(MagnitudeBits(s, oper), s.cout, oper);
      Finished(e, s, oper, Sign(n1), nm, Val(e) + B(s.cout && !oper),
               FinalExp(Mux(e, OneAdded(e), s.cout && !oper), nm.shift), Finish(n1, n2, oper, e, s))
  {
    OneAddedValue(e);
    And8Val(OneAdded(e));
    And8Val(ExpBits(n1));
    And8Val(ExpBits(n2));
    var nm := NormalizeMandfindShift(MagnitudeBits(s, oper), s.cout, oper);
    FinalExpValue(Mux(e, OneAdded(e), s.cout && !oper), nm.shift);
  }

  lemma SumFromParts(n1: Float, n2: Float, e: Bits, s: Sum, nm: Normalized, f: Sum, out: AddOut)
    requires Val(e) == Max(Exp(n1), Exp(n2)) <= 254
    requires Finished(e, s, false, Sign(n1), nm, Val(e) + B(s.cout), f, out)
    requires Val(s.sum) + 16777216 * B(s.cout) == AlignedSum(n1, n2)
    requires s.cout ==> nm.shift == 0 && Val(nm.frac) == (Val(s.sum) + 1) / 2
    requires !s.cout && !Unseen(Val(s.sum)) ==> NormalizedExactly(Val(s.sum), nm)
    ensures SumFields(n1, n2, out)
  {
    AlignedRange(n1, Max(Exp(n1), Exp(n2)));
    AlignedRange(n2, Max(Exp(n1), Exp(n2)));
    Width24(s.sum);
    if s.cout {
      CarriedSum(AlignedSum(n1, n2), Val(s.sum));
    } else {
      NoShift(Val(s.sum), nm);
    }
  }

  lemma FinishSum(n1: Float, n2: Float, e: Bits, s: Sum)
    requires Normal(n1) && Normal(n2)
    requires |e| == 8 && |s.sum| == 24 && Val(e) == Max(Exp(n1), Exp(n2)) <= 254
    requires Val(s.sum) + 16777216 * B(s.cout) == AlignedSum(n1, n2)
    ensures SumFields(n1, n2, Finish(n1, n2, false, e, s))
  {
    FinishSteps(n1, n2, false, e, s);
    SumNormalizes(n1, n2, s);
    var nm := NormalizeMandfindShift(MagnitudeBits(s, false), s.cout, false);
    var f := FinalExp(Mux(e, OneAdded(e), s.cout && !false), nm.shift);
    SumFromParts(n1, n2, e, s, nm, f, Finish(n1, n2, false, e, s));
  }

  lemma SumNormalizes(n1: Float, n2: Float, s: Sum)
    requires |s.sum| == 24 && Val(s.sum) + 16777216 * B(s.cout) == AlignedSum(n1, n2)
    ensures var nm := NormalizeMandfindShift(MagnitudeBits(s, false), s.cout, false);
      && (s.cout ==> nm.shift == 0 && Val(nm.frac) == (Val(s.sum) + 1) / 2)
      && (!s.cout && !Unseen(Val(s.sum)) ==> NormalizedExactly(Val(s.sum), nm))
  {
    AlignedRange(n1, Max(Exp(n1), Exp(n2)));
    AlignedRange(n2, Max(Exp(n1), Exp(n2)));
    assert MagnitudeBits(s, false) == s.sum;
    if s.cout {
      NormalizeCarry(s.sum);
    } else {
      NormalizeMeaning(s.sum, false, false);
    }
  }

  lemma CarriedSum(s: nat, v: nat)
    requires v + 16777216 == s
    ensures 8388608 + (v + 1) / 2 == (s + 1) / 2
  {
  }

  lemma NoShift(d: nat, r: Normalized)
    requires 8388608 <= d < 16777216 && |r.frac| == 23 && NormalizedExactly(d, r)
    ensures r.shift == 0 && 8388608 + Val(r.frac) == d
  {
    Width23(r.frac);
    if r.shift > 0 {
      Grow(2 * d, Pow2(r.shift - 1));
      Associate(d, 2, Pow2(r.shift - 1));
    }
  }

  lemma FinishDifference(n1: Float, n2: Float, e: Bits, s: Sum, a: nat, b: nat) returns (shift: nat)
    requires Normal(n1) && Normal(n2)
    requires |e| == 8 && |s.sum| == 24 && Val(e) == Max(Exp(n1), Exp(n2)) <= 254
    requires a == Aligned(n1, Val(e)) && b == Aligned(n2, Val(e))
    requires Val(s.sum) + 16777216 * B(s.cout) == 16777216 + a - b
    ensures DifferenceFields(n1, n2, Finish(n1, n2, true, e, s), shift)
  {
    AlignedRange(n1, Val(e));
    AlignedRange(n2, Val(e));
    SubMagnitude(s, a, b);
    var m := MagnitudeBits(s, true);
    NormalizeMeaning(m, s.cout, true);
    FinishSteps(n1, n2, true, e, s);
    var nm := NormalizeMandfindShift(m, s.cout, true);
    shift := nm.shift;
    var f := FinalExp(Mux(e, OneAdded(e), s.cout && !true), shift);
    DifferenceFromParts(n1, n2, e, s, nm, f, Finish(n1, n2, true, e, s));
  }

  lemma DifferenceFromParts(n1: Float, n2: Float, e: Bits, s: Sum, nm: Normalized, f: Sum, out: AddOut)
    requires Val(e) == Max(Exp(n1), Exp(n2)) <= 254
    requires Finished(e, s, true, Sign(n1), nm, Val(e), f, out)
    requires s.cout <==> Aligned(n1, Val(e)) >= Aligned(n2, Val(e))
    requires AlignedDistance(n1, n2) < 16777216
    requires if Unseen(AlignedDistance(n1, n2)) then Val(nm.frac) == 0 && nm.shift == 0
             else NormalizedExactly(AlignedDistance(n1, n2), nm)
    ensures DifferenceFields(n1, n2, out, nm.shift)
  {
  }

  lemma AddFields(n1: Float, n2: Float, sub: bool)
    requires Normal(n1) && Normal(n2) && !RealOper(n1, n2, sub)
    ensures SumFields(n1, n2, AddSub(n1, n2, sub))
  {
    var c := ExpCompare(n1, n2);
    ExpCompareValue(n1, n2);
    AlignValues(n1, n2);
    var m1, m2 := Align1(n1, n2, c), Align2(n1, n2, c);
    CombineAdd(m1, m2);
    var e := Mux(ExpBits(n2), ExpBits(n1), c.cout);
    FinishSum(n1, n2, e, Combine(m1, m2, false));
  }

  lemma SubFields(n1: Float, n2: Float, sub: bool) returns (shift: nat)
    requires Normal(n1) && Normal(n2) && RealOper(n1, n2, sub)
    ensures DifferenceFields(n1, n2, AddSub(n1, n2, sub), shift)
  {
    var c := ExpCompare(n1, n2);
    ExpCompareValue(n1, n2);
    AlignValues(n1, n2);
    var m1, m2 := Align1(n1, n2, c), Align2(n1, n2, c);
    CombineSub(m1, m2);
    var e := Mux(ExpBits(n2), ExpBits(n1), c.cout);
    shift := FinishDifference(n1, n2, e, Combine(m1, m2, true), Val(m1), Val(m2));
  }
}
