/** The multiplier: exact product, sticky rounding up, biased exponent. */
module FloatMul {
  import opened Gates
  import opened Binary32
  import Modular

  datatype MulOut = MulOut(result: Float, overflow: bool, underflow: bool, exception: bool)

  /** 9'b110000001, minus 127 in nine bits. */
  const MINUS_BIAS: Bits := [true, false, false, false, false, false, false, true, true]

  function WithImplied(n: Float, implied: bool): (m: Bits)
    ensures |m| == 24
  {
    n[..23] + [implied]
  }

  function Product(n1: Float, n2: Float): (p: Bits)
    ensures |p| == 48
  {
    var implied1 := ReductionOr(n1[23..31]);
    var implied2 := ReductionOr(n1[23..31]);
    ToBits(Val(WithImplied(n1, implied1)) * Val(WithImplied(n2, implied2)), 48)
  }

  /** Rounding bit and truncated significand of a 48-bit product, and their sum. */
  function RoundedFraction(p: Bits): (f: Bits)
    requires |p| == 48
    ensures |f| == 23
  {
    var round1 := ReductionOr24(p[..23] + [false]);
    var round2 := ReductionOr24(p[..24]);
    var round := Mux1Bit(round1, round2, p[47]);
    var normalized := Mux(p[23..46] + [false], p[24..47] + [false], p[47]);
    Adder24bit(normalized[..23] + [false], [round] + Zeros(23), false).sum[..23]
  }

  function ExponentSum(n1: Float, n2: Float, top: bool): (s: Sum)
    ensures |s.sum| == 9
  {
    var s := Adder8bit(n1[23..31], n2[23..31], false);
    Adder9bit(s.sum + [s.cout], MINUS_BIAS, top)
  }

  function Mul(n1: Float, n2: Float): MulOut {
    var p := Product(n1, n2);
    Assemble(n1, n2, RoundedFraction(p), ExponentSum(n1, n2, p[47]))
  }

  /** {final_sign, final_E, final_M} and the flags. */
  function Assemble(n1: Float, n2: Float, f: Bits, e: Sum): MulOut
    requires |f| == 23 && |e.sum| == 9
  {
    MulOut(Pack(f, e.sum[..8], n1[31] != n2[31]),
           e.cout && e.sum[8],
           !e.cout,
           ReductionAnd(n1[23..31]) || ReductionAnd(n2[23..31]))
  }

  // ------------------------------------------------ what the gates compute

  lemma ImpliedOne(n: Float)
    requires Normal(n)
    ensures ReductionOr(n[23..31]) && Val(WithImplied(n, true)) == Significand(n)
  {
    OrVal(n[23..31]);
    Pow23();
    Append(n[..23], true);
  }

  lemma ProductValue(n1: Float, n2: Float)
    requires Normal(n1) && Normal(n2)
    ensures Val(Product(n1, n2)) == Significand(n1) * Significand(n2)
    ensures 70368744177664 <= Val(Product(n1, n2)) <= 281474976710656 - 2 * 16777216 + 1
  {
    ImpliedOne(n1);
    ImpliedOne(n2);
    SignificandProduct(Significand(n1), Significand(n2));
    Pow48();
    ToBitsVal(Significand(n1) * Significand(n2), 48);
  }

  lemma SignificandProduct(a: nat, b: nat)
    requires 8388608 <= a <= 16777215 && 8388608 <= b <= 16777215
    ensures 70368744177664 <= a * b <= 281474976710656 - 2 * 16777216 + 1
  {
    MulUp(8388608, a, b);
    MulUp(a, 16777215, b);
  }

  lemma MulUp(a: int, b: int, c: nat)
    requires a <= b
    ensures a * c <= b * c
  {
  }

  /** A product of significands has bit 47 or, below it, bit 46. */
  lemma TopBits(p: Bits)
    requires |p| == 48 && Val(p) >= 70368744177664
    ensures p[47] <==> Val(p) >= 140737488355328
    ensures p[47] || p[46]
  {
    Pow47();
    Pow46();
    TopOf(p, 47);
    TopOf(p[..47], 46);
    assert p[..47][46] == p[46];
  }

  lemma CutAbove(p: Bits)
    requires |p| == 48 && p[47]
    ensures Val(p) == Val(p[..24]) + 16777216 * (8388608 + Val(p[24..47])) && Val(p[..24]) < 16777216
  {
    Pow24();
    Split(p, 24);
    LeadingOne(p[24..]);
    assert p[24..][..23] == p[24..47];
  }

  lemma CutBelow(p: Bits)
    requires |p| == 48 && !p[47] && p[46]
    ensures Val(p) == Val(p[..23]) + 8388608 * (8388608 + Val(p[23..46])) && Val(p[..23]) < 8388608
  {
    Pow23();
    Split(p, 23);
    UnderZero(p[23..]);
    assert p[23..][..23] == p[23..46];
  }

  lemma LeadingOne(high: Bits)
    requires |high| == 24 && high[23]
    ensures Val(high) == 8388608 + Val(high[..23])
  {
    Pow23();
    TopOf(high, 23);
  }

  lemma UnderZero(high: Bits)
    requires |high| == 25 && !high[24] && high[23]
    ensures Val(high) == 8388608 + Val(high[..23])
  {
    TopOf(high, 24);
    LeadingOne(high[..24]);
    assert high[..24][..23] == high[..23];
  }

  /** Dropped bits and kept significand, in the position the top bit selects. */
  lemma TopSelects(p: Bits)
    requires |p| == 48 && Val(p) >= 70368744177664
    ensures p[47] <==> Val(p) >= 140737488355328
    ensures p[47] ==> Val(p) == Val(p[..24]) + 16777216 * (8388608 + Val(p[24..47])) && Val(p[..24]) < 16777216
    ensures !p[47] ==> Val(p) == Val(p[..23]) + 8388608 * (8388608 + Val(p[23..46])) && Val(p[..23]) < 8388608
  {
    TopBits(p);
    if p[47] {
      CutAbove(p);
    } else {
      CutBelow(p);
    }
  }

  /** Scale of the kept significand: 2^24 when the product has its top bit, else 2^23. */
  function Scale(p: nat): nat {
    if p >= 140737488355328 then 16777216 else 8388608
  }

  function Ceiling(p: nat, d: nat): nat
    requires d > 0
  {
    p / d + if p % d == 0 then 0 else 1
  }

  /** The kept 23 bits and the dropped part of a product. */
  function Kept(p: Bits): (f: Bits)
    requires |p| == 48
    ensures |f| == 23
  {
    if p[47] then p[24..47] else p[23..46]
  }

  function Lost(p: Bits): nat
    requires |p| == 48
  {
    if p[47] then Val(p[..24]) else Val(p[..23])
  }

  lemma RoundingBit(p: Bits)
    requires |p| == 48
    ensures Mux1Bit(ReductionOr24(p[..23] + [false]), ReductionOr24(p[..24]), p[47]) <==> Lost(p) != 0
  {
    Pad(p[..23]);
    Or24Val(p[..23] + [false]);
    Or24Val(p[..24]);
    Chosen(ReductionOr24(p[..23] + [false]), ReductionOr24(p[..24]), p[47], Val(p[..23]), Val(p[..24]));
  }

  lemma Chosen(in0: bool, in1: bool, top: bool, low0: nat, low1: nat)
    requires (in0 <==> low0 != 0) && (in1 <==> low1 != 0)
    ensures Mux1Bit(in0, in1, top) <==> (if top then low1 else low0) != 0
  {
  }

  lemma RoundedFractionIs(p: Bits)
    requires |p| == 48
    ensures RoundedFraction(p) == Adder24bit(Kept(p) + [false], [Lost(p) != 0] + Zeros(23), false).sum[..23]
  {
    RoundingBit(p);
    var normalized := Mux(p[23..46] + [false], p[24..47] + [false], p[47]);
    assert normalized == Kept(p) + [false];
    assert (Kept(p) + [false])[..23] == Kept(p);
  }

  lemma AddRoundSum(kept: Bits, round: bool, s: Sum)
    requires |kept| == 23 && |s.sum| == 24
    requires Val(s.sum) + 16777216 * B(s.cout) == Val(kept + [false]) + Val([round] + Zeros(23)) + B(false)
    ensures Val(s.sum[..23]) == (Val(kept) + B(round)) % 8388608
  {
    Pad(kept);
    RoundBit(round);
    Width23(kept);
    Width24(s.sum);
    Width23(s.sum[..23]);
    LowPart(Val(s.sum), Val(s.sum[..23]), B(s.sum[23]));
  }

  lemma AddRoundBit(kept: Bits, round: bool)
    requires |kept| == 23
    ensures Val(Adder24bit(kept + [false], [round] + Zeros(23), false).sum[..23]) == (Val(kept) + B(round)) % 8388608
  {
    Adder24Correct(kept + [false], [round] + Zeros(23), false);
    AddRoundSum(kept, round, Adder24bit(kept + [false], [round] + Zeros(23), false));
  }

  lemma RoundedFractionValue(p: Bits)
    requires |p| == 48 && Val(p) >= 70368744177664
    ensures Val(RoundedFraction(p)) == (Ceiling(Val(p), Scale(Val(p))) - 8388608) % 8388608
    ensures 8388608 <= Ceiling(Val(p), Scale(Val(p))) <= 16777216
  {
    RoundedFractionSum(p);
    RoundValue(p, RoundedFraction(p));
  }

  lemma RoundedFractionSum(p: Bits)
    requires |p| == 48
    ensures Val(RoundedFraction(p)) == (Val(Kept(p)) + B(Lost(p) != 0)) % 8388608
  {
    RoundedFractionIs(p);
    AddRoundBit(Kept(p), Lost(p) != 0);
  }

  lemma RoundValue(p: Bits, f: Bits)
    requires |p| == 48 && Val(p) >= 70368744177664
    requires Val(f) == (Val(Kept(p)) + B(Lost(p) != 0)) % 8388608
    ensures Val(f) == (Ceiling(Val(p), Scale(Val(p))) - 8388608) % 8388608
    ensures 8388608 <= Ceiling(Val(p), Scale(Val(p))) <= 16777216
  {
    CeilingOfProduct(p);
  }

  lemma CeilingOfProduct(p: Bits)
    requires |p| == 48 && Val(p) >= 70368744177664
    ensures Ceiling(Val(p), Scale(Val(p))) == 8388608 + Val(Kept(p)) + B(Lost(p) != 0)
    ensures Val(Kept(p)) < 8388608
  {
    TopSelects(p);
    Width23(Kept(p));
    CeilingIs(Val(p), Scale(Val(p)), 8388608 + Val(Kept(p)), Lost(p));
  }

  lemma RoundBit(round: bool)
    ensures Val([round] + Zeros(23)) == B(round)
  {
    ZerosVal(23);
    assert ([round] + Zeros(23))[1..] == Zeros(23);
  }

  lemma CeilingIs(p: nat, d: nat, q: nat, r: nat)
    requires d > 0 && p == r + d * q && r < d
    ensures Ceiling(p, d) == q + if r == 0 then 0 else 1
  {
    Modular.DivModUnique(p, d, q, r);
  }

  lemma LowPart(v: nat, lo: nat, hi: nat)
    requires v == lo + 8388608 * hi && lo < 8388608
    ensures lo == v % 8388608
  {
  }

  lemma ExponentValue(n1: Float, n2: Float, top: bool)
    ensures var e := ExponentSum(n1, n2, top);
      Val(e.sum) + 512 * B(e.cout) == Exp(n1) + Exp(n2) + 385 + B(top)
      && Val(e.sum) == Val(e.sum[..8]) + 256 * B(e.sum[8])
  {
    var s := Adder8bit(n1[23..31], n2[23..31], false);
    Adder8Correct(n1[23..31], n2[23..31], false);
    Pow8();
    Append(s.sum, s.cout);
    BiasVal();
    Adder9Correct(s.sum + [s.cout], MINUS_BIAS, top);
    var e := ExponentSum(n1, n2, top);
    TopOf(e.sum, 8);
  }

  lemma BiasVal()
    ensures Val(MINUS_BIAS) == 385
  {
  }

  /** The significand product, whether it reached the top bit, and the exponent
      the multiplier aims at. */
  function RawProduct(n1: Float, n2: Float): nat { Significand(n1) * Significand(n2) }

  function Carry(p: nat): nat { if p >= 140737488355328 then 1 else 0 }

  function Target(n1: Float, n2: Float): int {
    Exp(n1) + Exp(n2) - 127 + Carry(RawProduct(n1, n2))
  }

  /** Fields and flags of a product, as numbers. The flags look at nine bits
      only: an exponent of exactly 255 or 0 raises neither. */
  ghost predicate ProductFields(n1: Float, n2: Float, out: MulOut) {
    var p, e := RawProduct(n1, n2), Target(n1, n2);
    && Sign(out.result) == (Sign(n1) != Sign(n2))
    && Frac(out.result) == (Ceiling(p, Scale(p)) - 8388608) % 8388608
    && 8388608 <= Ceiling(p, Scale(p)) <= 16777216
    && Exp(out.result) == (if e < 0 then e + 256 else if e >= 256 then e - 256 else e)
    && out.overflow == (e >= 256) && out.underflow == (e < 0) && !out.exception
  }

  lemma ExponentInRange(e: Sum, total: nat)
    requires |e.sum| == 9 && Val(e.sum) + 512 * B(e.cout) == total + 385 && 2 <= total <= 509
    requires Val(e.sum) == Val(e.sum[..8]) + 256 * B(e.sum[8])
    ensures var t := total - 127;
      && Val(e.sum[..8]) == (if t < 0 then t + 256 else if t >= 256 then t - 256 else t)
      && (e.cout && e.sum[8] <==> t >= 256) && (!e.cout <==> t < 0)
  {
    Width8(e.sum[..8]);
  }

  lemma FieldsFromParts(n1: Float, n2: Float, p: Bits, f: Bits, e: Sum, out: MulOut)
    requires Normal(n1) && Normal(n2) && |p| == 48 && |f| == 23 && |e.sum| == 9
    requires Val(p) == RawProduct(n1, n2) && (p[47] <==> Val(p) >= 140737488355328)
    requires Val(f) == (Ceiling(Val(p), Scale(Val(p))) - 8388608) % 8388608
    requires 8388608 <= Ceiling(Val(p), Scale(Val(p))) <= 16777216
    requires Val(e.sum) + 512 * B(e.cout) == Exp(n1) + Exp(n2) + 385 + B(p[47])
    requires Val(e.sum) == Val(e.sum[..8]) + 256 * B(e.sum[8])
    requires out == Assemble(n1, n2, f, e)
    ensures ProductFields(n1, n2, out)
  {
    ExponentInRange(e, Exp(n1) + Exp(n2) + B(p[47]));
    NoException(n1);
    NoException(n2);
  }

  lemma NoException(n: Float)
    requires Normal(n)
    ensures !ReductionAnd(n[23..31])
  {
    And8Val(n[23..31]);
  }

  lemma MulFields(n1: Float, n2: Float)
    requires Normal(n1) && Normal(n2)
    ensures ProductFields(n1, n2, Mul(n1, n2))
  {
    var p := Product(n1, n2);
    ProductValue(n1, n2);
    RoundedFractionValue(p);
    TopSelects(p);
    ExponentValue(n1, n2, p[47]);
    FieldsFromParts(n1, n2, p, RoundedFraction(p), ExponentSum(n1, n2, p[47]), Mul(n1, n2));
  }
}
