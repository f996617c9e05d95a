/** Numbers in the binary32 encoding of section 3.4 of IEEE 754-2008, counted
    in units of 2^-149 so that every finite value is an integer. */
module Binary32 {
  import opened Gates

  /** A 32-bit word: 23 fraction bits, 8 exponent bits, the sign. */
  type Float = b: Bits | |b| == 32 witness ZERO_WORD
  const ZERO_WORD := [
    false, false, false, false, false, false, false, false,
    false, false, false, false, false, false, false, false,
    false, false, false, false, false, false, false, false,
    false, false, false, false, false, false, false, false
  ]

  function Frac(n: Float): (f: nat)
    ensures f < 8388608
  {
    Width23(n[..23]);
    Val(n[..23])
  }

  function Exp(n: Float): (e: nat)
    ensures e < 256
  {
    Width8(n[23..31]);
    Val(n[23..31])
  }

  predicate Sign(n: Float) { n[31] }

  /** Neither zero, denormal, infinite nor NaN. */
  predicate Normal(n: Float) { 1 <= Exp(n) <= 254 }

  /** The 24-bit significand of a normal number. */
  function Significand(n: Float): nat { 8388608 + Frac(n) }

  /** Magnitude of a normal number, in units of 2^-149. */
  function Magnitude(n: Float): nat
    requires Normal(n)
  {
    Significand(n) * Pow2(Exp(n) - 1)
  }

  /** One unit in the last place, in the same units. */
  function Ulp(n: Float): nat
    requires Normal(n)
  {
    Pow2(Exp(n) - 1)
  }

  function Value(n: Float): int
    requires Normal(n)
  {
    var m: int := Magnitude(n);
    if Sign(n) then -m else m
  }

  /** {sign, exponent, fraction} */
  function Pack(frac: Bits, exp: Bits, sign: bool): (n: Float)
    requires |frac| == 23 && |exp| == 8
    ensures Frac(n) == Val(frac) && Exp(n) == Val(exp) && Sign(n) == sign
  {
    var n := frac + exp + [sign];
    assert n[..23] == frac && n[23..31] == exp && n[31] == sign;
    n
  }

  /** The positive number with the given fields. */
  lemma Made(frac: nat, exp: nat) returns (n: Float)
    requires frac < 8388608 && exp < 256
    ensures Frac(n) == frac && Exp(n) == exp && !Sign(n)
  {
    Pow23();
    assert Pow2(8) == 256;
    ToBitsVal(frac, 23);
    ToBitsVal(exp, 8);
    n := Pack(ToBits(frac, 23), ToBits(exp, 8), false);
  }
}
