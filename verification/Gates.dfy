/** The gate-level building blocks of the floating-point unit, and what they
    compute as numbers. A vector is a sequence of bits, least significant first. */
module Gates {

  type Bits = seq<bool>

  function B(x: bool): nat { if x then 1 else 0 }

  function Pow2(n: nat): (p: nat)
    ensures p > 0
  {
    if n == 0 then 1 else 2 * Pow2(n - 1)
  }

  /** The unsigned number a vector stands for. */
  function Val(b: Bits): nat {
    if b == [] then 0 else B(b[0]) + 2 * Val(b[1..])
  }

  /** The low n bits of a number. */
  function ToBits(v: nat, n: nat): (b: Bits)
    ensures |b| == n
    decreases n, v
  {
    if n == 0 then [] else [v % 2 == 1] + ToBits(v / 2, n - 1)
  }

  lemma {:induction false} ToBitsVal(v: nat, n: nat)
    requires v < Pow2(n)
    ensures Val(ToBits(v, n)) == v
  {
    if n > 0 {
      ToBitsVal(v / 2, n - 1);
      assert ToBits(v, n)[1..] == ToBits(v / 2, n - 1);
    }
  }

  lemma {:induction false} Pow2Sum(a: nat, b: nat)
    ensures Pow2(a + b) == Pow2(a) * Pow2(b)
  {
    if a > 0 {
      Pow2Sum(a - 1, b);
      Associate(2, Pow2(a - 1), Pow2(b));
    }
  }

  lemma Associate(a: int, b: int, c: int)
    ensures (a * b) * c == a * (b * c)
  {
  }

  lemma {:induction false} Pow2Monotone(a: nat, b: nat)
    requires a <= b
    ensures Pow2(a) <= Pow2(b)
  {
    if a < b {
      Pow2Monotone(a, b - 1);
    }
  }

  lemma {:induction false} ValBound(b: Bits)
    ensures Val(b) < Pow2(|b|)
  {
    if b != [] {
      ValBound(b[1..]);
    }
  }

  /** A vector is its low part plus its high part shifted up. */
  lemma {:induction false} Concat(lo: Bits, hi: Bits)
    ensures Val(lo + hi) == Val(lo) + Pow2(|lo|) * Val(hi)
  {
    if lo == [] {
      assert lo + hi == hi;
    } else {
      Concat(lo[1..], hi);
      assert (lo + hi)[1..] == lo[1..] + hi;
      Associate(2, Pow2(|lo| - 1), Val(hi));
    }
  }

  lemma Split(b: Bits, k: nat)
    requires k <= |b|
    ensures Val(b) == Val(b[..k]) + Pow2(k) * Val(b[k..])
    ensures Val(b[..k]) < Pow2(k) && Val(b[k..]) < Pow2(|b| - k)
  {
    assert b == b[..k] + b[k..];
    Concat(b[..k], b[k..]);
    ValBound(b[..k]);
    ValBound(b[k..]);
  }

  lemma Single(x: bool)
    ensures Val([x]) == B(x)
  {
  }

  /** One more bit on top. */
  lemma Append(b: Bits, x: bool)
    ensures Val(b + [x]) == Val(b) + Pow2(|b|) * B(x)
  {
    Concat(b, [x]);
    Single(x);
  }

  /** The top bit of a vector and the rest. */
  lemma TopOf(b: Bits, n: nat)
    requires |b| == n + 1
    ensures Val(b) == Val(b[..n]) + Pow2(n) * B(b[n]) && Val(b[..n]) < Pow2(n)
  {
    assert b == b[..n] + [b[n]];
    Append(b[..n], b[n]);
    ValBound(b[..n]);
  }

  function Zeros(n: nat): Bits {
    seq(n, i requires 0 <= i < n => false)
  }

  lemma {:induction false} AllZero(b: Bits)
    requires forall i :: 0 <= i < |b| ==> !b[i]
    ensures Val(b) == 0
  {
    if b != [] {
      AllZero(b[1..]);
    }
  }

  lemma ZerosVal(n: nat)
    ensures Val(Zeros(n)) == 0
  {
    AllZero(Zeros(n));
  }

  // ------------------------------------------------------------------ adders

  datatype Sum = Sum(sum: Bits, cout: bool)

  /** Carry-lookahead adder. */
  function Adder4bit(a: Bits, b: Bits, cin: bool): (s: Sum)
    requires |a| == 4 && |b| == 4
    ensures |s.sum| == 4
  {
    var g0, g1, g2, g3 := a[0] && b[0], a[1] && b[1], a[2] && b[2], a[3] && b[3];
    var p0, p1, p2, p3 := a[0] != b[0], a[1] != b[1], a[2] != b[2], a[3] != b[3];
    var c0 := g0 || (p0 && cin);
    var c1 := g1 || (p1 && g0) || (p1 && p0 && cin);
    var c2 := g2 || (p2 && g1) || (p2 && p1 && g0) || (p2 && p1 && p0 && cin);
    var cout := g3 || (p3 && g2) || (p3 && p2 && g1) || (p3 && p2 && p1 && g0) || (p3 && p2 && p1 && p0 && cin);
    Sum([p0 != cin, p1 != c0, p2 != c1, p3 != c2], cout)
  }

  lemma Val4(b: Bits)
    requires |b| == 4
    ensures Val(b) == B(b[0]) + 2 * B(b[1]) + 4 * B(b[2]) + 8 * B(b[3])
  {
    assert b[1..][1..] == b[2..] && b[2..][1..] == b[3..] && b[3..][1..] == [];
    assert Val(b[3..]) == B(b[3]);
    assert Val(b[2..]) == B(b[2]) + 2 * Val(b[3..]);
    assert Val(b[1..]) == B(b[1]) + 2 * Val(b[2..]);
  }

  /** One column of a sum. */
  lemma FullAdder(a: bool, b: bool, c: bool)
    ensures B(a) + B(b) + B(c) == B((a != b) != c) + 2 * B((a && b) || ((a != b) && c))
  {
  }

  /** The lookahead carries are the rippled ones. */
  lemma Lookahead(g0: bool, p0: bool, g1: bool, p1: bool, g2: bool, p2: bool, g3: bool, p3: bool, cin: bool)
    ensures var c0 := g0 || (p0 && cin); var c1 := g1 || (p1 && c0); var c2 := g2 || (p2 && c1);
      && c1 == (g1 || (p1 && g0) || (p1 && p0 && cin))
      && c2 == (g2 || (p2 && g1) || (p2 && p1 && g0) || (p2 && p1 && p0 && cin))
      && (g3 || (p3 && c2))
         == (g3 || (p3 && g2) || (p3 && p2 && g1) || (p3 && p2 && p1 && g0) || (p3 && p2 && p1 && p0 && cin))
  {
  }

  /** Two columns with a rippled carry. */
  lemma TwoColumns(a0: bool, b0: bool, a1: bool, b1: bool, cin: bool, carry: bool, cout: bool, r0: bool, r1: bool)
    requires carry == ((a0 && b0) || ((a0 != b0) && cin)) && cout == ((a1 && b1) || ((a1 != b1) && carry))
    requires r0 == ((a0 != b0) != cin) && r1 == ((a1 != b1) != carry)
    ensures B(a0) + 2 * B(a1) + B(b0) + 2 * B(b1) + B(cin) == B(r0) + 2 * B(r1) + 4 * B(cout)
  {
    FullAdder(a0, b0, cin);
    FullAdder(a1, b1, carry);
  }

  /** Sum bits and carry out, each as rippling would give it. */
  lemma RippledBits(a: Bits, b: Bits, cin: bool, c0: bool, c1: bool, c2: bool)
    requires |a| == 4 && |b| == 4
    requires c0 == ((a[0] && b[0]) || ((a[0] != b[0]) && cin)) && c1 == ((a[1] && b[1]) || ((a[1] != b[1]) && c0))
    requires c2 == ((a[2] && b[2]) || ((a[2] != b[2]) && c1))
    ensures var s := Adder4bit(a, b, cin);
      && s.sum[0] == ((a[0] != b[0]) != cin) && s.sum[1] == ((a[1] != b[1]) != c0)
      && s.sum[2] == ((a[2] != b[2]) != c1) && s.sum[3] == ((a[3] != b[3]) != c2)
      && s.cout == ((a[3] && b[3]) || ((a[3] != b[3]) && c2))
  {
    Lookahead(a[0] && b[0], a[0] != b[0], a[1] && b[1], a[1] != b[1],
              a[2] && b[2], a[2] != b[2], a[3] && b[3], a[3] != b[3], cin);
  }

  lemma Adder4Correct(a: Bits, b: Bits, cin: bool)
    requires |a| == 4 && |b| == 4
    ensures var s := Adder4bit(a, b, cin); Val(s.sum) + 16 * B(s.cout) == Val(a) + Val(b) + B(cin)
  {
    var c0 := (a[0] && b[0]) || ((a[0] != b[0]) && cin);
    var c1 := (a[1] && b[1]) || ((a[1] != b[1]) && c0);
    var c2 := (a[2] && b[2]) || ((a[2] != b[2]) && c1);
    RippledBits(a, b, cin, c0, c1, c2);
    var s := Adder4bit(a, b, cin);
    LowColumns(a, b, cin, c0, c1, s);
    HighColumns(a, b, c1, c2, s);
    Weigh(a, b, s, B(cin), B(c1));
  }

  lemma LowColumns(a: Bits, b: Bits, cin: bool, c0: bool, c1: bool, s: Sum)
    requires |a| == 4 && |b| == 4 && |s.sum| == 4
    requires c0 == ((a[0] && b[0]) || ((a[0] != b[0]) && cin)) && c1 == ((a[1] && b[1]) || ((a[1] != b[1]) && c0))
    requires s.sum[0] == ((a[0] != b[0]) != cin) && s.sum[1] == ((a[1] != b[1]) != c0)
    ensures B(a[0]) + 2 * B(a[1]) + B(b[0]) + 2 * B(b[1]) + B(cin) == B(s.sum[0]) + 2 * B(s.sum[1]) + 4 * B(c1)
  {
    TwoColumns(a[0], b[0], a[1], b[1], cin, c0, c1, s.sum[0], s.sum[1]);
  }

  lemma HighColumns(a: Bits, b: Bits, c1: bool, c2: bool, s: Sum)
    requires |a| == 4 && |b| == 4 && |s.sum| == 4
    requires c2 == ((a[2] && b[2]) || ((a[2] != b[2]) && c1)) && s.cout == ((a[3] && b[3]) || ((a[3] != b[3]) && c2))
    requires s.sum[2] == ((a[2] != b[2]) != c1) && s.sum[3] == ((a[3] != b[3]) != c2)
    ensures B(a[2]) + 2 * B(a[3]) + B(b[2]) + 2 * B(b[3]) + B(c1) == B(s.sum[2]) + 2 * B(s.sum[3]) + 4 * B(s.cout)
  {
    TwoColumns(a[2], b[2], a[3], b[3], c1, c2, s.cout, s.sum[2], s.sum[3]);
  }

  lemma Weigh(a: Bits, b: Bits, s: Sum, cin: nat, c1: nat)
    requires |a| == 4 && |b| == 4 && |s.sum| == 4
    requires B(a[0]) + 2 * B(a[1]) + B(b[0]) + 2 * B(b[1]) + cin == B(s.sum[0]) + 2 * B(s.sum[1]) + 4 * c1
    requires B(a[2]) + 2 * B(a[3]) + B(b[2]) + 2 * B(b[3]) + c1 == B(s.sum[2]) + 2 * B(s.sum[3]) + 4 * B(s.cout)
    ensures Val(s.sum) + 16 * B(s.cout) == Val(a) + Val(b) + cin
  {
    Val4(a);
    Val4(b);
    Val4(s.sum);
  }

  function Adder8bit(a: Bits, b: Bits, cin: bool): (s: Sum)
    requires |a| == 8 && |b| == 8
    ensures |s.sum| == 8
  {
    var lo := Adder4bit(a[..4], b[..4], cin);
    var hi := Adder4bit(a[4..], b[4..], lo.cout);
    Sum(lo.sum + hi.sum, hi.cout)
  }

  /** Chaining two adders of known width. */
  lemma Chain(k: nat, a: Bits, b: Bits, cin: bool, lo: Sum, hi: Sum, m: nat)
    requires |a| == |b| >= k && |lo.sum| == k && |hi.sum| == |a| - k == m
    requires Val(lo.sum) + Pow2(k) * B(lo.cout) == Val(a[..k]) + Val(b[..k]) + B(cin)
    requires Val(hi.sum) + Pow2(m) * B(hi.cout) == Val(a[k..]) + Val(b[k..]) + B(lo.cout)
    ensures Val(lo.sum + hi.sum) + Pow2(k + m) * B(hi.cout) == Val(a) + Val(b) + B(cin)
  {
    Split(a, k);
    Split(b, k);
    Concat(lo.sum, hi.sum);
    Pow2Sum(k, m);
    ChainArithmetic(Pow2(k), Pow2(m), Val(lo.sum), B(lo.cout), Val(hi.sum), B(hi.cout),
                    Val(a[..k]), Val(b[..k]), Val(a[k..]), Val(b[k..]), B(cin));
  }

  lemma ChainArithmetic(p: nat, q: nat, lo: nat, c: nat, hi: nat, d: nat, a0: nat, b0: nat, a1: nat, b1: nat, cin: nat)
    requires lo + p * c == a0 + b0 + cin && hi + q * d == a1 + b1 + c
    ensures lo + p * hi + (p * q) * d == a0 + p * a1 + (b0 + p * b1) + cin
  {
  }

  lemma Product(a: nat, b: nat, p: nat, q: nat)
    requires Pow2(a) == p && Pow2(b) == q
    ensures Pow2(a + b) == p * q
  {
    Pow2Sum(a, b);
  }

  lemma Pow8()
    ensures Pow2(8) == 256
  {
  }

  lemma Pow16()
    ensures Pow2(16) == 65536
  {
    Pow8();
    Product(8, 8, 256, 256);
  }

  lemma Pow23()
    ensures Pow2(23) == 8388608
  {
    assert Pow2(7) == 128;
    Pow16();
    Product(7, 16, 128, 65536);
  }

  lemma Pow24()
    ensures Pow2(24) == 16777216
  {
    Pow8();
    Pow16();
    Product(8, 16, 256, 65536);
  }

  lemma Pow46()
    ensures Pow2(46) == 70368744177664
  {
    Pow23();
    Product(23, 23, 8388608, 8388608);
  }

  lemma Pow47()
    ensures Pow2(47) == 140737488355328
  {
    Pow23();
    Pow24();
    Product(23, 24, 8388608, 16777216);
  }

  lemma Pow48()
    ensures Pow2(48) == 281474976710656
  {
    Pow24();
    Product(24, 24, 16777216, 16777216);
  }

  lemma Chain8(a: Bits, b: Bits, cin: bool, lo: Sum, hi: Sum)
    requires |a| == 8 && |b| == 8 && |lo.sum| == 4 && |hi.sum| == 4
    requires Val(lo.sum) + 16 * B(lo.cout) == Val(a[..4]) + Val(b[..4]) + B(cin)
    requires Val(hi.sum) + 16 * B(hi.cout) == Val(a[4..]) + Val(b[4..]) + B(lo.cout)
    ensures Val(lo.sum + hi.sum) + 256 * B(hi.cout) == Val(a) + Val(b) + B(cin)
  {
    Pow8();
    assert Pow2(4) == 16;
    Chain(4, a, b, cin, lo, hi, 4);
  }

  lemma Chain24(a: Bits, b: Bits, cin: bool, s0: Sum, s1: Sum, s2: Sum)
    requires |a| == 24 && |b| == 24 && |s0.sum| == 8 && |s1.sum| == 8 && |s2.sum| == 8
    requires Val(s0.sum) + 256 * B(s0.cout) == Val(a[..8]) + Val(b[..8]) + B(cin)
    requires Val(s1.sum) + 256 * B(s1.cout) == Val(a[8..16]) + Val(b[8..16]) + B(s0.cout)
    requires Val(s2.sum) + 256 * B(s2.cout) == Val(a[16..]) + Val(b[16..]) + B(s1.cout)
    ensures Val(s0.sum + s1.sum + s2.sum) + 16777216 * B(s2.cout) == Val(a) + Val(b) + B(cin)
  {
    assert a[..16][..8] == a[..8] && a[..16][8..] == a[8..16];
    assert b[..16][..8] == b[..8] && b[..16][8..] == b[8..16];
    Chain16(a[..16], b[..16], cin, s0, s1);
    Pow8();
    Pow16();
    Pow24();
    Chain(16, a, b, cin, Sum(s0.sum + s1.sum, s1.cout), s2, 8);
  }

  lemma Chain16(a: Bits, b: Bits, cin: bool, lo: Sum, hi: Sum)
    requires |a| == 16 && |b| == 16 && |lo.sum| == 8 && |hi.sum| == 8
    requires Val(lo.sum) + 256 * B(lo.cout) == Val(a[..8]) + Val(b[..8]) + B(cin)
    requires Val(hi.sum) + 256 * B(hi.cout) == Val(a[8..]) + Val(b[8..]) + B(lo.cout)
    ensures Val(lo.sum + hi.sum) + 65536 * B(hi.cout) == Val(a) + Val(b) + B(cin)
  {
    Pow8();
    Pow16();
    Chain(8, a, b, cin, lo, hi, 8);
  }

  lemma Width8(b: Bits)
    requires |b| == 8
    ensures Val(b) < 256
  {
    Pow8();
    ValBound(b);
  }

  lemma Width23(b: Bits)
    requires |b| == 23
    ensures Val(b) < 8388608
  {
    Pow23();
    ValBound(b);
  }

  lemma Width24(b: Bits)
    requires |b| == 24
    ensures Val(b) < 16777216 && Val(b) == Val(b[..23]) + 8388608 * B(b[23])
  {
    Pow23();
    Pow24();
    ValBound(b);
    TopOf(b, 23);
  }

  /** A zero on top changes nothing. */
  lemma Pad(b: Bits)
    ensures Val(b + [false]) == Val(b)
  {
    Append(b, false);
  }

  lemma Adder8Correct(a: Bits, b: Bits, cin: bool)
    requires |a| == 8 && |b| == 8
    ensures var s := Adder8bit(a, b, cin); Val(s.sum) + 256 * B(s.cout) == Val(a) + Val(b) + B(cin)
  {
    var lo := Adder4bit(a[..4], b[..4], cin);
    var hi := Adder4bit(a[4..], b[4..], lo.cout);
    Adder4Correct(a[..4], b[..4], cin);
    Adder4Correct(a[4..], b[4..], lo.cout);
    Chain8(a, b, cin, lo, hi);
  }

  function Adder9bit(a: Bits, b: Bits, cin: bool): (s: Sum)
    requires |a| == 9 && |b| == 9
    ensures |s.sum| == 9
  {
    var lo := Adder8bit(a[..8], b[..8], cin);
    var c := lo.cout;
    Sum(lo.sum + [(a[8] != b[8]) != c], (a[8] && b[8]) || (a[8] && c) || (c && b[8]))
  }

  lemma Adder9Correct(a: Bits, b: Bits, cin: bool)
    requires |a| == 9 && |b| == 9
    ensures var s := Adder9bit(a, b, cin); Val(s.sum) + 512 * B(s.cout) == Val(a) + Val(b) + B(cin)
  {
    Adder8Correct(a[..8], b[..8], cin);
    TopBit(a, b, cin, Adder8bit(a[..8], b[..8], cin));
  }

  lemma TopBit(a: Bits, b: Bits, cin: bool, lo: Sum)
    requires |a| == 9 && |b| == 9 && |lo.sum| == 8
    requires Val(lo.sum) + 256 * B(lo.cout) == Val(a[..8]) + Val(b[..8]) + B(cin)
    ensures var c := lo.cout;
      Val(lo.sum + [(a[8] != b[8]) != c]) + 512 * B((a[8] && b[8]) || (a[8] && c) || (c && b[8]))
        == Val(a) + Val(b) + B(cin)
  {
    Pow8();
    TopOf(a, 8);
    TopOf(b, 8);
    Append(lo.sum, (a[8] != b[8]) != lo.cout);
    FullAdder(a[8], b[8], lo.cout);
    Majority(a[8], b[8], lo.cout);
  }

  lemma Majority(a: bool, b: bool, c: bool)
    ensures ((a && b) || (a && c) || (c && b)) == ((a && b) || ((a != b) && c))
  {
  }

  function Adder24bit(a: Bits, b: Bits, cin: bool): (s: Sum)
    requires |a| == 24 && |b| == 24
    ensures |s.sum| == 24
  {
    var s0 := Adder8bit(a[..8], b[..8], cin);
    var s1 := Adder8bit(a[8..16], b[8..16], s0.cout);
    var s2 := Adder8bit(a[16..], b[16..], s1.cout);
    Sum(s0.sum + s1.sum + s2.sum, s2.cout)
  }

  lemma Adder24Correct(a: Bits, b: Bits, cin: bool)
    requires |a| == 24 && |b| == 24
    ensures var s := Adder24bit(a, b, cin); Val(s.sum) + 16777216 * B(s.cout) == Val(a) + Val(b) + B(cin)
  {
    var s0 := Adder8bit(a[..8], b[..8], cin);
    var s1 := Adder8bit(a[8..16], b[8..16], s0.cout);
    var s2 := Adder8bit(a[16..], b[16..], s1.cout);
    Adder8Correct(a[..8], b[..8], cin);
    Adder8Correct(a[8..16], b[8..16], s0.cout);
    Adder8Correct(a[16..], b[16..], s1.cout);
    Chain24(a, b, cin, s0, s1, s2);
  }

  // ------------------------------------------------- complements and choices

  function Complement(b: Bits): (r: Bits)
    ensures |r| == |b|
  {
    seq(|b|, i requires 0 <= i < |b| => !b[i])
  }

  lemma {:induction false} ComplementVal(b: Bits)
    ensures Val(Complement(b)) + Val(b) == Pow2(|b|) - 1
  {
    if b != [] {
      ComplementVal(b[1..]);
      assert Complement(b)[1..] == Complement(b[1..]);
    }
  }

  /** Complement and add one. */
  function Complement8bit2s(b: Bits): (r: Bits)
    requires |b| == 8
    ensures |r| == 8
  {
    Adder8bit(Complement(b), [true] + Zeros(7), false).sum
  }

  function Complement24bit2s(b: Bits): (r: Bits)
    requires |b| == 24
    ensures |r| == 24
  {
    Adder24bit(Complement(b), [true] + Zeros(23), false).sum
  }

  lemma OneVal(n: nat)
    ensures Val([true] + Zeros(n)) == 1
  {
    ZerosVal(n);
    assert ([true] + Zeros(n))[1..] == Zeros(n);
  }

  lemma NegateValue(v: nat, c: nat, r: nat, carry: nat, m: nat)
    requires v < m && r < m && carry <= 1 && c + v == m - 1 && r + m * carry == c + 1
    ensures r == if v == 0 then 0 else m - v
  {
    assert carry == 0 || carry == 1;
  }

  lemma Negate8(b: Bits)
    requires |b| == 8
    ensures Val(Complement8bit2s(b)) == if Val(b) == 0 then 0 else 256 - Val(b)
  {
    OneVal(7);
    Adder8Correct(Complement(b), [true] + Zeros(7), false);
    Incremented8(b, Adder8bit(Complement(b), [true] + Zeros(7), false));
  }

  lemma Incremented8(b: Bits, s: Sum)
    requires |b| == 8 && |s.sum| == 8 && Val(s.sum) + 256 * B(s.cout) == Val(Complement(b)) + 1
    ensures Val(s.sum) == if Val(b) == 0 then 0 else 256 - Val(b)
  {
    Pow8();
    ComplementVal(b);
    Width8(b);
    Width8(s.sum);
    NegateValue(Val(b), Val(Complement(b)), Val(s.sum), B(s.cout), 256);
  }

  lemma Negate24(b: Bits)
    requires |b| == 24
    ensures Val(Complement24bit2s(b)) == if Val(b) == 0 then 0 else 16777216 - Val(b)
  {
    OneVal(23);
    Adder24Correct(Complement(b), [true] + Zeros(23), false);
    Incremented24(b, Adder24bit(Complement(b), [true] + Zeros(23), false));
  }

  lemma Incremented24(b: Bits, s: Sum)
    requires |b| == 24 && |s.sum| == 24 && Val(s.sum) + 16777216 * B(s.cout) == Val(Complement(b)) + 1
    ensures Val(s.sum) == if Val(b) == 0 then 0 else 16777216 - Val(b)
  {
    Pow24();
    ComplementVal(b);
    Width24(b);
    Width24(s.sum);
    NegateValue(Val(b), Val(Complement(b)), Val(s.sum), B(s.cout), 16777216);
  }

  function Mux1Bit(in0: bool, in1: bool, sl: bool): (r: bool)
    ensures r == if sl then in1 else in0
  {
    (in0 && !sl) || (in1 && sl)
  }

  function Mux(in0: Bits, in1: Bits, sl: bool): (r: Bits)
    requires |in0| == |in1|
    ensures r == if sl then in1 else in0
  {
    seq(|in0|, i requires 0 <= i < |in0| => Mux1Bit(in0[i], in1[i], sl))
  }

  /** A chain of two-input or gates. */
  function ReductionOr(b: Bits): (r: bool)
    requires |b| > 0
  {
    if |b| == 1 then b[0] else b[|b| - 1] || ReductionOr(b[..|b| - 1])
  }

  function ReductionAnd(b: Bits): (r: bool)
    requires |b| > 0
  {
    if |b| == 1 then b[0] else b[|b| - 1] && ReductionAnd(b[..|b| - 1])
  }

  function ReductionOr24(b: Bits): bool
    requires |b| == 24
  {
    ReductionOr(b[..8]) || ReductionOr(b[8..16]) || ReductionOr(b[16..])
  }

  lemma {:induction false} OrVal(b: Bits)
    requires |b| > 0
    ensures ReductionOr(b) <==> Val(b) != 0
  {
    if |b| == 1 {
      assert b[1..] == [];
    } else {
      var low, top := b[..|b| - 1], b[|b| - 1];
      OrVal(low);
      Append(low, top);
      assert b == low + [top];
      assert Val(b) == if top then Val(low) + Pow2(|low|) else Val(low);
    }
  }

  /** All ones is the largest value of its width. */
  lemma {:induction false} AndVal(b: Bits)
    requires |b| > 0
    ensures ReductionAnd(b) <==> Val(b) == Pow2(|b|) - 1
  {
    if |b| == 1 {
      assert b[1..] == [];
      assert Pow2(1) == 2;
    } else {
      var low, top := b[..|b| - 1], b[|b| - 1];
      AndVal(low);
      Append(low, top);
      ValBound(low);
      assert b == low + [top];
      assert Val(b) == if top then Val(low) + Pow2(|low|) else Val(low);
    }
  }

  lemma And8Val(b: Bits)
    requires |b| == 8
    ensures ReductionAnd(b) <==> Val(b) == 255
  {
    AndVal(b);
    Pow8();
  }

  lemma Or24Val(b: Bits)
    requires |b| == 24
    ensures ReductionOr24(b) <==> Val(b) != 0
  {
    OrVal(b[..8]);
    OrVal(b[8..16]);
    OrVal(b[16..]);
    Split(b, 16);
    Split(b[..16], 8);
    assert b[..16][..8] == b[..8] && b[..16][8..] == b[8..16];
    NonZeroParts(Val(b[..8]), Val(b[8..16]), Val(b[16..]), Pow2(8), Pow2(16));
  }

  lemma NonZeroParts(a: nat, b: nat, c: nat, p: nat, q: nat)
    requires p > 0 && q > 0
    ensures a + p * b + q * c != 0 <==> a != 0 || b != 0 || c != 0
  {
  }

  /** Logical shift right, filling with zeros. */
  function ShiftRight(b: Bits, n: nat): (r: Bits)
    ensures |r| == |b|
  {
    if n >= |b| then Zeros(|b|) else b[n..] + Zeros(n)
  }
}
