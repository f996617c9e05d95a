/** The three quadrature decoders: the FPGA lookup table with its wrapping
    16-bit count, the C lookup table, and the FPGA edge detector. Each is a
    class stepped one sample at a time, proved against a function, and the
    functions are compared with one another and with real displacement. */
module Quadrature {
  import opened Modular

  /** One sample of the two encoder lines. */
  datatype Lines = Lines(a: bool, b: bool)

  const REST := Lines(false, false)

  /** The shared lookup table: forward, backward, or nothing. */
  function Table(prev: Lines, curr: Lines): int {
    match (prev.a, prev.b, curr.a, curr.b)
    case (false, false, false, true) => 1
    case (false, true, true, true) => 1
    case (true, true, true, false) => 1
    case (true, false, false, false) => 1
    case (false, false, true, false) => -1
    case (true, false, true, true) => -1
    case (true, true, false, true) => -1
    case (false, true, false, false) => -1
    case _ => 0
  }

  function Last(xs: seq<Lines>): Lines {
    if xs == [] then REST else xs[|xs| - 1]
  }

  /** Sample k counted from the end, the lines resting at 00 before the trace. */
  function Ago(xs: seq<Lines>, k: nat): Lines {
    if k < |xs| then xs[|xs| - 1 - k] else REST
  }

  /** The first |xs| - k samples. */
  function Dropped(xs: seq<Lines>, k: nat): seq<Lines> {
    if k <= |xs| then xs[..|xs| - k] else []
  }

  // ------------------------------------------------------------- C decoder

  /** Position after a trace of samples starting from 00: the sum of table steps. */
  function Position(xs: seq<Lines>): int {
    if xs == [] then 0 else Position(xs[..|xs| - 1]) + Table(Last(xs[..|xs| - 1]), xs[|xs| - 1])
  }

  /** What a 32-bit position keeps of a sum. */
  function Wrap32(x: int): (r: int)
    ensures -0x8000_0000 <= r < 0x8000_0000
    ensures -0x8000_0000 <= x < 0x8000_0000 ==> r == x
  {
    (x + 0x8000_0000) % 0x1_0000_0000 - 0x8000_0000
  }

  lemma WrapStep(x: int, d: int)
    ensures Wrap32(Wrap32(x) + d) == Wrap32(x + d)
  {
    AddMod(x + 0x8000_0000, d, 0x1_0000_0000);
  }

  class CDecoder {
    var position: int
    var last: Lines
    ghost var trace: seq<Lines>

    ghost predicate Valid()
      reads this
    {
      position == Wrap32(Position(trace)) && last == Last(trace)
    }

    constructor ()
      ensures Valid() && trace == []
    {
      position, last, trace := 0, REST, [];
    }

    /** process_transition */
    method ProcessTransition(now: Lines)
      requires Valid()
      modifies this
      ensures Valid() && trace == old(trace) + [now] && position == Wrap32(Position(trace))
    {
      var delta := Table(last, now);
      WrapStep(Position(trace), delta);
      if delta != 0 {
        position := Wrap32(position + delta);
      }
      last := now;
      trace := trace + [now];
    }
  }

  // ----------------------------------------------------- FPGA lookup table

  class Encoder {
    const max: nat
    var sync0: Lines
    var sync1: Lines
    var prev: Lines
    var count: nat
    ghost var trace: seq<Lines>

    /** The pipeline holds the last three samples, and the count, which has seen
        all but the last two, is the C position folded into 0 .. max - 1. */
    ghost predicate Valid()
      reads this
    {
      && 2 <= max <= 65536
      && sync0 == Ago(trace, 0) && sync1 == Ago(trace, 1) && prev == Ago(trace, 2)
      && count == (max / 2 + Position(Dropped(trace, 2))) % max
    }

    constructor (max: nat)
      requires 2 <= max <= 65536
      ensures Valid() && trace == [] && this.max == max
    {
      Middle(max);
      this.max := max;
      sync0, sync1, prev, count, trace := REST, REST, REST, max / 2, [];
    }

    /** One posedge; reset clears the pipeline and puts the count in the middle. */
    method Clock(rst: bool, pins: Lines)
      requires Valid()
      modifies this
      ensures Valid() && trace == if rst then [] else old(trace) + [pins]
      ensures count == (max / 2 + Position(Dropped(trace, 2))) % max
    {
      if rst {
        Middle(max);
        sync0, sync1, prev, count, trace := REST, REST, REST, max / 2, [];
        return;
      }
      var step := Table(prev, sync1);
      Counted(max, trace, pins);
      count := NextCount(max, count, step);
      prev, sync1, sync0 := sync1, sync0, pins;
      trace := trace + [pins];
    }
  }

  /** Up or down by one, wrapping at both ends. */
  method NextCount(max: nat, count: nat, step: int) returns (next: nat)
    requires count < max
    ensures next == Stepped(max, count, step)
  {
    next := count;
    if step == 1 {
      next := if count == max - 1 then 0 else count + 1;
    } else if step == -1 {
      next := if count == 0 then max - 1 else count - 1;
    }
  }

  function Stepped(max: nat, c: nat, step: int): nat
    requires c < max
  {
    if step == 1 then (if c == max - 1 then 0 else c + 1)
    else if step == -1 then (if c == 0 then max - 1 else c - 1)
    else c
  }

  lemma Middle(max: nat)
    requires max >= 2
    ensures max / 2 == (max / 2 + Position(Dropped([], 2))) % max
  {
    DivModUnique(max / 2, max, 0, max / 2);
  }

  /** One more sample moves the folded count by the table step of the pipeline. */
  lemma Counted(max: nat, xs: seq<Lines>, x: Lines)
    requires max >= 2
    ensures (max / 2 + Position(Dropped(xs + [x], 2))) % max
         == Stepped(max, (max / 2 + Position(Dropped(xs, 2))) % max, Table(Ago(xs, 2), Ago(xs, 1)))
  {
    DroppedSnoc(xs, x);
    CountStep(max, max / 2 + Position(Dropped(xs, 2)), Table(Ago(xs, 2), Ago(xs, 1)));
  }

  /** Wrapping up or down by one is adding one or minus one modulo max. */
  lemma CountStep(max: nat, x: int, step: int)
    requires max >= 2 && -1 <= step <= 1
    ensures (x + step) % max == Stepped(max, x % max, step)
  {
    var q, c := x / max, x % max;
    assert x == max * q + c;
    assert max * (q + 1) == max * q + max && max * (q - 1) == max * q - max;
    if step == 1 && c == max - 1 {
      DivModUnique(x + step, max, q + 1, 0);
    } else if step == -1 && c == 0 {
      DivModUnique(x + step, max, q - 1, max - 1);
    } else {
      DivModUnique(x + step, max, q, c + step);
    }
  }

  /** The sample two clocks old enters the count through the transition register. */
  lemma DroppedSnoc(xs: seq<Lines>, x: Lines)
    ensures Position(Dropped(xs + [x], 2)) == Position(Dropped(xs, 2)) + Table(Ago(xs, 2), Ago(xs, 1))
  {
    if |xs| >= 2 {
      assert Dropped(xs + [x], 2)[..|xs| - 2] == Dropped(xs, 2);
    }
  }

  // --------------------------------------------------------- displacement

  /** The table counts the way round the four phases, and nothing on a double change. */
  lemma TableMeaning(prev: Lines, curr: Lines)
    ensures Jump(prev, curr) ==> Table(prev, curr) == 0
    ensures !Jump(prev, curr) ==> -1 <= Table(prev, curr) <= 1 && (Phase(prev) + Table(prev, curr)) % 4 == Phase(curr)
  {
  }

  /** The four line states in the order of forward motion. */
  function Phase(l: Lines): nat {
    match (l.a, l.b)
    case (false, false) => 0
    case (false, true) => 1
    case (true, true) => 2
    case (true, false) => 3
  }

  /** Both lines moved between two samples. */
  predicate Jump(p: Lines, q: Lines) {
    p.a != q.a && p.b != q.b
  }

  function Jumps(xs: seq<Lines>): nat {
    if xs == [] then 0 else
      Jumps(xs[..|xs| - 1]) + if Jump(Last(xs[..|xs| - 1]), xs[|xs| - 1]) then 1 else 0
  }

  /** A physical motion: one whole-step position per sample, starting at 0,
      moving by at most one step between samples, and shown by the lines. */
  ghost predicate Motion(theta: seq<int>, xs: seq<Lines>) {
    |theta| == |xs| && forall k: nat :: k < |xs| ==> MovesAt(theta, xs, k)
  }

  predicate MovesAt(theta: seq<int>, xs: seq<Lines>, k: nat)
    requires k < |theta| && k < |xs|
  {
    Phase(xs[k]) == theta[k] % 4 && -1 <= theta[k] - (if k == 0 then 0 else theta[k - 1]) <= 1
  }

  lemma MotionPrefix(theta: seq<int>, xs: seq<Lines>, n: nat)
    requires Motion(theta, xs) && n <= |xs|
    ensures Motion(theta[..n], xs[..n])
  {
    forall k: nat | k < n ensures MovesAt(theta[..n], xs[..n], k) {
      assert MovesAt(theta, xs, k);
    }
  }

  lemma PhaseStep(p: Lines, q: Lines, x: int, y: int)
    requires Phase(p) == x % 4 && Phase(q) == y % 4 && -1 <= y - x <= 1
    ensures Table(p, q) == y - x
  {
  }

  /** The decoder's position is the true net displacement of any such motion. */
  lemma {:induction false} PositionIsDisplacement(theta: seq<int>, xs: seq<Lines>)
    requires Motion(theta, xs)
    ensures Position(xs) == if xs == [] then 0 else theta[|xs| - 1]
  {
    if xs != [] {
      var n := |xs| - 1;
      MotionPrefix(theta, xs, n);
      PositionIsDisplacement(theta[..n], xs[..n]);
      assert MovesAt(theta, xs, n);
      if n > 0 { assert MovesAt(theta, xs, n - 1); }
      PhaseStep(Last(xs[..n]), xs[n], if n == 0 then 0 else theta[n - 1], theta[n]);
    }
  }

  /** Position, phase and the number of missed double changes are tied together modulo 4. */
  lemma {:induction false} ResidueLaw(xs: seq<Lines>)
    ensures (Position(xs) + 2 * Jumps(xs)) % 4 == Phase(Last(xs))
  {
    if xs != [] {
      ResidueLaw(xs[..|xs| - 1]);
    }
  }

  /** The position agrees with the line state modulo 4 exactly when an even
      number of double changes was missed. */
  lemma ResidueIffEvenJumps(xs: seq<Lines>)
    ensures Position(xs) % 4 == Phase(Last(xs)) <==> Jumps(xs) % 2 == 0
  {
    ResidueLaw(xs);
    HalfTurns(Position(xs), Jumps(xs), Phase(Last(xs)));
  }

  lemma HalfTurns(p: int, j: nat, f: nat)
    requires (p + 2 * j) % 4 == f
    ensures p % 4 == f <==> j % 2 == 0
  {
  }

  /** With no double change at all, the decoder's own positions are such a motion. */
  lemma {:induction false} EveryTraceIsAMotion(xs: seq<Lines>) returns (theta: seq<int>)
    requires Jumps(xs) == 0
    ensures Motion(theta, xs)
    ensures xs != [] ==> theta[|xs| - 1] == Position(xs)
  {
    if xs == [] {
      theta := [];
    } else {
      var ys := xs[..|xs| - 1];
      var phi := EveryTraceIsAMotion(ys);
      theta := phi + [Position(xs)];
      ResidueLaw(xs);
      forall k: nat | k < |xs| ensures MovesAt(theta, xs, k) {
        if k < |ys| { assert MovesAt(phi, ys, k); }
      }
    }
  }

  /** Only traces without double changes show a motion. */
  lemma {:induction false} MotionHasNoJumps(theta: seq<int>, xs: seq<Lines>)
    requires Motion(theta, xs)
    ensures Jumps(xs) == 0
  {
    if xs != [] {
      var n := |xs| - 1;
      MotionPrefix(theta, xs, n);
      MotionHasNoJumps(theta[..n], xs[..n]);
      assert MovesAt(theta, xs, n);
      if n > 0 { assert MovesAt(theta, xs, n - 1); }
      PhaseStep(Last(xs[..n]), xs[n], if n == 0 then 0 else theta[n - 1], theta[n]);
    }
  }

  /** Starting in the middle, the FPGA count needs no unwrapping while the
      displacement stays within half the range. */
  lemma CountWithoutWrap(max: nat, position: int)
    requires max >= 2
    ensures (max / 2 + position) % max == max / 2 + position <==> -(max / 2) <= position < max - max / 2
  {
  }

  /** The FPGA count two clocks behind the pins, read relative to its middle
      value, is the true displacement as long as that stays within half the range. */
  lemma CountIsDisplacement(max: nat, theta: seq<int>, xs: seq<Lines>)
    requires max >= 2 && Motion(theta, xs) && |xs| >= 3
    requires -(max / 2) <= theta[|xs| - 3] < max - max / 2
    ensures (max / 2 + Position(Dropped(xs, 2))) % max - max / 2 == theta[|xs| - 3]
  {
    PrefixDisplacement(theta, xs, |xs| - 2);
    CountWithoutWrap(max, theta[|xs| - 3]);
  }

  // ----------------------------------------------------- FPGA edge detector

  /** The edge detector's increment: an edge between `old` and `new`, signed by
      the other line as sampled one clock later. */
  function EdgeStep(prev: Lines, curr: Lines, later: Lines): int {
    if !prev.a && curr.a then (if later.b then -1 else 1)
    else if prev.a && !curr.a then (if later.b then 1 else -1)
    else if !prev.b && curr.b then (if later.a then 1 else -1)
    else if prev.b && !curr.b then (if later.a then -1 else 1)
    else 0
  }

  function EdgeSum(xs: seq<Lines>): int {
    if xs == [] then 0 else EdgeSum(xs[..|xs| - 1]) + EdgeStep(Ago(xs, 2), Ago(xs, 1), Ago(xs, 0))
  }

  class EdgeDecoder {
    var sync0: Lines
    var sync1: Lines
    var shift0: Lines
    var shift1: Lines
    var position: int
    ghost var trace: seq<Lines>
    ghost var origin: int

    /** The position counts the signed edges since the last reset, where their
        sum was `origin`; reset clears nothing else. */
    ghost predicate Valid()
      reads this
    {
      && LastFour(trace, sync0, sync1, shift0, shift1)
      && position == Wrap32(Detected(trace) - origin)
    }

    /** Settled synchronisers, both lines at rest. */
    constructor ()
      ensures Valid() && trace == [] && origin == 0
    {
      sync0, sync1, shift0, shift1, position, trace, origin := REST, REST, REST, REST, 0, [], 0;
    }

    /** One posedge. */
    method Clock(rst: bool, pins: Lines)
      requires Valid()
      modifies this
      ensures Valid() && trace == old(trace) + [pins]
      ensures position == Wrap32(EdgeSum(Dropped(trace, 2)) - origin)
      ensures origin == if rst then EdgeSum(Dropped(trace, 2)) else old(origin)
    {
      LastFourSnoc(trace, pins, sync0, sync1, shift0, shift1);
      var step := SignedEdge(shift1, shift0, sync1);
      ghost var sum := EdgeCounted(trace, pins, origin, position, step);
      position := NextPosition(rst, position, step);
      origin := if rst then sum else origin;
      shift1, shift0, sync1, sync0 := shift0, sync1, sync0, pins;
      trace := trace + [pins];
    }
  }

  /** The pipeline registers hold the last four samples. */
  ghost predicate LastFour(xs: seq<Lines>, x0: Lines, x1: Lines, x2: Lines, x3: Lines) {
    x0 == Ago(xs, 0) && x1 == Ago(xs, 1) && x2 == Ago(xs, 2) && x3 == Ago(xs, 3)
  }

  lemma LastFourSnoc(xs: seq<Lines>, x: Lines, x0: Lines, x1: Lines, x2: Lines, x3: Lines)
    requires LastFour(xs, x0, x1, x2, x3)
    ensures LastFour(xs + [x], x, x0, x1, x2)
  {
  }

  /** The sum of signed edges that has reached the position: all but the last two samples. */
  function Detected(xs: seq<Lines>): int { EdgeSum(Dropped(xs, 2)) }

  lemma EdgeSnoc(xs: seq<Lines>, x: Lines)
    ensures EdgeSum(Dropped(xs + [x], 2)) == EdgeSum(Dropped(xs, 2)) + EdgeStep(Ago(xs, 3), Ago(xs, 2), Ago(xs, 1))
  {
    var ys := Dropped(xs + [x], 2);
    if |xs| >= 2 {
      assert ys[..|ys| - 1] == Dropped(xs, 2);
    }
  }

  /** The rise and fall wires of both lines, A before B. */
  method SignedEdge(prev: Lines, curr: Lines, later: Lines) returns (step: int)
    ensures step == EdgeStep(prev, curr, later)
  {
    var aRise, aFall := !prev.a && curr.a, prev.a && !curr.a;
    var bRise, bFall := !prev.b && curr.b, prev.b && !curr.b;
    step := 0;
    if aRise {
      step := if later.b then -1 else 1;
    } else if aFall {
      step := if later.b then 1 else -1;
    } else if bRise {
      step := if later.a then 1 else -1;
    } else if bFall {
      step := if later.a then -1 else 1;
    }
  }

  method NextPosition(rst: bool, position: int, step: int) returns (next: int)
    ensures next == if rst then 0 else Wrap32(position + step)
  {
    if rst {
      next := 0;
    } else {
      next := Wrap32(position + step);
    }
  }

  lemma EdgeCounted(xs: seq<Lines>, x: Lines, origin: int, position: int, step: int)
    returns (sum: int)
    requires position == Wrap32(Detected(xs) - origin) && step == EdgeStep(Ago(xs, 3), Ago(xs, 2), Ago(xs, 1))
    ensures sum == Detected(xs + [x]) && Wrap32(position + step) == Wrap32(sum - origin)
    ensures Wrap32(sum - sum) == 0
  {
    sum := Detected(xs + [x]);
    EdgeSnoc(xs, x);
    WrapStep(Detected(xs) - origin, step);
  }

  /** The line that did not move at an edge moved at the very next clock. */
  predicate Crowded(prev: Lines, curr: Lines, later: Lines) {
    (prev.a != curr.a && later.b != curr.b) || (prev.b != curr.b && later.a != curr.a)
  }

  /** No edge of the trace is on both lines at once or crowded. */
  ghost predicate NeverCrowded(xs: seq<Lines>) {
    || xs == []
    || (NeverCrowded(xs[..|xs| - 1]) && !Jump(Ago(xs, 2), Ago(xs, 1)) && !Crowded(Ago(xs, 2), Ago(xs, 1), Ago(xs, 0)))
  }

  /** One edge is the negated table step exactly when it is single and not crowded. */
  lemma EdgeNegatesTable(prev: Lines, curr: Lines, later: Lines)
    ensures EdgeStep(prev, curr, later) == -Table(prev, curr) <==> !Jump(prev, curr) && !Crowded(prev, curr, later)
  {
  }

  /** After every sample, the edge sum is the negated table position one sample earlier. */
  ghost predicate AgreesThroughout(xs: seq<Lines>) {
    xs == [] || (AgreesThroughout(xs[..|xs| - 1]) && EdgeSum(xs) == -Position(Dropped(xs, 1)))
  }

  lemma {:induction false} JumpFree(xs: seq<Lines>)
    requires Jumps(xs) == 0
    ensures !Jump(Ago(xs, 2), Ago(xs, 1))
    ensures xs != [] ==> Jumps(xs[..|xs| - 1]) == 0
  {
  }

  lemma PositionSnocAgo(xs: seq<Lines>)
    requires xs != []
    ensures Position(Dropped(xs, 1)) == Position(Dropped(xs[..|xs| - 1], 1)) + Table(Ago(xs, 2), Ago(xs, 1))
  {
  }

  /** On every trace, the edge detector is the negated lookup table at every
      clock (one pipeline stage later) if and only if the lines never change
      together and no edge is followed, at the very next clock, by an edge on
      the other line. */
  lemma {:induction false} EdgeDecoderNegatesTable(xs: seq<Lines>)
    ensures AgreesThroughout(xs) <==> NeverCrowded(xs)
    ensures AgreesThroughout(xs) ==> EdgeSum(xs) == -Position(Dropped(xs, 1))
  {
    if xs != [] {
      EdgeDecoderNegatesTable(xs[..|xs| - 1]);
      PositionSnocAgo(xs);
      EdgeNegatesTable(Ago(xs, 2), Ago(xs, 1), Ago(xs, 0));
    }
  }

  /** Every change of the lines is followed by at least one unchanged clock. */
  ghost predicate StepsApart(xs: seq<Lines>) {
    xs == [] || (StepsApart(xs[..|xs| - 1]) && (Ago(xs, 2) == Ago(xs, 1) || Ago(xs, 1) == Ago(xs, 0)))
  }

  lemma {:induction false} ApartNotCrowded(xs: seq<Lines>)
    requires StepsApart(xs) && Jumps(xs) == 0
    ensures NeverCrowded(xs)
  {
    if xs != [] {
      JumpFree(xs);
      ApartNotCrowded(xs[..|xs| - 1]);
    }
  }

  lemma {:induction false} DropLast(xs: seq<Lines>, k: nat)
    requires k <= |xs|
    ensures Jumps(xs) == 0 ==> Jumps(xs[..k]) == 0
    ensures StepsApart(xs) ==> StepsApart(xs[..k])
    decreases |xs|
  {
    if k < |xs| {
      DropLast(xs[..|xs| - 1], k);
      assert xs[..|xs| - 1][..k] == xs[..k];
    } else {
      assert xs[..k] == xs;
    }
  }

  /** Steps at least two clocks apart are enough: three clocks behind the pins,
      the edge detector shows the negated true displacement. */
  lemma SlowStepsAgree(theta: seq<int>, xs: seq<Lines>)
    requires Motion(theta, xs) && StepsApart(xs)
    ensures EdgeSum(Dropped(xs, 2)) == if |xs| <= 3 then 0 else -theta[|xs| - 4]
  {
    if |xs| >= 3 {
      SlowPrefix(theta, xs, |xs| - 2);
      PrefixDisplacement(theta, xs, |xs| - 3);
    }
  }

  lemma SlowPrefix(theta: seq<int>, xs: seq<Lines>, n: nat)
    requires Motion(theta, xs) && StepsApart(xs) && 0 < n <= |xs|
    ensures EdgeSum(xs[..n]) == -Position(xs[..n - 1])
  {
    MotionHasNoJumps(theta, xs);
    DropLast(xs, n);
    SlowEdges(xs[..n]);
    assert xs[..n][..n - 1] == xs[..n - 1];
  }

  lemma PrefixDisplacement(theta: seq<int>, xs: seq<Lines>, n: nat)
    requires Motion(theta, xs) && n <= |xs|
    ensures Position(xs[..n]) == if n == 0 then 0 else theta[n - 1]
  {
    MotionPrefix(theta, xs, n);
    PositionIsDisplacement(theta[..n], xs[..n]);
  }

  lemma SlowEdges(xs: seq<Lines>)
    requires StepsApart(xs) && Jumps(xs) == 0 && xs != []
    ensures EdgeSum(xs) == -Position(xs[..|xs| - 1])
  {
    ApartNotCrowded(xs);
    EdgeDecoderNegatesTable(xs);
  }

  /** What one edge adds beyond the negated table step: a crowded edge is counted
      the wrong way; of a double one only line A is counted, signed by line B as
      sampled one clock later. */
  function Drift(prev: Lines, curr: Lines, later: Lines): int {
    if Jump(prev, curr) then (if later.b == curr.a then -1 else 1)
    else if Crowded(prev, curr, later) then 2 * Table(prev, curr)
    else 0
  }

  function DriftSum(xs: seq<Lines>): int {
    if xs == [] then 0 else DriftSum(xs[..|xs| - 1]) + Drift(Ago(xs, 2), Ago(xs, 1), Ago(xs, 0))
  }

  lemma EdgeLaw(prev: Lines, curr: Lines, later: Lines)
    ensures EdgeStep(prev, curr, later) == -Table(prev, curr) + Drift(prev, curr, later)
  {
  }

  /** On EVERY trace: how far the edge detector is from the negated lookup table. */
  lemma {:induction false} EdgeDrift(xs: seq<Lines>)
    ensures EdgeSum(xs) == -Position(Dropped(xs, 1)) + DriftSum(xs)
  {
    if xs != [] {
      EdgeDrift(xs[..|xs| - 1]);
      PositionSnocAgo(xs);
      EdgeLaw(Ago(xs, 2), Ago(xs, 1), Ago(xs, 0));
    }
  }

  /** A forward step on each line in consecutive clocks: the edge detector
      counts the first one the wrong way. */
  lemma CrowdedStepsDisagree()
    ensures var xs := [Lines(false, true), Lines(true, true), Lines(true, true)];
      Position(xs) == 2 && EdgeSum(xs) == 0 && Jumps(xs) == 0
  {
    var x1, x2 := [Lines(false, true)], [Lines(false, true), Lines(true, true)];
    var xs := [Lines(false, true), Lines(true, true), Lines(true, true)];
    assert xs[..2] == x2 && x2[..1] == x1 && x1[..0] == [];
    assert Position(x1) == 1 && EdgeSum(x1) == 0 && Jumps(x1) == 0;
    assert Position(x2) == 2 && EdgeSum(x2) == 1 && Jumps(x2) == 0;
  }

  /** Both lines raised at once: the table ignores it, the edge detector counts
      down. */
  lemma JumpsDisagree()
    ensures var xs := [Lines(true, true), Lines(true, true)];
      Position(xs) == 0 && EdgeSum(xs) == -1 && !Crowded(REST, xs[0], xs[1])
  {
    var x1, xs := [Lines(true, true)], [Lines(true, true), Lines(true, true)];
    assert xs[..1] == x1 && x1[..0] == [];
    assert Position(x1) == 0 && EdgeSum(x1) == 0;
  }
}
