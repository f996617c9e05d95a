/** From the limited PID output to the motor pins: the control loop's
    midpoint encoding, and the FPGA generator that decodes it back into a
    duty cycle and a direction. Float rounding is not modelled. */
module DrivePath {
  import opened Modular
  import PidFilter

  // ------------------------------------------------------ software encoding

  /** PWM_MID_POINT and the generator's MAX_COUNT in the top entity. */
  const MID := 2048
  const MAX_COUNT := 4096

  /** A C conversion to uint16_t of a value that is not negative. */
  function ToUint16(x: real): int
    requires x >= 0.0
  {
    x.Floor % 65536
  }

  function PwmValue(dir: int, requested: int): int {
    (MID + requested * dir) % 65536
  }

  function Abs(u: real): real { if u < 0.0 then -u else u }

  /** The PWM word of one axis from its limited output: `scale` is 2048 for yaw and 512 for pitch. */
  method Encode(u: real, scale: real) returns (word: int)
    requires 0.0 <= scale <= 2048.0 && -1.0 <= u <= 1.0
    ensures word == Word(u, scale)
    ensures 0 <= word <= MAX_COUNT
  {
    var factor := if u <= 0.0 then -scale else scale;
    ScaledRange(u, scale);
    var requested := ToUint16(u * factor);
    var dir := if u <= 0.0 then -1 else 1;
    word := PwmValue(dir, requested);
    EncodedWord(dir, u * factor, requested);
  }

  lemma EncodedWord(dir: int, x: real, requested: int)
    requires 0.0 <= x <= 2048.0 && (dir == 1 || dir == -1) && requested == ToUint16(x)
    ensures requested == x.Floor && 0 <= requested <= 2048
    ensures PwmValue(dir, requested) == if dir == 1 then MID + requested else MID - requested
  {
    SmallFloor(x);
  }

  lemma SmallFloor(x: real)
    requires 0.0 <= x <= 2048.0
    ensures 0 <= x.Floor <= 2048 && ToUint16(x) == x.Floor
  {
  }

  lemma ScaledRange(u: real, scale: real)
    requires 0.0 <= scale <= 2048.0 && -1.0 <= u <= 1.0
    ensures 0.0 <= Abs(u) * scale <= 2048.0
    ensures u * (if u <= 0.0 then -scale else scale) == Abs(u) * scale
    ensures 0 <= (Abs(u) * scale).Floor <= 2048
  {
    var a := Abs(u);
    UnitScale(a, scale);
    var x := a * scale;
    assert x <= 2048.0;
    assert u <= 0.0 ==> u * -scale == -u * scale;
  }

  lemma UnitScale(a: real, s: real)
    requires 0.0 <= a <= 1.0 && 0.0 <= s
    ensures 0.0 <= a * s <= s
  {
  }

  // ---------------------------------------------------------- PWM generator

  datatype Pwm = Pwm(counter: nat, localDuty: nat, setPoint: nat, pwmOut: bool, dirA: bool, dirB: bool)

  /** One posedge; every right-hand side reads the old registers. */
  function Next(max: nat, s: Pwm, rst: bool, duty: nat): Pwm
    requires max >= 2
  {
    var mid := max / 2;
    if rst then Pwm(0, mid, mid, false, false, false) else
    Pwm(
      if s.counter >= mid - 1 then 0 else s.counter + 1,
      if duty > max then max else duty,
      if s.localDuty < mid then mid - s.localDuty else s.localDuty - mid,
      s.counter < s.setPoint,
      s.localDuty > mid,
      s.localDuty < mid)
  }

  class Generator {
    const max: nat
    var counter: nat
    var localDuty: nat
    var setPoint: nat
    var pwmOut: bool
    var dirA: bool
    var dirB: bool

    ghost function Registers(): Pwm
      reads this
    {
      Pwm(counter, localDuty, setPoint, pwmOut, dirA, dirB)
    }

    constructor (max: nat, counter: nat, setPoint: nat, pwmOut: bool)
      requires max >= 2
      ensures this.max == max && Registers() == Pwm(counter, max / 2, setPoint, pwmOut, false, false)
    {
      this.max, this.counter, this.setPoint, this.pwmOut := max, counter, setPoint, pwmOut;
      localDuty, dirA, dirB := max / 2, false, false;
    }

    /** All always-blocks at one posedge; each runs before what it reads is overwritten. */
    method Clock(rst: bool, duty: nat)
      requires max >= 2
      modifies this
      ensures Registers() == Next(max, old(Registers()), rst, duty)
    {
      var mid := max / 2;
      if rst {
        counter, localDuty, setPoint, pwmOut, dirA, dirB := 0, mid, mid, false, false, false;
        return;
      }
      if localDuty > mid {
        dirA, dirB := true, false;
      } else if localDuty < mid {
        dirA, dirB := false, true;
      } else {
        dirA, dirB := false, false;
      }
      pwmOut := counter < setPoint;
      setPoint := if localDuty < mid then mid - localDuty else localDuty - mid;
      localDuty := if duty > max then max else duty;
      counter := if counter >= mid - 1 then 0 else counter + 1;
    }
  }

  // -------------------------------------------------------------- steady duty

  /** The registers after n clocks with reset low and the duty word held. */
  function Held(max: nat, s: Pwm, duty: nat, n: nat): Pwm
    requires max >= 2
  {
    if n == 0 then s else Next(max, Held(max, s, duty, n - 1), false, duty)
  }

  /** Distance of the (clamped) duty word from the midpoint. */
  function Amplitude(max: nat, duty: nat): nat {
    var d, mid := if duty > max then max else duty, max / 2;
    if d < mid then mid - d else d - mid
  }

  /** Three clocks fill the pipeline, from any register contents. */
  lemma {:induction false} Filled(max: nat, s: Pwm, duty: nat, n: nat)
    requires max >= 2 && n >= 2
    ensures var t := Held(max, s, duty, n);
      && t.localDuty == (if duty > max then max else duty)
      && t.setPoint == Amplitude(max, duty)
      && t.counter < max / 2
      && (n >= 3 ==> (t.dirA <==> duty > max / 2) && (t.dirB <==> duty < max / 2))
  {
  }

  /** From then on the counter runs round 0 .. mid - 1. */
  lemma {:induction false} CounterRuns(max: nat, s: Pwm, duty: nat, n: nat, i: nat)
    requires max >= 2 && n >= 2
    ensures var c := Held(max, s, duty, n).counter; var mid := max / 2;
      Held(max, s, duty, n + i).counter == (c + i) % mid
  {
    var c, mid := Held(max, s, duty, n).counter, max / 2;
    if i == 0 {
      CounterBelow(max, s, duty, n);
      DivModUnique(c, mid, 0, c);
    } else {
      CounterRuns(max, s, duty, n, i - 1);
      NextCounter(max, s, duty, n + i);
      RoundNext(c + (i - 1), mid, Held(max, s, duty, n + i - 1).counter, Held(max, s, duty, n + i).counter);
    }
  }

  lemma CounterBelow(max: nat, s: Pwm, duty: nat, n: nat)
    requires max >= 2 && n >= 2
    ensures Held(max, s, duty, n).counter < max / 2
  {
    Filled(max, s, duty, n);
  }

  lemma RoundNext(x: nat, m: nat, y: nat, z: nat)
    requires m > 0 && y == x % m && z == if y >= m - 1 then 0 else y + 1
    ensures z == (x + 1) % m
  {
    RoundStep(x, m);
  }

  lemma NextCounter(max: nat, s: Pwm, duty: nat, n: nat)
    requires max >= 2 && n > 0
    ensures var c := Held(max, s, duty, n - 1).counter;
      Held(max, s, duty, n).counter == if c >= max / 2 - 1 then 0 else c + 1
  {
  }

  lemma RoundStep(x: nat, m: nat)
    requires m > 0
    ensures (x + 1) % m == if x % m >= m - 1 then 0 else x % m + 1
  {
    AddMod(x, 1, m);
    if x % m == m - 1 {
      DivModUnique(m, m, 1, 0);
    } else {
      DivModUnique(x % m + 1, m, 0, x % m + 1);
    }
  }

  // ------------------------------------------------------------------- duty

  /** How many of x, x + 1, .., x + len - 1 have a remainder below `amplitude`. */
  function CountBelow(x: nat, amplitude: nat, m: nat, len: nat): nat
    requires m > 0
  {
    if len == 0 then 0
    else CountBelow(x, amplitude, m, len - 1) + if (x + len - 1) % m < amplitude then 1 else 0
  }

  lemma {:induction false} CountFromFront(x: nat, amplitude: nat, m: nat, len: nat)
    requires m > 0 && len > 0
    ensures CountBelow(x, amplitude, m, len)
         == (if x % m < amplitude then 1 else 0) + CountBelow(x + 1, amplitude, m, len - 1)
  {
    if len > 1 {
      CountFromFront(x, amplitude, m, len - 1);
    }
  }

  lemma {:induction false} CountFromZero(amplitude: nat, m: nat, len: nat)
    requires m > 0 && len <= m
    ensures CountBelow(0, amplitude, m, len) == if len < amplitude then len else amplitude
  {
    if len > 0 {
      CountFromZero(amplitude, m, len - 1);
      DivModUnique(len - 1, m, 0, len - 1);
    }
  }

  /** A full turn of the counter meets every remainder once, wherever it starts. */
  lemma {:induction false} FullTurn(x: nat, amplitude: nat, m: nat)
    requires m > 0 && amplitude <= m
    ensures CountBelow(x, amplitude, m, m) == amplitude
  {
    if x == 0 {
      CountFromZero(amplitude, m, m);
    } else {
      FullTurn(x - 1, amplitude, m);
      SlideWindow(x - 1, amplitude, m);
    }
  }

  /** Sliding a window of m numbers up by one keeps the count. */
  lemma SlideWindow(x: nat, amplitude: nat, m: nat)
    requires m > 0
    ensures CountBelow(x + 1, amplitude, m, m) == CountBelow(x, amplitude, m, m)
  {
    CountFromFront(x, amplitude, m, m);
    FullPeriod(x, m);
    assert x + 1 + m - 1 == x + m;
  }

  lemma FullPeriod(x: nat, m: nat)
    requires m > 0
    ensures (x + m) % m == x % m
  {
    var q := x / m;
    assert m * (q + 1) == m * q + m;
    DivModUnique(x + m, m, q + 1, x % m);
  }

  /** Clocks n, .., n + len - 1 on which the output is high. */
  function HighClocks(max: nat, s: Pwm, duty: nat, n: nat, len: nat): nat
    requires max >= 2
  {
    if len == 0 then 0
    else HighClocks(max, s, duty, n, len - 1) + if Held(max, s, duty, n + len - 1).pwmOut then 1 else 0
  }

  lemma {:induction false} HighMeansBelow(max: nat, s: Pwm, duty: nat, n: nat, len: nat)
    requires max >= 2 && n >= 3
    ensures HighClocks(max, s, duty, n, len)
         == CountBelow(Held(max, s, duty, n - 1).counter, Amplitude(max, duty), max / 2, len)
  {
    if len > 0 {
      HighMeansBelow(max, s, duty, n, len - 1);
      CounterRuns(max, s, duty, n - 1, len - 1);
      HighAt(max, s, duty, n + len - 1);
    }
  }

  lemma HighAt(max: nat, s: Pwm, duty: nat, n: nat)
    requires max >= 2 && n >= 3
    ensures Held(max, s, duty, n).pwmOut <==> Held(max, s, duty, n - 1).counter < Amplitude(max, duty)
  {
    Filled(max, s, duty, n - 1);
  }

  /** In any max / 2 consecutive clocks after the pipeline has filled, from any
      starting registers, the output is high exactly as often as the word is away
      from the midpoint, on every clock for words of `max` and more; the
      direction pins say on which side of the midpoint the word is. */
  lemma DutyExact(max: nat, s: Pwm, duty: nat, n: nat)
    requires max >= 2 && max % 2 == 0 && n >= 3
    ensures HighClocks(max, s, duty, n, max / 2)
         == if duty >= max then max / 2 else if duty < max / 2 then max / 2 - duty else duty - max / 2
    ensures Held(max, s, duty, n).dirA <==> duty > max / 2
    ensures Held(max, s, duty, n).dirB <==> duty < max / 2
  {
    Filled(max, s, duty, n);
    HighMeansBelow(max, s, duty, n, max / 2);
    FullTurn(Held(max, s, duty, n - 1).counter, Amplitude(max, duty), max / 2);
  }

  // ------------------------------------------------------------------- reset

  /** The inputs of one clock. */
  datatype Tick = Tick(rst: bool, duty: nat)

  function RunTicks(max: nat, s: Pwm, ticks: seq<Tick>): Pwm
    requires max >= 2
  {
    if ticks == [] then s else
      var last := ticks[|ticks| - 1];
      Next(max, RunTicks(max, s, ticks[..|ticks| - 1]), last.rst, last.duty)
  }

  /** Clocks of a trace after which the output or a direction pin is high. */
  function LiveTicks(max: nat, s: Pwm, ticks: seq<Tick>): nat
    requires max >= 2
  {
    if ticks == [] then 0 else
      var t := RunTicks(max, s, ticks);
      LiveTicks(max, s, ticks[..|ticks| - 1]) + if t.pwmOut || t.dirA || t.dirB then 1 else 0
  }

  /** Whatever came before: after a clock with reset high the output and both
      direction pins are low, and the duty register is at the midpoint. */
  lemma ResetSilences(max: nat, s: Pwm, ticks: seq<Tick>)
    requires max >= 2 && ticks != [] && ticks[|ticks| - 1].rst
    ensures var t := RunTicks(max, s, ticks);
      !t.pwmOut && !t.dirA && !t.dirB && t.counter == 0 && t.localDuty == max / 2 && t.setPoint == max / 2
  {
  }

  /** No pin is high on any clock of a held reset. */
  lemma {:induction false} HeldResetIsSilent(max: nat, s: Pwm, ticks: seq<Tick>)
    requires max >= 2 && forall k :: 0 <= k < |ticks| ==> ticks[k].rst
    ensures LiveTicks(max, s, ticks) == 0
  {
    if ticks != [] {
      HeldResetIsSilent(max, s, ticks[..|ticks| - 1]);
      ResetSilences(max, s, ticks);
    }
  }

  /** After a reset that ends any trace, with any word held: one clock with the
      output high but both direction pins low, one with the output low and the
      direction set, and from the third clock on the exact duty. */
  lemma ReleaseFromReset(max: nat, s: Pwm, ticks: seq<Tick>, duty: nat, n: nat)
    requires max >= 2 && max % 2 == 0 && ticks != [] && ticks[|ticks| - 1].rst && n >= 3
    ensures var t := RunTicks(max, s, ticks);
      var one, two := Held(max, t, duty, 1), Held(max, t, duty, 2);
      && one.pwmOut && !one.dirA && !one.dirB
      && !two.pwmOut && (two.dirA <==> duty > max / 2) && (two.dirB <==> duty < max / 2)
      && HighClocks(max, t, duty, n, max / 2)
         == if duty >= max then max / 2 else if duty < max / 2 then max / 2 - duty else duty - max / 2
  {
    ResetSilences(max, s, ticks);
    FirstTwo(max, RunTicks(max, s, ticks), duty);
    DutyExact(max, RunTicks(max, s, ticks), duty, n);
  }

  lemma FirstTwo(max: nat, t: Pwm, duty: nat)
    requires max >= 2 && t.counter == 0 && t.localDuty == max / 2 && t.setPoint == max / 2
    ensures var one, two := Held(max, t, duty, 1), Held(max, t, duty, 2);
      && one.pwmOut && !one.dirA && !one.dirB
      && !two.pwmOut && (two.dirA <==> duty > max / 2) && (two.dirB <==> duty < max / 2)
  {
    var one := Next(max, t, false, duty);
    assert Held(max, t, duty, 0) == t && Held(max, t, duty, 1) == one;
    assert one.setPoint == 0 && Held(max, t, duty, 2) == Next(max, one, false, duty);
  }

  /** What the encoded word of a limited output u is. */
  function Word(u: real, scale: real): int {
    if u > 0.0 then MID + (Abs(u) * scale).Floor else MID - (Abs(u) * scale).Floor
  }

  /** End to end: with the word of u held, any 2048 consecutive clocks have
      the output high floor(|u| * scale) times, and the direction pins follow the
      sign of u when that number is not zero and are both low when it is. */
  lemma DriveEndToEnd(u: real, scale: real, s: Pwm, n: nat)
    requires 0.0 <= scale <= 2048.0 && -1.0 <= u <= 1.0 && n >= 3
    ensures 0 <= Word(u, scale) <= MAX_COUNT
    ensures HighClocks(MAX_COUNT, s, Word(u, scale), n, 2048) == (Abs(u) * scale).Floor
    ensures var t, steps := Held(MAX_COUNT, s, Word(u, scale), n), (Abs(u) * scale).Floor;
      && (t.dirA <==> u > 0.0 && steps != 0)
      && (t.dirB <==> u < 0.0 && steps != 0)
  {
    ScaledRange(u, scale);
    DutyExact(MAX_COUNT, s, Word(u, scale), n);
    Filled(MAX_COUNT, s, Word(u, scale), n);
  }

  /** The same for the output u of a PID controller after any run of errors: its
      limiter keeps the word in range whatever the errors were, and the direction
      pins follow the sign of the unlimited output x. */
  lemma ControllerToPins(g: PidFilter.Gains, errors: seq<real>, scale: real, s: Pwm, n: nat, x: real, u: real)
    requires PidFilter.Sensible(g) && -1.0 <= g.minimum <= 0.0 <= g.maximum <= 1.0
    requires x == PidFilter.After(g, errors).uI + PidFilter.After(g, errors).uD && u == PidFilter.Limit(g, x)
    requires 0.0 <= scale <= 2048.0 && n >= 3
    ensures 0 <= Word(u, scale) <= MAX_COUNT
    ensures HighClocks(MAX_COUNT, s, Word(u, scale), n, 2048) == (Abs(u) * scale).Floor
    ensures var t, steps := Held(MAX_COUNT, s, Word(u, scale), n), (Abs(u) * scale).Floor;
      && (t.dirA <==> x > 0.0 && steps != 0)
      && (t.dirB <==> x < 0.0 && steps != 0)
    ensures Abs(u) == if x > g.maximum then g.maximum else if x < g.minimum then -g.minimum else Abs(x)
  {
    SignKept(g, x, u, scale);
    DriveEndToEnd(u, scale, s, n);
  }

  lemma SignKept(g: PidFilter.Gains, x: real, u: real, scale: real)
    requires PidFilter.Sensible(g) && -1.0 <= g.minimum <= 0.0 <= g.maximum <= 1.0 && u == PidFilter.Limit(g, x)
    ensures -1.0 <= u <= 1.0
    ensures (Abs(u) * scale).Floor != 0 ==> (u > 0.0 <==> x > 0.0) && (u < 0.0 <==> x < 0.0)
    ensures Abs(u) == if x > g.maximum then g.maximum else if x < g.minimum then -g.minimum else Abs(x)
  {
    if u == 0.0 {
      assert Abs(u) * scale == 0.0;
    }
  }
}
