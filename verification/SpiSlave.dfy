/** The 32-bit SPI slave as a clocked machine: every register of the Verilog
    module takes its next value from the registers and inputs of the previous
    clock. Vectors are sequences of bits, most significant first. */
module SpiSlave {

  const ZERO16 := [
    false, false, false, false, false, false, false, false,
    false, false, false, false, false, false, false, false
  ]
  const ZERO := ZERO16 + ZERO16

  type Half = s: seq<bool> | |s| == 16 witness ZERO16
  type Word = s: seq<bool> | |s| == 32 witness ZERO

  /** A shift register fed by a synchronised pin: `b0` is the newest sample. */
  datatype Sync = Sync(b2: bool, b1: bool, b0: bool)

  /** The pins and data inputs seen at one rising clock edge. */
  datatype Input = Input(rst: bool, clk: bool, pico: bool, cs: bool, pitchData: Half, yawData: Half)

  datatype Regs = Regs(clk: Sync, cs: Sync, pico1: bool, pico0: bool, bitcnt: nat, received: bool,
                       rx: Word, tx: Word, pitchPwm: Half, yawPwm: Half)

  /** {w[30:0], bit} */
  function ShiftIn(w: Word, bit: bool): Word { w[1..] + [bit] }

  function Shift(s: Sync, pin: bool): Sync { Sync(s.b1, s.b0, pin) }

  predicate Rising(r: Regs) { !r.clk.b2 && r.clk.b1 }
  predicate Falling(r: Regs) { r.clk.b2 && !r.clk.b1 }
  predicate Active(r: Regs) { !r.cs.b1 }
  predicate StartMessage(r: Regs) { r.cs.b2 && !r.cs.b1 }

  /** The slave's output pin. */
  predicate Poci(r: Regs) { r.tx[0] }

  function ResetRegs(mid: Half): Regs {
    Regs(Sync(false, false, false), Sync(true, true, true), false, false, 0, false, ZERO, ZERO, mid, mid)
  }

  /** One clock; `mid` is MAX_COUNT >> 1. */
  function Next(mid: Half, r: Regs, i: Input): Regs {
    if i.rst then ResetRegs(mid) else
    Regs(
      Shift(r.clk, i.clk),
      Shift(r.cs, i.cs),
      r.pico0,
      i.pico,
      if !Active(r) then 0 else if Rising(r) then (r.bitcnt + 1) % 32 else r.bitcnt,
      Active(r) && Rising(r) && r.bitcnt == 31,
      if Active(r) && Rising(r) then ShiftIn(r.rx, r.pico1) else r.rx,
      if !Active(r) then ZERO
      else if StartMessage(r) then i.pitchData + i.yawData
      else if Falling(r) then ShiftIn(r.tx, false)
      else r.tx,
      if r.received then r.rx[..16] else r.pitchPwm,
      if r.received then r.rx[16..] else r.yawPwm)
  }

  /** The registers as the module declares them, all clocked by one edge. */
  class Slave {
    const mid: Half
    var clkr: Sync
    var csr: Sync
    var picor1: bool
    var picor0: bool
    var bitcnt: nat
    var bytesReceived: bool
    var bytesDataReceived: Word
    var byteDataSent: Word
    var pitchPwm: Half
    var yawPwm: Half

    ghost function Registers(): Regs
      reads this
    {
      Regs(clkr, csr, picor1, picor0, bitcnt, bytesReceived, bytesDataReceived, byteDataSent, pitchPwm, yawPwm)
    }

    constructor (mid: Half)
      ensures Registers() == ResetRegs(mid) && this.mid == mid
    {
      this.mid := mid;
      clkr, csr := Sync(false, false, false), Sync(true, true, true);
      picor1, picor0, bitcnt, bytesReceived := false, false, 0, false;
      bytesDataReceived, byteDataSent := ZERO, ZERO;
      pitchPwm, yawPwm := mid, mid;
    }

    /** Commit a received frame. */
    method CommitPwm(i: Input)
      modifies this`pitchPwm, this`yawPwm
      ensures pitchPwm == if i.rst then mid else if bytesReceived then bytesDataReceived[..16] else old(pitchPwm)
      ensures yawPwm == if i.rst then mid else if bytesReceived then bytesDataReceived[16..] else old(yawPwm)
    {
      if i.rst {
        pitchPwm, yawPwm := mid, mid;
      } else if bytesReceived {
        pitchPwm, yawPwm := bytesDataReceived[..16], bytesDataReceived[16..];
      }
    }

    /** Count, shift in, and flag the 32nd bit. */
    method Receive(i: Input)
      modifies this`bitcnt, this`bytesDataReceived, this`bytesReceived
      ensures var counting := !csr.b1 && !clkr.b2 && clkr.b1;
        && bitcnt == (if i.rst || csr.b1 then 0 else if counting then (old(bitcnt) + 1) % 32 else old(bitcnt))
        && bytesReceived == (!i.rst && counting && old(bitcnt) == 31)
        && bytesDataReceived == (if i.rst then ZERO
             else if counting then ShiftIn(old(bytesDataReceived), picor1) else old(bytesDataReceived))
    {
      if i.rst {
        bitcnt, bytesDataReceived, bytesReceived := 0, ZERO, false;
        return;
      }
      var active, rising := !csr.b1, !clkr.b2 && clkr.b1;
      bytesReceived := active && rising && bitcnt == 31;
      if !active {
        bitcnt := 0;
      } else if rising {
        bitcnt := (bitcnt + 1) % 32;
        bytesDataReceived := ShiftIn(bytesDataReceived, picor1);
      }
    }

    /** Load at the start of a message, shift out on falling edges. */
    method Transmit(i: Input)
      modifies this`byteDataSent
      ensures byteDataSent == if i.rst || csr.b1 then ZERO
        else if csr.b2 then i.pitchData + i.yawData
        else if clkr.b2 && !clkr.b1 then ShiftIn(old(byteDataSent), false) else old(byteDataSent)
    {
      if i.rst {
        byteDataSent := ZERO;
      } else if !csr.b1 {
        if csr.b2 && !csr.b1 {
          byteDataSent := i.pitchData + i.yawData;
        } else if clkr.b2 && !clkr.b1 {
          byteDataSent := ShiftIn(byteDataSent, false);
        }
      } else {
        byteDataSent := ZERO;
      }
    }

    /** The pin synchronisers. */
    method Synchronise(i: Input)
      modifies this`clkr, this`csr, this`picor1, this`picor0
      ensures clkr == if i.rst then Sync(false, false, false) else Shift(old(clkr), i.clk)
      ensures csr == if i.rst then Sync(true, true, true) else Shift(old(csr), i.cs)
      ensures picor1 == (!i.rst && old(picor0)) && picor0 == (!i.rst && i.pico)
    {
      if i.rst {
        clkr, csr, picor1, picor0 := Sync(false, false, false), Sync(true, true, true), false, false;
      } else {
        clkr, csr := Shift(clkr, i.clk), Shift(csr, i.cs);
        picor1, picor0 := picor0, i.pico;
      }
    }

    /** All always-blocks at one posedge. Each block runs before the registers
        it reads are overwritten, so every block sees the old values. */
    method Clock(i: Input)
      modifies this
      ensures Registers() == Next(mid, old(Registers()), i)
    {
      CommitPwm(i);
      Transmit(i);
      Receive(i);
      Synchronise(i);
    }
  }

  // ------------------------------------------------------------------ traces

  /** The registers after a whole input trace. */
  function Run(mid: Half, r: Regs, ins: seq<Input>): Regs {
    if ins == [] then r else Next(mid, Run(mid, r, ins[..|ins| - 1]), ins[|ins| - 1])
  }

  lemma {:induction false} RunConcat(mid: Half, r: Regs, a: seq<Input>, b: seq<Input>)
    ensures Run(mid, r, a + b) == Run(mid, Run(mid, r, a), b)
  {
    if b == [] {
      assert a + b == a;
    } else {
      RunConcat(mid, r, a, b[..|b| - 1]);
      assert (a + b)[..|a + b| - 1] == a + b[..|b| - 1];
    }
  }

  lemma RunSnoc(mid: Half, r: Regs, a: seq<Input>, i: Input)
    ensures Run(mid, r, a + [i]) == Next(mid, Run(mid, r, a), i)
  {
  }

  lemma RunFour(mid: Half, r: Regs, ins: seq<Input>)
    requires |ins| >= 4
    ensures Run(mid, r, ins)
         == Run(mid, Next(mid, Next(mid, Next(mid, Next(mid, r, ins[0]), ins[1]), ins[2]), ins[3]), ins[4..])
  {
    RunConcat(mid, r, ins[..4], ins[4..]);
    assert ins[..4] + ins[4..] == ins;
    RunSnoc(mid, r, [], ins[0]);
    RunSnoc(mid, r, [ins[0]], ins[1]);
    RunSnoc(mid, r, [ins[0], ins[1]], ins[2]);
    RunSnoc(mid, r, [ins[0], ins[1], ins[2]], ins[3]);
    assert [] + [ins[0]] == [ins[0]];
    assert [ins[0]] + [ins[1]] == [ins[0], ins[1]];
    assert [ins[0], ins[1]] + [ins[2]] == [ins[0], ins[1], ins[2]];
    assert [ins[0], ins[1], ins[2]] + [ins[3]] == ins[..4];
  }

  // ---------------------------------------------------------- commit safety

  ghost predicate NoReset(ins: seq<Input>) {
    forall k :: 0 <= k < |ins| ==> !ins[k].rst
  }

  /** The bits sampled on detected rising edges since chip select was last seen inactive. */
  function Window(mid: Half, r: Regs, ins: seq<Input>): seq<bool> {
    if ins == [] then [] else
      var before := ins[..|ins| - 1];
      var s := Run(mid, r, before);
      if !Active(s) then []
      else if Rising(s) then Window(mid, r, before) + [s.pico1]
      else Window(mid, r, before)
  }

  /** The clock at which `ins` ends detected a rising edge inside a window. */
  predicate JustSampled(mid: Half, r: Regs, ins: seq<Input>) {
    ins != [] && var s := Run(mid, r, ins[..|ins| - 1]); Active(s) && Rising(s)
  }

  ghost predicate LastBits(rx: Word, window: seq<bool>) {
    forall k :: 0 <= k < 32 && 32 - k <= |window| ==> rx[k] == window[|window| - 32 + k]
  }

  /** Registers against the window: the counter is its size modulo 32, the shift
      register ends in its bits, and the received flag is up exactly when the edge
      `just` counted completed a multiple of 32. */
  ghost predicate Counted(s: Regs, window: seq<bool>, just: bool) {
    && s.bitcnt == |window| % 32
    && LastBits(s.rx, window)
    && (s.received <==> just && |window| % 32 == 0)
  }

  lemma CountStep(n: nat)
    ensures (n % 32 + 1) % 32 == (n + 1) % 32 && (n % 32 == 31 <==> (n + 1) % 32 == 0)
  {
  }

  lemma ShiftedBits(rx: Word, window: seq<bool>, bit: bool)
    requires LastBits(rx, window)
    ensures LastBits(ShiftIn(rx, bit), window + [bit])
  {
  }

  lemma CountedStep(mid: Half, s: Regs, window: seq<bool>, just: bool, i: Input)
    requires Counted(s, window, just) && !i.rst
    ensures Counted(Next(mid, s, i),
                    if !Active(s) then [] else if Rising(s) then window + [s.pico1] else window,
                    Active(s) && Rising(s))
  {
    CountStep(|window|);
    ShiftedBits(s.rx, window, s.pico1);
  }

  lemma {:induction false} CountedThroughout(mid: Half, r: Regs, ins: seq<Input>)
    requires NoReset(ins) && r.bitcnt == 0 && !r.received
    ensures Counted(Run(mid, r, ins), Window(mid, r, ins), JustSampled(mid, r, ins))
  {
    if ins != [] {
      var n := |ins| - 1;
      CountedThroughout(mid, r, ins[..n]);
      CountedStep(mid, Run(mid, r, ins[..n]), Window(mid, r, ins[..n]), JustSampled(mid, r, ins[..n]), ins[n]);
    }
  }

  /** On every trace outside reset: the bit counter is the number of edges in
      the current window modulo 32, the shift register ends in the sampled
      bits, and the received flag is up exactly when the edge just counted
      completed a multiple of 32. */
  lemma CountsEdges(mid: Half, r: Regs, ins: seq<Input>)
    requires NoReset(ins) && r.bitcnt == 0 && !r.received
    ensures Run(mid, r, ins).bitcnt == |Window(mid, r, ins)| % 32
    ensures LastBits(Run(mid, r, ins).rx, Window(mid, r, ins))
    ensures Run(mid, r, ins).received
       <==> JustSampled(mid, r, ins) && |Window(mid, r, ins)| % 32 == 0
  {
    CountedThroughout(mid, r, ins);
  }

  lemma SampledIsInWindow(mid: Half, r: Regs, ins: seq<Input>)
    requires JustSampled(mid, r, ins)
    ensures |Window(mid, r, ins)| > 0
  {
  }

  lemma LastWord(rx: Word, window: seq<bool>)
    requires LastBits(rx, window) && |window| >= 32
    ensures rx == window[|window| - 32..]
  {
    forall k | 0 <= k < 32 ensures rx[k] == window[|window| - 32..][k] {
      assert rx[k] == window[|window| - 32 + k];
    }
  }

  /** One clock commits the shift register exactly when the received flag is up. */
  lemma CommitStep(mid: Half, s: Regs, window: seq<bool>, just: bool, i: Input)
    requires Counted(s, window, just) && !i.rst && (just ==> |window| > 0)
    ensures var t := Next(mid, s, i);
      if just && |window| % 32 == 0
      then |window| >= 32 && t.pitchPwm + t.yawPwm == window[|window| - 32..]
      else t.pitchPwm == s.pitchPwm && t.yawPwm == s.yawPwm
  {
    if just && |window| % 32 == 0 {
      LastWord(s.rx, window);
      assert s.rx[..16] + s.rx[16..] == s.rx;
    }
  }

  /** The PWM registers move only on the clock after a completed multiple of 32
      edges of one window, and then take the last 32 bits sampled in it. */
  lemma CommitOnlyWholeFrames(mid: Half, r: Regs, ins: seq<Input>, i: Input)
    requires NoReset(ins + [i]) && r.bitcnt == 0 && !r.received
    ensures var s, t, w := Run(mid, r, ins), Run(mid, r, ins + [i]), Window(mid, r, ins);
      if JustSampled(mid, r, ins) && |w| % 32 == 0
      then |w| >= 32 && t.pitchPwm + t.yawPwm == w[|w| - 32..]
      else t.pitchPwm == s.pitchPwm && t.yawPwm == s.yawPwm
  {
    NoResetPrefix(ins, i);
    CountedThroughout(mid, r, ins);
    RunSnoc(mid, r, ins, i);
    if JustSampled(mid, r, ins) {
      SampledIsInWindow(mid, r, ins);
    }
    CommitStep(mid, Run(mid, r, ins), Window(mid, r, ins), JustSampled(mid, r, ins), i);
  }

  lemma NoResetPrefix(ins: seq<Input>, i: Input)
    requires NoReset(ins + [i])
    ensures NoReset(ins) && !i.rst
  {
    assert (ins + [i])[|ins|] == i;
    forall k | 0 <= k < |ins| ensures !ins[k].rst {
      assert (ins + [i])[k] == ins[k];
    }
  }

  /** Every prefix has sampled fewer than 32 bits in its window. */
  ghost predicate AlwaysShort(mid: Half, r: Regs, ins: seq<Input>) {
    forall k :: 0 <= k <= |ins| ==> |Window(mid, r, ins[..k])| < 32
  }

  lemma ShortPrefix(mid: Half, r: Regs, ins: seq<Input>)
    requires AlwaysShort(mid, r, ins) && ins != []
    ensures AlwaysShort(mid, r, ins[..|ins| - 1]) && |Window(mid, r, ins[..|ins| - 1])| < 32
  {
    var before := ins[..|ins| - 1];
    forall k | 0 <= k <= |before| ensures |Window(mid, r, before[..k])| < 32 {
      assert before[..k] == ins[..k];
    }
  }

  /** A frame aborted before its 32nd edge leaves the PWM registers alone. */
  lemma {:induction false} AbortedFrameHarmless(mid: Half, r: Regs, ins: seq<Input>)
    requires NoReset(ins) && r.bitcnt == 0 && !r.received && AlwaysShort(mid, r, ins)
    ensures Run(mid, r, ins).pitchPwm == r.pitchPwm && Run(mid, r, ins).yawPwm == r.yawPwm
  {
    if ins != [] {
      var before, i := ins[..|ins| - 1], ins[|ins| - 1];
      ShortPrefix(mid, r, ins);
      AbortedFrameHarmless(mid, r, before);
      assert before + [i] == ins;
      CommitOnlyWholeFrames(mid, r, before, i);
      if JustSampled(mid, r, before) {
        SampledIsInWindow(mid, r, before);
      }
    }
  }

  // -------------------------------------------------- edges on the clock pin

  function ClockPin(before: bool, ins: seq<Input>): bool {
    if ins == [] then before else ins[|ins| - 1].clk
  }

  /** Rising edges of the clock pin, whose level before the trace is given. */
  function Rises(before: bool, ins: seq<Input>): nat {
    if ins == [] then 0 else
      var shorter := ins[..|ins| - 1];
      Rises(before, shorter) + if !ClockPin(before, shorter) && ins[|ins| - 1].clk then 1 else 0
  }

  /** Edges of the pin on their way through the synchroniser. */
  function InFlight(s: Sync): nat {
    (if !s.b2 && s.b1 then 1 else 0) + if !s.b1 && s.b0 then 1 else 0
  }

  /** No more edges are sampled in a window than the clock pin made. */
  lemma {:induction false} SampledWereMade(mid: Half, r: Regs, ins: seq<Input>)
    requires NoReset(ins)
    ensures Run(mid, r, ins).clk.b0 == ClockPin(r.clk.b0, ins)
    ensures |Window(mid, r, ins)| + InFlight(Run(mid, r, ins).clk) <= Rises(r.clk.b0, ins) + InFlight(r.clk)
  {
    if ins != [] {
      SampledWereMade(mid, r, ins[..|ins| - 1]);
    }
  }

  lemma {:induction false} RisesOfPrefix(before: bool, ins: seq<Input>, k: nat)
    requires k <= |ins|
    ensures Rises(before, ins[..k]) <= Rises(before, ins)
    decreases |ins|
  {
    if k < |ins| {
      RisesOfPrefix(before, ins[..|ins| - 1], k);
      assert ins[..|ins| - 1][..k] == ins[..k];
    } else {
      assert ins[..k] == ins;
    }
  }

  /** Whatever the pins do: with fewer than 32 rising edges of the clock pin, the
      PWM registers stay as they were. */
  lemma FewEdgesHarmless(mid: Half, r: Regs, ins: seq<Input>)
    requires NoReset(ins) && r.bitcnt == 0 && !r.received && r.clk == Sync(false, false, false)
    requires Rises(false, ins) < 32
    ensures Run(mid, r, ins).pitchPwm == r.pitchPwm && Run(mid, r, ins).yawPwm == r.yawPwm
  {
    forall k | 0 <= k <= |ins| ensures |Window(mid, r, ins[..k])| < 32 {
      RisesOfPrefix(false, ins, k);
      SampledWereMade(mid, r, ins[..k]);
    }
    AbortedFrameHarmless(mid, r, ins);
  }
}
