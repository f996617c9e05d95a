/** Whole mode-0 frames against the clocked slave: the master's word reaches
    the PWM registers and the slave's word reaches the master, for every choice
    of segment lengths of at least four system clocks. */
module SpiFrame {
  import opened SpiSlave

  /** One SPI bit as the master drives it: clock low, then clock high. The bit
      is what PICO carries at the first system clock that sees the clock high. */
  datatype Slot = Slot(low: seq<Input>, high: seq<Input>)

  ghost predicate Level(seg: seq<Input>, clk: bool, cs: bool) {
    |seg| >= 4 && forall k :: 0 <= k < |seg| ==> !seg[k].rst && seg[k].clk == clk && seg[k].cs == cs
  }

  /** A mode-0 frame; the low phase of the first slot is the chip-select setup time. */
  ghost predicate Mode0(slots: seq<Slot>) {
    forall k :: 0 <= k < |slots| ==> Level(slots[k].low, false, false) && Level(slots[k].high, true, false)
  }

  function Wave(slots: seq<Slot>): seq<Input> {
    if slots == [] then [] else Wave(slots[..|slots| - 1]) + slots[|slots| - 1].low + slots[|slots| - 1].high
  }

  ghost function Sent(slots: seq<Slot>): (w: seq<bool>)
    requires Mode0(slots)
    ensures |w| == |slots|
  {
    seq(|slots|, k requires 0 <= k < |slots| && Mode0(slots) =>
      assert Level(slots[k].high, true, false); slots[k].high[0].pico)
  }

  /** The data the slave loads: its inputs on the third clock after chip select falls. */
  ghost function Loaded(slots: seq<Slot>): Word
    requires Mode0(slots) && |slots| > 0
  {
    assert Level(slots[0].low, false, false);
    slots[0].low[2].pitchData + slots[0].low[2].yawData
  }

  /** What the master samples on POCI when it raises the clock of slot k. */
  ghost function Sampled(mid: Half, r: Regs, slots: seq<Slot>, k: nat): bool
    requires k < |slots|
  {
    Poci(Run(mid, r, Wave(slots[..k]) + slots[k].low))
  }

  // ------------------------------------------------------------ one segment

  ghost predicate Settled(r: Regs, clk: bool, cs: bool) {
    && r.clk == Sync(clk, clk, clk) && r.cs == Sync(cs, cs, cs) && !r.received
    && (cs ==> r.bitcnt == 0 && r.tx == ZERO)
  }

  /** Equal but for the PICO synchroniser. */
  ghost predicate Same(a: Regs, b: Regs) {
    a == b.(pico1 := a.pico1, pico0 := a.pico0)
  }

  ghost predicate Quiet(seg: seq<Input>, clk: bool, cs: bool) {
    forall k :: 0 <= k < |seg| ==> !seg[k].rst && seg[k].clk == clk && seg[k].cs == cs
  }

  lemma {:induction false} Hold(mid: Half, r: Regs, seg: seq<Input>, clk: bool, cs: bool)
    requires Settled(r, clk, cs) && Quiet(seg, clk, cs)
    ensures Same(Run(mid, r, seg), r)
  {
    if seg != [] {
      Hold(mid, r, seg[..|seg| - 1], clk, cs);
    }
  }

  function FourClocks(mid: Half, r: Regs, seg: seq<Input>): Regs
    requires |seg| >= 4
  {
    Next(mid, Next(mid, Next(mid, Next(mid, r, seg[0]), seg[1]), seg[2]), seg[3])
  }

  /** Four clocks settle every synchroniser; the rest of the segment changes nothing. */
  lemma SegmentSettles(mid: Half, r: Regs, seg: seq<Input>, clk: bool, cs: bool)
    requires Level(seg, clk, cs) && Settled(FourClocks(mid, r, seg), clk, cs)
    ensures Same(Run(mid, r, seg), FourClocks(mid, r, seg))
  {
    RunFour(mid, r, seg);
    Hold(mid, FourClocks(mid, r, seg), seg[4..], clk, cs);
  }

  lemma SelectPhase(mid: Half, r: Regs, seg: seq<Input>)
    requires Settled(r, false, true) && Level(seg, false, false)
    ensures var t := Run(mid, r, seg);
      && Settled(t, false, false) && t.bitcnt == 0 && t.rx == r.rx
      && t.tx == seg[2].pitchData + seg[2].yawData
      && t.pitchPwm == r.pitchPwm && t.yawPwm == r.yawPwm
  {
    SegmentSettles(mid, r, seg, false, false);
  }

  lemma RisePhase(mid: Half, r: Regs, seg: seq<Input>)
    requires Settled(r, false, false) && Level(seg, true, false)
    ensures var t := Run(mid, r, seg);
      && Settled(t, true, false) && t.bitcnt == (r.bitcnt + 1) % 32
      && t.rx == ShiftIn(r.rx, seg[0].pico) && t.tx == r.tx
      && t.pitchPwm == (if r.bitcnt == 31 then t.rx[..16] else r.pitchPwm)
      && t.yawPwm == (if r.bitcnt == 31 then t.rx[16..] else r.yawPwm)
  {
    SegmentSettles(mid, r, seg, true, false);
  }

  lemma FallPhase(mid: Half, r: Regs, seg: seq<Input>)
    requires Settled(r, true, false) && Level(seg, false, false)
    ensures var t := Run(mid, r, seg);
      && Settled(t, false, false) && t.bitcnt == r.bitcnt && t.rx == r.rx
      && t.tx == ShiftIn(r.tx, false)
      && t.pitchPwm == r.pitchPwm && t.yawPwm == r.yawPwm
  {
    SegmentSettles(mid, r, seg, false, false);
  }

  lemma ReleasePhase(mid: Half, r: Regs, seg: seq<Input>)
    requires Settled(r, false, false) && Level(seg, false, true)
    ensures var t := Run(mid, r, seg);
      Settled(t, false, true) && t.pitchPwm == r.pitchPwm && t.yawPwm == r.yawPwm
  {
    SegmentSettles(mid, r, seg, false, true);
  }

  // -------------------------------------------------------------- one frame

  ghost predicate Received(rx: Word, sent: seq<bool>, k: nat)
    requires k <= 32 && k <= |sent|
  {
    forall j :: 0 <= j < k ==> rx[32 - k + j] == sent[j]
  }

  /** The output register still holds the loaded word from bit k on. */
  ghost predicate Remaining(tx: Word, loaded: Word, k: nat) {
    forall j :: 0 <= j < 32 - k ==> tx[j] == loaded[k + j]
  }

  /** After k whole slots and the low phase of slot k. */
  ghost predicate LowDone(r: Regs, s: Regs, sent: seq<bool>, loaded: Word, k: nat)
    requires k < 32 && k <= |sent|
  {
    && Settled(s, false, false) && s.bitcnt == k
    && Received(s.rx, sent, k) && Remaining(s.tx, loaded, k)
    && s.pitchPwm == r.pitchPwm && s.yawPwm == r.yawPwm
  }

  /** After k whole slots. */
  ghost predicate HighDone(r: Regs, s: Regs, sent: seq<bool>, loaded: Word, k: nat)
    requires 0 < k <= 32 && k <= |sent|
  {
    && Settled(s, true, false) && s.bitcnt == k % 32
    && Received(s.rx, sent, k) && Remaining(s.tx, loaded, k - 1)
    && s.pitchPwm + s.yawPwm == if k == 32 then s.rx else r.pitchPwm + r.yawPwm
  }

  lemma ShiftsIn(rx: Word, sent: seq<bool>, k: nat)
    requires k < 32 && k < |sent| && Received(rx, sent, k)
    ensures Received(ShiftIn(rx, sent[k]), sent, k + 1)
  {
  }

  lemma ShiftsOut(tx: Word, loaded: Word, k: nat)
    requires 0 < k < 32 && Remaining(tx, loaded, k - 1)
    ensures Remaining(ShiftIn(tx, false), loaded, k)
  {
  }

  lemma SamePwm(a: Half, b: Half, c: Half, d: Half)
    requires a + b == c + d
    ensures a == c && b == d
  {
    assert a == (a + b)[..16] && b == (a + b)[16..];
    assert c == (c + d)[..16] && d == (c + d)[16..];
  }

  lemma LowStep(mid: Half, r: Regs, s: Regs, seg: seq<Input>, sent: seq<bool>, loaded: Word, k: nat)
    requires 0 < k < 32 && k <= |sent| && HighDone(r, s, sent, loaded, k) && Level(seg, false, false)
    ensures LowDone(r, Run(mid, s, seg), sent, loaded, k)
  {
    FallPhase(mid, s, seg);
    ShiftsOut(s.tx, loaded, k);
    SamePwm(s.pitchPwm, s.yawPwm, r.pitchPwm, r.yawPwm);
  }

  lemma HighStep(mid: Half, r: Regs, s: Regs, seg: seq<Input>, sent: seq<bool>, loaded: Word, k: nat)
    requires k < 32 && k < |sent| && LowDone(r, s, sent, loaded, k)
    requires Level(seg, true, false) && seg[0].pico == sent[k]
    ensures HighDone(r, Run(mid, s, seg), sent, loaded, k + 1)
  {
    RisePhase(mid, s, seg);
    ShiftsIn(s.rx, sent, k);
  }

  lemma {:induction false} FrameProgress(mid: Half, r: Regs, slots: seq<Slot>, k: nat)
    requires Settled(r, false, true) && Mode0(slots) && k <= |slots| && k <= 32
    ensures k > 0 ==> HighDone(r, Run(mid, r, Wave(slots[..k])), Sent(slots), Loaded(slots), k)
    ensures k < |slots| && k < 32 ==>
      LowDone(r, Run(mid, r, Wave(slots[..k]) + slots[k].low), Sent(slots), Loaded(slots), k)
  {
    if k > 0 {
      FrameProgress(mid, r, slots, k - 1);
      RaiseClock(mid, r, slots, k - 1);
    }
    if k < |slots| && k < 32 {
      LowerClock(mid, r, slots, k);
    }
  }

  lemma RaiseClock(mid: Half, r: Regs, slots: seq<Slot>, k: nat)
    requires Mode0(slots) && k < |slots| && k < 32
    requires LowDone(r, Run(mid, r, Wave(slots[..k]) + slots[k].low), Sent(slots), Loaded(slots), k)
    ensures HighDone(r, Run(mid, r, Wave(slots[..k + 1])), Sent(slots), Loaded(slots), k + 1)
  {
    assert slots[..k + 1][..k] == slots[..k];
    assert Level(slots[k].high, true, false);
    var before := Wave(slots[..k]) + slots[k].low;
    RunConcat(mid, r, before, slots[k].high);
    HighStep(mid, r, Run(mid, r, before), slots[k].high, Sent(slots), Loaded(slots), k);
  }

  lemma LowerClock(mid: Half, r: Regs, slots: seq<Slot>, k: nat)
    requires Settled(r, false, true) && Mode0(slots) && k < |slots| && k < 32
    requires k > 0 ==> HighDone(r, Run(mid, r, Wave(slots[..k])), Sent(slots), Loaded(slots), k)
    ensures LowDone(r, Run(mid, r, Wave(slots[..k]) + slots[k].low), Sent(slots), Loaded(slots), k)
  {
    assert Level(slots[k].low, false, false);
    RunConcat(mid, r, Wave(slots[..k]), slots[k].low);
    if k == 0 {
      SelectPhase(mid, r, slots[0].low);
    } else {
      LowStep(mid, r, Run(mid, r, Wave(slots[..k])), slots[k].low, Sent(slots), Loaded(slots), k);
    }
  }

  lemma WholeWord(rx: Word, sent: seq<bool>)
    requires |sent| == 32 && Received(rx, sent, 32)
    ensures rx == sent
  {
    forall j | 0 <= j < 32 ensures rx[j] == sent[j] {
      assert rx[32 - 32 + j] == sent[j];
    }
  }

  lemma SlotSampled(mid: Half, r: Regs, slots: seq<Slot>, k: nat)
    requires Settled(r, false, true) && Mode0(slots) && |slots| == 32 && k < 32
    ensures Sampled(mid, r, slots, k) == Loaded(slots)[k]
  {
    FrameProgress(mid, r, slots, k);
    FirstRemaining(Run(mid, r, Wave(slots[..k]) + slots[k].low).tx, Loaded(slots), k);
  }

  lemma FirstRemaining(tx: Word, loaded: Word, k: nat)
    requires k < 32 && Remaining(tx, loaded, k)
    ensures tx[0] == loaded[k]
  {
    assert tx[0] == loaded[k + 0];
  }

  /** Full duplex: from an idle bus, any 32-slot mode-0 frame leaves the sent
      word in {pitch_pwm, yaw_pwm}, and the master samples, bit by bit, the word
      {pitch_data, yaw_data} loaded when the message started. */
  lemma FullDuplexFrame(mid: Half, r: Regs, slots: seq<Slot>)
    requires Settled(r, false, true) && Mode0(slots) && |slots| == 32
    ensures var t := Run(mid, r, Wave(slots)); t.pitchPwm + t.yawPwm == Sent(slots)
    ensures forall k :: 0 <= k < 32 ==> Sampled(mid, r, slots, k) == Loaded(slots)[k]
  {
    FrameProgress(mid, r, slots, 32);
    assert slots[..32] == slots;
    WholeWord(Run(mid, r, Wave(slots)).rx, Sent(slots));
    forall k | 0 <= k < 32 ensures Sampled(mid, r, slots, k) == Loaded(slots)[k] {
      SlotSampled(mid, r, slots, k);
    }
  }

  // ----------------------------------------------------- frame after frame

  /** A whole frame with the clock brought low again and chip select released; or
      a frame cut short, with anything on the pins but fewer than 32 rising
      edges of the clock, before the bus is released. */
  datatype Message =
    | Whole(slots: seq<Slot>, tail: seq<Input>, idle: seq<Input>)
    | Cut(inputs: seq<Input>, idle: seq<Input>)

  ghost predicate WellFormed(m: Message) {
    && Level(m.idle, false, true)
    && match m
       case Whole(slots, tail, _) => Mode0(slots) && |slots| == 32 && Level(tail, false, false)
       case Cut(inputs, _) => NoReset(inputs) && Rises(false, inputs) < 32
  }

  function MessageWave(m: Message): seq<Input> {
    match m
    case Whole(slots, tail, idle) => Wave(slots) + tail + idle
    case Cut(inputs, idle) => inputs + idle
  }

  function Session(messages: seq<Message>): seq<Input> {
    if messages == [] then []
    else Session(messages[..|messages| - 1]) + MessageWave(messages[|messages| - 1])
  }

  /** From any registers, a released bus empties the counter, the output register
      and every synchroniser. */
  lemma IdleSettles(mid: Half, r: Regs, idle: seq<Input>)
    requires Level(idle, false, true)
    ensures Settled(Run(mid, r, idle), false, true)
  {
    SegmentSettles(mid, r, idle, false, true);
  }

  /** What message m, from registers r, makes of the slave and of the master. */
  ghost predicate Delivered(mid: Half, r: Regs, m: Message)
    requires WellFormed(m)
  {
    var t := Run(mid, r, MessageWave(m));
    if m.Whole? then
      && t.pitchPwm + t.yawPwm == Sent(m.slots)
      && forall k :: 0 <= k < 32 ==> Sampled(mid, r, m.slots, k) == Loaded(m.slots)[k]
    else
      t.pitchPwm == r.pitchPwm && t.yawPwm == r.yawPwm
  }

  lemma WholeFrame(mid: Half, r: Regs, m: Message)
    requires Settled(r, false, true) && WellFormed(m) && m.Whole?
    ensures Settled(Run(mid, r, MessageWave(m)), false, true) && Delivered(mid, r, m)
  {
    var wave := Wave(m.slots);
    FrameProgress(mid, r, m.slots, 32);
    assert m.slots[..32] == m.slots;
    FullDuplexFrame(mid, r, m.slots);
    RunConcat(mid, r, wave, m.tail);
    FallPhase(mid, Run(mid, r, wave), m.tail);
    RunConcat(mid, r, wave + m.tail, m.idle);
    ReleasePhase(mid, Run(mid, r, wave + m.tail), m.idle);
  }

  lemma {:induction false} LowAddsNoRises(before: bool, ins: seq<Input>, low: seq<Input>)
    requires Quiet(low, false, true) && NoReset(ins)
    ensures Rises(before, ins + low) == Rises(before, ins) && NoReset(ins + low)
  {
    if low == [] {
      assert ins + low == ins;
    } else {
      LowAddsNoRises(before, ins, low[..|low| - 1]);
      assert (ins + low)[..|ins + low| - 1] == ins + low[..|low| - 1];
    }
  }

  lemma CutFrame(mid: Half, r: Regs, m: Message)
    requires Settled(r, false, true) && WellFormed(m) && m.Cut?
    ensures Settled(Run(mid, r, MessageWave(m)), false, true) && Delivered(mid, r, m)
  {
    RunConcat(mid, r, m.inputs, m.idle);
    IdleSettles(mid, Run(mid, r, m.inputs), m.idle);
    LowAddsNoRises(false, m.inputs, m.idle);
    FewEdgesHarmless(mid, r, m.inputs + m.idle);
  }

  lemma OneMessage(mid: Half, r: Regs, m: Message)
    requires Settled(r, false, true) && WellFormed(m)
    ensures Settled(Run(mid, r, MessageWave(m)), false, true) && Delivered(mid, r, m)
  {
    if m.Whole? {
      WholeFrame(mid, r, m);
    } else {
      CutFrame(mid, r, m);
    }
  }

  ghost predicate AllWellFormed(messages: seq<Message>) {
    forall k :: 0 <= k < |messages| ==> WellFormed(messages[k])
  }

  lemma SessionPrefix(messages: seq<Message>, k: nat)
    requires k < |messages|
    ensures Session(messages[..k + 1]) == Session(messages[..k]) + MessageWave(messages[k])
  {
    assert messages[..k + 1][..k] == messages[..k];
  }

  lemma SessionStep(mid: Half, r: Regs, messages: seq<Message>, k: nat)
    requires k < |messages|
    ensures Run(mid, r, Session(messages[..k + 1]))
         == Run(mid, Run(mid, r, Session(messages[..k])), MessageWave(messages[k]))
  {
    SessionPrefix(messages, k);
    RunConcat(mid, r, Session(messages[..k]), MessageWave(messages[k]));
  }

  lemma {:induction false} SessionIdle(mid: Half, r: Regs, messages: seq<Message>, k: nat)
    requires Settled(r, false, true) && AllWellFormed(messages) && k <= |messages|
    ensures Settled(Run(mid, r, Session(messages[..k])), false, true)
  {
    if k > 0 {
      SessionIdle(mid, r, messages, k - 1);
      SessionStep(mid, r, messages, k - 1);
      OneMessage(mid, Run(mid, r, Session(messages[..k - 1])), messages[k - 1]);
    }
  }

  /** Any mixture of whole frames and frames cut short, from an idle bus: before
      and after every message the bus is idle; every whole frame leaves the word
      sent in the PWM registers, and the master samples in it the words loaded at
      its start; a frame cut short leaves the PWM registers alone. */
  lemma EveryFrameArrives(mid: Half, r: Regs, messages: seq<Message>, k: nat)
    requires Settled(r, false, true) && AllWellFormed(messages) && k < |messages|
    ensures var before := Run(mid, r, Session(messages[..k]));
      && Settled(before, false, true) && Delivered(mid, before, messages[k])
      && Run(mid, r, Session(messages[..k + 1])) == Run(mid, before, MessageWave(messages[k]))
  {
    SessionIdle(mid, r, messages, k);
    OneMessage(mid, Run(mid, r, Session(messages[..k])), messages[k]);
    SessionStep(mid, r, messages, k);
  }

  /** A clock with reset high, whatever came before: both PWM registers are at the
      midpoint, both shift registers empty, and the slave is on an idle bus. */
  lemma ResetClears(mid: Half, r: Regs, ins: seq<Input>)
    requires ins != [] && ins[|ins| - 1].rst
    ensures var t := Run(mid, r, ins);
      t.pitchPwm == mid && t.yawPwm == mid && t.rx == ZERO && t.tx == ZERO && t.bitcnt == 0 && Settled(t, false, true)
  {
  }

  /** So after a reset at any moment, in the middle of a frame too, every message
      of the session that follows is delivered. */
  lemma AfterReset(mid: Half, r: Regs, ins: seq<Input>, messages: seq<Message>, k: nat)
    requires ins != [] && ins[|ins| - 1].rst && AllWellFormed(messages) && k < |messages|
    ensures Delivered(mid, Run(mid, r, ins + Session(messages[..k])), messages[k])
  {
    ResetClears(mid, r, ins);
    RunConcat(mid, r, ins, Session(messages[..k]));
    EveryFrameArrives(mid, Run(mid, r, ins), messages, k);
  }
}
