/** The same ring under every interleaving of the individual atomic steps of
    one producer and one consumer: each load, each slot access and each store
    is its own step, so either side may act on an index that is already stale.
    The acquire/release pairs of section 7.17.3 of ISO/IEC 9899:2011 are taken
    as making those steps sequentially consistent. */
module SpscInterleaving {
  import opened SpscQueue

  /** Where the producer stands inside `spsc_enqueue`. `seen` records how many
      values had been consumed when the tail was loaded. */
  datatype Producer =
    | OutsideEnqueue
    | LoadedHead(value: Com, head: nat)
    | LoadedBoth(value: Com, head: nat, tail: nat, seen: nat)
    | WroteSlot(value: Com, next: nat)

  /** Where the consumer stands inside `spsc_dequeue`. `seen` records how many
      values had been produced when the head was loaded. */
  datatype Consumer =
    | OutsideDequeue
    | HoldsTail(tail: nat)
    | HoldsBoth(tail: nat, head: nat, seen: nat)
    | ReadSlot(value: Com, tail: nat)

  datatype State = State(buffer: seq<Com>, head: nat, tail: nat, p: Producer, c: Consumer,
                         produced: seq<Com>, consumed: seq<Com>)

  datatype Event =
    | EnqueueLoadHead(value: Com) | EnqueueLoadTail | EnqueueFull | EnqueueWrite | EnqueueStore
    | DequeueLoadTail | DequeueLoadHead | DequeueEmpty | DequeueRead | DequeueStore

  predicate Enabled(s: State, e: Event) {
    match e
    case EnqueueLoadHead(_) => s.p.OutsideEnqueue?
    case EnqueueLoadTail => s.p.LoadedHead?
    case EnqueueFull => s.p.LoadedBoth? && Advance(s.p.head) == s.p.tail
    case EnqueueWrite => s.p.LoadedBoth? && Advance(s.p.head) != s.p.tail && s.p.head < |s.buffer|
    case EnqueueStore => s.p.WroteSlot?
    case DequeueLoadTail => s.c.OutsideDequeue?
    case DequeueLoadHead => s.c.HoldsTail?
    case DequeueEmpty => s.c.HoldsBoth? && s.c.head == s.c.tail
    case DequeueRead => s.c.HoldsBoth? && s.c.head != s.c.tail && s.c.tail < |s.buffer|
    case DequeueStore => s.c.ReadSlot?
  }

  function Apply(s: State, e: Event): State
    requires Enabled(s, e)
  {
    match e
    case EnqueueLoadHead(v) => s.(p := LoadedHead(v, s.head))
    case EnqueueLoadTail => s.(p := LoadedBoth(s.p.value, s.p.head, s.tail, |s.consumed|))
    case EnqueueFull => s.(p := OutsideEnqueue)
    case EnqueueWrite => s.(buffer := s.buffer[s.p.head := s.p.value], p := WroteSlot(s.p.value, Advance(s.p.head)))
    case EnqueueStore => s.(head := s.p.next, p := OutsideEnqueue, produced := s.produced + [s.p.value])
    case DequeueLoadTail => s.(c := HoldsTail(s.tail))
    case DequeueLoadHead => s.(c := HoldsBoth(s.c.tail, s.head, |s.produced|))
    case DequeueEmpty => s.(c := OutsideDequeue)
    case DequeueRead => s.(c := ReadSlot(s.buffer[s.c.tail], s.c.tail))
    case DequeueStore => s.(tail := Advance(s.c.tail), c := OutsideDequeue, consumed := s.consumed + [s.c.value])
  }

  ghost predicate Initial(s: State) {
    && |s.buffer| == SIZE && s.head == 0 && s.tail == 0
    && s.p.OutsideEnqueue? && s.c.OutsideDequeue?
    && s.produced == [] && s.consumed == []
  }

  /** A run: states[k] becomes states[k + 1] by events[k]. */
  ghost predicate IsRun(states: seq<State>, events: seq<Event>) {
    && |states| == |events| + 1
    && Initial(states[0])
    && forall k :: 0 <= k < |events| ==> Enabled(states[k], events[k]) && states[k + 1] == Apply(states[k], events[k])
  }

  // --------------------------------------------------------------- invariant

  ghost predicate RingInv(s: State) {
    && |s.buffer| == SIZE
    && |s.consumed| <= |s.produced| <= |s.consumed| + SIZE - 1
    && s.head == |s.produced| % SIZE && s.tail == |s.consumed| % SIZE
    && s.consumed == s.produced[..|s.consumed|]
    && forall i :: |s.consumed| <= i < |s.produced| ==> s.buffer[i % SIZE] == s.produced[i]
  }

  ghost predicate ProducerInv(s: State) {
    match s.p
    case OutsideEnqueue => true
    case LoadedHead(_, h) => h == s.head
    case LoadedBoth(_, h, t, seen) =>
      h == s.head && t == seen % SIZE && seen <= |s.consumed| && seen <= |s.produced| <= seen + SIZE - 1
    case WroteSlot(v, next) =>
      && next == Advance(s.head) && |s.produced| + 1 <= |s.consumed| + SIZE - 1
      && s.head < |s.buffer| && s.buffer[s.head] == v
  }

  ghost predicate ConsumerInv(s: State) {
    match s.c
    case OutsideDequeue => true
    case HoldsTail(t) => t == s.tail
    case HoldsBoth(t, h, seen) => t == s.tail && h == seen % SIZE && |s.consumed| <= seen <= |s.produced|
    case ReadSlot(v, t) => t == s.tail && |s.consumed| < |s.produced| && v == s.produced[|s.consumed|]
  }

  ghost predicate Inv(s: State) {
    RingInv(s) && ProducerInv(s) && ConsumerInv(s)
  }

  lemma SlotsDistinct(i: nat, j: nat)
    requires i < j < i + SIZE
    ensures i % SIZE != j % SIZE
  {
  }

  lemma AdvanceCount(n: nat)
    ensures Advance(n % SIZE) == (n + 1) % SIZE
  {
  }

  /** Past its full test, even against a stale tail, the producer has a free slot. */
  lemma RoomToWrite(s: State)
    requires Inv(s) && Enabled(s, EnqueueWrite)
    ensures |s.produced| + 1 <= |s.consumed| + SIZE - 1
  {
    StaleRoom(|s.produced|, |s.consumed|, s.p.seen);
  }

  lemma StaleRoom(produced: nat, consumed: nat, seen: nat)
    requires seen <= consumed && seen <= produced <= seen + SIZE - 1
    requires Advance(produced % SIZE) != seen % SIZE
    ensures produced + 1 <= consumed + SIZE - 1
  {
    AdvanceCount(produced);
    if produced == seen + SIZE - 1 {
      FullTurn(seen);
    }
  }

  lemma FullTurn(n: nat)
    ensures (n + SIZE) % SIZE == n % SIZE
  {
  }

  lemma WritePreserves(s: State)
    requires Inv(s) && Enabled(s, EnqueueWrite)
    ensures Inv(Apply(s, EnqueueWrite))
  {
    RoomToWrite(s);
    var t := Apply(s, EnqueueWrite);
    forall i | |s.consumed| <= i < |s.produced| ensures t.buffer[i % SIZE] == t.produced[i] {
      SlotsDistinct(i, |s.produced|);
    }
  }

  lemma StorePreserves(s: State)
    requires Inv(s) && Enabled(s, EnqueueStore)
    ensures Inv(Apply(s, EnqueueStore))
  {
    AdvanceCount(|s.produced|);
    assert (s.produced + [s.p.value])[..|s.consumed|] == s.produced[..|s.consumed|];
  }

  lemma ReadPreserves(s: State)
    requires Inv(s) && Enabled(s, DequeueRead)
    ensures Inv(Apply(s, DequeueRead))
  {
  }

  lemma TakePreserves(s: State)
    requires Inv(s) && Enabled(s, DequeueStore)
    ensures Inv(Apply(s, DequeueStore))
  {
    AdvanceCount(|s.consumed|);
  }

  lemma StepPreserves(s: State, e: Event)
    requires Inv(s) && Enabled(s, e)
    ensures Inv(Apply(s, e))
  {
    match e
    case EnqueueWrite => WritePreserves(s);
    case EnqueueStore => StorePreserves(s);
    case DequeueRead => ReadPreserves(s);
    case DequeueStore => TakePreserves(s);
    case _ =>
  }

  lemma {:induction false} RunInvariant(states: seq<State>, events: seq<Event>, k: nat)
    requires IsRun(states, events) && k < |states|
    ensures Inv(states[k])
  {
    if k > 0 {
      RunInvariant(states, events, k - 1);
      StepPreserves(states[k - 1], events[k - 1]);
    }
  }

  // ---------------------------------------------------------------- theorems

  /** In every reachable state, whatever the interleaving: what was dequeued is
      a prefix of what was enqueued and at most 255 values are in flight. */
  lemma DequeuedIsPrefix(states: seq<State>, events: seq<Event>, k: nat)
    requires IsRun(states, events) && k < |states|
    ensures states[k].consumed <= states[k].produced
    ensures |states[k].produced| - |states[k].consumed| <= 255
  {
    RunInvariant(states, events, k);
  }

  /** The slots from the consumer's tail up to the head it may have loaded
      earlier; with nothing loaded yet, up to the current head. */
  ghost predicate Readable(s: State, slot: nat) {
    exists i :: |s.consumed| <= i < (if s.c.HoldsBoth? then s.c.seen else |s.produced|) && slot == i % SIZE
  }

  /** The slot being written is never one the consumer may read, even when both
      sides act on stale indices. */
  lemma WriteNeverRaces(states: seq<State>, events: seq<Event>, k: nat)
    requires IsRun(states, events) && k < |events| && events[k] == EnqueueWrite
    ensures !Readable(states[k], states[k].p.head)
    ensures states[k].c.HoldsBoth? && Enabled(states[k], DequeueRead) ==> states[k].c.tail != states[k].p.head
  {
    var s := states[k];
    RunInvariant(states, events, k);
    assert Enabled(s, events[k]);
    RoomToWrite(s);
    forall i | |s.consumed| <= i < |s.produced| ensures i % SIZE != s.p.head {
      SlotsDistinct(i, |s.produced|);
    }
  }

  /** The value of the latest enqueue call. */
  function LatestCall(events: seq<Event>): Com {
    if events == [] then Com(0.0, 0.0) else
      var last := events[|events| - 1];
      if last.EnqueueLoadHead? then last.value else LatestCall(events[..|events| - 1])
  }

  /** The values passed to the enqueue calls that were accepted, in order. */
  function Accepted(events: seq<Event>): seq<Com> {
    if events == [] then [] else
      var before := events[..|events| - 1];
      Accepted(before) + if events[|events| - 1].EnqueueStore? then [LatestCall(before)] else []
  }

  /** The producer carries the value of the call it is in. */
  ghost predicate Carries(p: Producer, value: Com) {
    p.OutsideEnqueue? || p.value == value
  }

  lemma {:induction false} ProducedSoFar(states: seq<State>, events: seq<Event>, k: nat)
    requires IsRun(states, events) && k < |states|
    ensures states[k].produced == Accepted(events[..k]) && Carries(states[k].p, LatestCall(events[..k]))
  {
    if k > 0 {
      ProducedSoFar(states, events, k - 1);
      assert events[..k][..k - 1] == events[..k - 1];
      assert states[k] == Apply(states[k - 1], events[k - 1]);
    }
  }

  /** Under every interleaving: the values enqueued are those that callers passed
      to the accepted calls, in order, and the values dequeued are a prefix of them. */
  lemma OnlyCallersValues(states: seq<State>, events: seq<Event>, k: nat)
    requires IsRun(states, events) && k < |states|
    ensures states[k].produced == Accepted(events[..k]) && states[k].consumed <= Accepted(events[..k])
  {
    ProducedSoFar(states, events, k);
    DequeuedIsPrefix(states, events, k);
  }

  /** Neither side ever waits for the other: in every reachable state the producer
      can take its next step, and so can the consumer. */
  lemma NeitherWaits(states: seq<State>, events: seq<Event>, k: nat, value: Com) returns (p: Event, c: Event)
    requires IsRun(states, events) && k < |states|
    ensures Enabled(states[k], p) && Enabled(states[k], c)
    ensures p.EnqueueLoadHead? || p.EnqueueLoadTail? || p.EnqueueFull? || p.EnqueueWrite? || p.EnqueueStore?
    ensures c.DequeueLoadTail? || c.DequeueLoadHead? || c.DequeueEmpty? || c.DequeueRead? || c.DequeueStore?
  {
    RunInvariant(states, events, k);
    var s := states[k];
    p := match s.p
      case OutsideEnqueue => EnqueueLoadHead(value)
      case LoadedHead(_, _) => EnqueueLoadTail
      case LoadedBoth(_, h, t, _) => if Advance(h) == t then EnqueueFull else EnqueueWrite
      case WroteSlot(_, _) => EnqueueStore;
    c := match s.c
      case OutsideDequeue => DequeueLoadTail
      case HoldsTail(_) => DequeueLoadHead
      case HoldsBoth(t, h, _) => if h == t then DequeueEmpty else DequeueRead
      case ReadSlot(_, _) => DequeueStore;
  }

  /** The abstract queue: produced and not yet consumed. */
  ghost function Queue(s: State): seq<Com>
    requires |s.consumed| <= |s.produced|
  {
    s.produced[|s.consumed|..]
  }

  /** One move of a bounded FIFO: nothing, an append below capacity, or taking the first value. */
  ghost predicate FifoMove(q: seq<Com>, q': seq<Com>, e: Event, value: Com) {
    match e
    case EnqueueStore => |q| < SIZE - 1 && q' == q + [value]
    case DequeueStore => q != [] && q' == q[1..] && value == q[0]
    case _ => q' == q
  }

  ghost function Moved(s: State, e: Event): Com
    requires Enabled(s, e)
  {
    match e
    case EnqueueStore => s.p.value
    case DequeueStore => s.c.value
    case _ => Com(0.0, 0.0)
  }

  /** Every step of every run is a move of the bounded FIFO, the value handed
      over being the one enqueued first. */
  lemma RefinesFifo(states: seq<State>, events: seq<Event>, k: nat)
    requires IsRun(states, events) && k < |events|
    ensures Enabled(states[k], events[k])
    ensures |states[k].consumed| <= |states[k].produced| && |states[k + 1].consumed| <= |states[k + 1].produced|
    ensures FifoMove(Queue(states[k]), Queue(states[k + 1]), events[k], Moved(states[k], events[k]))
  {
    RunInvariant(states, events, k);
    RunInvariant(states, events, k + 1);
    assert states[k + 1] == Apply(states[k], events[k]);
  }

  /** A refused enqueue found the ring full, and a refused dequeue found it
      empty, at the moment the other side's index was loaded. */
  lemma RefusalsAreJustified(states: seq<State>, events: seq<Event>, k: nat)
    requires IsRun(states, events) && k < |states|
    ensures Enabled(states[k], EnqueueFull) ==> |states[k].produced| - states[k].p.seen == SIZE - 1
    ensures Enabled(states[k], DequeueEmpty) ==> states[k].c.seen == |states[k].consumed|
  {
    var s := states[k];
    RunInvariant(states, events, k);
    if Enabled(s, EnqueueFull) {
      AdvanceCount(|s.produced|);
      if |s.produced| + 1 < s.p.seen + SIZE {
        SlotsDistinct(s.p.seen, |s.produced| + 1);
      }
    }
    if Enabled(s, DequeueEmpty) && s.c.seen > |s.consumed| {
      SlotsDistinct(|s.consumed|, s.c.seen);
    }
  }

  // ------------------------------------------------- calls without interference

  /** spsc_enqueue run to completion while the consumer stands still. */
  function EnqueueCall(s: State, value: Com): (State, bool)
    requires s.p.OutsideEnqueue? && s.head < |s.buffer|
  {
    var loaded := Apply(Apply(s, EnqueueLoadHead(value)), EnqueueLoadTail);
    if Enabled(loaded, EnqueueFull) then (Apply(loaded, EnqueueFull), false)
    else (Apply(Apply(loaded, EnqueueWrite), EnqueueStore), true)
  }

  /** spsc_dequeue run to completion while the producer stands still. */
  function DequeueCall(s: State): (State, bool)
    requires s.c.OutsideDequeue? && s.tail < |s.buffer|
  {
    var loaded := Apply(Apply(s, DequeueLoadTail), DequeueLoadHead);
    if Enabled(loaded, DequeueEmpty) then (Apply(loaded, DequeueEmpty), false)
    else (Apply(Apply(loaded, DequeueRead), DequeueStore), true)
  }

  /** A whole call does to the queue what the contract of Ring.Enqueue says. */
  lemma WholeEnqueue(s: State, value: Com)
    requires Inv(s) && s.p.OutsideEnqueue?
    ensures var (t, ok) := EnqueueCall(s, value);
      && Inv(t) && t.p.OutsideEnqueue? && t.c == s.c && |t.consumed| == |s.consumed| <= |t.produced|
      && (ok <==> |Queue(s)| < SIZE - 1)
      && Queue(t) == if ok then Queue(s) + [value] else Queue(s)
  {
    var s1 := Apply(s, EnqueueLoadHead(value));
    var s2 := Apply(s1, EnqueueLoadTail);
    StepPreserves(s, EnqueueLoadHead(value));
    StepPreserves(s1, EnqueueLoadTail);
    AdvanceCount(|s.produced|);
    if Enabled(s2, EnqueueFull) {
      if |s.produced| + 1 < |s.consumed| + SIZE {
        SlotsDistinct(|s.consumed|, |s.produced| + 1);
      }
    } else {
      RoomToWrite(s2);
      StepPreserves(s2, EnqueueWrite);
      StepPreserves(Apply(s2, EnqueueWrite), EnqueueStore);
    }
  }

  lemma WholeDequeue(s: State)
    requires Inv(s) && s.c.OutsideDequeue?
    ensures var (t, ok) := DequeueCall(s);
      && Inv(t) && t.c.OutsideDequeue? && t.p == s.p && |t.consumed| <= |t.produced|
      && (ok <==> Queue(s) != [])
      && Queue(t) == (if ok then Queue(s)[1..] else Queue(s))
      && t.consumed == if ok then s.consumed + [Queue(s)[0]] else s.consumed
  {
    var s1 := Apply(s, DequeueLoadTail);
    var s2 := Apply(s1, DequeueLoadHead);
    StepPreserves(s, DequeueLoadTail);
    StepPreserves(s1, DequeueLoadHead);
    if Enabled(s2, DequeueEmpty) {
      if |s.consumed| < |s.produced| {
        SlotsDistinct(|s.consumed|, |s.produced|);
      }
    } else {
      StepPreserves(s2, DequeueRead);
      StepPreserves(Apply(s2, DequeueRead), DequeueStore);
    }
  }
}
