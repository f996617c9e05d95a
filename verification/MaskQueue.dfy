/** The mutex-and-condition-variable queue between the mask thread (producer)
    and the centre-of-mass thread (consumer), one statement per step. Waiting
    releases the mutex and blocks; a signal wakes the one thread that may be
    blocked on that condition; a blocked thread may also wake up spuriously. */
module MaskQueue {
  import opened Modular

  // ------------------------------------------------------------ the buffers

  /** The slot i places after `front`, going round. */
  function Slot(front: nat, i: nat, n: nat): (k: nat)
    requires front < n && i <= n
    ensures k == (front + i) % n
  {
    if front + i < n then DivModUnique(front + i, n, 0, front + i); front + i
    else assert front + i - n < n; DivModUnique(front + i, n, 1, front + i - n); front + i - n
  }

  /** What each thread does to the shared arrays and indices while it holds the mutex. */
  class Ring<M(0)> {
    const slots: array<M>
    var front: nat
    var rear: nat
    var count: nat

    ghost predicate Valid()
      reads this
    {
      slots.Length > 0 && front < slots.Length && count <= slots.Length && rear == Slot(front, count, slots.Length)
    }

    /** The masks waiting, oldest first. */
    ghost function Waiting(): (s: seq<M>)
      reads this, slots
      requires Valid()
      ensures |s| == count
    {
      seq(count, i requires 0 <= i < count && Valid() reads this, slots => slots[Slot(front, i, slots.Length)])
    }

    constructor (size: nat)
      requires size > 0
      ensures Valid() && Waiting() == [] && slots.Length == size && fresh(slots)
    {
      slots := new M[size];
      front, rear, count := 0, 0, 0;
    }

    /** The producer stores a mask once the wait loop has seen room. */
    method Put(mask: M)
      requires Valid() && count != slots.Length
      modifies this`rear, this`count, slots
      ensures Valid() && Waiting() == old(Waiting()) + [mask]
    {
      ghost var before := Waiting();
      slots[rear] := mask;
      rear := Next(rear, slots.Length);
      count := count + 1;
      assert Waiting() == before + [mask];
    }

    /** The consumer copies a mask out once the wait loop has seen a mask. */
    method Take() returns (mask: M)
      requires Valid() && count != 0
      modifies this`front, this`count
      ensures Valid() && [mask] + Waiting() == old(Waiting())
    {
      ghost var before := Waiting();
      mask := slots[front];
      front := Next(front, slots.Length);
      count := count - 1;
      assert Waiting() == before[1..];
    }
  }

  /** The program's (i + 1) % N. */
  function Next(i: nat, n: nat): (k: nat)
    requires i < n
    ensures k == if i + 1 == n then 0 else i + 1
  {
    if i + 1 == n then DivModUnique(n, n, 1, 0); (i + 1) % n
    else DivModUnique(i + 1, n, 0, i + 1); (i + 1) % n
  }

  // ------------------------------------------------------------ the protocol

  datatype Owner = Nobody | ProducerOwns | ConsumerOwns

  /** Program counter of green_mask_thread, from its lock to its unlock. */
  datatype Producer<M> =
    | Making
    | WantsLock(mask: M)
    | Testing(mask: M)
    | Blocked(mask: M)
    | Copying(mask: M)
    | MovingRear(mask: M)
    | Counting(mask: M)
    | Signalling
    | Unlocking

  /** Program counter of com_calculator_thread, likewise. */
  datatype Consumer<M> =
    | Working
    | WantsLock
    | Testing
    | Blocked
    | Copying
    | MovingFront(mask: M)
    | Counting(mask: M)
    | Signalling
    | Unlocking

  datatype State<M> = State(slots: seq<M>, front: nat, rear: nat, count: int, owner: Owner,
                            p: Producer<M>, c: Consumer<M>, produced: seq<M>, consumed: seq<M>)

  datatype Event<M> =
    | PRequest(mask: M) | PLock | PWait | PProceed | PCopy | PMoveRear | PCount | PSignal | PUnlock | PSpurious
    | CRequest | CLock | CWait | CProceed | CCopy | CMoveFront | CCount | CSignal | CUnlock | CSpurious

  predicate Enabled<M>(s: State<M>, e: Event<M>) {
    match e
    case PRequest(_) => s.p.Making?
    case PLock => s.p.WantsLock? && s.owner == Nobody
    case PWait => s.p.Testing? && s.count == |s.slots|
    case PProceed => s.p.Testing? && s.count != |s.slots|
    case PCopy => s.p.Copying? && s.rear < |s.slots|
    case PMoveRear => s.p.MovingRear? && |s.slots| > 0
    case PCount => s.p.Counting?
    case PSignal => s.p.Signalling?
    case PUnlock => s.p.Unlocking?
    case PSpurious => s.p.Blocked?
    case CRequest => s.c.Working?
    case CLock => s.c.WantsLock? && s.owner == Nobody
    case CWait => s.c.Testing? && s.count == 0
    case CProceed => s.c.Testing? && s.count != 0
    case CCopy => s.c.Copying? && s.front < |s.slots|
    case CMoveFront => s.c.MovingFront? && |s.slots| > 0
    case CCount => s.c.Counting?
    case CSignal => s.c.Signalling?
    case CUnlock => s.c.Unlocking?
    case CSpurious => s.c.Blocked?
  }

  function Apply<M>(s: State<M>, e: Event<M>): State<M>
    requires Enabled(s, e)
  {
    match e
    case PRequest(m) => s.(p := Producer.WantsLock(m))
    case PLock => s.(p := Producer.Testing(s.p.mask), owner := ProducerOwns)
    case PWait => s.(p := Producer.Blocked(s.p.mask), owner := Nobody)
    case PProceed => s.(p := Producer.Copying(s.p.mask))
    case PCopy => s.(slots := s.slots[s.rear := s.p.mask], p := MovingRear(s.p.mask))
    case PMoveRear => s.(rear := (s.rear + 1) % |s.slots|, p := Producer.Counting(s.p.mask))
    case PCount => s.(count := s.count + 1, produced := s.produced + [s.p.mask], p := Producer.Signalling)
    case PSignal => s.(c := if s.c.Blocked? then Consumer.WantsLock else s.c, p := Producer.Unlocking)
    case PUnlock => s.(owner := Nobody, p := Making)
    case PSpurious => s.(p := Producer.WantsLock(s.p.mask))
    case CRequest => s.(c := Consumer.WantsLock)
    case CLock => s.(c := Consumer.Testing, owner := ConsumerOwns)
    case CWait => s.(c := Consumer.Blocked, owner := Nobody)
    case CProceed => s.(c := Consumer.Copying)
    case CCopy => s.(c := MovingFront(s.slots[s.front]))
    case CMoveFront => s.(front := (s.front + 1) % |s.slots|, c := Consumer.Counting(s.c.mask))
    case CCount => s.(count := s.count - 1, consumed := s.consumed + [s.c.mask], c := Consumer.Signalling)
    case CSignal => s.(p := if s.p.Blocked? then Producer.WantsLock(s.p.mask) else s.p, c := Consumer.Unlocking)
    case CUnlock => s.(owner := Nobody, c := Working)
    case CSpurious => s.(c := Consumer.WantsLock)
  }

  ghost predicate Initial<M>(s: State<M>) {
    && |s.slots| > 0 && s.front == 0 && s.rear == 0 && s.count == 0 && s.owner == Nobody
    && s.p.Making? && s.c.Working? && s.produced == [] && s.consumed == []
  }

  ghost predicate IsRun<M>(states: seq<State<M>>, events: seq<Event<M>>) {
    && |states| == |events| + 1
    && Initial(states[0])
    && forall k :: 0 <= k < |events| ==> Enabled(states[k], events[k]) && states[k + 1] == Apply(states[k], events[k])
  }

  // --------------------------------------------------------------- invariant

  predicate ProducerInside<M>(p: Producer<M>) {
    p.Testing? || p.Copying? || p.MovingRear? || p.Counting? || p.Signalling? || p.Unlocking?
  }

  predicate ConsumerInside<M>(c: Consumer<M>) {
    c.Testing? || c.Copying? || c.MovingFront? || c.Counting? || c.Signalling? || c.Unlocking?
  }

  /** Mutual exclusion, and no blocked thread without a reason or a coming signal. */
  ghost predicate LockInv<M>(s: State<M>) {
    && (s.owner == ProducerOwns <==> ProducerInside(s.p))
    && (s.owner == ConsumerOwns <==> ConsumerInside(s.c))
    && (s.p.Blocked? ==> s.count == |s.slots| || s.c.Signalling?)
    && (s.c.Blocked? ==> s.count == 0 || s.p.Signalling?)
  }

  ghost predicate IndexInv<M>(s: State<M>) {
    && |s.slots| > 0
    && |s.consumed| <= |s.produced| && s.count == |s.produced| - |s.consumed| <= |s.slots|
    && s.rear == (|s.produced| + if s.p.Counting? then 1 else 0) % |s.slots|
    && s.front == (|s.consumed| + if s.c.Counting? then 1 else 0) % |s.slots|
  }

  ghost predicate DataInv<M>(s: State<M>) {
    && |s.slots| > 0
    && s.consumed <= s.produced
    && (forall i :: |s.consumed| <= i < |s.produced| ==> s.slots[i % |s.slots|] == s.produced[i])
    && (s.p.Copying? || s.p.MovingRear? || s.p.Counting? ==> s.count < |s.slots|)
    && (s.p.MovingRear? || s.p.Counting? ==> s.slots[|s.produced| % |s.slots|] == s.p.mask)
    && (s.c.Copying? || s.c.MovingFront? || s.c.Counting? ==> s.count > 0)
    && (s.c.MovingFront? || s.c.Counting? ==> |s.consumed| < |s.produced| && s.c.mask == s.produced[|s.consumed|])
  }

  ghost predicate Inv<M>(s: State<M>) {
    LockInv(s) && IndexInv(s) && DataInv(s)
  }

  lemma CopyPreserves<M>(s: State<M>)
    requires Inv(s) && Enabled(s, PCopy)
    ensures Inv(Apply(s, PCopy))
  {
    var t := Apply(s, PCopy);
    forall i | |s.consumed| <= i < |s.produced| ensures t.slots[i % |t.slots|] == t.produced[i] {
      Apart(i, |s.produced|, |s.slots|);
    }
  }

  lemma CountPreserves<M>(s: State<M>)
    requires Inv(s) && Enabled(s, PCount)
    ensures Inv(Apply(s, PCount))
  {
  }

  lemma TakePreserves<M>(s: State<M>)
    requires Inv(s) && Enabled(s, CCount)
    ensures Inv(Apply(s, CCount))
  {
  }

  lemma RearMoves<M>(s: State<M>)
    requires Inv(s) && Enabled(s, PMoveRear)
    ensures (s.rear + 1) % |s.slots| == (|s.produced| + 1) % |s.slots|
  {
    AddMod(|s.produced|, 1, |s.slots|);
  }

  lemma MoveRearPreserves<M>(s: State<M>)
    requires Inv(s) && Enabled(s, PMoveRear)
    ensures Inv(Apply(s, PMoveRear))
  {
    RearMoves(s);
  }

  lemma FrontMoves<M>(s: State<M>)
    requires Inv(s) && Enabled(s, CMoveFront)
    ensures (s.front + 1) % |s.slots| == (|s.consumed| + 1) % |s.slots|
  {
    AddMod(|s.consumed|, 1, |s.slots|);
  }

  lemma MoveFrontPreserves<M>(s: State<M>)
    requires Inv(s) && Enabled(s, CMoveFront)
    ensures Inv(Apply(s, CMoveFront))
  {
    FrontMoves(s);
  }

  /** Producer events that touch neither slots nor indices, then the consumer's. */
  lemma ProducerPreserves<M>(s: State<M>, e: Event<M>)
    requires Inv(s) && Enabled(s, e)
    requires e.PRequest? || e.PLock? || e.PWait? || e.PProceed? || e.PSignal? || e.PUnlock? || e.PSpurious?
    ensures Inv(Apply(s, e))
  {
  }

  lemma ConsumerPreserves<M>(s: State<M>, e: Event<M>)
    requires Inv(s) && Enabled(s, e)
    requires e.CRequest? || e.CLock? || e.CWait? || e.CProceed? || e.CCopy? || e.CSignal? || e.CUnlock? || e.CSpurious?
    ensures Inv(Apply(s, e))
  {
  }

  lemma StepPreserves<M>(s: State<M>, e: Event<M>)
    requires Inv(s) && Enabled(s, e)
    ensures Inv(Apply(s, e))
  {
    if e.PCopy? {
      CopyPreserves(s);
    } else if e.PCount? {
      CountPreserves(s);
    } else if e.CCount? {
      TakePreserves(s);
    } else if e.PMoveRear? {
      MoveRearPreserves(s);
    } else if e.CMoveFront? {
      MoveFrontPreserves(s);
    } else if e.PRequest? || e.PLock? || e.PWait? || e.PProceed? || e.PSignal? || e.PUnlock? || e.PSpurious? {
      ProducerPreserves(s, e);
    } else {
      ConsumerPreserves(s, e);
    }
  }

  lemma {:induction false} RunInvariant<M>(states: seq<State<M>>, events: seq<Event<M>>, k: nat)
    requires IsRun(states, events) && k < |states|
    ensures Inv(states[k])
  {
    if k > 0 {
      RunInvariant(states, events, k - 1);
      StepPreserves(states[k - 1], events[k - 1]);
    }
  }

  // ---------------------------------------------------------------- theorems

  /** In every reachable state the consumer has taken a prefix of the masks
      produced, the count is within the queue, and rear = (front + count) mod N,
      off by one exactly where a thread has moved an index and not yet counted. */
  lemma QueueConsistent<M>(states: seq<State<M>>, events: seq<Event<M>>, k: nat)
    requires IsRun(states, events) && k < |states|
    ensures var s := states[k];
      && |s.slots| > 0 && 0 <= s.count <= |s.slots|
      && s.consumed <= s.produced && s.count == |s.produced| - |s.consumed|
      && (!s.p.Counting? && !s.c.Counting? ==> s.rear == (s.front + s.count) % |s.slots|)
      && (s.p.Counting? ==> s.rear == (s.front + s.count + 1) % |s.slots|)
      && (s.c.Counting? ==> s.rear == (s.front + s.count - 1) % |s.slots|)
  {
    RunInvariant(states, events, k);
    RearFollows(states[k]);
  }

  lemma RearFollows<M>(s: State<M>)
    requires Inv(s)
    ensures !s.p.Counting? && !s.c.Counting? ==> s.rear == (s.front + s.count) % |s.slots|
    ensures s.p.Counting? ==> s.rear == (s.front + s.count + 1) % |s.slots|
    ensures s.c.Counting? ==> s.rear == (s.front + s.count - 1) % |s.slots|
  {
    if s.c.Counting? {
      AddMod(|s.consumed| + 1, s.count - 1, |s.slots|);
    } else if s.p.Counting? {
      AddMod(|s.consumed|, s.count + 1, |s.slots|);
    } else {
      AddMod(|s.consumed|, s.count, |s.slots|);
    }
  }

  lemma MutualExclusion<M>(states: seq<State<M>>, events: seq<Event<M>>, k: nat)
    requires IsRun(states, events) && k < |states|
    ensures !(ProducerInside(states[k].p) && ConsumerInside(states[k].c))
  {
    RunInvariant(states, events, k);
  }

  /** The two threads are never both asleep, and no wake-up is lost: a thread
      sleeps only while its condition really fails or the other thread is about
      to signal it. */
  lemma NeverBothBlocked<M>(states: seq<State<M>>, events: seq<Event<M>>, k: nat)
    requires IsRun(states, events) && k < |states|
    ensures !(states[k].p.Blocked? && states[k].c.Blocked?)
    ensures states[k].p.Blocked? ==> states[k].count == |states[k].slots| || Enabled(states[k], CSignal)
    ensures states[k].c.Blocked? ==> states[k].count == 0 || Enabled(states[k], PSignal)
  {
    RunInvariant(states, events, k);
  }

  /** In every reachable state some thread can take a step of its own program,
      without help from a spurious wake-up. `mask` is what the producer would
      offer next. */
  lemma AlwaysProgress<M>(states: seq<State<M>>, events: seq<Event<M>>, k: nat, mask: M) returns (e: Event<M>)
    requires IsRun(states, events) && k < |states|
    ensures Enabled(states[k], e) && !e.PSpurious? && !e.CSpurious?
  {
    RunInvariant(states, events, k);
    var s := states[k];
    match s.owner
    case ProducerOwns =>
      e := match s.p
        case Testing(_) => if s.count == |s.slots| then PWait else PProceed
        case Copying(_) => PCopy
        case MovingRear(_) => PMoveRear
        case Counting(_) => PCount
        case Signalling => PSignal
        case _ => PUnlock;
    case ConsumerOwns =>
      e := match s.c
        case Testing => if s.count == 0 then CWait else CProceed
        case Copying => CCopy
        case MovingFront(_) => CMoveFront
        case Counting(_) => CCount
        case Signalling => CSignal
        case _ => CUnlock;
    case Nobody =>
      e := if s.p.Making? then PRequest(mask) else if s.p.WantsLock? then PLock
           else if s.c.Working? then CRequest else CLock;
  }

  // ------------------------------------------------- nothing but the masks offered

  /** The masks the producer set out to store, in order. */
  function Offered<M>(events: seq<Event<M>>): seq<M> {
    if events == [] then [] else
      var last := events[|events| - 1];
      Offered(events[..|events| - 1]) + if last.PRequest? then [last.mask] else []
  }

  /** The mask the producer has set out to store and not yet counted. */
  function Outstanding<M>(p: Producer<M>): seq<M> {
    match p
    case WantsLock(m) => [m]
    case Testing(m) => [m]
    case Blocked(m) => [m]
    case Copying(m) => [m]
    case MovingRear(m) => [m]
    case Counting(m) => [m]
    case _ => []
  }

  lemma OfferedStep<M>(s: State<M>, e: Event<M>)
    requires Enabled(s, e)
    ensures Apply(s, e).produced + Outstanding(Apply(s, e).p)
         == s.produced + Outstanding(s.p) + if e.PRequest? then [e.mask] else []
  {
  }

  lemma {:induction false} OfferedSoFar<M>(states: seq<State<M>>, events: seq<Event<M>>, k: nat)
    requires IsRun(states, events) && k < |states|
    ensures states[k].produced + Outstanding(states[k].p) == Offered(events[..k])
  {
    if k > 0 {
      OfferedSoFar(states, events, k - 1);
      OfferedStep(states[k - 1], events[k - 1]);
      assert events[..k][..k - 1] == events[..k - 1];
    }
  }

  /** In every reachable state the masks produced are those offered, in order, but
      for at most one that the producer still holds; hence the masks the consumer
      took are a prefix of those offered. */
  lemma OnlyOfferedMasks<M>(states: seq<State<M>>, events: seq<Event<M>>, k: nat)
    requires IsRun(states, events) && k < |states|
    ensures states[k].produced + Outstanding(states[k].p) == Offered(events[..k]) && |Outstanding(states[k].p)| <= 1
    ensures states[k].consumed <= Offered(events[..k])
  {
    OfferedSoFar(states, events, k);
    RunInvariant(states, events, k);
  }
}
