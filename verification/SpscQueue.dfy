/** The single-producer single-consumer ring that hands centre-of-mass values
    to the control thread, with each call taken as one atomic step, and the
    drop-oldest publication built on it. */
module SpscQueue {

  /** COM_QUEUE_SIZE; one slot always stays free. */
  const SIZE := 256

  /** A centre of mass; the two C floats are kept as reals. */
  datatype Com = Com(x: real, y: real)

  /** The program's `(i + 1) & (COM_QUEUE_SIZE - 1)`. */
  function Advance(i: nat): nat {
    (i + 1) % SIZE
  }

  /** The slot i places after `tail`, going round the ring. */
  function Slot(tail: nat, i: nat): (k: nat)
    requires tail < SIZE && i < SIZE
    ensures k == (tail + i) % SIZE
  {
    if tail + i < SIZE then tail + i else tail + i - SIZE
  }

  /** Number of occupied slots between tail and head. */
  function Occupied(head: nat, tail: nat): (n: nat)
    requires head < SIZE && tail < SIZE
    ensures n < SIZE && Slot(tail, n) == head
  {
    if tail <= head then head - tail else head + SIZE - tail
  }

  class Ring {
    const buffer: array<Com>
    var head: nat
    var tail: nat

    ghost predicate Valid()
      reads this
    {
      buffer.Length == SIZE && head < SIZE && tail < SIZE
    }

    /** The values in the ring, oldest first. */
    ghost function Contents(): (s: seq<Com>)
      reads this, buffer
      requires Valid()
      ensures |s| == Occupied(head, tail) <= SIZE - 1
    {
      seq(Occupied(head, tail), i requires 0 <= i < SIZE && Valid() reads this, buffer => buffer[Slot(tail, i)])
    }

    constructor ()
      ensures Valid() && Contents() == [] && fresh(buffer)
    {
      buffer := new Com[SIZE];
      head, tail := 0, 0;
    }

    method Enqueue(value: Com) returns (ok: bool)
      requires Valid()
      modifies this`head, buffer
      ensures Valid()
      ensures ok <==> old(|Contents()|) < 255
      ensures Contents() == if ok then old(Contents()) + [value] else old(Contents())
    {
      var next := Advance(head);
      if next == tail {
        return false;
      }
      ghost var before := Contents();
      buffer[head] := value;
      head := next;
      assert Contents() == before + [value];
      return true;
    }

    method Dequeue() returns (ok: bool, value: Com)
      requires Valid()
      modifies this`tail
      ensures Valid()
      ensures ok <==> old(Contents()) != []
      ensures ok ==> [value] + Contents() == old(Contents())
      ensures !ok ==> Contents() == old(Contents())
    {
      value := Com(0.0, 0.0);
      if head == tail {
        return false, value;
      }
      ghost var before := Contents();
      value := buffer[tail];
      tail := Advance(tail);
      assert Contents() == before[1..];
      return true, value;
    }

    /** The producer's publication: when the ring is full the oldest value is
        thrown away and the enqueue retried. */
    method Publish(value: Com)
      requires Valid()
      modifies this, buffer
      ensures Valid()
      ensures Contents() == (if old(|Contents()|) < 255 then old(Contents()) else old(Contents())[1..]) + [value]
    {
      var ok := Enqueue(value);
      if !ok {
        var _, _ := Dequeue();
        var retried := Enqueue(value);
        assert retried;
      }
    }
  }

  // ------------------------------------------------- meaning of a publication

  /** The newest `SIZE - 1` values of a sequence. */
  function Newest(s: seq<Com>): seq<Com> {
    if |s| <= SIZE - 1 then s else s[|s| - (SIZE - 1)..]
  }

  function Published(queue: seq<Com>, value: Com): seq<Com> {
    if |queue| < SIZE - 1 then queue + [value] else queue[1..] + [value]
  }

  /** With whole calls as atomic steps, a run is a sequence of publications
      (Some) and control-thread dequeues (None). */
  datatype Call = Publish(value: Com) | Receive

  datatype Run = Run(queue: seq<Com>, produced: seq<Com>, received: seq<Com>)

  function Step(r: Run, c: Call): Run {
    match c
    case Publish(v) => Run(Published(r.queue, v), r.produced + [v], r.received)
    case Receive => if r.queue == [] then r else Run(r.queue[1..], r.produced, r.received + [r.queue[0]])
  }

  function After(calls: seq<Call>): Run {
    if calls == [] then Run([], [], []) else Step(After(calls[..|calls| - 1]), calls[|calls| - 1])
  }

  /** `index` lists, in increasing order, where each received value was produced. */
  ghost predicate Picks(received: seq<Com>, produced: seq<Com>, index: seq<nat>) {
    && |index| == |received|
    && (forall i :: 0 <= i < |index| ==> index[i] < |produced| && received[i] == produced[index[i]])
    && (forall i, j :: 0 <= i < j < |index| ==> index[i] < index[j])
  }

  ghost predicate InOrderSubsequence(received: seq<Com>, produced: seq<Com>) {
    exists index :: Picks(received, produced, index)
  }

  /** The ring always holds a suffix of what was produced, and everything
      received was produced before that suffix, in order. */
  ghost predicate RunInv(r: Run, index: seq<nat>) {
    && |r.queue| <= SIZE - 1 && |r.queue| <= |r.produced|
    && r.queue == r.produced[|r.produced| - |r.queue|..]
    && Picks(r.received, r.produced, index)
    && (forall i :: 0 <= i < |index| ==> index[i] < |r.produced| - |r.queue|)
    && (forall i: nat :: i < |r.produced| - |r.queue| && i !in index ==> i + SIZE - 1 < |r.produced|)
  }

  lemma {:induction false} RunInvariant(calls: seq<Call>) returns (index: seq<nat>)
    ensures RunInv(After(calls), index)
  {
    if calls == [] {
      index := [];
    } else {
      var before := After(calls[..|calls| - 1]);
      index := RunInvariant(calls[..|calls| - 1]);
      match calls[|calls| - 1]
      case Publish(v) =>
        PublishKeeps(before, index, v);
      case Receive =>
        index := ReceiveKeeps(before, index);
    }
  }

  lemma ReceiveKeeps(r: Run, index: seq<nat>) returns (more: seq<nat>)
    requires RunInv(r, index)
    ensures RunInv(Step(r, Receive), more)
  {
    more := index;
    if r.queue != [] {
      var next := |r.produced| - |r.queue|;
      more := index + [next];
      assert forall i :: i in more <==> i in index || i == next;
    }
  }

  lemma PublishKeeps(r: Run, index: seq<nat>, value: Com)
    requires RunInv(r, index)
    ensures RunInv(Step(r, Publish(value)), index)
  {
  }

  /** The values published, in order. */
  function PublishedValues(calls: seq<Call>): seq<Com> {
    if calls == [] then [] else
      var last := calls[|calls| - 1];
      PublishedValues(calls[..|calls| - 1]) + if last.Publish? then [last.value] else []
  }

  /** What a run has produced is exactly what was published. */
  lemma {:induction false} ProducedIsPublished(calls: seq<Call>)
    ensures After(calls).produced == PublishedValues(calls)
  {
    if calls != [] {
      ProducedIsPublished(calls[..|calls| - 1]);
    }
  }

  /** What the control thread receives is an in-order subsequence of what was
      produced, for every interleaving of publications and dequeues. */
  lemma ReceivedInOrder(calls: seq<Call>)
    ensures InOrderSubsequence(After(calls).received, PublishedValues(calls))
  {
    ProducedIsPublished(calls);
    var index := RunInvariant(calls);
  }

  /** Nothing else is lost: for every value produced, either it was received, or
      it still waits in its place in the ring, or at least 255 values were
      produced after it. In particular every publication lands. */
  lemma LostOnlyWhenOverrun(calls: seq<Call>) returns (index: seq<nat>)
    ensures var r, published := After(calls), PublishedValues(calls);
      && Picks(r.received, published, index)
      && |r.queue| <= |published| && r.queue == published[|published| - |r.queue|..]
      && forall i: nat :: i < |published| ==>
            i in index || i >= |published| - |r.queue| || |published| - 1 - i >= 255
  {
    index := RunInvariant(calls);
    ProducedIsPublished(calls);
  }

  /** With no consumer step, the ring holds the newest min(n, 255) values. */
  lemma {:induction false} WithoutConsumerNewest(calls: seq<Call>)
    requires forall c :: c in calls ==> c.Publish?
    ensures var published := PublishedValues(calls);
      && |published| == |calls|
      && After(calls).queue == if |published| <= 255 then published else published[|published| - 255..]
  {
    if calls != [] {
      WithoutConsumerNewest(calls[..|calls| - 1]);
      PublishedNewest(PublishedValues(calls[..|calls| - 1]), calls[|calls| - 1].value);
    }
  }

  lemma PublishedNewest(s: seq<Com>, value: Com)
    ensures Published(Newest(s), value) == Newest(s + [value])
  {
  }

  /** Nothing is lost while the ring never fills: received then queued is exactly what was produced. */
  lemma {:induction false} LosslessUntilFull(calls: seq<Call>)
    requires forall k :: 0 <= k < |calls| && calls[k].Publish? ==> |After(calls[..k]).queue| < SIZE - 1
    ensures After(calls).received + After(calls).queue == PublishedValues(calls)
  {
    if calls != [] {
      var front := calls[..|calls| - 1];
      forall k | 0 <= k < |front| && front[k].Publish? ensures |After(front[..k]).queue| < SIZE - 1 {
        assert front[..k] == calls[..k];
      }
      LosslessUntilFull(front);
    }
  }
}
