/** Sender and viewer together: packets of several frames arriving in any
    order, interleaved and duplicated, give back exactly the frames sent. */
module UdpRoundTrip {
  import opened UdpFrames

  /** The frames in flight, by id. Each needs between 1 and 65535 chunks. */
  type Flight = map<nat, Bytes>

  ghost predicate InFlight(f: Flight) {
    forall id :: id in f ==> id < 0x1_0000_0000 && 1 <= Chunks(|f[id]|) <= 65535
  }

  /** One packet off the network: chunk `chunk` of frame `id`. */
  datatype Arrival = Arrival(id: nat, chunk: nat)

  predicate Possible(f: Flight, a: Arrival) {
    a.id in f && a.chunk < Chunks(|f[a.id]|)
  }

  function Message(f: Flight, a: Arrival): Bytes
    requires Possible(f, a)
  {
    Packet(a.id, a.chunk, Announced(|f[a.id]|), Payload(f[a.id], a.chunk))
  }

  /** A message is one of the packets the sender emits for that frame. */
  lemma MessagesAreSent(f: Flight, a: Arrival)
    requires InFlight(f) && Possible(f, a)
    ensures a.chunk < |Packets(a.id, f[a.id])| && Message(f, a) == Packets(a.id, f[a.id])[a.chunk]
  {
  }

  /** Chunk numbers of frame `id` seen in a trace. */
  ghost function Arrived(trace: seq<Arrival>, id: nat): set<nat> {
    set k | 0 <= k < |trace| && trace[k].id == id :: trace[k].chunk
  }

  lemma ArrivedStep(trace: seq<Arrival>, id: nat)
    requires trace != []
    ensures var last := trace[|trace| - 1];
      Arrived(trace, id) == Arrived(trace[..|trace| - 1], id) + if last.id == id then {last.chunk} else {}
  {
  }

  function All(n: nat): (s: set<nat>)
    ensures |s| == n && forall i: nat :: i in s <==> i < n
  {
    if n == 0 then {} else All(n - 1) + {n - 1}
  }

  lemma SameSizeSubset(s: set<nat>, t: set<nat>)
    requires s <= t
    ensures |s| <= |t| && (|s| == |t| <==> s == t)
  {
    assert t == s + (t - s);
    if s != t { assert t - s != {}; }
  }

  ghost predicate Complete(f: Flight, trace: seq<Arrival>, id: nat)
    requires id in f
  {
    Arrived(trace, id) == All(Chunks(|f[id]|))
  }

  ghost predicate AllPossible(f: Flight, trace: seq<Arrival>) {
    forall k :: 0 <= k < |trace| ==> Possible(f, trace[k])
  }

  /** Packet k is not one of this frame that comes after its last missing chunk. */
  ghost predicate OnTime(f: Flight, trace: seq<Arrival>, id: nat, k: nat)
    requires id in f && k < |trace|
  {
    trace[k].id == id ==> !Complete(f, trace[..k], id)
  }

  /** No packet of this frame is late. */
  ghost predicate Prompt(f: Flight, trace: seq<Arrival>, id: nat)
    requires id in f
  {
    forall k :: 0 <= k < |trace| ==> OnTime(f, trace, id, k)
  }

  /** Any order, any interleaving, duplicates only while the frame is incomplete. */
  ghost predicate Legal(f: Flight, trace: seq<Arrival>) {
    AllPossible(f, trace) && forall id :: id in f ==> Prompt(f, trace, id)
  }

  lemma PromptStep(f: Flight, trace: seq<Arrival>, id: nat)
    requires trace != [] && id in f
    ensures Prompt(f, trace, id) <==>
      && Prompt(f, trace[..|trace| - 1], id)
      && (trace[|trace| - 1].id == id ==> !Complete(f, trace[..|trace| - 1], id))
  {
    var n := |trace| - 1;
    forall k | 0 <= k < n ensures OnTime(f, trace, id, k) <==> OnTime(f, trace[..n], id, k) {
      OnTimeOfPrefix(f, trace, id, k);
    }
    OnTimeLast(f, trace, id);
  }

  lemma OnTimeOfPrefix(f: Flight, trace: seq<Arrival>, id: nat, k: nat)
    requires id in f && k < |trace| - 1
    ensures OnTime(f, trace, id, k) <==> OnTime(f, trace[..|trace| - 1], id, k)
  {
    assert trace[..|trace| - 1][..k] == trace[..k];
  }

  lemma OnTimeLast(f: Flight, trace: seq<Arrival>, id: nat)
    requires id in f && trace != []
    ensures OnTime(f, trace, id, |trace| - 1) <==>
      (trace[|trace| - 1].id == id ==> !Complete(f, trace[..|trace| - 1], id))
  {
  }

  /** Chunks gathered since a frame was last finished, and how often it was. */
  datatype Progress = Progress(pending: set<nat>, rounds: nat)

  ghost function Gathered(f: Flight, trace: seq<Arrival>, id: nat): Progress
    requires id in f
  {
    if trace == [] then Progress({}, 0) else
      var before := Gathered(f, trace[..|trace| - 1], id);
      if trace[|trace| - 1].id == id then Gather(before, trace[|trace| - 1].chunk, Chunks(|f[id]|)) else before
  }

  ghost function Gather(p: Progress, chunk: nat, n: nat): Progress {
    if p.pending + {chunk} == All(n) then Progress({}, p.rounds + 1) else Progress(p.pending + {chunk}, p.rounds)
  }

  lemma ArrivedInRange(f: Flight, trace: seq<Arrival>, id: nat)
    requires AllPossible(f, trace) && id in f
    ensures Arrived(trace, id) <= All(Chunks(|f[id]|))
  {
  }

  /** What rounds and pending chunks tell: no round while chunks are missing,
      and one round with nothing pending if and only if no packet was late. */
  ghost predicate Tells(p: Progress, arrived: set<nat>, n: nat, prompt: bool) {
    && (arrived != All(n) ==> p == Progress(arrived, 0) && prompt)
    && (arrived == All(n) ==> p.rounds >= 1 && (p == Progress({}, 1) <==> prompt))
  }

  lemma TellsStep(p: Progress, arrived: set<nat>, n: nat, prompt: bool, c: nat)
    requires Tells(p, arrived, n, prompt) && arrived <= All(n) && c < n
    ensures Tells(Gather(p, c, n), arrived + {c}, n, prompt && arrived != All(n))
  {
    assert c in p.pending + {c};
    if arrived == All(n) {
      assert arrived + {c} == All(n);
    }
  }

  lemma {:induction false} GatheredMeaning(f: Flight, trace: seq<Arrival>, id: nat)
    requires InFlight(f) && AllPossible(f, trace) && id in f
    ensures Tells(Gathered(f, trace, id), Arrived(trace, id), Chunks(|f[id]|), Prompt(f, trace, id))
  {
    if trace == [] {
      assert 0 in All(Chunks(|f[id]|));
    } else {
      var before, a := trace[..|trace| - 1], trace[|trace| - 1];
      GatheredMeaning(f, before, id);
      PromptStep(f, trace, id);
      ArrivedStep(trace, id);
      if a.id == id {
        ArrivedInRange(f, before, id);
        TellsStep(Gathered(f, before, id), Arrived(before, id), Chunks(|f[id]|), Prompt(f, before, id), a.chunk);
      } else {
        assert Arrived(trace, id) == Arrived(before, id);
      }
    }
  }

  datatype Viewer = Viewer(table: Table, shown: seq<(nat, Bytes)>)

  /** The viewer after receiving some messages. */
  function View(msgs: seq<Bytes>): Viewer {
    if msgs == [] then Viewer(Table(map[], map[]), []) else
      var before := View(msgs[..|msgs| - 1]);
      var (table, outcome) := Assembled(before.table, msgs[|msgs| - 1]);
      Viewer(table, if outcome.Shown? then before.shown + [(outcome.frame, outcome.data)] else before.shown)
  }

  function Messages(f: Flight, trace: seq<Arrival>): (msgs: seq<Bytes>)
    requires AllPossible(f, trace)
    ensures |msgs| == |trace|
  {
    seq(|trace|, k requires 0 <= k < |trace| && Possible(f, trace[k]) => Message(f, trace[k]))
  }

  function Receive(f: Flight, trace: seq<Arrival>): Viewer
    requires AllPossible(f, trace)
  {
    View(Messages(f, trace))
  }

  lemma ReceiveStep(f: Flight, trace: seq<Arrival>)
    requires trace != [] && AllPossible(f, trace)
    ensures var before := Receive(f, trace[..|trace| - 1]);
      var (table, outcome) := Assembled(before.table, Message(f, trace[|trace| - 1]));
      Receive(f, trace) == Viewer(table,
        if outcome.Shown? then before.shown + [(outcome.frame, outcome.data)] else before.shown)
  {
    var msgs := Messages(f, trace);
    assert msgs[..|msgs| - 1] == Messages(f, trace[..|trace| - 1]);
  }

  // -------------------------------------------------------------- reassembly

  /** The chunk dictionary that holds exactly the given chunk numbers of a frame. */
  ghost predicate Holds(chunks: map<nat, Bytes>, data: Bytes, numbers: set<nat>) {
    chunks.Keys == numbers && forall c :: c in numbers ==> c < Chunks(|data|) && chunks[c] == Payload(data, c)
  }

  lemma {:induction false} JoinPrefix(chunks: map<nat, Bytes>, data: Bytes, n: nat)
    requires n <= Chunks(|data|) && forall c: nat :: c < n ==> c in chunks && chunks[c] == Payload(data, c)
    ensures Join(chunks, n) == if n * CHUNK <= |data| then data[..n * CHUNK] else data
  {
    if n > 0 {
      JoinPrefix(chunks, data, n - 1);
      assert chunks[n - 1] == Payload(data, n - 1);
    }
  }

  lemma JoinAll(chunks: map<nat, Bytes>, data: Bytes)
    requires Holds(chunks, data, All(Chunks(|data|)))
    ensures Join(chunks, Chunks(|data|)) == data
  {
    forall c: nat | c < Chunks(|data|) ensures c in chunks && chunks[c] == Payload(data, c) {
      assert c in All(Chunks(|data|));
    }
    JoinPrefix(chunks, data, Chunks(|data|));
  }

  /** The dictionaries hold exactly the pending chunks of a frame. */
  ghost predicate Entry(f: Flight, pending: set<nat>, t: Table, id: nat)
    requires id in f
  {
    && (id in t.frames <==> pending != {})
    && (id in t.expected <==> pending != {})
    && (pending != {} ==> t.expected[id] == Chunks(|f[id]|) && Holds(t.frames[id], f[id], pending))
  }

  /** How often frame `id` has been shown. */
  function Times(shown: seq<(nat, Bytes)>, id: nat): nat {
    if shown == [] then 0
    else Times(shown[..|shown| - 1], id) + if shown[|shown| - 1].0 == id then 1 else 0
  }

  lemma AnnouncedExact(size: nat)
    requires Chunks(size) <= 65535
    ensures Announced(size) == Chunks(size)
  {
  }

  lemma DecodedStep(t: Table, msg: Bytes, h: Header, payload: Bytes)
    requires |msg| >= 8 && Unpack(msg) == h && msg[8..] == payload
    ensures Assembled(t, msg) == Stored(t, h, payload)
  {
  }

  function HeaderOf(f: Flight, a: Arrival): Header
    requires Possible(f, a)
  {
    Header(a.id, a.chunk, Chunks(|f[a.id]|))
  }

  lemma MessageStep(f: Flight, a: Arrival, t: Table)
    requires InFlight(f) && Possible(f, a)
    ensures Assembled(t, Message(f, a)) == Stored(t, HeaderOf(f, a), Payload(f[a.id], a.chunk))
  {
    AnnouncedExact(|f[a.id]|);
    PacketRoundTrip(a.id, a.chunk, Chunks(|f[a.id]|), Payload(f[a.id], a.chunk));
    DecodedStep(t, Message(f, a), HeaderOf(f, a), Payload(f[a.id], a.chunk));
  }

  predicate SameEntry(t: Table, t': Table, id: nat) {
    && (id in t'.frames <==> id in t.frames) && (id in t.frames ==> t'.frames[id] == t.frames[id])
    && (id in t'.expected <==> id in t.expected) && (id in t.expected ==> t'.expected[id] == t.expected[id])
  }

  /** What Stored does, entry by entry. */
  lemma StoredEntries(t: Table, h: Header, payload: Bytes)
    ensures var (t', outcome) := Stored(t, h, payload);
      var chunks := Collected(t, h, payload);
      && (forall id :: id != h.frame ==> SameEntry(t, t', id))
      && (|chunks| != h.total ==>
            && outcome == Waiting && h.frame in t'.frames && h.frame in t'.expected
            && t'.frames[h.frame] == chunks && t'.expected[h.frame] == h.total)
      && (|chunks| == h.total && (forall i: nat :: i < h.total ==> i in chunks) ==>
            outcome == Shown(h.frame, Join(chunks, h.total)) && h.frame !in t'.frames && h.frame !in t'.expected)
      && (|chunks| == h.total && !(forall i: nat :: i < h.total ==> i in chunks) ==>
            && outcome == KeyError && h.frame in t'.frames && h.frame in t'.expected
            && t'.frames[h.frame] == chunks && t'.expected[h.frame] == h.total)
  {
  }

  /** What any message at all does, wrongly numbered and malformed ones included:
      one too short raises and changes nothing; otherwise its payload joins the
      chunks of its frame and no other frame is touched; the frame is shown and
      forgotten exactly when the chunk numbers held are 0 to total - 1, and the
      call raises, keeping the frame, exactly when they are as many but others. */
  lemma OnePacket(t: Table, msg: Bytes)
    ensures |msg| < 8 ==> Assembled(t, msg) == (t, StructError)
    ensures |msg| >= 8 ==>
      var h := Unpack(msg);
      var chunks := (if h.frame in t.frames then t.frames[h.frame] else map[])[h.chunk := msg[8..]];
      var (t', outcome) := Assembled(t, msg);
      && (forall id :: id != h.frame ==> SameEntry(t, t', id))
      && (outcome == Waiting <==> |chunks| != h.total)
      && (outcome.Shown? <==> chunks.Keys == All(h.total))
      && (chunks.Keys == All(h.total) ==> outcome == Shown(h.frame, Join(chunks, h.total)))
      && (outcome == KeyError <==> |chunks| == h.total && chunks.Keys != All(h.total))
      && (h.frame in t'.frames <==> chunks.Keys != All(h.total))
      && (h.frame in t'.expected <==> chunks.Keys != All(h.total))
      && (h.frame in t'.frames ==> t'.frames[h.frame] == chunks && t'.expected[h.frame] == h.total)
  {
    if |msg| >= 8 {
      var h := Unpack(msg);
      FullSet(Collected(t, h, msg[8..]), h.total);
      StoredEntries(t, h, msg[8..]);
    }
  }

  lemma FullSet(chunks: map<nat, Bytes>, n: nat)
    ensures chunks.Keys == All(n) <==> |chunks| == n && forall i: nat :: i < n ==> i in chunks
  {
    assert |chunks| == |chunks.Keys|;
    if forall i: nat :: i < n ==> i in chunks {
      SameSizeSubset(All(n), chunks.Keys);
    }
  }

  lemma HoldsMore(chunks: map<nat, Bytes>, data: Bytes, numbers: set<nat>, c: nat)
    requires Holds(chunks, data, numbers) && c < Chunks(|data|)
    ensures Holds(chunks[c := Payload(data, c)], data, numbers + {c})
  {
  }

  lemma HoldsCount(chunks: map<nat, Bytes>, data: Bytes, numbers: set<nat>)
    requires Holds(chunks, data, numbers)
    ensures |chunks| == Chunks(|data|) <==> numbers == All(Chunks(|data|))
  {
    SameSizeSubset(numbers, All(Chunks(|data|)));
    assert |chunks| == |chunks.Keys|;
  }

  /** Storing one more chunk keeps the chunk dictionary exact, and its size
      tells whether the frame is finished. */
  lemma CollectStep(f: Flight, t: Table, a: Arrival, pending: set<nat>)
    requires Possible(f, a) && Entry(f, pending, t, a.id)
    ensures var chunks := Collected(t, HeaderOf(f, a), Payload(f[a.id], a.chunk));
      && Holds(chunks, f[a.id], pending + {a.chunk})
      && (|chunks| == Chunks(|f[a.id]|) <==> pending + {a.chunk} == All(Chunks(|f[a.id]|)))
  {
    var stored := if a.id in t.frames then t.frames[a.id] else map[];
    HoldsMore(stored, f[a.id], pending, a.chunk);
    HoldsCount(stored[a.chunk := Payload(f[a.id], a.chunk)], f[a.id], pending + {a.chunk});
  }

  /** What the viewer makes of one more packet, late or not. */
  lemma StepThisFrame(f: Flight, t: Table, a: Arrival, p: Progress)
    requires InFlight(f) && Possible(f, a) && Entry(f, p.pending, t, a.id)
    ensures var (t', outcome) := Assembled(t, Message(f, a));
      var next := Gather(p, a.chunk, Chunks(|f[a.id]|));
      && Entry(f, next.pending, t', a.id)
      && (forall id :: id != a.id ==> SameEntry(t, t', id))
      && outcome == if next.rounds > p.rounds then Shown(a.id, f[a.id]) else Waiting
  {
    var payload := Payload(f[a.id], a.chunk);
    MessageStep(f, a, t);
    CollectStep(f, t, a, p.pending);
    StoredEntries(t, HeaderOf(f, a), payload);
    if p.pending + {a.chunk} == All(Chunks(|f[a.id]|)) {
      JoinAll(Collected(t, HeaderOf(f, a), payload), f[a.id]);
    }
  }

  /** The viewer's state for one frame, and what it has shown of it. */
  ghost predicate FrameInv(f: Flight, p: Progress, v: Viewer, id: nat)
    requires id in f
  {
    Entry(f, p.pending, v.table, id) && Times(v.shown, id) == p.rounds
  }

  ghost predicate OnlyOriginals(f: Flight, v: Viewer) {
    && v.table.frames.Keys <= f.Keys && v.table.expected.Keys <= f.Keys
    && forall k :: 0 <= k < |v.shown| ==> v.shown[k].0 in f && v.shown[k].1 == f[v.shown[k].0]
  }

  lemma StepEachFrame(f: Flight, v: Viewer, v': Viewer, a: Arrival, outcome: Outcome, p: Progress, id: nat)
    requires InFlight(f) && Possible(f, a) && id in f && FrameInv(f, p, v, id)
    requires (v'.table, outcome) == Assembled(v.table, Message(f, a))
    requires outcome == Waiting || outcome == Shown(a.id, f[a.id])
    requires id != a.id ==> SameEntry(v.table, v'.table, id)
    requires v'.shown == if outcome.Shown? then v.shown + [(outcome.frame, outcome.data)] else v.shown
    ensures FrameInv(f, if a.id == id then Gather(p, a.chunk, Chunks(|f[id]|)) else p, v', id)
  {
    if id == a.id {
      StepThisFrame(f, v.table, a, p);
    }
  }

  /** After EVERY trace of packets sent, late ones included: whatever was shown
      is an original frame, each frame was shown once for every time its chunks
      were gathered, and the dictionaries hold exactly the chunks pending. */
  lemma {:induction false} EveryTrace(f: Flight, trace: seq<Arrival>)
    requires InFlight(f) && AllPossible(f, trace)
    ensures OnlyOriginals(f, Receive(f, trace))
    ensures forall id :: id in f ==> FrameInv(f, Gathered(f, trace, id), Receive(f, trace), id)
  {
    if trace != [] {
      var before, a := trace[..|trace| - 1], trace[|trace| - 1];
      EveryTrace(f, before);
      ReceiveStep(f, trace);
      var v, v' := Receive(f, before), Receive(f, trace);
      var (_, outcome) := Assembled(v.table, Message(f, a));
      StepThisFrame(f, v.table, a, Gathered(f, before, a.id));
      OriginalsStep(f, v, v', a, outcome);
      forall id | id in f ensures FrameInv(f, Gathered(f, trace, id), v', id) {
        StepEachFrame(f, v, v', a, outcome, Gathered(f, before, id), id);
      }
    }
  }

  lemma OriginalsStep(f: Flight, v: Viewer, v': Viewer, a: Arrival, outcome: Outcome)
    requires OnlyOriginals(f, v) && a.id in f && (outcome == Waiting || outcome == Shown(a.id, f[a.id]))
    requires forall id :: id != a.id ==> SameEntry(v.table, v'.table, id)
    requires v'.shown == if outcome.Shown? then v.shown + [(outcome.frame, outcome.data)] else v.shown
    ensures OnlyOriginals(f, v')
  {
    forall id | id in v'.table.frames || id in v'.table.expected ensures id in f {
      assert id != a.id ==> SameEntry(v.table, v'.table, id);
    }
  }

  /** Shown exactly once and forgotten. */
  predicate OnceAndGone(v: Viewer, id: nat) {
    Times(v.shown, id) == 1 && id !in v.table.frames && id !in v.table.expected
  }

  /** For every trace of packets sent: a frame is shown exactly once and leaves
      no dictionary entry if and only if all its chunks arrived and none of its
      packets came after the last missing one. */
  lemma ExactlyOnceIff(f: Flight, trace: seq<Arrival>, id: nat)
    requires InFlight(f) && AllPossible(f, trace) && id in f
    ensures OnceAndGone(Receive(f, trace), id) <==> Complete(f, trace, id) && Prompt(f, trace, id)
  {
    EveryTrace(f, trace);
    GatheredMeaning(f, trace, id);
    assert FrameInv(f, Gathered(f, trace, id), Receive(f, trace), id);
  }

  /** Over all frames in flight: every complete frame is shown exactly once and
      forgotten if and only if duplicates come only before completion. */
  lemma ExactlyOnceIffLegal(f: Flight, trace: seq<Arrival>)
    requires InFlight(f) && AllPossible(f, trace)
    ensures (forall id :: id in f && Complete(f, trace, id) ==> OnceAndGone(Receive(f, trace), id)) <==> Legal(f, trace)
  {
    forall id | id in f
      ensures OnceAndGone(Receive(f, trace), id) <==> Complete(f, trace, id) && Prompt(f, trace, id)
      ensures Complete(f, trace, id) || Prompt(f, trace, id)
    {
      ExactlyOnceIff(f, trace, id);
      GatheredMeaning(f, trace, id);
    }
  }

  /** Each frame in flight is shown exactly once, with its original bytes, as
      soon as its last chunk is in; a complete frame leaves no dictionary entry
      behind, and nothing else is ever shown. */
  lemma FramesArriveIntact(f: Flight, trace: seq<Arrival>)
    requires InFlight(f) && Legal(f, trace)
    ensures var v := Receive(f, trace);
      && OnlyOriginals(f, v)
      && (forall id :: id in f && Complete(f, trace, id) ==> OnceAndGone(v, id))
      && (forall id :: id in f && !Complete(f, trace, id) ==> Times(v.shown, id) == 0)
  {
    EveryTrace(f, trace);
    ExactlyOnceIffLegal(f, trace);
    forall id | id in f && !Complete(f, trace, id) ensures Times(Receive(f, trace).shown, id) == 0 {
      GatheredMeaning(f, trace, id);
      assert FrameInv(f, Gathered(f, trace, id), Receive(f, trace), id);
    }
  }

  // ------------------------------------------------- one frame sent in order

  function InOrder(id: nat, n: nat): seq<Arrival> {
    seq(n, k requires 0 <= k < n => Arrival(id, k))
  }

  lemma InOrderArrived(id: nat, n: nat)
    ensures Arrived(InOrder(id, n), id) == All(n)
  {
    forall c: nat | c < n ensures c in Arrived(InOrder(id, n), id) {
      assert InOrder(id, n)[c] == Arrival(id, c);
    }
  }

  lemma InOrderComplete(f: Flight, id: nat)
    requires InFlight(f) && id in f
    ensures var trace := InOrder(id, Chunks(|f[id]|));
      AllPossible(f, trace) && Complete(f, trace, id) && Prompt(f, trace, id)
  {
    var n := Chunks(|f[id]|);
    InOrderArrived(id, n);
    forall k | 0 <= k < n ensures OnTime(f, InOrder(id, n), id, k) {
      PrefixIncomplete(id, n, k);
    }
  }

  lemma PrefixIncomplete(id: nat, n: nat, k: nat)
    requires k < n
    ensures Arrived(InOrder(id, n)[..k], id) != All(n)
  {
    assert n - 1 in All(n) && n - 1 !in Arrived(InOrder(id, n)[..k], id);
  }

  lemma InOrderMessages(f: Flight, id: nat)
    requires InFlight(f) && id in f
    ensures var trace := InOrder(id, Chunks(|f[id]|)); AllPossible(f, trace) && Messages(f, trace) == Packets(id, f[id])
  {
    AnnouncedExact(|f[id]|);
  }

  lemma {:induction false} OnlyOne(shown: seq<(nat, Bytes)>, id: nat, data: Bytes)
    requires forall k :: 0 <= k < |shown| ==> shown[k] == (id, data)
    ensures Times(shown, id) == |shown|
  {
    if shown != [] {
      OnlyOne(shown[..|shown| - 1], id, data);
    }
  }

  /** With one frame in flight, what was shown is that frame once per round. */
  lemma ShownAlone(f: Flight, id: nat, trace: seq<Arrival>)
    requires InFlight(f) && AllPossible(f, trace) && f.Keys == {id}
    ensures var v, p := Receive(f, trace), Gathered(f, trace, id);
      && |v.shown| == p.rounds && (forall k :: 0 <= k < p.rounds ==> v.shown[k] == (id, f[id]))
      && Entry(f, p.pending, v.table, id)
  {
    EveryTrace(f, trace);
    var v := Receive(f, trace);
    assert FrameInv(f, Gathered(f, trace, id), v, id);
    forall k | 0 <= k < |v.shown| ensures v.shown[k] == (id, f[id]) {
      assert v.shown[k].0 in f;
    }
    OnlyOne(v.shown, id, f[id]);
  }

  lemma SmallFrameShown(id: nat, data: Bytes)
    requires id < 0x1_0000_0000 && 1 <= Chunks(|data|) <= 65535
    ensures View(Packets(id, data)).shown == [(id, data)]
  {
    var f: Flight := map[id := data];
    InOrderMessages(f, id);
    AloneInOrder(f, id);
  }

  lemma AloneInOrder(f: Flight, id: nat)
    requires InFlight(f) && f.Keys == {id} && AllPossible(f, InOrder(id, Chunks(|f[id]|)))
    ensures Receive(f, InOrder(id, Chunks(|f[id]|))).shown == [(id, f[id])]
  {
    var trace := InOrder(id, Chunks(|f[id]|));
    InOrderComplete(f, id);
    GatheredMeaning(f, trace, id);
    ShownAlone(f, id, trace);
    OneRound(Receive(f, trace).shown, Gathered(f, trace, id), (id, f[id]));
  }

  lemma OneRound(shown: seq<(nat, Bytes)>, p: Progress, frame: (nat, Bytes))
    requires p.rounds == |shown| == 1 && shown[0] == frame
    ensures shown == [frame]
  {
  }

  /** A larger buffer travels as if it had been cut where the 16-bit chunk count wraps. */
  lemma OversizeIsTruncated(id: nat, data: Bytes)
    requires Chunks(|data|) > 65535
    ensures var kept := Announced(|data|) * CHUNK;
      kept < |data| && Packets(id, data) == Packets(id, data[..kept]) && Chunks(kept) == Announced(|data|)
  {
    var t := Announced(|data|);
    var kept := t * CHUNK;
    assert t <= 65535 && kept <= 65535 * CHUNK < |data|;
    assert Chunks(kept) == t;
    forall c | 0 <= c < t ensures Payload(data, c) == Payload(data[..kept], c) {
      assert c * CHUNK + CHUNK <= kept;
    }
    assert Announced(|data[..kept]|) == t;
    assert Packets(id, data) == Packets(id, data[..kept]);
  }

  /** The bytes that the announced chunks cover. */
  function Kept(data: Bytes): Bytes {
    if Announced(|data|) * CHUNK <= |data| then data[..Announced(|data|) * CHUNK] else data
  }

  lemma KeptWhole(data: Bytes)
    ensures Kept(data) == data <==> Chunks(|data|) <= 65535
    ensures Announced(|data|) == 0 && Chunks(|data|) <= 65535 <==> Chunks(|data|) == 0
    ensures Chunks(|Kept(data)|) == Announced(|data|) <= 65535
  {
  }

  /** Every buffer, sent in order to an idle viewer: shown once, cut where the
      16-bit chunk count wraps, or never if the count wraps to zero. */
  lemma OrderedOutcome(id: nat, data: Bytes)
    requires id < 0x1_0000_0000
    ensures View(Packets(id, data)).shown == if Announced(|data|) == 0 then [] else [(id, Kept(data))]
  {
    KeptWhole(data);
    if Chunks(|data|) > 65535 {
      OversizeIsTruncated(id, data);
    }
    if Announced(|data|) > 0 {
      SmallFrameShown(id, Kept(data));
    } else {
      assert Packets(id, data) == [];
    }
  }

  /** Sent in order to an idle viewer, a buffer comes out whole if and only if
      it needs between 1 and 65535 chunks: an empty buffer is never shown, and
      one beyond 16 bits of chunk count is cut short or not shown at all. */
  lemma RoundTripIff(id: nat, data: Bytes)
    requires id < 0x1_0000_0000
    ensures View(Packets(id, data)).shown == [(id, data)] <==> 1 <= Chunks(|data|) <= 65535
  {
    OrderedOutcome(id, data);
    KeptWhole(data);
  }

  /** Why duplicates must come before completion, whatever the number of
      chunks: one packet repeated after the last either shows a one-chunk frame
      twice or leaves an entry that only a second complete set would remove. */
  lemma LateDuplicate(id: nat, data: Bytes, c: nat)
    requires id < 0x1_0000_0000 && 1 <= Chunks(|data|) <= 65535 && c < Chunks(|data|)
    ensures c < |Packets(id, data)|
    ensures var v := View(Packets(id, data) + [Packets(id, data)[c]]);
      if Chunks(|data|) == 1 then v.shown == [(id, data), (id, data)]
      else v.shown == [(id, data)] && id in v.table.frames && v.table.frames[id] == map[c := Payload(data, c)]
  {
    var f: Flight := map[id := data];
    var trace := InOrder(id, Chunks(|data|)) + [Arrival(id, c)];
    LateMessages(f, id, c, trace);
    LateShown(f, id, c, trace);
  }

  lemma LateMessages(f: Flight, id: nat, c: nat, trace: seq<Arrival>)
    requires InFlight(f) && id in f && c < Chunks(|f[id]|)
    requires trace == InOrder(id, Chunks(|f[id]|)) + [Arrival(id, c)]
    ensures c < |Packets(id, f[id])|
    ensures AllPossible(f, trace) && Messages(f, trace) == Packets(id, f[id]) + [Packets(id, f[id])[c]]
  {
    MessagesAreSent(f, Arrival(id, c));
    InOrderMessages(f, id);
    AppendMessage(f, InOrder(id, Chunks(|f[id]|)), Arrival(id, c));
  }

  lemma AppendMessage(f: Flight, trace: seq<Arrival>, a: Arrival)
    requires AllPossible(f, trace) && Possible(f, a)
    ensures AllPossible(f, trace + [a]) && Messages(f, trace + [a]) == Messages(f, trace) + [Message(f, a)]
  {
  }

  lemma LateShown(f: Flight, id: nat, c: nat, trace: seq<Arrival>)
    requires InFlight(f) && f.Keys == {id} && c < Chunks(|f[id]|)
    requires trace == InOrder(id, Chunks(|f[id]|)) + [Arrival(id, c)] && AllPossible(f, trace)
    ensures var v := Receive(f, trace);
      if Chunks(|f[id]|) == 1 then v.shown == [(id, f[id]), (id, f[id])]
      else v.shown == [(id, f[id])] && id in v.table.frames && v.table.frames[id] == map[c := Payload(f[id], c)]
  {
    LateProgress(f, id, c);
    ShownAlone(f, id, trace);
    LateViewer(f, id, c, Receive(f, trace), Gathered(f, trace, id));
  }

  lemma LateViewer(f: Flight, id: nat, c: nat, v: Viewer, p: Progress)
    requires id in f && c < Chunks(|f[id]|) && (p == Progress({}, 2) || p == Progress({c}, 1))
    requires |v.shown| == p.rounds && (forall k :: 0 <= k < p.rounds ==> v.shown[k] == (id, f[id]))
    requires Entry(f, p.pending, v.table, id)
    ensures p.rounds == 2 ==> v.shown == [(id, f[id]), (id, f[id])]
    ensures p.rounds == 1 ==>
      v.shown == [(id, f[id])] && id in v.table.frames && v.table.frames[id] == map[c := Payload(f[id], c)]
  {
    if p == Progress({c}, 1) {
      assert v.table.frames[id].Keys == {c};
    }
  }

  lemma LateProgress(f: Flight, id: nat, c: nat)
    requires InFlight(f) && id in f && c < Chunks(|f[id]|)
    ensures var n := Chunks(|f[id]|);
      Gathered(f, InOrder(id, n) + [Arrival(id, c)], id) == if n == 1 then Progress({}, 2) else Progress({c}, 1)
  {
    var n := Chunks(|f[id]|);
    var sent := InOrder(id, n);
    assert (sent + [Arrival(id, c)])[..n] == sent;
    InOrderComplete(f, id);
    GatheredMeaning(f, sent, id);
    OneIsAll(c, n);
    assert {} + {c} == {c};
  }

  lemma OneIsAll(c: nat, n: nat)
    requires c < n
    ensures {c} == All(n) <==> n == 1
  {
    if n == 1 {
      assert {c} == All(n);
    } else {
      assert |All(n)| != |{c}|;
    }
  }

  /** The failing buffers exist: an empty one and one of 65536 chunks send
      nothing, one of 65537 chunks shows one chunk. */
  lemma EmptyAndOversize(id: nat) returns (full: Bytes, over: Bytes)
    requires id < 0x1_0000_0000
    ensures Packets(id, []) == [] && View(Packets(id, [])).shown == []
    ensures |full| == 65536 * CHUNK && Packets(id, full) == [] && View(Packets(id, full)).shown == []
    ensures |over| == 65537 * CHUNK && View(Packets(id, over)).shown == [(id, over[..CHUNK])]
  {
    full := Blank(65536 * CHUNK);
    over := Blank(65537 * CHUNK);
    NothingSent(id, []);
    NothingSent(id, full);
    OneChunkShown(id, over);
  }

  lemma NothingSent(id: nat, data: Bytes)
    requires id < 0x1_0000_0000 && (|data| == 0 || |data| == 65536 * CHUNK)
    ensures Packets(id, data) == [] && View(Packets(id, data)).shown == []
  {
    WrappedCount(|data|);
  }

  lemma OneChunkShown(id: nat, data: Bytes)
    requires id < 0x1_0000_0000 && |data| == 65537 * CHUNK
    ensures View(Packets(id, data)).shown == [(id, data[..CHUNK])]
  {
    WrappedCount(|data|);
    OrderedOutcome(id, data);
  }

  lemma WrappedCount(size: nat)
    ensures size == 0 || size == 65536 * CHUNK ==> Announced(size) == 0
    ensures size == 65537 * CHUNK ==> Announced(size) == 1
  {
  }

  function Blank(n: nat): (data: Bytes)
    ensures |data| == n
  {
    seq(n, _ => 0)
  }
}
