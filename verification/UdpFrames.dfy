/** The debug-video link: the C sender cuts a frame into numbered chunks, the
    Python viewer collects them per frame id and shows a frame once complete. */
module UdpFrames {

  type Byte = b: int | 0 <= b < 256
  type Bytes = seq<Byte>

  /** CHUNK_DATA_SIZE, the UDP payload less the 8 header bytes. */
  const CHUNK := 1392

  // ------------------------------------------------------------- wire format

  function Pow256(k: nat): nat {
    if k == 0 then 1 else 256 * Pow256(k - 1)
  }

  function ToLittleEndian(n: nat, k: nat): (s: Bytes)
    ensures |s| == k
  {
    if k == 0 then [] else [n % 256] + ToLittleEndian(n / 256, k - 1)
  }

  function FromLittleEndian(s: Bytes): nat {
    if s == [] then 0 else s[0] + 256 * FromLittleEndian(s[1..])
  }

  lemma {:induction false} LittleEndianRoundTrip(n: nat, k: nat)
    requires n < Pow256(k)
    ensures FromLittleEndian(ToLittleEndian(n, k)) == n
  {
    if k > 0 {
      LittleEndianRoundTrip(n / 256, k - 1);
      assert ToLittleEndian(n, k)[1..] == ToLittleEndian(n / 256, k - 1);
    }
  }

  function Packet(frame: nat, chunk: nat, total: nat, payload: Bytes): Bytes {
    ToLittleEndian(frame, 4) + ToLittleEndian(chunk, 2) + ToLittleEndian(total, 2) + payload
  }

  datatype Header = Header(frame: nat, chunk: nat, total: nat)

  /** struct.unpack('<IHH', msg[:8]) */
  function Unpack(msg: Bytes): Header
    requires |msg| >= 8
  {
    Header(FromLittleEndian(msg[..4]), FromLittleEndian(msg[4..6]), FromLittleEndian(msg[6..8]))
  }

  lemma PacketRoundTrip(frame: nat, chunk: nat, total: nat, payload: Bytes)
    requires frame < 0x1_0000_0000 && chunk < 65536 && total < 65536
    ensures var msg := Packet(frame, chunk, total, payload);
      |msg| == 8 + |payload| && Unpack(msg) == Header(frame, chunk, total) && msg[8..] == payload
  {
    var msg := Packet(frame, chunk, total, payload);
    assert Pow256(1) == 256 && Pow256(2) == 65536 && Pow256(3) == 65536 * 256 && Pow256(4) == 0x1_0000_0000;
    LittleEndianRoundTrip(frame, 4);
    LittleEndianRoundTrip(chunk, 2);
    LittleEndianRoundTrip(total, 2);
    assert msg[..4] == ToLittleEndian(frame, 4);
    assert msg[4..6] == ToLittleEndian(chunk, 2);
    assert msg[6..8] == ToLittleEndian(total, 2);
  }

  /** The bytes on the wire: three little-endian fields, then the payload. */
  lemma WireFormat(frame: nat, chunk: nat, total: nat, payload: Bytes)
    requires frame < 0x1_0000_0000 && chunk < 65536 && total < 65536
    ensures var msg := Packet(frame, chunk, total, payload);
      && |msg| == 8 + |payload| && msg[8..] == payload
      && msg[0] == frame % 256 && msg[1] == frame / 256 % 256
      && msg[2] == frame / 65536 % 256 && msg[3] == frame / 16777216
      && msg[4] == chunk % 256 && msg[5] == chunk / 256
      && msg[6] == total % 256 && msg[7] == total / 256
  {
    TwoBytes(chunk);
    TwoBytes(total);
    TwoBytes(frame % 65536);
    FourBytes(frame);
  }

  lemma TwoBytes(n: nat)
    requires n < 65536
    ensures ToLittleEndian(n, 2) == [n % 256, n / 256]
  {
    assert ToLittleEndian(n / 256, 1) == [n / 256 % 256] + ToLittleEndian(n / 256 / 256, 0);
  }

  lemma FourBytes(n: nat)
    requires n < 0x1_0000_0000
    ensures ToLittleEndian(n, 4) == [n % 256, n / 256 % 256, n / 65536 % 256, n / 16777216]
  {
    TwoBytes(n / 65536);
    assert n / 256 / 256 == n / 65536;
    assert ToLittleEndian(n, 4) == [n % 256] + ([n / 256 % 256] + ToLittleEndian(n / 256 / 256, 2));
  }

  // ------------------------------------------------------------------ sender

  /** Chunks a buffer really needs. */
  function Chunks(size: nat): nat {
    (size + CHUNK - 1) / CHUNK
  }

  /** What the uint16_t total_chunks holds. */
  function Announced(size: nat): nat {
    Chunks(size) % 65536
  }

  function Payload(data: Bytes, chunk: nat): Bytes
    requires chunk < Chunks(|data|)
  {
    var offset := chunk * CHUNK;
    if offset + CHUNK > |data| then data[offset..] else data[offset..offset + CHUNK]
  }

  function Packets(frame: nat, data: Bytes): seq<Bytes> {
    seq(Announced(|data|), c requires 0 <= c < Announced(|data|) =>
      Packet(frame, c, Announced(|data|), Payload(data, c)))
  }

  /** Every packet but the last is full, 1400 bytes; together the payloads are the buffer. */
  lemma PacketSizes(frame: nat, data: Bytes, c: nat)
    requires Chunks(|data|) <= 65535 && c < |Packets(frame, data)|
    ensures var p := Packets(frame, data)[c];
      && |Packets(frame, data)| == (|data| + 1391) / 1392
      && |p| == (if 1392 * (c + 1) <= |data| then 1400 else 8 + |data| - 1392 * c)
      && p[8..] == if 1392 * (c + 1) <= |data| then data[1392 * c..1392 * (c + 1)] else data[1392 * c..]
  {
  }

  class Sender {
    var frameId: nat

    constructor ()
      ensures frameId == 0
    {
      frameId := 0;
    }

    /** udp_server_send_large; `sent` is what went to the socket, in order. */
    method SendLarge(data: Bytes) returns (sent: seq<Bytes>)
      requires frameId < 0x1_0000_0000
      modifies this
      ensures sent == Packets(old(frameId), data)
      ensures frameId == (old(frameId) + 1) % 0x1_0000_0000
    {
      var total := Announced(|data|);
      sent := [];
      var chunk := 0;
      while chunk < total
        invariant 0 <= chunk <= total && frameId == old(frameId)
        invariant sent == Packets(frameId, data)[..chunk]
      {
        var packet, length := BuildPacket(frameId, chunk, total, data);
        sent := sent + [packet[..length]];
        chunk := chunk + 1;
      }
      frameId := (frameId + 1) % 0x1_0000_0000;
    }
  }

  /** Fill one packet buffer. */
  method BuildPacket(frame: nat, chunk: nat, total: nat, data: Bytes) returns (packet: array<Byte>, length: nat)
    requires chunk < Chunks(|data|)
    ensures fresh(packet) && length <= packet.Length == 1400
    ensures packet[..length] == Packet(frame, chunk, total, Payload(data, chunk))
  {
    packet := new Byte[1400];
    WriteHeader(packet, frame, chunk, total);
    var offset := chunk * CHUNK;
    var size := if offset + CHUNK > |data| then |data| - offset else CHUNK;
    PayloadRange(data, chunk, offset, size);
    CopyBytes(packet, 8, data[offset..offset + size]);
    length := size + 8;
  }

  lemma PayloadRange(data: Bytes, chunk: nat, offset: nat, size: nat)
    requires chunk < Chunks(|data|) && offset == chunk * CHUNK
    requires size == if offset + CHUNK > |data| then |data| - offset else CHUNK
    ensures offset + size <= |data| && size <= CHUNK && data[offset..offset + size] == Payload(data, chunk)
  {
  }

  method WriteHeader(packet: array<Byte>, frame: nat, chunk: nat, total: nat)
    requires packet.Length >= 8
    modifies packet
    ensures packet[..8] == ToLittleEndian(frame, 4) + ToLittleEndian(chunk, 2) + ToLittleEndian(total, 2)
  {
    CopyBytes(packet, 0, ToLittleEndian(frame, 4));
    assert packet[..4] == ToLittleEndian(frame, 4);
    CopyBytes(packet, 4, ToLittleEndian(chunk, 2));
    CopyBytes(packet, 6, ToLittleEndian(total, 2));
  }

  /** memcpy */
  method CopyBytes(target: array<Byte>, at: nat, source: Bytes)
    requires at + |source| <= target.Length
    modifies target
    ensures target[..at + |source|] == old(target[..at]) + source
  {
    for i := 0 to |source|
      invariant target[..at + i] == old(target[..at]) + source[..i]
    {
      target[at + i] := source[i];
    }
  }

  // ---------------------------------------------------------------- assembler

  /** The dictionaries `frames` and `expected_chunks`. */
  datatype Table = Table(frames: map<nat, map<nat, Bytes>>, expected: map<nat, nat>)

  datatype Outcome =
    | Shown(frame: nat, data: Bytes)
    | Waiting
    | StructError
    | KeyError

  function Join(chunks: map<nat, Bytes>, n: nat): Bytes
    requires forall i: nat :: i < n ==> i in chunks
  {
    if n == 0 then [] else Join(chunks, n - 1) + chunks[n - 1]
  }

  function Remove<V>(m: map<nat, V>, k: nat): map<nat, V> {
    map x | x in m && x != k :: m[x]
  }

  /** The chunk dictionary of a frame after one more packet. */
  function Collected(t: Table, h: Header, payload: Bytes): map<nat, Bytes> {
    (if h.frame in t.frames then t.frames[h.frame] else map[])[h.chunk := payload]
  }

  /** What one decoded packet does to the dictionaries: a full set of wrongly
      numbered chunks raises, after the chunk was stored. */
  function Stored(t: Table, h: Header, payload: Bytes): (Table, Outcome) {
    var chunks := Collected(t, h, payload);
    var more := Table(t.frames[h.frame := chunks], t.expected[h.frame := h.total]);
    if |chunks| != h.total then (more, Waiting)
    else if forall i: nat :: i < h.total ==> i in chunks then
      (Table(Remove(more.frames, h.frame), Remove(more.expected, h.frame)), Shown(h.frame, Join(chunks, h.total)))
    else (more, KeyError)
  }

  /** One packet; a message too short to unpack raises and changes nothing. */
  function Assembled(t: Table, msg: Bytes): (Table, Outcome) {
    if |msg| < 8 then (t, StructError) else Stored(t, Unpack(msg), msg[8..])
  }

  /** b''.join over range(total); a missing number raises. */
  method JoinChunks(chunks: map<nat, Bytes>, total: nat) returns (complete: bool, data: Bytes)
    ensures complete <==> forall i: nat :: i < total ==> i in chunks
    ensures complete ==> data == Join(chunks, total)
  {
    data := [];
    for i := 0 to total
      invariant forall j: nat :: j < i ==> j in chunks
      invariant data == Join(chunks, i)
    {
      if i !in chunks {
        return false, [];
      }
      data := data + chunks[i];
    }
    return true, data;
  }

  class Assembler {
    var frames: map<nat, map<nat, Bytes>>
    var expected: map<nat, nat>

    constructor ()
      ensures Table(frames, expected) == Table(map[], map[])
    {
      frames, expected := map[], map[];
    }

    /** assemble_frame */
    method AssembleFrame(msg: Bytes) returns (outcome: Outcome)
      modifies this
      ensures (Table(frames, expected), outcome) == Assembled(old(Table(frames, expected)), msg)
    {
      if |msg| < 8 {
        return StructError;
      }
      var h := Unpack(msg);
      if h.frame !in frames {
        frames := frames[h.frame := map[]];
      }
      var chunks: map<nat, Bytes> := frames[h.frame];
      frames := frames[h.frame := chunks[h.chunk := msg[8..]]];
      assert frames == old(frames)[h.frame := Collected(old(Table(frames, expected)), h, msg[8..])];
      expected := expected[h.frame := h.total];
      if |frames[h.frame]| != expected[h.frame] {
        return Waiting;
      }
      var complete, data := JoinChunks(frames[h.frame], h.total);
      if !complete {
        return KeyError;
      }
      outcome := Shown(h.frame, data);
      frames := Remove(frames, h.frame);
      expected := Remove(expected, h.frame);
    }
  }
}
