/**
 * Packet-aligned passthrough of an MPEG transport stream (app/server.py, stream_ts).
 *
 * The upstream body arrives as a sequence of chunks whose boundaries have
 * nothing to do with packet boundaries. The framer appends each chunk to a
 * buffer, discards bytes in front of the first sync byte and emits only whole
 * 188-byte packets that start with sync_byte 0x47 (transport packet of
 * ISO/IEC 13818-1, section 2.4.3.2).
 */
module TsFramer {
  import opened Wrappers

  newtype Byte = b: int | 0 <= b < 256

  const PacketSize: nat := 188
  const SyncByte: Byte := 0x47
  const HttpOk: int := 200

  predicate IsTsPacket(p: seq<Byte>) {
    |p| == PacketSize && p[0] == SyncByte
  }

  predicate NoSync(s: seq<Byte>) {
    forall j :: 0 <= j < |s| ==> s[j] != SyncByte
  }

  /** bytearray.find(0x47): the index of the first sync byte, if there is one. */
  function FindSync(buf: seq<Byte>): (r: Option<nat>)
    ensures r.None? <==> NoSync(buf)
    ensures r.Some? ==> r.value < |buf| && buf[r.value] == SyncByte && NoSync(buf[..r.value])
  {
    if buf == [] then None
    else if buf[0] == SyncByte then Some(0)
    else match FindSync(buf[1..])
      case None => None
      case Some(i) =>
        assert buf[1..][..i] == buf[1..i + 1];
        Some(i + 1)
  }

  /** One step of the framer's output, in input order: a discarded run or an emitted packet. */
  datatype Piece = Dropped(bytes: seq<Byte>) | Sent(bytes: seq<Byte>)

  predicate PieceOk(p: Piece) {
    match p
    case Dropped(b) => b != [] && NoSync(b)
    case Sent(b) => IsTsPacket(b)
  }

  /** The pieces of a drain, followed by what stays buffered. */
  datatype Drained = Drained(pieces: seq<Piece>, rest: seq<Byte>)

  /** All bytes of the pieces, in order. */
  function Flatten(ps: seq<Piece>): seq<Byte> {
    if ps == [] then [] else ps[0].bytes + Flatten(ps[1..])
  }

  /** The emitted packets, in order. */
  function Packets(ps: seq<Piece>): seq<seq<Byte>> {
    if ps == [] then []
    else (if ps[0].Sent? then [ps[0].bytes] else []) + Packets(ps[1..])
  }

  /** All discarded bytes, in order. */
  function DroppedBytes(ps: seq<Piece>): seq<Byte> {
    if ps == [] then []
    else (if ps[0].Dropped? then ps[0].bytes else []) + DroppedBytes(ps[1..])
  }

  lemma {:induction false} FlattenAppend(a: seq<Piece>, b: seq<Piece>)
    ensures Flatten(a + b) == Flatten(a) + Flatten(b)
    ensures Packets(a + b) == Packets(a) + Packets(b)
    ensures DroppedBytes(a + b) == DroppedBytes(a) + DroppedBytes(b)
  {
    FlattenAppendBytes(a, b);
    PacketsAppend(a, b);
    DroppedAppend(a, b);
  }

  lemma {:induction false} FlattenAppendBytes(a: seq<Piece>, b: seq<Piece>)
    ensures Flatten(a + b) == Flatten(a) + Flatten(b)
  {
    if a == [] {
      assert a + b == b;
    } else {
      assert (a + b)[1..] == a[1..] + b;
      FlattenAppendBytes(a[1..], b);
      SeqAssoc(a[0].bytes, Flatten(a[1..]), Flatten(b));
    }
  }

  lemma {:induction false} PacketsAppend(a: seq<Piece>, b: seq<Piece>)
    ensures Packets(a + b) == Packets(a) + Packets(b)
  {
    if a == [] {
      assert a + b == b;
    } else {
      assert (a + b)[1..] == a[1..] + b;
      PacketsAppend(a[1..], b);
      SeqAssoc(if a[0].Sent? then [a[0].bytes] else [], Packets(a[1..]), Packets(b));
    }
  }

  lemma {:induction false} DroppedAppend(a: seq<Piece>, b: seq<Piece>)
    ensures DroppedBytes(a + b) == DroppedBytes(a) + DroppedBytes(b)
  {
    if a == [] {
      assert a + b == b;
    } else {
      assert (a + b)[1..] == a[1..] + b;
      DroppedAppend(a[1..], b);
      SeqAssoc(if a[0].Dropped? then a[0].bytes else [], DroppedBytes(a[1..]), DroppedBytes(b));
    }
  }

  /**
   * Pieces are well framed when each is well formed and every discarded run
   * is followed by an emitted packet or ends the drain with the buffer either
   * cleared or starting at a sync byte: only the bytes in front of the next
   * sync byte are ever thrown away.
   */
  predicate Framed(ps: seq<Piece>, rest: seq<Byte>) {
    if ps == [] then true
    else
      && PieceOk(ps[0])
      && (ps[0].Dropped? ==>
            if |ps| == 1 then rest == [] || rest[0] == SyncByte else ps[1].Sent?)
      && Framed(ps[1..], rest)
  }

  lemma {:induction false} FramedOk(ps: seq<Piece>, rest: seq<Byte>)
    requires Framed(ps, rest)
    ensures forall k :: 0 <= k < |ps| ==> PieceOk(ps[k])
  {
    if ps != [] {
      FramedOk(ps[1..], rest);
    }
  }

  /**
   * The inner `while len(buffer) >= TS_PACKET_SIZE` loop of stream_ts applied
   * to one buffer, as a function: a buffer shorter than a packet is left
   * alone; one without a sync byte is discarded whole; otherwise the bytes in
   * front of the first sync byte are dropped and Emit goes on from there.
   */
  function Drain(buf: seq<Byte>): (d: Drained)
    ensures |d.rest| < PacketSize
    ensures |buf| < PacketSize ==> d == Drained([], buf)
    decreases |buf|, 1
  {
    if |buf| < PacketSize then Drained([], buf)
    else match FindSync(buf)
      case None => Drained([Dropped(buf)], [])
      case Some(i) =>
        var e := Emit(buf[i..]);
        Drained((if i > 0 then [Dropped(buf[..i])] else []) + e.pieces, e.rest)
  }

  /** The rest of the loop on a buffer that starts at a sync byte: emit one packet if whole. */
  function Emit(aligned: seq<Byte>): (d: Drained)
    ensures |d.rest| < PacketSize
    decreases |aligned|, 0
  {
    if |aligned| < PacketSize then Drained([], aligned)
    else
      var d := Drain(aligned[PacketSize..]);
      Drained([Sent(aligned[..PacketSize])] + d.pieces, d.rest)
  }

  /**
   * Draining loses and invents nothing: the discarded runs, the emitted
   * packets and the residue are the buffer, in order, and they are well framed.
   */
  lemma {:induction false} DrainSound(buf: seq<Byte>)
    ensures Flatten(Drain(buf).pieces) + Drain(buf).rest == buf
    ensures Framed(Drain(buf).pieces, Drain(buf).rest)
    decreases |buf|, 1
  {
    if |buf| >= PacketSize {
      match FindSync(buf)
      case None =>
        assert Flatten([Dropped(buf)]) == buf + Flatten([]);
      case Some(i) =>
        EmitSound(buf[i..]);
        var e := Emit(buf[i..]);
        SkipSound(buf[..i], e.pieces, e.rest);
        assert buf == buf[..i] + buf[i..];
    }
  }

  lemma {:induction false} EmitSound(aligned: seq<Byte>)
    requires aligned != [] && aligned[0] == SyncByte
    ensures var e := Emit(aligned);
      && Flatten(e.pieces) + e.rest == aligned
      && Framed(e.pieces, e.rest)
      && (if e.pieces == [] then e.rest != [] && e.rest[0] == SyncByte else e.pieces[0].Sent?)
    decreases |aligned|, 0
  {
    if |aligned| >= PacketSize {
      var packet := aligned[..PacketSize];
      var inner := Drain(aligned[PacketSize..]);
      DrainSound(aligned[PacketSize..]);
      PacketSound(packet, inner.pieces, inner.rest);
      var tailBytes := Flatten(inner.pieces);
      calc {
        Flatten([Sent(packet)] + inner.pieces) + inner.rest;
        (packet + tailBytes) + inner.rest;
        { SeqAssoc(packet, tailBytes, inner.rest); }
        packet + (tailBytes + inner.rest);
        packet + aligned[PacketSize..];
        { assert aligned == packet + aligned[PacketSize..]; }
        aligned;
      }
    }
  }

  lemma SeqAssoc<T>(a: seq<T>, b: seq<T>, c: seq<T>)
    ensures (a + b) + c == a + (b + c)
  {
  }

  /** Putting an emitted packet in front of well-framed pieces. */
  lemma PacketSound(packet: seq<Byte>, ps: seq<Piece>, rest: seq<Byte>)
    requires IsTsPacket(packet) && Framed(ps, rest)
    ensures Framed([Sent(packet)] + ps, rest)
    ensures Flatten([Sent(packet)] + ps) == packet + Flatten(ps)
  {
    assert ([Sent(packet)] + ps)[1..] == ps;
  }

  /**
   * Putting the run in front of the first sync byte before the pieces that
   * follow it (nothing when the run is empty).
   */
  lemma SkipSound(skip: seq<Byte>, ps: seq<Piece>, rest: seq<Byte>)
    requires NoSync(skip)
    requires if ps == [] then rest != [] && rest[0] == SyncByte else ps[0].Sent?
    requires Framed(ps, rest)
    ensures var pieces := (if skip != [] then [Dropped(skip)] else []) + ps;
      Framed(pieces, rest) && Flatten(pieces) + rest == skip + (Flatten(ps) + rest)
  {
    var skipped := if skip != [] then [Dropped(skip)] else [];
    assert Flatten(skipped) == skip by {
      if skip != [] { assert Flatten(skipped) == skip + Flatten([]); }
    }
    FlattenAppend(skipped, ps);
    if skip != [] {
      assert (skipped + ps)[1..] == ps;
    } else {
      assert skipped + ps == ps;
    }
  }

  /** A buffer of at least one packet's length without a sync byte is discarded whole. */
  lemma DrainNoSync(buf: seq<Byte>)
    requires |buf| >= PacketSize && NoSync(buf)
    ensures Drain(buf) == Drained([Dropped(buf)], [])
    ensures Packets(Drain(buf).pieces) == [] && Drain(buf).rest == []
  {
    assert Packets([Dropped(buf)]) == [] + Packets([]);
  }

  /**
   * Otherwise only the bytes in front of the first sync byte are dropped:
   * draining the buffer emits what draining its aligned suffix emits.
   */
  lemma DrainSkip(buf: seq<Byte>, i: nat)
    requires |buf| >= PacketSize && FindSync(buf) == Some(i) && i > 0
    ensures Drain(buf).pieces[0] == Dropped(buf[..i])
    ensures Packets(Drain(buf).pieces) == Packets(Drain(buf[i..]).pieces)
    ensures Drain(buf).rest == Drain(buf[i..]).rest
  {
    var aligned := buf[i..];
    var e := Emit(aligned);
    var dropped := [Dropped(buf[..i])];
    assert Packets(dropped) == [] + Packets([]);
    PacketsAppend(dropped, e.pieces);
    assert Drain(buf) == Drained(dropped + e.pieces, e.rest);
    if |aligned| >= PacketSize {
      assert FindSync(aligned) == Some(0);
      assert Drain(aligned) == Drained([] + e.pieces, e.rest);
      assert [] + e.pieces == e.pieces;
    }
  }

  /** A buffer that starts with a sync byte and holds a whole packet emits that packet first. */
  lemma DrainEmit(buf: seq<Byte>)
    requires |buf| >= PacketSize && buf[0] == SyncByte
    ensures Packets(Drain(buf).pieces) == [buf[..PacketSize]] + Packets(Drain(buf[PacketSize..]).pieces)
    ensures Drain(buf).rest == Drain(buf[PacketSize..]).rest
  {
    assert FindSync(buf) == Some(0);
    assert buf[0..] == buf;
    var inner := Drain(buf[PacketSize..]);
    var sent := [Sent(buf[..PacketSize])];
    assert Drain(buf) == Drained([] + (sent + inner.pieces), inner.rest);
    assert [] + (sent + inner.pieces) == sent + inner.pieces;
    PacketsAppend(sent, inner.pieces);
    assert Packets(sent) == [buf[..PacketSize]] + Packets([]);
  }

  /** Appending one chunk to the buffer and draining it; empty chunks are skipped. */
  function Feed(buffer: seq<Byte>, chunk: seq<Byte>): Drained {
    if chunk == [] then Drained([], buffer) else Drain(buffer + chunk)
  }

  lemma FeedSound(buffer: seq<Byte>, chunk: seq<Byte>)
    ensures Flatten(Feed(buffer, chunk).pieces) + Feed(buffer, chunk).rest == buffer + chunk
    ensures forall k :: 0 <= k < |Feed(buffer, chunk).pieces| ==> PieceOk(Feed(buffer, chunk).pieces[k])
  {
    if chunk != [] {
      DrainSound(buffer + chunk);
      FramedOk(Drain(buffer + chunk).pieces, Drain(buffer + chunk).rest);
    }
  }

  /** The chunks of the upstream body, joined. */
  function Concat(chunks: seq<seq<Byte>>): seq<Byte> {
    if chunks == [] then [] else Concat(chunks[..|chunks| - 1]) + chunks[|chunks| - 1]
  }

  /** The framer after the whole upstream body: every piece produced and the final buffer. */
  function FeedAll(chunks: seq<seq<Byte>>): (d: Drained)
    ensures |d.rest| < PacketSize
  {
    if chunks == [] then Drained([], [])
    else
      var prev := FeedAll(chunks[..|chunks| - 1]);
      var step := Feed(prev.rest, chunks[|chunks| - 1]);
      Drained(prev.pieces + step.pieces, step.rest)
  }

  /**
   * Byte conservation over a whole stream: the received bytes are exactly the
   * discarded runs and the emitted packets, in order, followed by the residue.
   */
  lemma {:induction false} FeedAllSound(chunks: seq<seq<Byte>>)
    ensures Flatten(FeedAll(chunks).pieces) + FeedAll(chunks).rest == Concat(chunks)
    ensures forall k :: 0 <= k < |FeedAll(chunks).pieces| ==> PieceOk(FeedAll(chunks).pieces[k])
  {
    if chunks != [] {
      var init := chunks[..|chunks| - 1];
      var last := chunks[|chunks| - 1];
      var prev := FeedAll(init);
      var step := Feed(prev.rest, last);
      FeedAllSound(init);
      FeedSound(prev.rest, last);
      FlattenAppend(prev.pieces, step.pieces);
      assert FeedAll(chunks) == Drained(prev.pieces + step.pieces, step.rest);
      calc {
        Flatten(prev.pieces + step.pieces) + step.rest;
        (Flatten(prev.pieces) + Flatten(step.pieces)) + step.rest;
        { SeqAssoc(Flatten(prev.pieces), Flatten(step.pieces), step.rest); }
        Flatten(prev.pieces) + (Flatten(step.pieces) + step.rest);
        Flatten(prev.pieces) + (prev.rest + last);
        { SeqAssoc(Flatten(prev.pieces), prev.rest, last); }
        (Flatten(prev.pieces) + prev.rest) + last;
        Concat(init) + last;
      }
      AllOkAppend(prev.pieces, step.pieces);
    }
  }

  /** Byte counts: every piece is either a discarded run or a whole packet. */
  lemma {:induction false} FlattenLength(ps: seq<Piece>)
    requires forall k :: 0 <= k < |ps| ==> PieceOk(ps[k])
    ensures |Flatten(ps)| == PacketSize * |Packets(ps)| + |DroppedBytes(ps)|
  {
    if ps != [] {
      FlattenLength(ps[1..]);
    }
  }

  /**
   * Conservation as the stream's byte counters see it: bytes received equal
   * bytes emitted plus bytes discarded plus bytes still buffered.
   */
  lemma ByteCount(chunks: seq<seq<Byte>>)
    ensures var d := FeedAll(chunks);
      |Concat(chunks)| == PacketSize * |Packets(d.pieces)| + |DroppedBytes(d.pieces)| + |d.rest|
  {
    FeedAllSound(chunks);
    FlattenLength(FeedAll(chunks).pieces);
  }

  lemma AllOkAppend(a: seq<Piece>, b: seq<Piece>)
    requires forall k :: 0 <= k < |a| ==> PieceOk(a[k])
    requires forall k :: 0 <= k < |b| ==> PieceOk(b[k])
    ensures forall k :: 0 <= k < |a + b| ==> PieceOk((a + b)[k])
  {
    forall k | 0 <= k < |a + b| ensures PieceOk((a + b)[k]) {
      if k < |a| {
        assert (a + b)[k] == a[k];
      } else {
        assert (a + b)[k] == b[k - |a|];
      }
    }
  }

  /** What a client receives: nothing unless upstream answered 200, else the framed packets. */
  function FrameStream(status: int, chunks: seq<seq<Byte>>): seq<seq<Byte>> {
    if status != HttpOk then [] else Packets(FeedAll(chunks).pieces)
  }

  /** The final `while len(buffer) >= TS_PACKET_SIZE` flush loop, as a function. */
  function Blocks(buf: seq<Byte>): seq<seq<Byte>>
    decreases |buf|
  {
    if |buf| < PacketSize then [] else [buf[..PacketSize]] + Blocks(buf[PacketSize..])
  }

  lemma {:induction false} PacketsOk(ps: seq<Piece>)
    requires forall k :: 0 <= k < |ps| ==> PieceOk(ps[k])
    ensures forall k :: 0 <= k < |Packets(ps)| ==> IsTsPacket(Packets(ps)[k])
  {
    if ps != [] {
      PacketsOk(ps[1..]);
    }
  }

  /** One more chunk: the framer's output grows by what draining that chunk emits. */
  lemma FeedAllStep(chunks: seq<seq<Byte>>, n: nat)
    requires n < |chunks|
    ensures var prev := FeedAll(chunks[..n]);
      var step := Feed(prev.rest, chunks[n]);
      && FeedAll(chunks[..n + 1]).rest == step.rest
      && Packets(FeedAll(chunks[..n + 1]).pieces) == Packets(prev.pieces) + Packets(step.pieces)
  {
    assert chunks[..n + 1][..n] == chunks[..n];
    var prev := FeedAll(chunks[..n]);
    FlattenAppend(prev.pieces, Feed(prev.rest, chunks[n]).pieces);
  }

  /**
   * The inner loop of stream_ts: while a packet's worth is buffered, drop
   * the bytes before the next sync byte (all of them when there is none),
   * then send the packet at the front.
   */
  method DrainBuffer(start: seq<Byte>) returns (sent: seq<seq<Byte>>, buffer: seq<Byte>)
    ensures sent == Packets(Drain(start).pieces) && buffer == Drain(start).rest
  {
    sent, buffer := [], start;
    while |buffer| >= PacketSize
      invariant sent + Packets(Drain(buffer).pieces) == Packets(Drain(start).pieces)
      invariant Drain(buffer).rest == Drain(start).rest
      decreases |buffer|
    {
      var sync := FindSync(buffer);
      if sync.None? {
        DrainNoSync(buffer);
        buffer := [];
        break;
      }
      if sync.value > 0 {
        DrainSkip(buffer, sync.value);
        buffer := buffer[sync.value..];
      }
      if |buffer| < PacketSize {
        break;
      }
      var packet := buffer[..PacketSize];
      DrainEmit(buffer);
      SeqAssoc(sent, [packet], Packets(Drain(buffer[PacketSize..]).pieces));
      buffer := buffer[PacketSize..];
      sent := sent + [packet];
    }
  }

  /**
   * stream_ts as written: one pass over the upstream chunks with the buffer
   * drained after every non-empty chunk, then the final flush.
   */
  method StreamTs(status: int, chunks: seq<seq<Byte>>) returns (packets: seq<seq<Byte>>)
    ensures packets == FrameStream(status, chunks)
    ensures forall k :: 0 <= k < |packets| ==> IsTsPacket(packets[k])
    ensures status != HttpOk ==> packets == []
  {
    packets := [];
    if status != HttpOk {
      return;
    }
    var buffer: seq<Byte> := [];
    for n := 0 to |chunks|
      invariant FeedAll(chunks[..n]).rest == buffer
      invariant Packets(FeedAll(chunks[..n]).pieces) == packets
    {
      var chunk := chunks[n];
      FeedAllStep(chunks, n);
      if chunk == [] {
        continue;
      }
      var sent;
      sent, buffer := DrainBuffer(buffer + chunk);
      packets := packets + sent;
    }
    assert chunks[..|chunks|] == chunks;
    FeedAllSound(chunks);
    // The final flush (app/server.py:374-378) emits every whole block still
    // buffered; the residue is shorter than a packet, so it emits nothing.
    packets := packets + Blocks(buffer);
    assert Blocks(buffer) == [] && packets == Packets(FeedAll(chunks).pieces) + [];
    PacketsOk(FeedAll(chunks).pieces);
  }
}
