/** MessageChunkManager: frames the blocks of a ChunkManager into transport chunks, each a
    12-byte header (plus an optional extra header) in front of one block. The module first
    describes the framer as a value (Framer, FramerWrite, FramerFinish) and proves the layout of
    every chunk and the order of their markers, then gives the class that does the same work on
    buffers. */
module Framing {
  import opened Bytes
  import opened MessageChunk
  import opened FixedChunks

  /** The constructor's arguments, after its defaults are applied. */
  datatype Config = Config(messageSize: nat, msgType: seq<Byte>, secureChannelId: U32, extraHeaderSize: nat)

  /** "HEL", the message type used when none is given. */
  const HEL: seq<Byte> := [0x48, 0x45, 0x4C]

  function SizeOfHeader(cfg: Config): nat
  {
    HEADER_SIZE + cfg.extraHeaderSize
  }

  /** The type is three bytes, the body of a chunk has room for at least one byte (a capacity of 0
      would make the accumulator fall back to 1024-byte blocks and overflow `messageSize`), and a
      chunk length fits the u32 length field. */
  predicate ConfigValid(cfg: Config)
  {
    |cfg.msgType| == 3 && SizeOfHeader(cfg) < cfg.messageSize < 0x1_0000_0000
  }

  /** The constructor's own check, as written: a three-byte type and `messageSize > 12`. It does
      not count the extra header. */
  predicate ConstructorAsserts(messageSize: int, msgType: seq<Byte>)
  {
    |msgType| == 3 && messageSize > HEADER_SIZE
  }

  /** The as-written check lets through a configuration with no room for a body: with
      `messageSize` 16 and a 4-byte extra header the accumulator is asked for 0-byte blocks, falls
      back to 1024-byte ones, and the first block it emits cannot fit a 16-byte chunk, so the
      `chunk` handler's own size assertion fails. ConfigValid, which counts the extra header,
      rules this configuration out. */
  lemma GuardAdmitsOversizedBlocks()
    ensures var cfg := Config(16, HEL, 0, 4);
      && ConstructorAsserts(cfg.messageSize, cfg.msgType)
      && !ConfigValid(cfg)
      && var size := ChunkSizeOf(cfg.messageSize - SizeOfHeader(cfg));
         var w := Run(Acc(Repeat(0, size), 0), None, size, 0, []);
         && |Blocks(w.1)| == 1 && |Blocks(w.1)[0]| == 1024
         && cfg.messageSize < |Blocks(w.1)[0]| + SizeOfHeader(cfg)
  {
    WriteLoopShape(Acc(Repeat(0, 1024), 0), None, 1024);
  }

  /** The capacity of the accumulator: what is left of `messageSize` after the headers. */
  function BodySize(cfg: Config): (n: nat)
    requires ConfigValid(cfg)
    ensures 0 < n && SizeOfHeader(cfg) + n == cfg.messageSize
  {
    cfg.messageSize - SizeOfHeader(cfg)
  }

  /** The pending buffer the `chunk` handler builds for a body block: `mark_buffer` fills it with
      0xEF, then the block is copied in after the headers. */
  function PendingBuffer(cfg: Config, body: seq<Byte>): (r: seq<Byte>)
    ensures |r| == SizeOfHeader(cfg) + |body|
    ensures r[SizeOfHeader(cfg)..] == body
  {
    Repeat(FILL, SizeOfHeader(cfg)) + body
  }

  /** `write_header_and_footer(marker, buf.slice(0, sizeOfHeader), buf.length)`: the first 12
      bytes of `buf` become the header, the rest is left as it is. */
  function Stamp(cfg: Config, marker: Byte, buf: seq<Byte>): (r: seq<Byte>)
    requires ConfigValid(cfg) && HEADER_SIZE <= |buf| < 0x1_0000_0000
    ensures |r| == |buf| && r[HEADER_SIZE..] == buf[HEADER_SIZE..]
  {
    EncodeHeader(cfg.msgType, marker, |buf|, cfg.secureChannelId) + buf[HEADER_SIZE..]
  }

  /** The transport chunk sent for a body block with a given marker. */
  function Framed(cfg: Config, marker: Byte, body: seq<Byte>): (r: seq<Byte>)
    requires ConfigValid(cfg) && |body| <= BodySize(cfg)
    ensures |r| == SizeOfHeader(cfg) + |body| <= cfg.messageSize
    ensures r[3] == marker && r[SizeOfHeader(cfg)..] == body
  {
    var buf := PendingBuffer(cfg, body);
    var r := Stamp(cfg, marker, buf);
    assert r[SizeOfHeader(cfg)..] == r[HEADER_SIZE..][cfg.extraHeaderSize..];
    r
  }

  /** The layout of every chunk sent: the message type, the marker, the chunk's own length (not
      `messageSize`), the secure channel id, the extra header left as 0xEF fill (the
      `before_chunk` handler writes nothing), then the body. The chunk is never longer than
      `messageSize`, and it passes verify_message_chunk. */
  lemma FramedLayout(cfg: Config, marker: Byte, body: seq<Byte>)
    requires ConfigValid(cfg) && |body| <= BodySize(cfg)
    ensures var c := Framed(cfg, marker, body); var h := SizeOfHeader(cfg);
      && |c| == h + |body| <= cfg.messageSize
      && c[..3] == cfg.msgType && c[3] == marker
      && ReadU32LE(c, 4) == |c| && ReadU32LE(c, 8) == cfg.secureChannelId
      && (forall i :: HEADER_SIZE <= i < h ==> c[i] == FILL)
      && c[h..] == body
      && VerifyMessageChunk(c) == Pass
  {
    var h := SizeOfHeader(cfg);
    var buf := PendingBuffer(cfg, body);
    var c := Framed(cfg, marker, body);
    HeaderFieldsReadBack(cfg.msgType, marker, |buf|, cfg.secureChannelId, buf[HEADER_SIZE..]);
    VerifyEncodedChunk(cfg.msgType, marker, |buf|, cfg.secureChannelId, buf[HEADER_SIZE..]);
    forall i | HEADER_SIZE <= i < h
      ensures c[i] == FILL
    {
      assert c[i] == buf[HEADER_SIZE..][i - HEADER_SIZE] == buf[i];
    }
    assert c[h..] == buf[HEADER_SIZE..][h - HEADER_SIZE..];
  }

  /** Every `chunk` event carries a block that fits a chunk body. */
  predicate ChunksWithin(events: seq<Event>, n: nat)
  {
    forall i :: 0 <= i < |events| ==> events[i].Chunk? ==> |events[i].block| <= n
  }

  /** The one pending chunk, as its body. */
  predicate PendingWithin(pending: Option<seq<Byte>>, n: nat)
  {
    pending.Some? ==> |pending.value| <= n
  }

  /** `_sendPendingChunk(marker)`: the pending chunk, if any, stamped with the marker. */
  function Flush(cfg: Config, pending: Option<seq<Byte>>, marker: Byte): (r: seq<seq<Byte>>)
    requires ConfigValid(cfg) && PendingWithin(pending, BodySize(cfg))
    ensures |r| == if pending.Some? then 1 else 0
  {
    if pending.Some? then [Framed(cfg, marker, pending.value)] else []
  }

  /** The `chunk` and `before_chunk` handlers run over the accumulator's events, `sent` being the
      chunks sent so far: a block first sends the pending chunk marked `C`, then becomes the new
      pending chunk; `before_chunk` does nothing. The result is the pending chunk and all the
      chunks sent. */
  function Deliver(cfg: Config, pending: Option<seq<Byte>>, events: seq<Event>, sent: seq<seq<Byte>>): (r: (Option<seq<Byte>>, seq<seq<Byte>>))
    requires ConfigValid(cfg) && PendingWithin(pending, BodySize(cfg)) && ChunksWithin(events, BodySize(cfg))
    ensures PendingWithin(r.0, BodySize(cfg))
    decreases |events|
  {
    if events == [] then (pending, sent)
    else match events[0]
      case BeforeChunk => Deliver(cfg, pending, events[1..], sent)
      case Chunk(block) => Deliver(cfg, Some(block), events[1..], sent + Flush(cfg, pending, CONTINUATION))
  }

  /** The framer as a value: the accumulator and the body of the pending chunk, if any. */
  datatype Framer = Framer(acc: Acc, pending: Option<seq<Byte>>)

  predicate FramerValid(cfg: Config, f: Framer)
  {
    && ConfigValid(cfg)
    && AccValid(f.acc) && |f.acc.chunk| == BodySize(cfg)
    && PendingWithin(f.pending, BodySize(cfg))
  }

  /** The framer as it is built: an empty accumulator over a buffer of BodySize bytes, and no
      pending chunk. */
  function FramerInit(cfg: Config, buffer: seq<Byte>): (f: Framer)
    requires ConfigValid(cfg) && |buffer| == BodySize(cfg)
    ensures FramerValid(cfg, f)
  {
    Framer(Acc(buffer, 0), None)
  }

  /** The blocks a write emits fit a chunk body. */
  lemma WriteChunksWithin(a: Acc, src: Option<seq<Byte>>, length: nat)
    requires AccValid(a)
    ensures ChunksWithin(Run(a, src, length, 0, []).1, |a.chunk|)
  {
    var r := Run(a, src, length, 0, []);
    WriteLoopShape(a, src, length);
    ChunksWithinOfSizes(r.1, |a.chunk|);
  }

  lemma {:induction false} ChunksWithinOfSizes(events: seq<Event>, n: nat)
    requires AllOfSize(Blocks(events), n)
    ensures ChunksWithin(events, n)
  {
    if events != [] {
      var head: seq<Event> := [events[0]];
      assert events == head + events[1..];
      BlocksAppend(head, events[1..]);
      var b1, b2 := Blocks(head), Blocks(events[1..]);
      forall i | 0 <= i < |b2|
        ensures |b2[i]| == n
      {
        assert (b1 + b2)[|b1| + i] == b2[i];
      }
      ChunksWithinOfSizes(events[1..], n);
      forall i | 0 <= i < |events| && events[i].Chunk?
        ensures |events[i].block| <= n
      {
        if i == 0 {
          assert Blocks(head) == [events[0].block] + Blocks([]);
          assert (b1 + b2)[0] == events[0].block;
        } else {
          assert events[i] == events[1..][i - 1];
        }
      }
    }
  }

  /** `write(buffer, length)`: the accumulator's write, its events run through the handlers. */
  function FramerWrite(cfg: Config, f: Framer, src: Option<seq<Byte>>, length: int): (r: Result<(Framer, seq<seq<Byte>>), WriteError>)
    requires FramerValid(cfg, f)
    ensures r.Failure? <==> length == 0
    ensures r.Success? ==> FramerValid(cfg, r.value.0)
  {
    match AccWrite(f.acc, src, length)
    case Failure(e) => Failure(e)
    case Success(w) =>
      WriteChunksWithin(f.acc, src, if length > 0 then length else 0);
      var d := Deliver(cfg, f.pending, w.1, []);
      Success((Framer(w.0, d.0), d.1))
  }

  /** `end()` (marker `F`) and `abort()` (marker `A`): the accumulator's end, its event run
      through the handler, then the pending chunk sent with the marker. */
  function FramerFinish(cfg: Config, f: Framer, marker: Byte): (r: (Framer, seq<seq<Byte>>))
    requires FramerValid(cfg, f)
    ensures FramerValid(cfg, r.0) && r.0.pending == None && r.0.acc.cursor == 0
  {
    var e := AccEnd(f.acc);
    var d := Deliver(cfg, f.pending, e.1, []);
    (Framer(e.0, None), d.1 + Flush(cfg, d.0, marker))
  }

  /** Bodies that each fit a chunk body. */
  predicate BodiesWithin(bodies: seq<seq<Byte>>, n: nat)
  {
    forall i :: 0 <= i < |bodies| ==> |bodies[i]| <= n
  }

  /** The chunks for a list of bodies, all with the same marker. */
  function Frames(cfg: Config, marker: Byte, bodies: seq<seq<Byte>>): (r: seq<seq<Byte>>)
    requires ConfigValid(cfg) && BodiesWithin(bodies, BodySize(cfg))
    ensures |r| == |bodies|
  {
    if bodies == [] then [] else [Framed(cfg, marker, bodies[0])] + Frames(cfg, marker, bodies[1..])
  }

  lemma {:induction false} FramesAppend(cfg: Config, marker: Byte, b1: seq<seq<Byte>>, b2: seq<seq<Byte>>)
    requires ConfigValid(cfg) && BodiesWithin(b1, BodySize(cfg)) && BodiesWithin(b2, BodySize(cfg))
    ensures Frames(cfg, marker, b1 + b2) == Frames(cfg, marker, b1) + Frames(cfg, marker, b2)
  {
    if b1 == [] {
      assert b1 + b2 == b2;
    } else {
      assert (b1 + b2)[1..] == b1[1..] + b2;
      FramesAppend(cfg, marker, b1[1..], b2);
    }
  }

  /** The chunks of a whole message: every body but the last marked `C`, the last one marked
      with the closing marker; no body, no chunk. */
  function Message(cfg: Config, bodies: seq<seq<Byte>>, marker: Byte): (r: seq<seq<Byte>>)
    requires ConfigValid(cfg) && BodiesWithin(bodies, BodySize(cfg))
    ensures |r| == |bodies|
  {
    if bodies == [] then []
    else Frames(cfg, CONTINUATION, bodies[..|bodies| - 1]) + [Framed(cfg, marker, bodies[|bodies| - 1])]
  }

  /** The pending chunk as a list of at most one body. */
  function Queue(pending: Option<seq<Byte>>): seq<seq<Byte>>
  {
    if pending.Some? then [pending.value] else []
  }

  /** What Deliver amounts to, for the bodies `q` (the pending one followed by the blocks of the
      events): every body but the last sent marked `C` after `sent`, the last one left pending. */
  predicate Delivered(cfg: Config, q: seq<seq<Byte>>, sent: seq<seq<Byte>>, r: (Option<seq<Byte>>, seq<seq<Byte>>))
  {
    && ConfigValid(cfg) && BodiesWithin(q, BodySize(cfg))
    && (q == [] ==> r == (None, sent))
    && (q != [] ==> r.0 == Some(q[|q| - 1]) && r.1 == sent + Frames(cfg, CONTINUATION, q[..|q| - 1]))
  }

  lemma BodiesWithinAppend(b1: seq<seq<Byte>>, b2: seq<seq<Byte>>, n: nat)
    requires BodiesWithin(b1, n) && BodiesWithin(b2, n)
    ensures BodiesWithin(b1 + b2, n)
  {
    forall i | 0 <= i < |b1 + b2|
      ensures |(b1 + b2)[i]| <= n
    {
      if i >= |b1| {
        assert (b1 + b2)[i] == b2[i - |b1|];
      }
    }
  }

  /** Delivering a block after the pending chunk: sending the pending chunk first and then going on
      from the block amounts to the same as taking both as the bodies to deliver. */
  lemma DeliveredStep(cfg: Config, pending: Option<seq<Byte>>, block: seq<Byte>, rest: seq<seq<Byte>>, sent: seq<seq<Byte>>, r: (Option<seq<Byte>>, seq<seq<Byte>>))
    requires ConfigValid(cfg) && PendingWithin(pending, BodySize(cfg))
    requires Delivered(cfg, [block] + rest, sent + Flush(cfg, pending, CONTINUATION), r)
    ensures Delivered(cfg, Queue(pending) + ([block] + rest), sent, r)
  {
    var q', q := [block] + rest, Queue(pending) + ([block] + rest);
    BodiesWithinAppend(Queue(pending), q', BodySize(cfg));
    assert Flush(cfg, pending, CONTINUATION) == Frames(cfg, CONTINUATION, Queue(pending));
    assert q[..|q| - 1] == Queue(pending) + q'[..|q'| - 1];
    FramesAppend(cfg, CONTINUATION, Queue(pending), q'[..|q'| - 1]);
  }

  /** Deliver sends every body but the last marked `C`, in order, and keeps the last pending. */
  lemma {:induction false} DeliverShape(cfg: Config, pending: Option<seq<Byte>>, events: seq<Event>, sent: seq<seq<Byte>>)
    requires ConfigValid(cfg) && PendingWithin(pending, BodySize(cfg)) && ChunksWithin(events, BodySize(cfg))
    ensures Delivered(cfg, Queue(pending) + Blocks(events), sent, Deliver(cfg, pending, events, sent))
    decreases |events|
  {
    if events == [] {
      assert Queue(pending) + Blocks(events) == Queue(pending);
    } else {
      match events[0]
      case BeforeChunk =>
        DeliverShape(cfg, pending, events[1..], sent);
        assert Blocks(events) == Blocks(events[1..]);
      case Chunk(block) =>
        DeliverShape(cfg, Some(block), events[1..], sent + Flush(cfg, pending, CONTINUATION));
        assert Blocks(events) == [block] + Blocks(events[1..]);
        DeliveredStep(cfg, pending, block, Blocks(events[1..]), sent, Deliver(cfg, pending, events, sent));
    }
  }

  /** The chunks sent before the call only come first in the result. */
  lemma {:induction false} DeliverSent(cfg: Config, pending: Option<seq<Byte>>, events: seq<Event>, sent: seq<seq<Byte>>)
    requires ConfigValid(cfg) && PendingWithin(pending, BodySize(cfg)) && ChunksWithin(events, BodySize(cfg))
    ensures Deliver(cfg, pending, events, sent).0 == Deliver(cfg, pending, events, []).0
    ensures Deliver(cfg, pending, events, sent).1 == sent + Deliver(cfg, pending, events, []).1
    decreases |events|
  {
    if events != [] {
      match events[0]
      case BeforeChunk =>
        DeliverSent(cfg, pending, events[1..], sent);
        DeliverSent(cfg, pending, events[1..], []);
      case Chunk(block) =>
        var out := Flush(cfg, pending, CONTINUATION);
        DeliverSent(cfg, Some(block), events[1..], sent + out);
        assert [] + out == out;
        DeliverSent(cfg, Some(block), events[1..], out);
        assert (sent + out) + Deliver(cfg, Some(block), events[1..], []).1 == sent + (out + Deliver(cfg, Some(block), events[1..], []).1);
    }
  }

  /** Running the handlers over two lists of events in turn is running them over both. */
  lemma {:induction false} DeliverAppend(cfg: Config, pending: Option<seq<Byte>>, e1: seq<Event>, e2: seq<Event>, sent: seq<seq<Byte>>)
    requires ConfigValid(cfg) && PendingWithin(pending, BodySize(cfg))
    requires ChunksWithin(e1, BodySize(cfg)) && ChunksWithin(e2, BodySize(cfg))
    ensures ChunksWithin(e1 + e2, BodySize(cfg))
    ensures var d := Deliver(cfg, pending, e1, sent);
      Deliver(cfg, pending, e1 + e2, sent) == Deliver(cfg, d.0, e2, d.1)
    decreases |e1|
  {
    if e1 == [] {
      assert e1 + e2 == e2;
    } else {
      assert (e1 + e2)[0] == e1[0];
      assert (e1 + e2)[1..] == e1[1..] + e2;
      match e1[0]
      case BeforeChunk =>
        DeliverAppend(cfg, pending, e1[1..], e2, sent);
      case Chunk(block) =>
        DeliverAppend(cfg, Some(block), e1[1..], e2, sent + Flush(cfg, pending, CONTINUATION));
    }
  }

  /** write(input, input.length) for each input in turn. */
  function FramerWriteAll(cfg: Config, f: Framer, inputs: seq<seq<Byte>>): (r: (Framer, seq<seq<Byte>>))
    requires FramerValid(cfg, f)
    requires forall i :: 0 <= i < |inputs| ==> inputs[i] != []
    ensures FramerValid(cfg, r.0)
    decreases |inputs|
  {
    if inputs == [] then (f, [])
    else
      var w := FramerWrite(cfg, f, Some(inputs[0]), |inputs[0]|).value;
      var rest := FramerWriteAll(cfg, w.0, inputs[1..]);
      (rest.0, w.1 + rest.1)
  }

  /** Several writes run the handlers over all the accumulator's events at once. */
  lemma {:induction false} FramerWriteAllDeliver(cfg: Config, f: Framer, inputs: seq<seq<Byte>>)
    requires FramerValid(cfg, f)
    requires forall i :: 0 <= i < |inputs| ==> inputs[i] != []
    ensures var acc := AccWriteAll(f.acc, inputs);
      && ChunksWithin(acc.1, BodySize(cfg))
      && var d := Deliver(cfg, f.pending, acc.1, []);
         FramerWriteAll(cfg, f, inputs) == (Framer(acc.0, d.0), d.1)
    decreases |inputs|
  {
    var acc := AccWriteAll(f.acc, inputs);
    WriteAllBlockSizes(f.acc, inputs);
    ChunksWithinOfSizes(acc.1, BodySize(cfg));
    if inputs != [] {
      var s := inputs[0];
      var w := Run(f.acc, Some(s), |s|, 0, []);
      WriteChunksWithin(f.acc, Some(s), |s|);
      var d1 := Deliver(cfg, f.pending, w.1, []);
      var f1 := Framer(w.0, d1.0);
      assert FramerWrite(cfg, f, Some(s), |s|) == Success((f1, d1.1));
      var accRest := AccWriteAll(w.0, inputs[1..]);
      assert acc == (accRest.0, w.1 + accRest.1);
      FramerWriteAllDeliver(cfg, f1, inputs[1..]);
      DeliverAppend(cfg, f.pending, w.1, accRest.1, []);
      DeliverSent(cfg, d1.0, accRest.1, d1.1);
    }
  }

  /** Writes from a fresh framer and then the finish run the handlers over all the events of the
      writes and of end(), then send what is left pending with the closing marker. */
  lemma FinishDeliver(cfg: Config, buffer: seq<Byte>, inputs: seq<seq<Byte>>, marker: Byte)
    requires ConfigValid(cfg) && |buffer| == BodySize(cfg)
    requires forall i :: 0 <= i < |inputs| ==> inputs[i] != []
    ensures var w := FramerWriteAll(cfg, FramerInit(cfg, buffer), inputs);
      var e := FramerFinish(cfg, w.0, marker);
      var acc := AccWriteAll(Acc(buffer, 0), inputs);
      var events := acc.1 + AccEnd(acc.0).1;
      && ChunksWithin(events, BodySize(cfg))
      && var d := Deliver(cfg, None, events, []);
         w.1 + e.1 == d.1 + Flush(cfg, d.0, marker)
  {
    var f0 := FramerInit(cfg, buffer);
    var acc := AccWriteAll(f0.acc, inputs);
    var end := AccEnd(acc.0);
    FramerWriteAllDeliver(cfg, f0, inputs);
    var d := Deliver(cfg, None, acc.1, []);
    assert ChunksWithin(end.1, BodySize(cfg));
    var d2 := Deliver(cfg, d.0, end.1, []);
    DeliverAppend(cfg, None, acc.1, end.1, []);
    DeliverSent(cfg, d.0, end.1, d.1);
    assert d.1 + (d2.1 + Flush(cfg, d2.0, marker)) == (d.1 + d2.1) + Flush(cfg, d2.0, marker);
  }

  /** Sending what Deliver left pending with the closing marker completes the message. */
  lemma MessageOfDelivered(cfg: Config, bodies: seq<seq<Byte>>, r: (Option<seq<Byte>>, seq<seq<Byte>>), marker: Byte)
    requires Delivered(cfg, bodies, [], r)
    ensures BodiesWithin(bodies, BodySize(cfg))
    ensures r.1 + Flush(cfg, r.0, marker) == Message(cfg, bodies, marker)
  {
    if bodies != [] {
      assert [] + Frames(cfg, CONTINUATION, bodies[..|bodies| - 1]) == Frames(cfg, CONTINUATION, bodies[..|bodies| - 1]);
    }
  }

  /** Framing a whole message: writes, from a fresh framer, then `end()` (marker `F`) or `abort()`
      (marker `A`). The chunks sent are the message's bodies, in order, every one but the last
      marked `C` and the last one marked with the closing marker; the bodies put end to end are
      the bytes written, every body but the last is a full BodySize block, and nothing written
      means nothing sent. */
  lemma WholeMessage(cfg: Config, buffer: seq<Byte>, inputs: seq<seq<Byte>>, marker: Byte)
    requires ConfigValid(cfg) && |buffer| == BodySize(cfg)
    requires forall i :: 0 <= i < |inputs| ==> inputs[i] != []
    ensures var w := FramerWriteAll(cfg, FramerInit(cfg, buffer), inputs);
      var e := FramerFinish(cfg, w.0, marker);
      var acc := AccWriteAll(Acc(buffer, 0), inputs);
      var bodies := Blocks(acc.1 + AccEnd(acc.0).1);
      && BodiesWithin(bodies, BodySize(cfg))
      && Flatten(bodies) == Flatten(inputs)
      && (forall i :: 0 <= i < |bodies| - 1 ==> |bodies[i]| == BodySize(cfg))
      && w.1 + e.1 == Message(cfg, bodies, marker)
      && (inputs == [] ==> w.1 + e.1 == [])
  {
    var acc := AccWriteAll(Acc(buffer, 0), inputs);
    var events := acc.1 + AccEnd(acc.0).1;
    FinishDeliver(cfg, buffer, inputs, marker);
    DeliverShape(cfg, None, events, []);
    assert Queue(None) + Blocks(events) == Blocks(events);
    MessageOfDelivered(cfg, Blocks(events), Deliver(cfg, None, events, []), marker);
    WritesThenEnd(Acc(buffer, 0), inputs);
    if inputs == [] {
      assert Blocks(events) == [];
    }
  }

  /** mark_buffer: fills the whole buffer with 0xEF. */
  method MarkBuffer(buffer: array<Byte>)
    modifies buffer
    ensures buffer[..] == Repeat(FILL, buffer.Length)
  {
    for i := 0 to buffer.Length
      invariant forall j :: 0 <= j < i ==> buffer[j] == FILL
    {
      buffer[i] := FILL;
    }
  }

  /** Frames the blocks of its ChunkManager into chunks. `pendingChunk` is the one chunk built but
      not yet sent (null when there is none); `chunks` is the log of the chunks sent. */
  class MessageChunkManager {
    ghost const cfg: Config
    const messageSize: nat
    const msgType: seq<Byte>
    const secureChannelId: U32
    const sizeOfHeader: nat
    const bodySize: nat
    const chunkManager: ChunkManager
    var pendingChunk: array?<Byte>
    var chunks: seq<seq<Byte>>

    /** The fields agree with the configuration, the accumulator's blocks are bodySize bytes, and
        the pending chunk, when there is one, is a buffer of its own whose headers are still the
        0xEF fill and whose body fits. */
    ghost predicate Valid()
      reads this, chunkManager, pendingChunk
    {
      && ConfigValid(cfg)
      && messageSize == cfg.messageSize && msgType == cfg.msgType && secureChannelId == cfg.secureChannelId
      && sizeOfHeader == SizeOfHeader(cfg) && bodySize == BodySize(cfg)
      && chunkManager.Valid() && chunkManager.chunkSize == bodySize
      && (pendingChunk != null ==>
            && pendingChunk != chunkManager.chunk
            && sizeOfHeader <= pendingChunk.Length <= messageSize
            && pendingChunk[..sizeOfHeader] == Repeat(FILL, sizeOfHeader))
    }

    /** The body of the pending chunk, if any. */
    ghost function Pending(): (p: Option<seq<Byte>>)
      requires Valid()
      reads this, chunkManager, pendingChunk
      ensures PendingWithin(p, BodySize(cfg))
    {
      if pendingChunk == null then None else Some(pendingChunk[sizeOfHeader..])
    }

    ghost function Model(): (f: Framer)
      requires Valid()
      reads this, chunkManager, chunkManager.chunk, pendingChunk
      ensures FramerValid(cfg, f)
    {
      Framer(chunkManager.State(), Pending())
    }

    /** A missing message type falls back to "HEL"; the accumulator gets blocks of
        messageSize - sizeOfHeader bytes. */
    constructor(messageSize: nat, msgType: seq<Byte>, secureChannelId: U32, extraHeaderSize: nat)
      requires ConfigValid(Config(messageSize, if msgType == [] then HEL else msgType, secureChannelId, extraHeaderSize))
      ensures Valid() && fresh(chunkManager) && fresh(chunkManager.chunk)
      ensures cfg == Config(messageSize, if msgType == [] then HEL else msgType, secureChannelId, extraHeaderSize)
      ensures Model() == FramerInit(cfg, chunkManager.chunk[..])
      ensures chunks == [] && chunkManager.events == []
    {
      var t := if msgType == [] then HEL else msgType;
      cfg := Config(messageSize, t, secureChannelId, extraHeaderSize);
      this.messageSize := messageSize;
      this.msgType := t;
      this.secureChannelId := secureChannelId;
      sizeOfHeader := HEADER_SIZE + extraHeaderSize;
      bodySize := messageSize - (HEADER_SIZE + extraHeaderSize);
      chunkManager := new ChunkManager(messageSize - (HEADER_SIZE + extraHeaderSize));
      pendingChunk := null;
      chunks := [];
    }

    /** write_header_and_footer: the message type, the marker, `length` and the secure channel id
        over the first 12 bytes of `buf`; the rest of `buf` is left alone. */
    method WriteHeaderAndFooter(marker: Byte, buf: array<Byte>, length: U32)
      requires |msgType| == 3 && HEADER_SIZE <= buf.Length
      modifies buf
      ensures buf[..] == EncodeHeader(msgType, marker, length, secureChannelId) + old(buf[HEADER_SIZE..])
    {
      buf[0], buf[1], buf[2] := msgType[0], msgType[1], msgType[2];
      buf[3] := marker;
      var l := U32LE(length);
      buf[4], buf[5], buf[6], buf[7] := l[0], l[1], l[2], l[3];
      var c := U32LE(secureChannelId);
      buf[8], buf[9], buf[10], buf[11] := c[0], c[1], c[2], c[3];
      ghost var header := EncodeHeader(msgType, marker, length, secureChannelId);
      assert header == msgType + [marker] + l + c;
      forall i | 0 <= i < buf.Length
        ensures buf[i] == (header + old(buf[HEADER_SIZE..]))[i]
      {
        if i >= HEADER_SIZE {
          assert (header + old(buf[HEADER_SIZE..]))[i] == old(buf[i]);
        }
      }
    }

    /** _sendPendingChunk: the pending chunk, if any, gets its header with `marker` and is sent;
        the slot is cleared. */
    method SendPendingChunk(marker: Byte)
      requires Valid()
      modifies this, pendingChunk
      ensures Valid() && pendingChunk == null
      ensures chunks == old(chunks) + Flush(cfg, old(Pending()), marker)
      ensures Model() == Framer(old(Model().acc), None)
    {
      if pendingChunk != null {
        ghost var body := pendingChunk[sizeOfHeader..];
        assert pendingChunk[..] == PendingBuffer(cfg, body) by {
          assert pendingChunk[..] == pendingChunk[..sizeOfHeader] + pendingChunk[sizeOfHeader..];
        }
        WriteHeaderAndFooter(marker, pendingChunk, pendingChunk.Length);
        chunks := chunks + [pendingChunk[..]];
        pendingChunk := null;
      }
    }

    /** The `chunk` handler: `messageSize` has room for the block and the headers; the pending
        chunk is sent marked `C`, then a new pending chunk is built, filled with 0xEF, with the
        block copied in after the headers. */
    method OnChunk(block: seq<Byte>)
      requires Valid() && messageSize >= |block| + sizeOfHeader
      modifies this, pendingChunk
      ensures Valid() && pendingChunk != null && fresh(pendingChunk)
      ensures chunks == old(chunks) + Flush(cfg, old(Pending()), CONTINUATION)
      ensures Model() == Framer(old(Model().acc), Some(block))
    {
      SendPendingChunk(CONTINUATION);
      var buf := new Byte[|block| + sizeOfHeader];
      MarkBuffer(buf);
      BufferCopy(block, buf, sizeOfHeader, 0, |block|);
      CopyIntoShape(Repeat(FILL, buf.Length), sizeOfHeader, block, 0, |block|);
      assert buf[..] == Repeat(FILL, sizeOfHeader) + block by {
        assert Repeat(FILL, buf.Length)[..sizeOfHeader] == Repeat(FILL, sizeOfHeader);
        assert block[0..|block|] == block;
      }
      assert buf[..][..sizeOfHeader] == buf[..sizeOfHeader];
      assert buf[..][sizeOfHeader..] == buf[sizeOfHeader..];
      pendingChunk := buf;
    }

    /** The handlers run over `events`, in order: `chunk` events go to OnChunk, `before_chunk`
        events to the empty handler. */
    method DeliverEvents(events: seq<Event>)
      requires Valid() && ChunksWithin(events, bodySize)
      modifies this, pendingChunk
      ensures Valid()
      ensures pendingChunk == null || pendingChunk == old(pendingChunk) || fresh(pendingChunk)
      ensures var d := Deliver(cfg, old(Pending()), events, old(chunks));
        Pending() == d.0 && chunks == d.1
      ensures Model().acc == old(Model().acc)
    {
      for i := 0 to |events|
        invariant Valid()
        invariant pendingChunk == null || pendingChunk == old(pendingChunk) || fresh(pendingChunk)
        invariant chunkManager.State() == old(chunkManager.State())
        invariant Deliver(cfg, old(Pending()), events, old(chunks)) == Deliver(cfg, Pending(), events[i..], chunks)
      {
        assert events[i..][0] == events[i] && events[i..][1..] == events[i + 1..];
        match events[i]
        case BeforeChunk =>
        case Chunk(block) =>
          OnChunk(block);
      }
    }

    /** write(buffer, length): the accumulator's write, with the handlers run over the events it
        fires; a zero length is refused and changes nothing. */
    method Write(buffer: Option<seq<Byte>>, length: int) returns (outcome: Outcome<WriteError>)
      requires Valid()
      modifies this, chunkManager, chunkManager.chunk, pendingChunk
      ensures Valid()
      ensures pendingChunk == null || pendingChunk == old(pendingChunk) || fresh(pendingChunk)
      ensures var r := FramerWrite(cfg, old(Model()), buffer, length);
        && (r.Failure? ==> outcome == Fail(r.error) && Model() == old(Model()) && chunks == old(chunks))
        && (r.Success? ==> outcome == Pass && Model() == r.value.0 && chunks == old(chunks) + r.value.1)
    {
      ghost var f := Model();
      var logged := |chunkManager.events|;
      outcome := chunkManager.Write(buffer, length);
      if outcome.Pass? {
        var fired := chunkManager.events[logged..];
        ghost var w := Run(f.acc, buffer, if length > 0 then length else 0, 0, []);
        assert fired == w.1;
        WriteChunksWithin(f.acc, buffer, if length > 0 then length else 0);
        DeliverEvents(fired);
        DeliverSent(cfg, f.pending, fired, old(chunks));
      }
    }

    /** The shared tail of end() and abort(): the accumulator's end, with the handler run over
        its event, then the pending chunk sent with `marker`. */
    method Finish(marker: Byte)
      requires Valid()
      modifies this, chunkManager, pendingChunk
      ensures Valid() && pendingChunk == null
      ensures var r := FramerFinish(cfg, old(Model()), marker);
        Model() == r.0 && chunks == old(chunks) + r.1
    {
      ghost var f := Model();
      var logged := |chunkManager.events|;
      chunkManager.End();
      var fired := chunkManager.events[logged..];
      ghost var e := AccEnd(f.acc);
      assert fired == e.1;
      DeliverEvents(fired);
      DeliverSent(cfg, f.pending, fired, old(chunks));
      SendPendingChunk(marker);
    }

    /** end(): flush the accumulator and send the last chunk marked `F`. */
    method End()
      requires Valid()
      modifies this, chunkManager, pendingChunk
      ensures Valid() && pendingChunk == null
      ensures var r := FramerFinish(cfg, old(Model()), FINAL);
        Model() == r.0 && chunks == old(chunks) + r.1
    {
      Finish(FINAL);
    }

    /** abort(): flush the accumulator and send the last chunk marked `A`. */
    method Abort()
      requires Valid()
      modifies this, chunkManager, pendingChunk
      ensures Valid() && pendingChunk == null
      ensures var r := FramerFinish(cfg, old(Model()), ABORT);
        Model() == r.0 && chunks == old(chunks) + r.1
    {
      Finish(ABORT);
    }
  }
}
