/** What a MessageBuilderBase makes of the chunks a MessageChunkManager sends: the framer and
    the builder are each other's inverse. */
module RoundTrip {
  import opened Bytes
  import opened MessageChunk
  import opened FixedChunks
  import opened Framing
  import opened Reassembly

  /** What the builder keeps of a framed body: the bytes from 12 on, which are the extra header
      (left as 0xEF fill by the framer, and not skipped by the builder, whose header reading is
      left to subclasses) followed by the body. */
  function Carried(cfg: Config, body: seq<Byte>): (r: seq<Byte>)
    ensures |r| == cfg.extraHeaderSize + |body|
  {
    Repeat(FILL, cfg.extraHeaderSize) + body
  }

  function CarriedAll(cfg: Config, bodies: seq<seq<Byte>>): (r: seq<seq<Byte>>)
    ensures |r| == |bodies|
  {
    if bodies == [] then [] else [Carried(cfg, bodies[0])] + CarriedAll(cfg, bodies[1..])
  }

  lemma {:induction false} CarriedAllAppend(cfg: Config, b1: seq<seq<Byte>>, b2: seq<seq<Byte>>)
    ensures CarriedAll(cfg, b1 + b2) == CarriedAll(cfg, b1) + CarriedAll(cfg, b2)
  {
    if b1 == [] {
      assert b1 + b2 == b2;
    } else {
      assert (b1 + b2)[1..] == b1[1..] + b2;
      CarriedAllAppend(cfg, b1[1..], b2);
    }
  }

  /** Without an extra header the builder keeps exactly the bodies. */
  lemma {:induction false} CarriedAllNoExtra(cfg: Config, bodies: seq<seq<Byte>>)
    requires cfg.extraHeaderSize == 0
    ensures CarriedAll(cfg, bodies) == bodies
  {
    if bodies != [] {
      assert Carried(cfg, bodies[0]) == bodies[0];
      CarriedAllNoExtra(cfg, bodies[1..]);
    }
  }

  /** A chunk framed with `C` or `F` passes the builder's checks, which append its carried body;
      `F` then emits every block so far. */
  lemma FeedFramed(cfg: Config, b: Builder, marker: Byte, body: seq<Byte>)
    requires ConfigValid(cfg) && |body| <= BodySize(cfg) && BuilderValid(b)
    requires marker == CONTINUATION || marker == FINAL
    ensures var blocks := b.blocks + [Carried(cfg, body)];
      BuilderFeed(b, Framed(cfg, marker, body))
        == Success((Builder(blocks, |Flatten(blocks)|), if marker == FINAL then [RawBuffer(Flatten(blocks))] else []))
  {
    var c := Framed(cfg, marker, body);
    FramedLayout(cfg, marker, body);
    var pending := PendingBuffer(cfg, body);
    assert c[HEADER_SIZE..] == pending[HEADER_SIZE..];
    assert pending[HEADER_SIZE..] == Carried(cfg, body);
    FeedData(b, c);
  }

  /** A chunk framed with `A` is accepted and answered with an error; its body is dropped. */
  lemma FeedAborted(cfg: Config, b: Builder, body: seq<Byte>)
    requires ConfigValid(cfg) && |body| <= BodySize(cfg)
    ensures BuilderFeed(b, Framed(cfg, ABORT, body)) == Success((b, [AbortError]))
  {
    FramedLayout(cfg, ABORT, body);
    FeedNoData(b, Framed(cfg, ABORT, body));
  }

  /** A run of `C` chunks appends their carried bodies, in order, and emits nothing. */
  lemma {:induction false} FeedFrames(cfg: Config, b: Builder, bodies: seq<seq<Byte>>, rest: seq<seq<Byte>>, outputs: seq<Output>)
    requires ConfigValid(cfg) && BodiesWithin(bodies, BodySize(cfg)) && BuilderValid(b)
    ensures var blocks := b.blocks + CarriedAll(cfg, bodies);
      FeedAll(b, Frames(cfg, CONTINUATION, bodies) + rest, outputs)
        == FeedAll(Builder(blocks, |Flatten(blocks)|), rest, outputs)
    decreases |bodies|
  {
    if bodies == [] {
      assert b.blocks + CarriedAll(cfg, bodies) == b.blocks;
      assert Frames(cfg, CONTINUATION, bodies) + rest == rest;
    } else {
      var chunks := Frames(cfg, CONTINUATION, bodies) + rest;
      var next := b.blocks + [Carried(cfg, bodies[0])];
      FeedFramed(cfg, b, CONTINUATION, bodies[0]);
      assert chunks[0] == Framed(cfg, CONTINUATION, bodies[0]);
      assert chunks[1..] == Frames(cfg, CONTINUATION, bodies[1..]) + rest;
      assert outputs + [] == outputs;
      FeedFrames(cfg, Builder(next, |Flatten(next)|), bodies[1..], rest, outputs);
      assert next + CarriedAll(cfg, bodies[1..]) == b.blocks + CarriedAll(cfg, bodies);
    }
  }

  /** The carried bodies of a list are those of all but its last body, then the last one's. */
  lemma CarriedAllSnoc(cfg: Config, bodies: seq<seq<Byte>>)
    requires bodies != []
    ensures var n := |bodies| - 1;
      CarriedAll(cfg, bodies) == CarriedAll(cfg, bodies[..n]) + [Carried(cfg, bodies[n])]
  {
    var n := |bodies| - 1;
    CarriedAllAppend(cfg, bodies[..n], [bodies[n]]);
    assert bodies[..n] + [bodies[n]] == bodies;
    assert CarriedAll(cfg, [bodies[n]]) == [Carried(cfg, bodies[n])];
  }

  /** Feeding a single chunk. */
  lemma FeedAllOne(b: Builder, chunk: seq<Byte>, outputs: seq<Output>)
    ensures var fed := BuilderFeed(b, chunk);
      FeedAll(b, [chunk], outputs) == if fed.Failure? then Failure(fed.error) else Success((fed.value.0, outputs + fed.value.1))
  {
    var none: seq<seq<Byte>> := [];
    assert [chunk][1..] == none;
  }

  /** Feeding a whole message to a fresh builder reaches the closing chunk with the carried bodies
      of all the `C` chunks. */
  lemma MessageFedPrefix(cfg: Config, bodies: seq<seq<Byte>>, marker: Byte)
    requires ConfigValid(cfg) && BodiesWithin(bodies, BodySize(cfg)) && bodies != []
    ensures var n := |bodies| - 1; var kept := CarriedAll(cfg, bodies[..n]);
      FeedAll(EMPTY, Message(cfg, bodies, marker), [])
        == FeedAll(Builder(kept, |Flatten(kept)|), [Framed(cfg, marker, bodies[n])], [])
  {
    var n := |bodies| - 1;
    var init := bodies[..n];
    assert BodiesWithin(init, BodySize(cfg));
    FeedFrames(cfg, EMPTY, init, [Framed(cfg, marker, bodies[n])], []);
    assert [] + CarriedAll(cfg, init) == CarriedAll(cfg, init);
  }

  /** Feeding a whole message to a fresh builder: closed with `F`, the builder emits once, every
      carried body put end to end; closed with `A`, it emits only the error and keeps the bodies
      of the `C` chunks. Nothing is refused. */
  lemma MessageReceived(cfg: Config, bodies: seq<seq<Byte>>, marker: Byte)
    requires ConfigValid(cfg) && BodiesWithin(bodies, BodySize(cfg)) && bodies != []
    requires marker == FINAL || marker == ABORT
    ensures var kept := CarriedAll(cfg, if marker == FINAL then bodies else bodies[..|bodies| - 1]);
      FeedAll(EMPTY, Message(cfg, bodies, marker), [])
        == Success((Builder(kept, |Flatten(kept)|), if marker == FINAL then [RawBuffer(Flatten(kept))] else [AbortError]))
  {
    var n := |bodies| - 1;
    var blocks := CarriedAll(cfg, bodies[..n]);
    var b1 := Builder(blocks, |Flatten(blocks)|);
    MessageFedPrefix(cfg, bodies, marker);
    FeedAllOne(b1, Framed(cfg, marker, bodies[n]), []);
    if marker == FINAL {
      FeedFramed(cfg, b1, marker, bodies[n]);
      CarriedAllSnoc(cfg, bodies);
      var full := blocks + [Carried(cfg, bodies[n])];
      var emitted: seq<Output> := [RawBuffer(Flatten(full))];
      assert [] + emitted == emitted;
    } else {
      FeedAborted(cfg, b1, bodies[n]);
      var emitted: seq<Output> := [AbortError];
      assert [] + emitted == emitted;
    }
  }

  /** The round trip. With no extra header, the chunks sent for a message whose writes were
      `inputs` (from a fresh manager, then end()) are accepted by a fresh builder, which emits the
      bytes written, once; nothing written means nothing sent and nothing emitted. With abort()
      instead, the builder emits the error alone. */
  lemma {:induction false} RoundTrip(cfg: Config, buffer: seq<Byte>, inputs: seq<seq<Byte>>, marker: Byte)
    requires ConfigValid(cfg) && cfg.extraHeaderSize == 0 && |buffer| == BodySize(cfg)
    requires forall i :: 0 <= i < |inputs| ==> inputs[i] != []
    requires marker == FINAL || marker == ABORT
    ensures var w := FramerWriteAll(cfg, FramerInit(cfg, buffer), inputs);
      var e := FramerFinish(cfg, w.0, marker);
      var r := FeedAll(EMPTY, w.1 + e.1, []);
      && r.Success?
      && r.value.1 == if inputs == [] then [] else if marker == FINAL then [RawBuffer(Flatten(inputs))] else [AbortError]
  {
    var acc := AccWriteAll(Acc(buffer, 0), inputs);
    var bodies := Blocks(acc.1 + AccEnd(acc.0).1);
    WholeMessage(cfg, buffer, inputs, marker);
    if inputs != [] {
      assert Flatten(inputs) == inputs[0] + Flatten(inputs[1..]);
      assert bodies != [];
      MessageReceived(cfg, bodies, marker);
      CarriedAllNoExtra(cfg, bodies);
    }
  }
}
