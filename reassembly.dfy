/** MessageBuilderBase: puts the bodies of inbound chunks back together. The module first
    describes the builder as a value (Builder, BuilderAppend, BuilderFeed) and proves what feeding does with
    each kind of chunk, then gives the class that does the same work in place. */
module Reassembly {
  import opened Bytes
  import opened MessageChunk

  /** What the builder emits: `raw_buffer` with a whole message, or `error` on an abort chunk. */
  datatype Output = RawBuffer(data: seq<Byte>) | AbortError

  /** The builder as a value: the bodies received so far and the running total of their sizes. */
  datatype Builder = Builder(blocks: seq<seq<Byte>>, totalSize: nat)

  /** A fresh builder: no blocks, a total of 0. */
  const EMPTY: Builder := Builder([], 0)

  /** `total_size` is the length of the bodies put end to end. */
  predicate BuilderValid(b: Builder)
  {
    b.totalSize == |Flatten(b.blocks)|
  }

  /** _append: reads the three u32 header words (a chunk shorter than 12 bytes cannot hold them),
      refuses a chunk whose length word is not its length, and otherwise keeps a copy of the body,
      the bytes from 12 on, adding its size to the total. */
  function BuilderAppend(b: Builder, chunk: seq<Byte>): (r: Result<Builder, ChunkError>)
    ensures r.Failure? <==> |chunk| < HEADER_SIZE || ReadU32LE(chunk, 4) != |chunk|
    ensures r.Failure? && |chunk| >= HEADER_SIZE ==> r.error == LengthMismatch(ReadU32LE(chunk, 4), |chunk|)
  {
    if |chunk| < HEADER_SIZE then Failure(TruncatedHeader(|chunk|))
    else
      var chunkSize := ReadU32LE(chunk, 4);
      if chunkSize != |chunk| then Failure(LengthMismatch(chunkSize, |chunk|))
      else Success(Builder(b.blocks + [chunk[HEADER_SIZE..]], b.totalSize + (chunkSize - HEADER_SIZE)))
  }

  /** feed: dispatches on the chunk type byte. `F` appends, then emits every body received so far
      put end to end; `A` emits an error and appends nothing; `C` appends; any other byte is
      ignored. A header too short to read, or a failed append, is refused. */
  function BuilderFeed(b: Builder, chunk: seq<Byte>): (r: Result<(Builder, seq<Output>), ChunkError>)
    ensures r.Failure? <==>
      || |chunk| < 8
      || ((chunk[3] == CONTINUATION || chunk[3] == FINAL) && (|chunk| < HEADER_SIZE || ReadU32LE(chunk, 4) != |chunk|))
  {
    match ReadMessageHeader(chunk)
    case None => Failure(TruncatedHeader(|chunk|))
    case Some(header) =>
      if header.isFinal == FINAL then
        match BuilderAppend(b, chunk)
        case Failure(e) => Failure(e)
        case Success(next) => Success((next, [RawBuffer(Flatten(next.blocks))]))
      else if header.isFinal == ABORT then Success((b, [AbortError]))
      else if header.isFinal == CONTINUATION then
        match BuilderAppend(b, chunk)
        case Failure(e) => Failure(e)
        case Success(next) => Success((next, []))
      else Success((b, []))
  }

  /** A chunk carrying data (`C` or `F`) adds exactly its body, bytes 12 on, to the blocks, and
      its size to the total; nothing is dropped, not even after `F`. Only `F` emits, and what it
      emits is every body so far, `total_size` bytes long. */
  lemma FeedData(b: Builder, chunk: seq<Byte>)
    requires BuilderValid(b)
    requires |chunk| >= HEADER_SIZE && ReadU32LE(chunk, 4) == |chunk|
    requires chunk[3] == CONTINUATION || chunk[3] == FINAL
    ensures var r := BuilderFeed(b, chunk);
      && r.Success?
      && r.value.0.blocks == b.blocks + [chunk[HEADER_SIZE..]]
      && r.value.0.totalSize == b.totalSize + (|chunk| - HEADER_SIZE)
      && BuilderValid(r.value.0)
      && r.value.1 == (if chunk[3] == FINAL then [RawBuffer(Flatten(r.value.0.blocks))] else [])
      && (chunk[3] == FINAL ==> |Flatten(r.value.0.blocks)| == r.value.0.totalSize)
  {
    FlattenAppend(b.blocks, [chunk[HEADER_SIZE..]]);
    assert Flatten([chunk[HEADER_SIZE..]]) == chunk[HEADER_SIZE..] + Flatten([]);
  }

  /** Any successful feed keeps `total_size` equal to the length of the blocks, and keeps every
      block it already had, in place. */
  lemma FeedKeeps(b: Builder, chunk: seq<Byte>)
    requires BuilderValid(b) && BuilderFeed(b, chunk).Success?
    ensures BuilderValid(BuilderFeed(b, chunk).value.0)
    ensures var blocks := BuilderFeed(b, chunk).value.0.blocks;
      |b.blocks| <= |blocks| && blocks[..|b.blocks|] == b.blocks
  {
    var marker := chunk[3];
    if marker == CONTINUATION || marker == FINAL {
      FeedData(b, chunk);
      assert (b.blocks + [chunk[HEADER_SIZE..]])[..|b.blocks|] == b.blocks;
    }
  }

  /** An abort chunk emits an error and leaves the blocks alone; a chunk with any other type byte
      but `C`, `F` or `A` does nothing at all. */
  lemma FeedNoData(b: Builder, chunk: seq<Byte>)
    requires |chunk| >= 8 && chunk[3] != CONTINUATION && chunk[3] != FINAL
    ensures BuilderFeed(b, chunk) == Success((b, if chunk[3] == ABORT then [AbortError] else []))
  {
  }

  /** Feeding chunks in turn, `outputs` being what was emitted so far; the first refused chunk
      stops the run. */
  function FeedAll(b: Builder, chunks: seq<seq<Byte>>, outputs: seq<Output>): Result<(Builder, seq<Output>), ChunkError>
    decreases |chunks|
  {
    if chunks == [] then Success((b, outputs))
    else match BuilderFeed(b, chunks[0])
      case Failure(e) => Failure(e)
      case Success(r) => FeedAll(r.0, chunks[1..], outputs + r.1)
  }

  /** The builder, in place: `blocks` and `totalSize` are updated by each feed, and `outputs` is the
      log of what it emitted. */
  class MessageBuilderBase {
    var blocks: seq<seq<Byte>>
    var totalSize: nat
    var offsetBodyStart: nat
    var outputs: seq<Output>

    ghost predicate Valid()
      reads this
    {
      BuilderValid(State())
    }

    function State(): Builder
      reads this
    {
      Builder(blocks, totalSize)
    }

    constructor()
      ensures Valid() && State() == EMPTY && outputs == []
    {
      blocks := [];
      totalSize := 0;
      offsetBodyStart := 0;
      outputs := [];
    }

    /** _append: refuses the chunk before changing anything, or pushes a clone of its body. */
    method Append(messageChunk: seq<Byte>) returns (outcome: Outcome<ChunkError>)
      modifies this
      ensures outputs == old(outputs)
      ensures match BuilderAppend(old(State()), messageChunk)
        case Failure(e) => outcome == Fail(e) && State() == old(State())
        case Success(next) => outcome == Pass && State() == next
    {
      if |messageChunk| < HEADER_SIZE {
        return Fail(TruncatedHeader(|messageChunk|));
      }
      var chunkSize := ReadU32LE(messageChunk, 4);
      if chunkSize != |messageChunk| {
        return Fail(LengthMismatch(chunkSize, |messageChunk|));
      }
      offsetBodyStart := HEADER_SIZE;
      totalSize := totalSize + (chunkSize - HEADER_SIZE);
      var shared := messageChunk[HEADER_SIZE..];
      var cloned := new Byte[|shared|];
      ghost var blank := cloned[..];
      BufferCopy(shared, cloned, 0, 0, |shared|);
      CopyIntoShape(blank, 0, shared, 0, |shared|);
      assert cloned[..] == shared by {
        assert shared[0..|shared|] == shared;
      }
      blocks := blocks + [cloned[..]];
      outcome := Pass;
    }

    /** feed: as Feed; a refused chunk changes nothing and emits nothing. */
    method Feed(messageChunk: seq<Byte>) returns (outcome: Outcome<ChunkError>)
      requires Valid()
      modifies this
      ensures Valid()
      ensures match BuilderFeed(old(State()), messageChunk)
        case Failure(e) => outcome == Fail(e) && State() == old(State()) && outputs == old(outputs)
        case Success(r) => outcome == Pass && State() == r.0 && outputs == old(outputs) + r.1
    {
      if |messageChunk| < 8 {
        return Fail(TruncatedHeader(|messageChunk|));
      }
      var isFinal := messageChunk[3];
      if isFinal == FINAL {
        outcome := Append(messageChunk);
        if outcome.Pass? {
          FeedData(old(State()), messageChunk);
          var buf := Flatten(blocks);
          assert |buf| == totalSize;
          outputs := outputs + [RawBuffer(buf)];
        }
      } else if isFinal == ABORT {
        outputs := outputs + [AbortError];
        outcome := Pass;
      } else if isFinal == CONTINUATION {
        outcome := Append(messageChunk);
        if outcome.Pass? {
          FeedData(old(State()), messageChunk);
        }
      } else {
        outcome := Pass;
      }
    }
  }
}
