/** ChunkManager: cuts a stream of writes into blocks of a fixed size. The module first describes
    the accumulator as a value (Acc, AccWrite, AccEnd) and proves what its writes emit, then gives
    the class that does the same work in place on its block buffer. */
module FixedChunks {
  import opened Bytes

  /** What ChunkManager emits: `before_chunk` when a block is about to be started, and `chunk` with
      the block's bytes, as a snapshot. MessageChunkManager's handler, the listener this model
      covers, copies the block before the next write. */
  datatype Event = BeforeChunk | Chunk(block: seq<Byte>)

  /** write(buffer, 0) trips `assert(length != 0)`. */
  datatype WriteError = ZeroLength

  /** The accumulator as a value: the contents of its block buffer and the write cursor. */
  datatype Acc = Acc(chunk: seq<Byte>, cursor: nat)

  /** The block size is |chunk| and the cursor always lies inside the block. */
  predicate AccValid(a: Acc)
  {
    0 < |a.chunk| && a.cursor < |a.chunk|
  }

  /** The blocks carried by the `chunk` events, in order. */
  function Blocks(events: seq<Event>): seq<seq<Byte>>
  {
    if events == [] then []
    else (if events[0].Chunk? then [events[0].block] else []) + Blocks(events[1..])
  }

  lemma {:induction false} BlocksAppend(e1: seq<Event>, e2: seq<Event>)
    ensures Blocks(e1 + e2) == Blocks(e1) + Blocks(e2)
  {
    if e1 == [] {
      assert e1 + e2 == e2;
    } else {
      assert (e1 + e2)[1..] == e1[1..] + e2;
      BlocksAppend(e1[1..], e2);
    }
  }

  /** Every block in `bs` is `size` bytes long. */
  predicate AllOfSize(bs: seq<seq<Byte>>, size: nat)
  {
    forall i :: 0 <= i < |bs| ==> |bs[i]| == size
  }

  lemma AllOfSizeAppend(b1: seq<seq<Byte>>, b2: seq<seq<Byte>>, size: nat)
    requires AllOfSize(b1, size) && AllOfSize(b2, size)
    ensures AllOfSize(b1 + b2, size)
  {
    forall i | 0 <= i < |b1 + b2|
      ensures |(b1 + b2)[i]| == size
    {
      if i >= |b1| {
        assert (b1 + b2)[i] == b2[i - |b1|];
      }
    }
  }

  /** Follows the events from a point where a block is (`open`) or is not in progress. None when
      `before_chunk` fires while a block is in progress or `chunk` fires when none is; otherwise
      whether a block is in progress after the last event. */
  function Track(events: seq<Event>, open: bool): Option<bool>
  {
    if events == [] then Some(open)
    else match events[0]
      case BeforeChunk => if open then None else Track(events[1..], true)
      case Chunk(_) => if open then Track(events[1..], false) else None
  }

  lemma {:induction false} TrackAppend(e1: seq<Event>, e2: seq<Event>, open: bool)
    ensures Track(e1 + e2, open) == match Track(e1, open) case None => None case Some(o) => Track(e2, o)
  {
    if e1 != [] {
      assert (e1 + e2)[1..] == e1[1..] + e2;
      match e1[0]
      case BeforeChunk => if !open { TrackAppend(e1[1..], e2, true); }
      case Chunk(_) => if open { TrackAppend(e1[1..], e2, false); }
    } else {
      assert e1 + e2 == e2;
    }
  }

  /** What one iteration of write's loop does: the state after it, the events it fires and the
      number of input bytes it consumes. */
  datatype Step = Step(next: Acc, events: seq<Event>, copied: nat)

  /** One iteration of the `while (l > 0)` loop of write: `before_chunk` when the block is empty,
      copy min(remaining input, space left) bytes at the cursor (nothing for a null buffer;
      Buffer.copy stops at the end of a short buffer), emit the block and rewind when it is full. */
  function AccStep(a: Acc, src: Option<seq<Byte>>, length: nat, inputCursor: nat): (r: Step)
    requires AccValid(a) && inputCursor < length
    ensures AccValid(r.next) && |r.next.chunk| == |a.chunk|
    ensures 0 < r.copied <= length - inputCursor
  {
    var nbToWrite := Min(length - inputCursor, |a.chunk| - a.cursor);
    var filled := if src.Some? then CopyInto(a.chunk, a.cursor, src.value, inputCursor, nbToWrite) else a.chunk;
    var full := a.cursor + nbToWrite == |a.chunk|;
    Step(Acc(filled, if full then 0 else a.cursor + nbToWrite),
         (if a.cursor == 0 then [BeforeChunk] else []) + (if full then [Chunk(filled)] else []),
         nbToWrite)
  }

  /** The loop of write from input position `inputCursor` on, `done` being the events it has
      fired so far: the state when the input is used up, and all the events fired by then. */
  function Run(a: Acc, src: Option<seq<Byte>>, length: nat, inputCursor: nat, done: seq<Event>): (r: (Acc, seq<Event>))
    requires AccValid(a) && inputCursor <= length
    ensures AccValid(r.0) && |r.0.chunk| == |a.chunk|
    ensures |done| <= |r.1| && r.1[..|done|] == done
    decreases length - inputCursor
  {
    if inputCursor == length then (a, done)
    else
      var step := AccStep(a, src, length, inputCursor);
      Run(step.next, src, length, inputCursor + step.copied, done + step.events)
  }

  /** write(buffer, length): rejects a zero length; a negative length leaves the loop at once. */
  function AccWrite(a: Acc, src: Option<seq<Byte>>, length: int): (r: Result<(Acc, seq<Event>), WriteError>)
    requires AccValid(a)
    ensures r.Failure? <==> length == 0
    ensures r.Success? ==> AccValid(r.value.0) && |r.value.0.chunk| == |a.chunk|
  {
    if length == 0 then Failure(ZeroLength)
    else Success(Run(a, src, if length > 0 then length else 0, 0, []))
  }

  /** end(): emits the first `cursor` bytes of a partly filled block (padding is disabled) and
      rewinds the cursor. */
  function AccEnd(a: Acc): (r: (Acc, seq<Event>))
    requires AccValid(a)
    ensures AccValid(r.0) && r.0.cursor == 0 && r.0.chunk == a.chunk
    ensures Blocks(r.1) == if a.cursor > 0 then [a.chunk[..a.cursor]] else []
    ensures Track(r.1, a.cursor > 0) == Some(false)
  {
    if a.cursor > 0 then (Acc(a.chunk, 0), [Chunk(a.chunk[..a.cursor])]) else (a, [])
  }

  /** One iteration emits the block exactly when it fills it, which is exactly when it leaves
      the cursor at 0; otherwise it uses up the input. */
  lemma StepBlocks(a: Acc, src: Option<seq<Byte>>, length: nat, inputCursor: nat)
    requires AccValid(a) && inputCursor < length
    ensures var r := AccStep(a, src, length, inputCursor);
      && Blocks(r.events) == (if r.next.cursor == 0 then [r.next.chunk] else [])
      && (r.next.cursor == 0 <==> a.cursor + r.copied == |a.chunk|)
      && (r.next.cursor == 0 || inputCursor + r.copied == length)
  {
    var r := AccStep(a, src, length, inputCursor);
    var closing: seq<Event> := if r.next.cursor == 0 then [Chunk(r.next.chunk)] else [];
    assert Blocks(closing) == (if r.next.cursor == 0 then [r.next.chunk] else []);
    if a.cursor == 0 {
      assert r.events == [BeforeChunk] + closing;
      assert Blocks(r.events) == Blocks(closing) by {
        assert r.events[1..] == closing;
      }
    } else {
      assert r.events == closing;
    }
  }

  /** One iteration keeps the events alternating: `before_chunk` comes first exactly when the
      block was empty, and `chunk` closes it exactly when the step fills it. */
  lemma StepTrack(a: Acc, src: Option<seq<Byte>>, length: nat, inputCursor: nat)
    requires AccValid(a) && inputCursor < length
    ensures var r := AccStep(a, src, length, inputCursor);
      Track(r.events, a.cursor > 0) == Some(r.next.cursor > 0)
  {
    var r := AccStep(a, src, length, inputCursor);
    var closing: seq<Event> := if r.next.cursor == 0 then [Chunk(r.next.chunk)] else [];
    assert Track(closing, true) == Some(r.next.cursor > 0);
    if a.cursor == 0 {
      assert r.events == [BeforeChunk] + closing;
      assert r.events[1..] == closing;
    } else {
      assert r.events == closing;
    }
  }

  /** x == q * d + r with 0 <= r < d fixes the quotient and the remainder. */
  lemma DivModUnique(x: nat, d: nat, q: nat, r: nat)
    requires d > 0 && r < d && x == q * d + r
    ensures x / d == q && x % d == r
  {
    var q', r' := x / d, x % d;
    assert x == q' * d + r';
    if q' < q {
      MulMono(q' + 1, q, d);
      assert false;
    } else if q < q' {
      MulMono(q + 1, q', d);
      assert false;
    }
  }

  lemma Distribute(x: nat, y: nat, d: nat)
    ensures (x + y) * d == x * d + y * d
  {
  }

  lemma MulMono(a: nat, b: nat, d: nat)
    requires a <= b
    ensures a * d <= b * d
  {
    var k := b - a;
    assert b * d == a * d + k * d;
  }

  /** The counting invariant of write's loop: the cursor plus S times the number of blocks
      emitted grows by exactly the number of bytes consumed. */
  lemma CountStep(a: Acc, src: Option<seq<Byte>>, length: nat, inputCursor: nat, done: seq<Event>, base: int)
    requires AccValid(a) && inputCursor < length
    requires a.cursor + |Blocks(done)| * |a.chunk| == base + inputCursor
    ensures var step := AccStep(a, src, length, inputCursor);
      step.next.cursor + |Blocks(done + step.events)| * |a.chunk| == base + inputCursor + step.copied
  {
    var step := AccStep(a, src, length, inputCursor);
    StepBlocks(a, src, length, inputCursor);
    BlocksAppend(done, step.events);
    var j, k := |Blocks(done)|, |Blocks(step.events)|;
    assert step.next.cursor + k * |a.chunk| == a.cursor + step.copied;
    Distribute(j, k, |a.chunk|);
  }

  lemma {:induction false} RunCount(a: Acc, src: Option<seq<Byte>>, length: nat, inputCursor: nat, done: seq<Event>, base: int)
    requires AccValid(a) && inputCursor <= length
    requires a.cursor + |Blocks(done)| * |a.chunk| == base + inputCursor
    ensures var r := Run(a, src, length, inputCursor, done);
      r.0.cursor + |Blocks(r.1)| * |a.chunk| == base + length
    decreases length - inputCursor
  {
    if inputCursor < length {
      var step := AccStep(a, src, length, inputCursor);
      CountStep(a, src, length, inputCursor, done, base);
      RunCount(step.next, src, length, inputCursor + step.copied, done + step.events, base);
    }
  }

  /** Every block the loop emits is a full block. */
  lemma BlockSizesStep(a: Acc, src: Option<seq<Byte>>, length: nat, inputCursor: nat, done: seq<Event>)
    requires AccValid(a) && inputCursor < length
    requires AllOfSize(Blocks(done), |a.chunk|)
    ensures var step := AccStep(a, src, length, inputCursor);
      AllOfSize(Blocks(done + step.events), |a.chunk|)
  {
    var step := AccStep(a, src, length, inputCursor);
    StepBlocks(a, src, length, inputCursor);
    BlocksAppend(done, step.events);
    AllOfSizeAppend(Blocks(done), Blocks(step.events), |a.chunk|);
  }

  lemma {:induction false} RunBlockSizes(a: Acc, src: Option<seq<Byte>>, length: nat, inputCursor: nat, done: seq<Event>)
    requires AccValid(a) && inputCursor <= length
    requires AllOfSize(Blocks(done), |a.chunk|)
    ensures AllOfSize(Blocks(Run(a, src, length, inputCursor, done).1), |a.chunk|)
    decreases length - inputCursor
  {
    if inputCursor < length {
      var step := AccStep(a, src, length, inputCursor);
      BlockSizesStep(a, src, length, inputCursor, done);
      RunBlockSizes(step.next, src, length, inputCursor + step.copied, done + step.events);
    }
  }

  /** The events keep alternating, with a block in progress exactly when the cursor is not 0. */
  lemma TrackStep(a: Acc, src: Option<seq<Byte>>, length: nat, inputCursor: nat, done: seq<Event>, open: bool)
    requires AccValid(a) && inputCursor < length
    requires Track(done, open) == Some(a.cursor > 0)
    ensures var step := AccStep(a, src, length, inputCursor);
      Track(done + step.events, open) == Some(step.next.cursor > 0)
  {
    var step := AccStep(a, src, length, inputCursor);
    StepTrack(a, src, length, inputCursor);
    TrackAppend(done, step.events, open);
  }

  lemma {:induction false} RunTrack(a: Acc, src: Option<seq<Byte>>, length: nat, inputCursor: nat, done: seq<Event>, open: bool)
    requires AccValid(a) && inputCursor <= length
    requires Track(done, open) == Some(a.cursor > 0)
    ensures var r := Run(a, src, length, inputCursor, done);
      Track(r.1, open) == Some(r.0.cursor > 0)
    decreases length - inputCursor
  {
    if inputCursor < length {
      var step := AccStep(a, src, length, inputCursor);
      TrackStep(a, src, length, inputCursor, done, open);
      RunTrack(step.next, src, length, inputCursor + step.copied, done + step.events, open);
    }
  }

  /** A whole write of n bytes from cursor c emits floor((c+n)/S) blocks, each exactly S bytes
      long, leaves the cursor at (c+n) mod S, and fires `before_chunk` exactly once before every
      block it starts: the events alternate, beginning with `before_chunk` when c is 0. */
  lemma WriteLoopShape(a: Acc, src: Option<seq<Byte>>, length: nat)
    requires AccValid(a)
    ensures var r := Run(a, src, length, 0, []); var size := |a.chunk|;
      && r.0.cursor == (a.cursor + length) % size
      && |Blocks(r.1)| == (a.cursor + length) / size
      && AllOfSize(Blocks(r.1), size)
      && Track(r.1, a.cursor > 0) == Some(r.0.cursor > 0)
  {
    var r := Run(a, src, length, 0, []);
    assert Blocks([]) == [];
    RunCount(a, src, length, 0, [], a.cursor);
    RunBlockSizes(a, src, length, 0, []);
    RunTrack(a, src, length, 0, [], a.cursor > 0);
    DivModUnique(a.cursor + length, |a.chunk|, |Blocks(r.1)|, r.0.cursor);
  }

  /** After a whole write the cursor has moved on by the input's length modulo the block size, and
      a log that alternated before the write still alternates. */
  lemma WriteLoopDone(start: Acc, src: Option<seq<Byte>>, length: nat, prior: seq<Event>)
    requires AccValid(start)
    requires Track(prior, false) == Some(start.cursor > 0)
    ensures var w := Run(start, src, length, 0, []);
      && w.0.cursor == (start.cursor + length) % |start.chunk|
      && Track(prior + w.1, false) == Some(w.0.cursor > 0)
  {
    var w := Run(start, src, length, 0, []);
    WriteLoopShape(start, src, length);
    TrackAppend(prior, w.1, false);
  }

  /** The bytes of the blocks carried by `events`, end to end, followed by `after`. The stream
      lemmas below say Out(events, after) == before + input: what was pending plus what came in
      is what went out plus what is now pending. */
  function Out(events: seq<Event>, after: seq<Byte>): seq<Byte>
  {
    if events == [] then after
    else (if events[0].Chunk? then events[0].block else []) + Out(events[1..], after)
  }

  lemma {:induction false} OutFlatten(events: seq<Event>, after: seq<Byte>)
    ensures Out(events, after) == Flatten(Blocks(events)) + after
  {
    if events != [] {
      OutFlatten(events[1..], after);
      if events[0].Chunk? {
        assert Blocks(events) == [events[0].block] + Blocks(events[1..]);
        FlattenAppend([events[0].block], Blocks(events[1..]));
        assert Flatten([events[0].block]) == events[0].block + Flatten([]);
      } else {
        assert Blocks(events) == Blocks(events[1..]);
        assert Out(events, after) == Out(events[1..], after);
      }
    }
  }

  lemma {:induction false} OutAppend(e1: seq<Event>, e2: seq<Event>, after: seq<Byte>)
    ensures Out(e1 + e2, after) == Out(e1, Out(e2, after))
  {
    if e1 == [] {
      assert e1 + e2 == e2;
    } else {
      assert (e1 + e2)[1..] == e1[1..] + e2;
      OutAppend(e1[1..], e2, after);
    }
  }

  lemma {:induction false} OutAfter(events: seq<Event>, x: seq<Byte>, y: seq<Byte>)
    ensures Out(events, x + y) == Out(events, x) + y
  {
    if events != [] {
      OutAfter(events[1..], x, y);
    }
  }

  /** Events that stream `now` after `pre`, then events that stream `later` after what the first
      left pending, together stream `now + later` after `pre`. */
  lemma StreamsAppend(e1: seq<Event>, e2: seq<Event>, pre: seq<Byte>, now: seq<Byte>, later: seq<Byte>, mid: seq<Byte>, tail: seq<Byte>)
    requires Out(e1, mid) == pre + now
    requires Out(e2, tail) == mid + later
    ensures Out(e1 + e2, tail) == pre + (now + later)
  {
    OutAppend(e1, e2, tail);
    OutAfter(e1, mid, later);
  }

  /** One iteration with real bytes: the bytes it emits, followed by what is then pending in the
      block, are the bytes that were pending followed by the bytes it copied. */
  lemma StepStream(a: Acc, s: seq<Byte>, length: nat, inputCursor: nat)
    requires AccValid(a) && inputCursor < length <= |s|
    ensures var r := AccStep(a, Some(s), length, inputCursor);
      Out(r.events, r.next.chunk[..r.next.cursor]) == a.chunk[..a.cursor] + s[inputCursor..inputCursor + r.copied]
  {
    var r := AccStep(a, Some(s), length, inputCursor);
    var k := r.copied;
    var filled := r.next.chunk;
    var pending := a.chunk[..a.cursor] + s[inputCursor..inputCursor + k];
    CopyIntoShape(a.chunk, a.cursor, s, inputCursor, k);
    assert filled == pending + a.chunk[a.cursor + k..];
    var closing: seq<Event> := if r.next.cursor == 0 then [Chunk(filled)] else [];
    if a.cursor == 0 {
      assert r.events == [BeforeChunk] + closing;
      assert r.events[1..] == closing;
    } else {
      assert r.events == closing;
    }
    assert Out(r.events, r.next.chunk[..r.next.cursor]) == Out(closing, r.next.chunk[..r.next.cursor]);
    if r.next.cursor == 0 {
      assert filled == pending;
      assert closing[1..] == [];
      assert Out(closing, filled[..0]) == filled + filled[..0];
    } else {
      assert filled[..a.cursor + k] == pending;
    }
  }

  /** The streaming invariant of write's loop: what was pending before the write, followed by
      the input consumed so far, is what has gone out in blocks followed by what is pending now. */
  lemma StreamStep(a: Acc, s: seq<Byte>, length: nat, inputCursor: nat, done: seq<Event>, pre: seq<Byte>)
    requires AccValid(a) && inputCursor < length <= |s|
    requires Out(done, a.chunk[..a.cursor]) == pre + s[..inputCursor]
    ensures var step := AccStep(a, Some(s), length, inputCursor);
      Out(done + step.events, step.next.chunk[..step.next.cursor]) == pre + s[..inputCursor + step.copied]
  {
    var step := AccStep(a, Some(s), length, inputCursor);
    var now := s[inputCursor..inputCursor + step.copied];
    OutAppend(done, step.events, step.next.chunk[..step.next.cursor]);
    StepStream(a, s, length, inputCursor);
    OutAfter(done, a.chunk[..a.cursor], now);
    PrefixJoin(pre, s, inputCursor, inputCursor + step.copied);
  }

  lemma PrefixJoin(pre: seq<Byte>, s: seq<Byte>, i: nat, j: nat)
    requires i <= j <= |s|
    ensures (pre + s[..i]) + s[i..j] == pre + s[..j]
  {
    assert s[..i] + s[i..j] == s[..j];
  }

  lemma {:induction false} RunStream(a: Acc, s: seq<Byte>, length: nat, inputCursor: nat, done: seq<Event>, pre: seq<Byte>)
    requires AccValid(a) && inputCursor <= length <= |s|
    requires Out(done, a.chunk[..a.cursor]) == pre + s[..inputCursor]
    ensures var r := Run(a, Some(s), length, inputCursor, done);
      Out(r.1, r.0.chunk[..r.0.cursor]) == pre + s[..length]
    decreases length - inputCursor
  {
    if inputCursor < length {
      var step := AccStep(a, Some(s), length, inputCursor);
      StreamStep(a, s, length, inputCursor, done, pre);
      RunStream(step.next, s, length, inputCursor + step.copied, done + step.events, pre);
    }
  }

  /** Writing real bytes: the blocks emitted, end to end, followed by what is left pending in the
      block, are the bytes that were pending followed by the bytes written. */
  lemma WriteStream(a: Acc, s: seq<Byte>)
    requires AccValid(a)
    ensures var r := Run(a, Some(s), |s|, 0, []);
      Out(r.1, r.0.chunk[..r.0.cursor]) == a.chunk[..a.cursor] + s
  {
    var pre := a.chunk[..a.cursor];
    assert pre + s[..0] == pre;
    RunStream(a, s, |s|, 0, [], pre);
    assert s[..|s|] == s;
  }

  /** With a null buffer (reserving space) the block buffer keeps its contents, and every block
      emitted is that unchanged buffer. */
  lemma ReserveStep(a: Acc, length: nat, inputCursor: nat, done: seq<Event>, c: seq<Byte>)
    requires AccValid(a) && inputCursor < length
    requires a.chunk == c && forall i :: 0 <= i < |Blocks(done)| ==> Blocks(done)[i] == c
    ensures var step := AccStep(a, None, length, inputCursor);
      && step.next.chunk == c
      && forall i :: 0 <= i < |Blocks(done + step.events)| ==> Blocks(done + step.events)[i] == c
  {
    var step := AccStep(a, None, length, inputCursor);
    StepBlocks(a, None, length, inputCursor);
    BlocksAppend(done, step.events);
    var b1, b2 := Blocks(done), Blocks(step.events);
    forall i | 0 <= i < |b1 + b2|
      ensures (b1 + b2)[i] == c
    {
      if i >= |b1| {
        assert (b1 + b2)[i] == b2[i - |b1|];
      }
    }
  }

  lemma {:induction false} RunReserve(a: Acc, length: nat, inputCursor: nat, done: seq<Event>, c: seq<Byte>)
    requires AccValid(a) && inputCursor <= length
    requires a.chunk == c && forall i :: 0 <= i < |Blocks(done)| ==> Blocks(done)[i] == c
    ensures var r := Run(a, None, length, inputCursor, done);
      && r.0.chunk == c
      && forall i :: 0 <= i < |Blocks(r.1)| ==> Blocks(r.1)[i] == c
    decreases length - inputCursor
  {
    if inputCursor < length {
      var step := AccStep(a, None, length, inputCursor);
      ReserveStep(a, length, inputCursor, done, c);
      RunReserve(step.next, length, inputCursor + step.copied, done + step.events, c);
    }
  }

  /** write(null, length): the buffer is untouched and every block emitted is that buffer. */
  lemma WriteReserve(a: Acc, length: nat)
    requires AccValid(a)
    ensures var r := Run(a, None, length, 0, []);
      && r.0.chunk == a.chunk
      && forall i :: 0 <= i < |Blocks(r.1)| ==> Blocks(r.1)[i] == a.chunk
  {
    assert Blocks([]) == [];
    RunReserve(a, length, 0, [], a.chunk);
  }

  /** The state and events after write(input, input.length) for each input in turn. */
  function AccWriteAll(a: Acc, inputs: seq<seq<Byte>>): (r: (Acc, seq<Event>))
    requires AccValid(a)
    requires forall i :: 0 <= i < |inputs| ==> inputs[i] != []
    ensures AccValid(r.0) && |r.0.chunk| == |a.chunk|
    decreases |inputs|
  {
    if inputs == [] then (a, [])
    else
      var first := AccWrite(a, Some(inputs[0]), |inputs[0]|).value;
      var rest := AccWriteAll(first.0, inputs[1..]);
      (rest.0, first.1 + rest.1)
  }

  /** Over several writes, the bytes emitted followed by the bytes pending are the bytes pending
      at the start followed by all the inputs, and the events keep alternating. */
  lemma {:induction false} WriteAllStream(a: Acc, inputs: seq<seq<Byte>>)
    requires AccValid(a)
    requires forall i :: 0 <= i < |inputs| ==> inputs[i] != []
    ensures var r := AccWriteAll(a, inputs);
      && Out(r.1, r.0.chunk[..r.0.cursor]) == a.chunk[..a.cursor] + Flatten(inputs)
      && Track(r.1, a.cursor > 0) == Some(r.0.cursor > 0)
    decreases |inputs|
  {
    if inputs == [] {
      assert Flatten(inputs) == [];
      assert a.chunk[..a.cursor] + [] == a.chunk[..a.cursor];
    } else {
      var s := inputs[0];
      var first := Run(a, Some(s), |s|, 0, []);
      var rest := AccWriteAll(first.0, inputs[1..]);
      assert AccWriteAll(a, inputs) == (rest.0, first.1 + rest.1);
      var mid := first.0.chunk[..first.0.cursor];
      WriteStream(a, s);
      RunTrack(a, Some(s), |s|, 0, [], a.cursor > 0);
      WriteAllStream(first.0, inputs[1..]);
      TrackAppend(first.1, rest.1, a.cursor > 0);
      StreamsAppend(first.1, rest.1, a.chunk[..a.cursor], s, Flatten(inputs[1..]), mid, rest.0.chunk[..rest.0.cursor]);
      assert Flatten(inputs) == s + Flatten(inputs[1..]);
    }
  }

  /** Every block the writes emit is a full block. */
  lemma {:induction false} WriteAllBlockSizes(a: Acc, inputs: seq<seq<Byte>>)
    requires AccValid(a)
    requires forall i :: 0 <= i < |inputs| ==> inputs[i] != []
    ensures AllOfSize(Blocks(AccWriteAll(a, inputs).1), |a.chunk|)
    decreases |inputs|
  {
    if inputs != [] {
      var s := inputs[0];
      var first := Run(a, Some(s), |s|, 0, []);
      var rest := AccWriteAll(first.0, inputs[1..]);
      assert AccWriteAll(a, inputs) == (rest.0, first.1 + rest.1);
      assert AllOfSize(Blocks(first.1), |a.chunk|) by {
        assert Blocks([]) == [];
        RunBlockSizes(a, Some(s), |s|, 0, []);
      }
      assert AllOfSize(Blocks(rest.1), |a.chunk|) by {
        WriteAllBlockSizes(first.0, inputs[1..]);
      }
      BlocksAppend(first.1, rest.1);
      AllOfSizeAppend(Blocks(first.1), Blocks(rest.1), |a.chunk|);
    }
  }

  /** Writes followed by end(), from a block with nothing in it: the blocks emitted, put end to
      end, are exactly the bytes written, in order; every block but the last is full; the cursor
      is back at 0 and the events alternate `before_chunk`, `chunk`, ..., ending with a `chunk`. */
  lemma WritesThenEnd(a: Acc, inputs: seq<seq<Byte>>)
    requires AccValid(a) && a.cursor == 0
    requires forall i :: 0 <= i < |inputs| ==> inputs[i] != []
    ensures var w := AccWriteAll(a, inputs); var e := AccEnd(w.0);
      && Flatten(Blocks(w.1 + e.1)) == Flatten(inputs)
      && e.0.cursor == 0
      && Track(w.1 + e.1, false) == Some(false)
      && forall i :: 0 <= i < |Blocks(w.1 + e.1)| - 1 ==> |Blocks(w.1 + e.1)[i]| == |a.chunk|
  {
    var w := AccWriteAll(a, inputs);
    var e := AccEnd(w.0);
    var pending := w.0.chunk[..w.0.cursor];
    var ends := Blocks(e.1);
    assert Out(w.1, pending) == Flatten(inputs) && Track(w.1, false) == Some(w.0.cursor > 0) by {
      WriteAllStream(a, inputs);
      assert a.chunk[..0] == [];
    }
    assert AllOfSize(Blocks(w.1), |a.chunk|) by {
      WriteAllBlockSizes(a, inputs);
    }
    if w.0.cursor > 0 {
      assert e.1 == [Chunk(pending)];
      assert e.1[1..] == [];
      assert ends == [pending] + Blocks(e.1[1..]);
      assert Out(e.1, []) == pending + Out([], []);
    } else {
      assert ends == [];
      assert pending == [];
    }
    assert Out(e.1, []) == pending;
    assert Out(w.1 + e.1, []) == Flatten(inputs) by {
      OutAppend(w.1, e.1, []);
    }
    OutFlatten(w.1 + e.1, []);
    assert Blocks(w.1 + e.1) == Blocks(w.1) + ends by {
      BlocksAppend(w.1, e.1);
    }
    assert Track(w.1 + e.1, false) == Some(false) by {
      TrackAppend(w.1, e.1, false);
    }
    var all := Blocks(w.1) + ends;
    forall i | 0 <= i < |all| - 1
      ensures |all[i]| == |a.chunk|
    {
      assert all[i] == Blocks(w.1)[i];
    }
  }

  /** The block size the constructor settles on: `chunk_size || 1024`, so a size of 0 becomes 1024
      and any other size is kept. */
  function ChunkSizeOf(size: nat): (n: nat)
    ensures n > 0 && (size > 0 ==> n == size) && (size == 0 ==> n == 1024)
  {
    if size == 0 then 1024 else size
  }

  /** The fixed-size block accumulator. `chunk` is the block buffer, filled in place; `events` is
      the log of what it has emitted. */
  class ChunkManager {
    const chunkSize: nat
    const chunk: array<Byte>
    var cursor: nat
    var events: seq<Event>

    /** The cursor lies inside the block, and the log alternates `before_chunk` / `chunk`, with a
        block in progress exactly when the cursor is not 0. */
    ghost predicate Valid()
      reads this
    {
      && 0 < chunkSize == chunk.Length
      && cursor < chunkSize
      && Track(events, false) == Some(cursor > 0)
    }

    function State(): Acc
      reads this, chunk
    {
      Acc(chunk[..], cursor)
    }

    /** The buffer starts with unspecified contents. */
    constructor(size: nat)
      ensures Valid() && fresh(chunk)
      ensures chunkSize == ChunkSizeOf(size)
      ensures cursor == 0 && events == []
    {
      var n := ChunkSizeOf(size);
      chunkSize := n;
      chunk := new Byte[n];
      cursor := 0;
      events := [];
    }

    /** One pass of write's `while (l > 0)` loop, `inputCursor` bytes into a write of `length`. */
    method Advance(buffer: Option<seq<Byte>>, length: int, inputCursor: nat) returns (nbToWrite: nat)
      requires 0 < chunkSize == chunk.Length && cursor < chunkSize && inputCursor < length
      modifies this, chunk
      ensures cursor < chunkSize
      ensures var step := AccStep(old(State()), buffer, length, inputCursor);
        State() == step.next && events == old(events) + step.events && nbToWrite == step.copied
    {
      ghost var a := State();
      ghost var step := AccStep(a, buffer, length, inputCursor);
      ghost var opening: seq<Event> := [];
      if cursor == 0 {
        // `_in_before_chunk` is always clear here: no listener writes back into the accumulator.
        events := events + [BeforeChunk];
        opening := [BeforeChunk];
      }
      var spaceLeft := chunkSize - cursor;
      nbToWrite := Min(length - inputCursor, spaceLeft);
      if buffer.Some? {
        BufferCopy(buffer.value, chunk, cursor, inputCursor, inputCursor + nbToWrite);
      }
      assert chunk[..] == step.next.chunk;
      ghost var emitted: seq<Event> := [];
      cursor := cursor + nbToWrite;
      if cursor >= chunkSize {
        events := events + [Chunk(chunk[..])];
        emitted := [Chunk(chunk[..])];
        cursor := 0;
      }
      assert opening + emitted == step.events;
    }

    /** write(buffer, length): a zero length is refused; otherwise the loop runs, leaving the
        cursor `length` bytes further on, modulo the block size, and the log still alternating. */
    method Write(buffer: Option<seq<Byte>>, length: int) returns (outcome: Outcome<WriteError>)
      requires Valid()
      modifies this, chunk
      ensures Valid()
      ensures var w := AccWrite(old(State()), buffer, length);
        && (w.Failure? ==> outcome == Fail(w.error) && State() == old(State()) && events == old(events))
        && (w.Success? ==> outcome == Pass && State() == w.value.0 && events == old(events) + w.value.1)
      ensures outcome.Pass? ==> cursor == (old(cursor) + (if length > 0 then length else 0)) % chunkSize
    {
      if length == 0 {
        return Fail(ZeroLength);
      }
      ghost var start := State();
      ghost var n: nat := if length > 0 then length else 0;
      WriteLoop(buffer, length);
      WriteLoopDone(start, buffer, n, old(events));
      outcome := Pass;
    }

    /** The `while (l > 0)` loop of write. */
    method WriteLoop(buffer: Option<seq<Byte>>, length: int)
      requires 0 < chunkSize == chunk.Length && cursor < chunkSize
      modifies this, chunk
      ensures cursor < chunkSize
      ensures var w := Run(old(State()), buffer, if length > 0 then length else 0, 0, []);
        State() == w.0 && events == old(events) + w.1
    {
      ghost var start := State();
      ghost var n: nat := if length > 0 then length else 0;
      ghost var done: seq<Event> := [];
      var l := length;
      var inputCursor := 0;
      while l > 0
        invariant 0 <= inputCursor <= n && l == length - inputCursor
        invariant 0 < chunkSize == chunk.Length && cursor < chunkSize
        invariant events == old(events) + done
        invariant Run(start, buffer, n, 0, []) == Run(State(), buffer, n, inputCursor, done)
        decreases l
      {
        ghost var step := AccStep(State(), buffer, n, inputCursor);
        assert Run(State(), buffer, n, inputCursor, done)
          == Run(step.next, buffer, n, inputCursor + step.copied, done + step.events);
        var nbToWrite := Advance(buffer, length, inputCursor);
        inputCursor := inputCursor + nbToWrite;
        l := l - nbToWrite;
        done := done + step.events;
      }
    }

    /** end(): a partly filled block goes out as its first `cursor` bytes; the cursor rewinds. */
    method End()
      requires Valid()
      modifies this
      ensures Valid()
      ensures cursor == 0
      ensures events == old(events) + if old(cursor) > 0 then [Chunk(chunk[..old(cursor)])] else []
      ensures State() == AccEnd(old(State())).0 && events == old(events) + AccEnd(old(State())).1
    {
      if cursor > 0 {
        TrackAppend(events, [Chunk(chunk[..cursor])], false);
        events := events + [Chunk(chunk[..cursor])];
        cursor := 0;
      }
    }
  }
}
