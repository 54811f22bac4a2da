# Message chunking of node-opcua, modelled in Dafny

This project models the message chunk layer of node-opcua, `lib/chunk_manager.js`. That layer
cuts an outbound OPC UA message into transport chunks. Each chunk carries the 12-byte message
chunk header of OPC UA Part 6 (OPC 10000-6), section 6.7.2:

- a 3-byte message type;
- a 1-byte chunk type: `C` continuation, `F` final, `A` abort;
- the u32 little-endian length of the chunk;
- the u32 little-endian secure channel id.

The same layer puts inbound chunks back together into a message. It has four pieces, and each
is modelled in its own module:

- `MessageChunk` (`message_chunk.dfy`): the header layout and `verify_message_chunk`.
- `FixedChunks` (`fixed_chunks.dfy`): `ChunkManager`, the fixed-size block accumulator.
  - `write` copies `min(remaining, space left)` bytes per pass of its loop.
  - It fires `before_chunk` when a block starts and `chunk` when a block fills.
  - `end` flushes a partly filled block.
- `Framing` (`framing.dfy`): `mark_buffer` and `MessageChunkManager`.
  - `MessageChunkManager` wraps a `ChunkManager` whose blocks are `messageSize - 12 - extraHeaderSize` bytes.
  - It keeps one pending chunk, and sends it marked `C` when the next block arrives.
  - `end` sends the last chunk marked `F`; `abort` marks it `A`.
- `Reassembly` (`reassembly.dfy`): `MessageBuilderBase`, with `_append` and `feed`.
- `RoundTrip` (`round_trip.dfy`) connects the two directions. Feeding the chunks a
  `MessageChunkManager` sends into a fresh `MessageBuilderBase` gives back the bytes written.
- `Bytes` (`bytes.dfy`) holds the byte and u32 types, the little-endian u32 codec, and
  `Buffer.copy` and `Buffer.concat`.

Each of the three classes is a Dafny `class` with the source's fields, updated in place:

- `ChunkManager` has a block `array`, a cursor, and a log of the events it fired.
- `MessageChunkManager` has the nullable `pendingChunk` array and a log of the chunks sent.
- `MessageBuilderBase` has `blocks`, `totalSize` and a log of what it emitted.

Each class method is proved against a function on values:

| class method | specified by |
|---|---|
| `ChunkManager.Write` | `AccWrite` |
| `ChunkManager.End` | `AccEnd` |
| `MessageChunkManager.Write` | `FramerWrite` |
| `MessageChunkManager.End` | `FramerFinish` |
| `MessageChunkManager.Abort` | `FramerFinish` |
| `MessageBuilderBase.Feed` | `BuilderFeed` |

The lemmas about those functions state what the source promises.

An `EventEmitter` event becomes an entry in a log field. `ChunkManager` emits its block buffer by
reference. In the modelled core, its listener is `MessageChunkManager`'s `chunk` handler, which
copies the block into a new buffer (lib/chunk_manager.js:164) before the accumulator writes to it
again. So a `chunk` event carries a snapshot of the block.

The model follows the code in these behaviours, which a reader of OPC UA Part 6 might not expect:

- `end()` after no write sends no chunk at all, not an empty `F` chunk.
- `feed` does not reset `blocks` or `total_size` after an `F` chunk. A second message fed to the
  same builder is emitted together with the first.
- `write(buffer, 0)` is refused, through the source's `assert(length != 0)`.
- A chunk type byte other than `C`, `F` or `A` is silently ignored by `feed`, not refused.

## Model

| member | source | states |
|---|---|---|
| MessageChunk.ReadMessageHeader | lib/chunk_manager.js:9-10 | The header can be read exactly when the buffer holds at least 8 bytes. Its type and chunk type are bytes 0-2 and byte 3. |
| MessageChunk.VerifyMessageChunk | lib/chunk_manager.js:6-15 | Passes exactly when the header can be read and the length field at offset 4 equals the buffer's length. Otherwise it fails with the declared and actual lengths. |
| MessageChunk.EncodeHeader | lib/chunk_manager.js:179-185 | The 12 bytes written at the front of a chunk: the type in bytes 0-2, the marker in byte 3, then `length` and the secure channel id as u32 little-endian values that read back as written. |
| MessageChunk.HeaderFieldsReadBack | lib/chunk_manager.js:179-185 | Every field written into a header reads back as written: type, chunk type, length and secure channel id, whatever follows the header. |
| MessageChunk.VerifyEncodedChunk | lib/chunk_manager.js:6-15 | A chunk whose header declares its own length passes the check. Any other declared length fails it with that length. |
| Bytes.U32LE | lib/chunk_manager.js:184-185 | writeUInt32LE stores four bytes, and reading them back gives the value written. |
| Bytes.ReadU32LE | lib/chunk_manager.js:236-238 | readUInt32 takes the four bytes at the offset as the value's bytes, least significant first. |
| Bytes.U32LEOfReadU32LE | lib/chunk_manager.js:236-238 | Writing back a value that was read gives the four bytes it was read from. |
| Bytes.Flatten | lib/chunk_manager.js:284 | Buffer.concat is as long as the buffers together, the length `total_size` is checked against. |
| Bytes.ReadU32LEOfU32LE | lib/chunk_manager.js:184-185 | readUInt32LE at an offset gives back the value writeUInt32LE stored there. |
| Bytes.CopyIntoAt | lib/chunk_manager.js:59 | Buffer.copy overwrites exactly the bytes it copies, cut short at the end of the source (a start past the end copies nothing), and leaves every other byte of the target alone. |
| Bytes.CopyIntoShape | lib/chunk_manager.js:164 | When the source holds every requested byte, the target becomes: its bytes before the offset, the copied bytes, then its remaining bytes. |
| Bytes.BufferCopy | lib/chunk_manager.js:261 | The byte-by-byte copy loop leaves the target as CopyInto describes. |
| FixedChunks.ChunkSizeOf | lib/chunk_manager.js:26 | A block size of 0 becomes 1024. Any other size is kept. |
| FixedChunks.AccStep | lib/chunk_manager.js:42-73 | One pass of the write loop keeps the cursor inside the block and consumes between 1 byte and the remaining input. |
| FixedChunks.StepBlocks | lib/chunk_manager.js:54-71 | One pass emits the block exactly when it fills it, which is exactly when the cursor goes back to 0. Otherwise the pass uses up the input. |
| FixedChunks.StepTrack | lib/chunk_manager.js:45-70 | `before_chunk` fires exactly when a pass starts an empty block, and `chunk` closes the block it started. The events keep alternating. |
| FixedChunks.Run | lib/chunk_manager.js:42-73 | The `while (l > 0)` loop keeps the cursor inside a block of unchanged size. It only adds events after those already fired. |
| FixedChunks.AccWrite | lib/chunk_manager.js:34-74 | write refuses a length of 0, and only that. Otherwise the cursor stays inside a block of the same size. |
| FixedChunks.AccEnd | lib/chunk_manager.js:78-92 | end() leaves the cursor at 0 and the block buffer as it was. It emits the first `cursor` bytes as one block when the cursor is above 0, and no block otherwise. The block it closes leaves no block open. |
| FixedChunks.RunCount | lib/chunk_manager.js:42-73 | Loop invariant: the cursor plus (blocks emitted × block size) grows by the input consumed. |
| FixedChunks.RunBlockSizes | lib/chunk_manager.js:67-70 | Loop invariant: every block emitted is exactly one block size long. |
| FixedChunks.RunTrack | lib/chunk_manager.js:45-70 | Loop invariant: the events alternate `before_chunk`, `chunk`, with a block open exactly when the cursor is not 0. |
| FixedChunks.WriteLoopShape | lib/chunk_manager.js:34-74 | Writing n bytes at cursor c with block size S emits floor((c+n)/S) blocks, each S bytes, and leaves the cursor at (c+n) mod S. `before_chunk` fires once before each block started, never twice in a row. |
| FixedChunks.WriteLoopDone | lib/chunk_manager.js:65-72 | After a whole write, the cursor has advanced by the input length modulo the block size. A log that alternated still alternates. |
| FixedChunks.WriteStream | lib/chunk_manager.js:56-66 | The blocks a write emits, put end to end and followed by the bytes left in the block, equal the bytes left in the block before the write followed by the input. |
| FixedChunks.WriteReserve | lib/chunk_manager.js:58-63 | write(null, n) leaves the block buffer unchanged, and every block it emits is that buffer. |
| FixedChunks.WriteAllStream | lib/chunk_manager.js:34-74 | The same byte-preservation equation holds across any number of writes, and the events keep alternating. |
| FixedChunks.WriteAllBlockSizes | lib/chunk_manager.js:67-70 | Every block emitted by a run of writes is exactly one block size long. |
| FixedChunks.WritesThenEnd | lib/chunk_manager.js:78-92 | Writes then end(), from an empty block: the blocks put end to end are exactly the bytes written, in order. Every block but the last is full. The cursor is back at 0, and the log ends on a `chunk`. |
| FixedChunks.ChunkManager.constructor | lib/chunk_manager.js:25-31 | A fresh block buffer of ChunkSizeOf(size) bytes, the cursor at 0, and no events. |
| FixedChunks.ChunkManager.Advance | lib/chunk_manager.js:45-72 | One pass of the loop changes the block, the cursor and the log exactly as AccStep says. |
| FixedChunks.ChunkManager.WriteLoop | lib/chunk_manager.js:42-73 | The `while (l > 0)` loop leaves the block, the cursor and the log as Run says. |
| FixedChunks.ChunkManager.Write | lib/chunk_manager.js:34-74 | As AccWrite. A refused write changes nothing. The cursor moves on by the length, modulo the block size. The class invariant (cursor inside the block, log alternating) is kept. |
| FixedChunks.ChunkManager.End | lib/chunk_manager.js:78-92 | With the cursor above 0, emits exactly the first `cursor` bytes of the block (padding is off). The cursor becomes 0. With the cursor at 0, emits nothing. |
| Framing.GuardAdmitsOversizedBlocks | lib/chunk_manager.js:138-139 | The constructor's check accepts messageSize 16 with a 4-byte extra header. The accumulator then emits 1024-byte blocks that cannot fit the chunk, against the handler's assertion at line 156. |
| Framing.BodySize | lib/chunk_manager.js:145-146 | The block size is what `messageSize` leaves after the headers. It is at least 1 under ConfigValid. |
| Framing.PendingBuffer | lib/chunk_manager.js:161-164 | The pending buffer is `sizeOfHeader + body.length` bytes long, with the body copied in after the headers. |
| Framing.Stamp | lib/chunk_manager.js:200 | Stamping a header changes only the first 12 bytes of the pending buffer. |
| Framing.Framed | lib/chunk_manager.js:194-205 | The chunk _sendPendingChunk sends is `sizeOfHeader` bytes longer than its body and never longer than `messageSize`. It carries the marker in byte 3 and ends with the body. |
| Framing.FramedLayout | lib/chunk_manager.js:161-186 | Every chunk sent holds the following. Bytes 0-2 are the message type and byte 3 the marker. Bytes 4-7 hold the chunk's own length, not `messageSize`, and bytes 8-11 the secure channel id. The extra header is left as 0xEF fill, then comes the body. The chunk is never longer than `messageSize`, and it passes verify_message_chunk. |
| Framing.Flush | lib/chunk_manager.js:194-205 | _sendPendingChunk sends one chunk when one is pending, and none otherwise. |
| Framing.Deliver | lib/chunk_manager.js:152-168 | Running the handlers over the accumulator's events leaves at most one pending chunk, and its body fits. |
| Framing.DeliverShape | lib/chunk_manager.js:152-165 | Taking the pending body followed by every block delivered: all but the last are sent marked `C`, in order, and the last is left pending. |
| Framing.DeliverSent | lib/chunk_manager.js:158 | Chunks sent earlier stay in front, untouched. |
| Framing.DeliverAppend | lib/chunk_manager.js:152-165 | Handling two runs of events in turn is the same as handling them together. |
| Framing.FramerInit | lib/chunk_manager.js:148 | A fresh manager has an empty accumulator of BodySize bytes and no pending chunk. |
| Framing.FramerWrite | lib/chunk_manager.js:189-193 | write refuses a length of 0 and only that. Otherwise the one-pending-chunk invariant is kept. |
| Framing.FramerFinish | lib/chunk_manager.js:207-218 | After end() or abort(), nothing is pending and the accumulator is empty. |
| Framing.FramerWriteAllDeliver | lib/chunk_manager.js:189-193 | Several writes run the handlers over all of the accumulator's events at once. |
| Framing.FinishDeliver | lib/chunk_manager.js:213-218 | Writes then end() or abort(): the handlers run over all the events, and then the one pending chunk is sent with the closing marker. |
| Framing.MessageOfDelivered | lib/chunk_manager.js:194-218 | Sending the pending chunk with the closing marker completes the message. Every body but the last is marked `C`, and the last carries the closing marker. |
| Framing.WholeMessage | lib/chunk_manager.js:132-218 | A whole message, from a fresh manager: the chunks sent are the bodies in order, all but the last marked `C` and the last marked `F` or `A`. The bodies put end to end are the bytes written. Every body but the last is a full block. Nothing written means nothing sent. |
| Framing.MarkBuffer | lib/chunk_manager.js:116-120 | Every byte of the buffer becomes 0xEF. |
| Framing.MessageChunkManager.constructor | lib/chunk_manager.js:132-150 | The type defaults to "HEL". The accumulator gets blocks of `messageSize - sizeOfHeader` bytes. Nothing is pending or sent. |
| Framing.MessageChunkManager.WriteHeaderAndFooter | lib/chunk_manager.js:173-186 | The first 12 bytes of the buffer become the encoded header, and every other byte is left alone. |
| Framing.MessageChunkManager.SendPendingChunk | lib/chunk_manager.js:194-205 | The pending chunk, if any, is stamped with the marker and sent. The slot is cleared. |
| Framing.MessageChunkManager.OnChunk | lib/chunk_manager.js:152-165 | The pending chunk is sent marked `C` first. Then a new pending chunk is built in a fresh buffer: 0xEF fill, then the block after the headers. |
| Framing.MessageChunkManager.DeliverEvents | lib/chunk_manager.js:152-168 | The handlers run over the events, in order, as Deliver says. The accumulator is untouched. |
| Framing.MessageChunkManager.Write | lib/chunk_manager.js:189-193 | As FramerWrite. A refused write changes nothing. |
| Framing.MessageChunkManager.Finish | lib/chunk_manager.js:207-218 | As FramerFinish. Nothing is pending afterwards. |
| Framing.MessageChunkManager.End | lib/chunk_manager.js:213-218 | As FramerFinish with marker `F`. |
| Framing.MessageChunkManager.Abort | lib/chunk_manager.js:207-211 | As FramerFinish with marker `A`. |
| Reassembly.BuilderAppend | lib/chunk_manager.js:231-263 | _append fails exactly when the chunk is shorter than 12 bytes or its length field is not its length. A length mismatch reports the declared and actual lengths. |
| Reassembly.BuilderFeed | lib/chunk_manager.js:271-311 | feed refuses a chunk exactly in two cases: its header cannot be read, or it is a `C` or `F` chunk that _append refuses. |
| Reassembly.FeedData | lib/chunk_manager.js:279-299 | A `C` or `F` chunk appends exactly its bytes from 12 on and adds their count to `total_size`. Nothing already received is dropped. Only `F` emits, and it emits every block so far put end to end, `total_size` bytes long. |
| Reassembly.FeedKeeps | lib/chunk_manager.js:282-286 | Every accepted chunk keeps `total_size` equal to the length of the blocks, and keeps the earlier blocks in place: no reset after `F`. |
| Reassembly.FeedNoData | lib/chunk_manager.js:294-309 | An `A` chunk emits an error and leaves the blocks alone. A chunk of any other type but `C` or `F` changes nothing and emits nothing. |
| Reassembly.MessageBuilderBase.constructor | lib/chunk_manager.js:223-226 | No blocks, a total of 0, nothing emitted. |
| Reassembly.MessageBuilderBase.Append | lib/chunk_manager.js:231-269 | As BuilderAppend. A refused chunk changes nothing. An accepted one pushes a clone of its body. |
| Reassembly.MessageBuilderBase.Feed | lib/chunk_manager.js:271-311 | As BuilderFeed. A refused chunk changes nothing and emits nothing, and `total_size` stays the length of the blocks. |
| RoundTrip.CarriedAllNoExtra | lib/chunk_manager.js:250-259 | Without an extra header, the builder keeps exactly the bodies. |
| RoundTrip.FeedFramed | lib/chunk_manager.js:231-263 | A chunk framed as `C` or `F` passes the builder's checks and appends its body. For `F` it then emits every block so far. |
| RoundTrip.FeedAborted | lib/chunk_manager.js:294-296 | A chunk framed as `A` is accepted, answered with the error, and its body is dropped. |
| RoundTrip.FeedFrames | lib/chunk_manager.js:298-299 | A run of `C` chunks appends their bodies in order and emits nothing. |
| RoundTrip.MessageReceived | lib/chunk_manager.js:279-296 | A whole framed message fed to a fresh builder is never refused. With `F`, the builder emits once, every body put end to end. With `A`, it emits only the error. |
| RoundTrip.RoundTrip | lib/chunk_manager.js:152-299 | With no extra header, the chunks sent for writes followed by end() make a fresh builder emit exactly the bytes written, once. abort() makes it emit the error alone. Nothing written means nothing emitted. |

## Left out

- `ChunkStream` (the `through2` stream wrapper) is not part of this model: it is stream plumbing around `write` and `end`.
- Bytes.CopyIntoAt: a copy whose start lies at or past the end of the source copies nothing, as `CopiedCount` says. `write(buffer, length)` with `length` above `buffer.length` reaches that case on every pass after the source runs out, and the model (`FixedChunks.AccStep`, `FixedChunks.AccWrite`) then carries on with the block bytes unchanged. Whether `Buffer.copy` returns 0 or throws a `RangeError` for such a start depends on the Node version, and the throwing behaviour is not modelled.
- `ChunkStream`'s own `chunk` listener pushes the live block buffer into its stream without copying it. So a consumer that reads the pushed buffer after the next write sees the overwritten bytes. The snapshot `Chunk(block)` events do not capture that aliasing.
- `msgType` is a byte sequence. In the code it is a string whose `charCodeAt` values go to `writeUInt8`, which throws for a code above 255. The model cannot express that failure.
- `secureChannelId` is a u32. In the code it is any value that survives `|| 0`, and `writeUInt32LE` throws when it lies outside the u32 range. The model cannot express that failure.
- Reassembly.BuilderFeed: an `A` chunk is a success that emits `AbortError`. In Node, `emit("error")` with no `error` listener throws instead. The model does not track listeners, so that throw is not modelled.
- The `EventEmitter` machinery is replaced by log fields. `emit("raw_buffer")` and `emit("error")` become entries of `MessageBuilderBase.outputs`.
- `readMessageHeader` and `BinaryStream` are not part of this model. The model reads only the type bytes, the chunk type byte and the u32 fields at offsets 4 and 8. A buffer too short for a field is a `TruncatedHeader` error, not an exception.
- The disabled `fill_padding` branch of `end` is left out: it is switched off, and it refers to an undeclared variable.
- The `_read_headers` hook of `MessageBuilderBase` is left out: a subclass supplies it. With an extra header, the builder therefore keeps the 0xEF-filled extra header in front of each body, which `RoundTrip.Carried` states.
- The `_on_raw_buffer` hook is left out: a subclass supplies it, and it only receives the buffer already emitted.
- The ordering, signature and decryption steps in `feed` are left out: they are comments only.
- Framing.MessageChunkManager.constructor: requires the extra header to leave room for a body (`messageSize > 12 + extraHeaderSize`) and `messageSize < 2^32`, not just `messageSize > 12`. The code's own check is modelled separately by `ConstructorAsserts` (see Findings).
- Framing.MessageChunkManager.OnChunk: requires that the block fits `messageSize`, which is the handler's own assertion. Under the class invariant every block fits, so the assertion never fires.
- `_in_before_chunk`, the re-entrancy guard of `write`, is not a field. No listener writes back into the accumulator, so the guard is always clear when it is tested. Its purpose is instead stated as the invariant that `before_chunk` never fires twice in a row (`FixedChunks.Track`).
- Framing.MessageChunkManager.DeliverEvents: the `chunk` handler runs after the accumulator's `write` or `end` returns, not in the middle of its loop. The handler never touches the accumulator, so the chunks sent are the same.
- Framing.MessageChunkManager.WriteHeaderAndFooter: is handed the whole pending buffer, not the `slice(0, sizeOfHeader)` view of it. The slice shares the buffer's memory and only the first 12 bytes are written, so the effect is the same.
- `assert(buffer instanceof Buffer || buffer === null)` in `write` and `assert(finalC.length === 1)` become types: an optional byte sequence, and a single byte.
- The global variables the code leaks (`offsetBody`, `i`, `offsetBodyStart`, `offsetBodyEnd`) are not modelled. `offsetBodyStart` is kept as a field, as the code also stores it there.

## Findings

| source | as written | input that shows it | evidently intended | confidence | as-written member | corrected member |
|---|---|---|---|---|---|---|
| lib/chunk_manager.js:139 | `assert(messageSize > 12)` ignores `extraHeaderSize`, so a configuration with no room for a body passes. Then `new ChunkManager(0)` falls back to 1024-byte blocks, and the first full block breaks the handler's `assert(self.messageSize >= chunk.length + offsetBody)`. | `messageSize` 16, `extraHeaderSize` 4 | the check should count the whole header: `messageSize > 12 + extraHeaderSize` | medium, not executed | Framing.GuardAdmitsOversizedBlocks | Framing.FramedLayout |
