/** The 12-byte message chunk header of OPC UA Part 6 (OPC 10000-6), section 6.7.2, and
    `verify_message_chunk`, the check that a chunk's declared length is its real length. */
module MessageChunk {
  import opened Bytes

  /** Size of the common header: message type (3), chunk type (1), length (u32 LE), secure channel id (u32 LE). */
  const HEADER_SIZE: nat := 12

  /** Chunk type markers: 'C' continuation, 'F' final, 'A' abort. */
  const CONTINUATION: Byte := 0x43
  const FINAL: Byte := 0x46
  const ABORT: Byte := 0x41

  /** The byte `mark_buffer` fills a fresh outbound chunk with. */
  const FILL: Byte := 0xEF

  /** What reading an inbound chunk can fail with. */
  datatype ChunkError =
    | TruncatedHeader(actual: nat)                  // a header field lies past the end of the buffer
    | LengthMismatch(declared: U32, actual: nat)    // the length field is not the buffer's length

  /** The part of the header `readMessageHeader` returns. */
  datatype MessageHeader = MessageHeader(msgType: seq<Byte>, isFinal: Byte, length: U32)

  /** readMessageHeader: three type bytes, the chunk type byte, then the u32 LE length at offset 4;
      a buffer too short to hold them makes the read fail. */
  function ReadMessageHeader(chunk: seq<Byte>): (r: Option<MessageHeader>)
    ensures r.Some? <==> |chunk| >= 8
    ensures r.Some? ==> r.value.msgType == chunk[..3] && r.value.isFinal == chunk[3]
  {
    if |chunk| < 8 then None
    else Some(MessageHeader(chunk[..3], chunk[3], ReadU32LE(chunk, 4)))
  }

  /** verify_message_chunk: passes exactly when the header can be read and its length field
      equals the length of the buffer. */
  function VerifyMessageChunk(chunk: seq<Byte>): (r: Outcome<ChunkError>)
    ensures r.Pass? <==> |chunk| >= 8 && ReadU32LE(chunk, 4) == |chunk|
    ensures r.Fail? && |chunk| >= 8 ==> r.error == LengthMismatch(ReadU32LE(chunk, 4), |chunk|)
  {
    match ReadMessageHeader(chunk)
    case None => Fail(TruncatedHeader(|chunk|))
    case Some(header) =>
      if |chunk| != header.length then Fail(LengthMismatch(header.length, |chunk|)) else Pass
  }

  /** The 12 bytes `write_header_and_footer` writes at the start of an outbound chunk. */
  function EncodeHeader(msgType: seq<Byte>, marker: Byte, length: U32, secureChannelId: U32): (r: seq<Byte>)
    requires |msgType| == 3
    ensures |r| == HEADER_SIZE
    ensures r[..3] == msgType && r[3] == marker
    ensures ReadU32LE(r, 4) == length && ReadU32LE(r, 8) == secureChannelId
  {
    var l, c := U32LE(length), U32LE(secureChannelId);
    var r := msgType + [marker] + l + c;
    assert r[4..8] == l && r[8..12] == c;
    r
  }

  /** Every field of an encoded header reads back as written, whatever follows the header. */
  lemma HeaderFieldsReadBack(msgType: seq<Byte>, marker: Byte, length: U32, secureChannelId: U32, rest: seq<Byte>)
    requires |msgType| == 3
    ensures var c := EncodeHeader(msgType, marker, length, secureChannelId) + rest;
      && c[..3] == msgType && c[3] == marker
      && ReadU32LE(c, 4) == length && ReadU32LE(c, 8) == secureChannelId
      && ReadMessageHeader(c) == Some(MessageHeader(msgType, marker, length))
  {
    var c := EncodeHeader(msgType, marker, length, secureChannelId) + rest;
    assert c == (msgType + [marker]) + U32LE(length) + (U32LE(secureChannelId) + rest);
    ReadU32LEOfU32LE(msgType + [marker], length, U32LE(secureChannelId) + rest);
    assert c == (msgType + [marker] + U32LE(length)) + U32LE(secureChannelId) + rest;
    ReadU32LEOfU32LE(msgType + [marker] + U32LE(length), secureChannelId, rest);
  }

  /** A chunk whose header declares its own length passes verify_message_chunk; declaring any
      other length makes it fail with the declared and the actual length. */
  lemma VerifyEncodedChunk(msgType: seq<Byte>, marker: Byte, length: U32, secureChannelId: U32, rest: seq<Byte>)
    requires |msgType| == 3
    ensures var c := EncodeHeader(msgType, marker, length, secureChannelId) + rest;
      VerifyMessageChunk(c) == if length == |c| then Pass else Fail(LengthMismatch(length, |c|))
  {
    HeaderFieldsReadBack(msgType, marker, length, secureChannelId, rest);
  }
}
