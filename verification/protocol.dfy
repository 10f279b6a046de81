/** The frame format and the payload codecs of protocol.py. */
module Protocol {
  import opened Bytes
  import opened Crc

  const MAGIC: Bytes := [0x53, 0x4D]
  const PROTOCOL_VERSION: Byte := 1
  const HEADER_SIZE: nat := 10
  const MAX_CHUNK_DATA: nat := 210

  const WORD_BYTES: nat := 2
  const AMOUNT_BYTES: nat := 8

  const TX_CHUNK: Byte := 0x01
  const ACK: Byte := 0x10

  datatype Error =
    | PayloadTooLarge
    | FieldOutOfRange
    | TooShort
    | InvalidMagic
    | UnsupportedVersion
    | LengthMismatch
    | ChecksumMismatch
    | WrongFieldLength
    | MissingMint
    | InvalidUtf8
    | TooManyChunks

  datatype Result<+T> = Ok(value: T) | Err(error: Error)

  type Word = n: int | 0 <= n < 0x1_0000

  datatype Header =
    Header(msgType: Byte, msgId: Word, chunkNum: Byte, totalChunks: Byte, payloadLen: Byte, checksum: Byte)

  lemma WordSize()
    ensures Pow256(WORD_BYTES) == 0x1_0000
  {
    assert Pow256(1) == 256;
  }

  // ---------------------------------------------------------------- frames

  predicate InRange(msgType: int, msgId: int, chunkNum: int, totalChunks: int) {
    0 <= msgType < 0x100 && 0 <= msgId < 0x1_0000 && 0 <= chunkNum < 0x100 && 0 <= totalChunks < 0x100
  }

  /** The nine header bytes that precede the checksum. */
  function HeaderNoCrc(msgType: Byte, msgId: Word, chunkNum: Byte, totalChunks: Byte, payloadLen: Byte): (s: Bytes)
    ensures |s| == 9 && s[8] == payloadLen
  {
    WordSize();
    MAGIC + [PROTOCOL_VERSION, msgType] + BigEndian(msgId, WORD_BYTES) + [chunkNum, totalChunks, payloadLen]
  }

  function PackMessage(msgType: int, msgId: int, chunkNum: int, totalChunks: int, payload: Bytes): Result<Bytes> {
    if |payload| > MAX_CHUNK_DATA then Err(PayloadTooLarge)
    else if !InRange(msgType, msgId, chunkNum, totalChunks) then Err(FieldOutOfRange)
    else
      var headerNoCrc := HeaderNoCrc(msgType, msgId, chunkNum, totalChunks, |payload|);
      var check := CrcOf(headerNoCrc + payload);
      Ok(headerNoCrc + [check] + payload)
  }

  function ReadWord(s: Bytes): (n: Word)
    requires |s| == 2
    ensures n == FromBigEndian(s)
  {
    BigEndianInverts(s);
    WordSize();
    FromBigEndian(s)
  }

  function UnpackMessage(raw: Bytes): Result<(Header, Bytes)> {
    if |raw| < HEADER_SIZE then Err(TooShort)
    else if raw[0..2] != MAGIC then Err(InvalidMagic)
    else if raw[2] != PROTOCOL_VERSION then Err(UnsupportedVersion)
    else
      var payloadLen, checksum := raw[8], raw[9];
      var end := HEADER_SIZE + payloadLen;
      var payload := raw[HEADER_SIZE..if end <= |raw| then end else |raw|];
      if |payload| != payloadLen then Err(LengthMismatch)
      else if checksum != CrcOf(raw[0..9] + payload) then Err(ChecksumMismatch)
      else Ok((Header(raw[3], ReadWord(raw[4..6]), raw[6], raw[7], payloadLen, checksum), payload))
  }

  /** The header that unpacking a packed frame yields. */
  function PackedHeader(msgType: Byte, msgId: Word, chunkNum: Byte, totalChunks: Byte, payload: Bytes): Header
    requires |payload| <= MAX_CHUNK_DATA
  {
    Header(msgType, msgId, chunkNum, totalChunks, |payload|,
           CrcOf(HeaderNoCrc(msgType, msgId, chunkNum, totalChunks, |payload|) + payload))
  }

  /** Packing succeeds on every header in range and every payload that fits, and unpacking undoes it,
      whatever follows the frame. */
  lemma UnpackAfterPack(msgType: Byte, msgId: Word, chunkNum: Byte, totalChunks: Byte, payload: Bytes, tail: Bytes)
    requires |payload| <= MAX_CHUNK_DATA
    ensures var packed := PackMessage(msgType, msgId, chunkNum, totalChunks, payload);
            && packed.Ok? && |packed.value| == HEADER_SIZE + |payload|
            && UnpackMessage(packed.value + tail)
               == Ok((PackedHeader(msgType, msgId, chunkNum, totalChunks, payload), payload))
  {
    var headerNoCrc := HeaderNoCrc(msgType, msgId, chunkNum, totalChunks, |payload|);
    var raw := PackMessage(msgType, msgId, chunkNum, totalChunks, payload).value + tail;
    assert raw[0..9] == headerNoCrc;
    assert raw[0..2] == MAGIC;
    assert raw[4..6] == BigEndian(msgId, WORD_BYTES);
    assert raw[HEADER_SIZE..HEADER_SIZE + |payload|] == payload;
    FromBigEndianInverts(msgId, WORD_BYTES);
  }

  /** Every accepted frame whose payload fits is what packing its own header and payload gives. */
  lemma PackAfterUnpack(raw: Bytes)
    requires UnpackMessage(raw).Ok? && UnpackMessage(raw).value.0.payloadLen <= MAX_CHUNK_DATA
    ensures var (h, payload) := UnpackMessage(raw).value;
            && HEADER_SIZE + |payload| <= |raw|
            && PackMessage(h.msgType, h.msgId, h.chunkNum, h.totalChunks, payload)
               == Ok(raw[..HEADER_SIZE + |payload|])
  {
    var (h, payload) := UnpackMessage(raw).value;
    HeaderRebuilt(raw);
    assert raw[..HEADER_SIZE + |payload|] == raw[0..9] + [raw[9]] + payload;
  }

  lemma HeaderRebuilt(raw: Bytes)
    requires |raw| >= 9 && raw[0..2] == MAGIC && raw[2] == PROTOCOL_VERSION
    ensures raw[0..9] == HeaderNoCrc(raw[3], ReadWord(raw[4..6]), raw[6], raw[7], raw[8])
  {
    BigEndianInverts(raw[4..6]);
    assert raw[0..9] == raw[0..2] + [raw[2], raw[3]] + raw[4..6] + [raw[6], raw[7], raw[8]];
  }

  /** The frame on the wire, byte by byte; a payload of more than 210 bytes has none. */
  lemma FrameLayout(msgType: Byte, msgId: Word, chunkNum: Byte, totalChunks: Byte, payload: Bytes)
    ensures var packed := PackMessage(msgType, msgId, chunkNum, totalChunks, payload);
            if |payload| > 210 then packed == Err(PayloadTooLarge)
            else
              && packed.Ok? && |packed.value| == 10 + |payload|
              && packed.value[..4] == [0x53, 0x4D, 1, msgType]
              && packed.value[4..6] == [msgId / 256, msgId % 256]
              && packed.value[6..9] == [chunkNum, totalChunks, |payload|]
              && packed.value[9] == CrcOf(packed.value[..9] + payload)
              && packed.value[10..] == payload
  {
    if |payload| <= 210 {
      var frame := PackMessage(msgType, msgId, chunkNum, totalChunks, payload).value;
      assert frame[..9] == HeaderNoCrc(msgType, msgId, chunkNum, totalChunks, |payload|);
      assert frame[4..6] == BigEndian(msgId, WORD_BYTES);
      TwoBytes(msgId);
    }
  }

  lemma TwoBytes(n: Word)
    ensures n < Pow256(WORD_BYTES) && BigEndian(n, WORD_BYTES) == [n / 256, n % 256]
  {
    WordSize();
    assert BigEndian(n / 256, 1) == BigEndian(n / 256 / 256, 0) + [n / 256 % 256];
  }

  ghost predicate StartsWithFrame(raw: Bytes) {
    exists msgType: int, msgId: int, chunkNum: int, totalChunks: int, payload: Bytes ::
      && PackMessage(msgType, msgId, chunkNum, totalChunks, payload).Ok?
      && PackMessage(msgType, msgId, chunkNum, totalChunks, payload).value <= raw
  }

  /** With a length field the packer can produce, unpacking accepts exactly the byte strings that begin with a
      packed frame. */
  lemma AcceptsExactlyFrames(raw: Bytes)
    requires |raw| >= HEADER_SIZE && raw[8] <= MAX_CHUNK_DATA
    ensures UnpackMessage(raw).Ok? <==> StartsWithFrame(raw)
  {
    if UnpackMessage(raw).Ok? {
      PackAfterUnpack(raw);
      var (h, payload) := UnpackMessage(raw).value;
      assert PackMessage(h.msgType, h.msgId, h.chunkNum, h.totalChunks, payload).value <= raw;
    }
    if StartsWithFrame(raw) {
      var msgType: int, msgId: int, chunkNum: int, totalChunks: int, payload: Bytes :|
        && PackMessage(msgType, msgId, chunkNum, totalChunks, payload).Ok?
        && PackMessage(msgType, msgId, chunkNum, totalChunks, payload).value <= raw;
      var frame := PackMessage(msgType, msgId, chunkNum, totalChunks, payload).value;
      assert frame + raw[|frame|..] == raw;
      UnpackAfterPack(msgType, msgId, chunkNum, totalChunks, payload, raw[|frame|..]);
    }
  }

  /** The first check that fails names the error; bytes behind the payload are not looked at. */
  lemma UnpackedExactlyWhen(raw: Bytes)
    ensures var r := UnpackMessage(raw);
            && (r == Err(TooShort) <==> |raw| < 10)
            && (r == Err(InvalidMagic) <==> |raw| >= 10 && raw[..2] != [0x53, 0x4D])
            && (r == Err(UnsupportedVersion) <==> |raw| >= 10 && raw[..2] == [0x53, 0x4D] && raw[2] != 1)
            && (r == Err(LengthMismatch) <==>
                  |raw| >= 10 && raw[..3] == [0x53, 0x4D, 1] && |raw| - 10 < raw[8])
            && (r == Err(ChecksumMismatch) <==>
                  |raw| >= 10 && raw[..3] == [0x53, 0x4D, 1] && |raw| - 10 >= raw[8]
                  && raw[9] != CrcOf(raw[..9] + raw[10..10 + raw[8]]))
            && (r.Ok? <==>
                  |raw| >= 10 && raw[..3] == [0x53, 0x4D, 1] && |raw| - 10 >= raw[8]
                  && raw[9] == CrcOf(raw[..9] + raw[10..10 + raw[8]]))
  {
    if |raw| >= 10 {
      assert raw[..3] == raw[..2] + [raw[2]];
      assert [0x53, 0x4D, 1] == MAGIC + [PROTOCOL_VERSION];
    }
  }

  // ---------------------------------------------------------------- transfer requests

  datatype TxRequest = TxRequest(
    signature: Bytes, senderPubkey: Bytes, destPubkey: Bytes, amount: nat, flags: Byte, mint: Bytes, memo: Bytes)

  /** `memo` holds the UTF-8 bytes of the memo string. */
  function EncodeTxRequest(senderPubkey: Bytes, destPubkey: Bytes, amount: int, signature: Bytes,
                           memo: Bytes, mint: Bytes): Result<Bytes>
  {
    if |signature| != 64 || |senderPubkey| != 32 || |destPubkey| != 32 || (mint != [] && |mint| != 32)
    then Err(WrongFieldLength)
    else if !(0 <= amount < Pow256(AMOUNT_BYTES)) then Err(FieldOutOfRange)
    else
      var flags: Byte := if mint != [] then 0x01 else 0x00;
      Ok(signature + senderPubkey + destPubkey + BigEndian(amount, AMOUNT_BYTES) + [flags] + mint + memo)
  }

  /** `utf8` tells which byte strings decode. */
  function DecodeTxRequest(payload: Bytes, utf8: Bytes -> bool): Result<TxRequest> {
    if |payload| < 136 then Err(TooShort)
    else
      var flags: Byte := if |payload| > 136 then payload[136] else 0x00;
      var hasMint := flags % 2 == 1;
      if hasMint && |payload| < 169 then Err(MissingMint)
      else
        var memoOffset := if hasMint then 169 else if |payload| > 136 then 137 else 136;
        var memo := payload[memoOffset..];
        if memo != [] && !utf8(memo) then Err(InvalidUtf8)
        else Ok(TxRequest(payload[0..64], payload[64..96], payload[96..128], FromBigEndian(payload[128..136]),
                          flags, if hasMint then payload[137..169] else [], memo))
  }

  lemma DecodeAfterEncode(senderPubkey: Bytes, destPubkey: Bytes, amount: int, signature: Bytes,
                          memo: Bytes, mint: Bytes, utf8: Bytes -> bool)
    requires EncodeTxRequest(senderPubkey, destPubkey, amount, signature, memo, mint).Ok?
    requires memo == [] || utf8(memo)
    ensures DecodeTxRequest(EncodeTxRequest(senderPubkey, destPubkey, amount, signature, memo, mint).value, utf8)
         == Ok(TxRequest(signature, senderPubkey, destPubkey, amount, if mint != [] then 0x01 else 0x00, mint, memo))
  {
    var p := EncodeTxRequest(senderPubkey, destPubkey, amount, signature, memo, mint).value;
    FromBigEndianInverts(amount, AMOUNT_BYTES);
    assert p[0..64] == signature;
    assert p[64..96] == senderPubkey;
    assert p[96..128] == destPubkey;
    assert p[128..136] == BigEndian(amount, AMOUNT_BYTES);
    assert p[137..] == mint + memo;
    if mint != [] {
      assert p[137..169] == mint;
      assert p[169..] == memo;
    } else {
      assert p[137..] == memo;
    }
  }

  /** An encoded request, field by field. */
  lemma RequestLayout(senderPubkey: Bytes, destPubkey: Bytes, amount: int, signature: Bytes, memo: Bytes, mint: Bytes)
    requires EncodeTxRequest(senderPubkey, destPubkey, amount, signature, memo, mint).Ok?
    ensures var p := EncodeTxRequest(senderPubkey, destPubkey, amount, signature, memo, mint).value;
            && |p| == 137 + |mint| + |memo|
            && p[..64] == signature && p[64..96] == senderPubkey && p[96..128] == destPubkey
            && FromBigEndian(p[128..136]) == amount && p[136] == (if mint == [] then 0 else 1)
            && p[137..] == mint + memo
  {
    var p := EncodeTxRequest(senderPubkey, destPubkey, amount, signature, memo, mint).value;
    FromBigEndianInverts(amount, AMOUNT_BYTES);
    assert p[128..136] == BigEndian(amount, AMOUNT_BYTES);
  }

  /** Re-encoding an accepted payload reproduces it but for the flags byte, of which only the mint flag is kept and
      which a payload ending after the amount gains. So it is restored exactly when it has a flags byte of 0 or 1. */
  lemma EncodeAfterDecode(payload: Bytes, utf8: Bytes -> bool)
    requires DecodeTxRequest(payload, utf8).Ok?
    ensures var r := DecodeTxRequest(payload, utf8).value;
            var encoded := EncodeTxRequest(r.senderPubkey, r.destPubkey, r.amount, r.signature, r.memo, r.mint);
            && encoded == Ok(if |payload| == 136 then payload + [0x00] else payload[136 := r.flags % 2])
            && (encoded == Ok(payload) <==> |payload| > 136 && r.flags <= 0x01)
  {
    var r := DecodeTxRequest(payload, utf8).value;
    BigEndianInverts(payload[128..136]);
    var fixed := r.signature + r.senderPubkey + r.destPubkey + BigEndian(r.amount, AMOUNT_BYTES);
    assert fixed == payload[..136];
    if |payload| == 136 {
      assert payload[..136] == payload;
      assert fixed + [0x00] + r.mint + r.memo == payload + [0x00];
    } else {
      RestBehindFlags(payload, fixed, r);
      assert payload[136 := r.flags % 2][136] == r.flags % 2;
      assert r.flags <= 0x01 ==> payload[136 := r.flags % 2] == payload;
    }
  }

  lemma RestBehindFlags(payload: Bytes, fixed: Bytes, r: TxRequest)
    requires |payload| > 136 && fixed == payload[..136] && r.flags == payload[136]
    requires r.flags % 2 == 1 ==> |payload| >= 169 && r.mint == payload[137..169] && r.memo == payload[169..]
    requires r.flags % 2 == 0 ==> r.mint == [] && r.memo == payload[137..]
    ensures fixed + [r.flags % 2] + r.mint + r.memo == payload[136 := r.flags % 2]
  {
    var relabelled := payload[136 := r.flags % 2];
    assert relabelled == payload[..136] + [r.flags % 2] + payload[137..];
    if r.flags % 2 == 1 {
      assert payload[137..] == payload[137..169] + payload[169..];
    }
  }

  // ---------------------------------------------------------------- acknowledgements

  datatype Ack = Ack(msgId: nat, chunk: Byte, status: Byte)

  function EncodeAck(msgId: int, chunk: int, status: int): Result<Bytes> {
    if 0 <= msgId < Pow256(WORD_BYTES) && 0 <= chunk < 0x100 && 0 <= status < 0x100
    then Ok(BigEndian(msgId, WORD_BYTES) + [chunk, status])
    else Err(FieldOutOfRange)
  }

  function DecodeAck(payload: Bytes): Result<Ack> {
    if |payload| < 4 then Err(TooShort)
    else Ok(Ack(FromBigEndian(payload[0..2]), payload[2], payload[3]))
  }

  lemma DecodeAckAfterEncode(msgId: int, chunk: int, status: int)
    requires EncodeAck(msgId, chunk, status).Ok?
    ensures DecodeAck(EncodeAck(msgId, chunk, status).value) == Ok(Ack(msgId, chunk, status))
  {
    var p := EncodeAck(msgId, chunk, status).value;
    FromBigEndianInverts(msgId, WORD_BYTES);
    assert p[0..2] == BigEndian(msgId, WORD_BYTES);
  }

  /** An ACK on the wire: message type 0x10 around the id, the chunk and the status. */
  lemma AckLayout(ackId: Word, msgId: Word, chunk: Byte, status: Byte)
    ensures var ack := EncodeAck(msgId, chunk, status);
            && ack.Ok? && ack.value == [msgId / 256, msgId % 256, chunk, status]
            && PackMessage(ACK, ackId, 0, 1, ack.value).Ok?
            && PackMessage(ACK, ackId, 0, 1, ack.value).value[3] == 0x10
  {
    TwoBytes(msgId);
    FrameLayout(ACK, ackId, 0, 1, EncodeAck(msgId, chunk, status).value);
  }
}
