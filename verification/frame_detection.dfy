/** Which damage to a packed frame `UnpackMessage` notices. */
module FrameDetection {
  import opened Bytes
  import opened Crc
  import opened CrcDetection
  import opened Protocol

  /** Bit k is true where the two frames differ. */
  function Damage(raw: Bytes, raw': Bytes): (x: Bits)
    requires |raw| == |raw'|
    ensures |x| == 8 * |raw|
  {
    XorBits(MessageBits(raw), MessageBits(raw'))
  }

  /** The checksum covers bytes 0 to 8 and the payload; moving it behind them gives the code word. */
  function Reordered(x: Bits): (y: Bits)
    requires |x| >= 80
    ensures |y| == |x|
  {
    x[..72] + x[80..] + x[72..80]
  }

  function Codeword(raw: Bytes): Bytes
    requires |raw| >= HEADER_SIZE
  {
    raw[..9] + raw[10..] + raw[9..10]
  }

  ghost predicate Undamaged(x: Bits, lo: nat, hi: nat) {
    forall k :: 0 <= k < |x| && lo <= k < hi ==> !x[k]
  }

  /** `raw` is a frame around `payload` with nothing after it. */
  predicate ExactFrame(raw: Bytes, payload: Bytes) {
    && |raw| == HEADER_SIZE + |payload|
    && UnpackMessage(raw).Ok?
    && UnpackMessage(raw).value.1 == payload
  }

  lemma PackedIsExact(msgType: int, msgId: int, chunkNum: int, totalChunks: int, payload: Bytes)
    requires PackMessage(msgType, msgId, chunkNum, totalChunks, payload).Ok?
    ensures ExactFrame(PackMessage(msgType, msgId, chunkNum, totalChunks, payload).value, payload)
  {
    var raw := PackMessage(msgType, msgId, chunkNum, totalChunks, payload).value;
    UnpackAfterPack(msgType, msgId, chunkNum, totalChunks, payload, []);
    assert raw + [] == raw;
  }

  // ---------------------------------------------------------------- bits of bytes

  lemma {:induction false} MessageBitsConcat(a: Bytes, b: Bytes)
    ensures MessageBits(a + b) == MessageBits(a) + MessageBits(b)
  {
    if b == [] {
      assert a + b == a;
    } else {
      var front, last := b[..|b| - 1], b[|b| - 1];
      MessageBitsConcat(a, front);
      assert (a + b)[..|a + b| - 1] == a + front;
      assert MessageBits(a) + (MessageBits(front) + BitsOf(last, BYTE_BITS))
          == MessageBits(a) + MessageBits(front) + BitsOf(last, BYTE_BITS);
    }
  }

  lemma MessageBitsSlice(d: Bytes, lo: nat, hi: nat)
    requires lo <= hi <= |d|
    ensures MessageBits(d[lo..hi]) == MessageBits(d)[8 * lo..8 * hi]
  {
    ThreeParts(d, lo, hi);
    MessageBitsMiddle(d, d[..lo], d[lo..hi], d[hi..], lo, hi);
  }

  lemma ThreeParts(d: Bytes, lo: nat, hi: nat)
    requires lo <= hi <= |d|
    ensures d == d[..lo] + d[lo..hi] + d[hi..]
  {}

  lemma MessageBitsMiddle(d: Bytes, a: Bytes, b: Bytes, c: Bytes, lo: nat, hi: nat)
    requires d == a + b + c && lo == |a| && hi == |a| + |b|
    ensures MessageBits(b) == MessageBits(d)[8 * lo..8 * hi]
  {
    MessageBitsConcat(a, b);
    MessageBitsConcat(a + b, c);
    SliceOfThree(MessageBits(a), MessageBits(b), MessageBits(c));
  }

  lemma SliceOfThree(a: seq<bool>, b: seq<bool>, c: seq<bool>)
    ensures (a + b + c)[|a|..|a| + |b|] == b
  {}

  lemma DamageOfSlice(raw: Bytes, raw': Bytes, lo: nat, hi: nat)
    requires |raw| == |raw'| && lo <= hi <= |raw|
    ensures Undamaged(Damage(raw, raw'), 8 * lo, 8 * hi) <==> raw[lo..hi] == raw'[lo..hi]
  {
    MessageBitsSlice(raw, lo, hi);
    MessageBitsSlice(raw', lo, hi);
    MessageBitsInjective(raw[lo..hi], raw'[lo..hi]);
    var b, b', x := MessageBits(raw), MessageBits(raw'), Damage(raw, raw');
    if Undamaged(x, 8 * lo, 8 * hi) {
      assert b[8 * lo..8 * hi] == b'[8 * lo..8 * hi];
    }
    if b[8 * lo..8 * hi] == b'[8 * lo..8 * hi] {
      forall k | 0 <= k < |x| && 8 * lo <= k < 8 * hi ensures !x[k] {
        assert b[k] == b[8 * lo..8 * hi][k - 8 * lo];
        assert b'[k] == b'[8 * lo..8 * hi][k - 8 * lo];
      }
    }
  }

  lemma CodewordBits(raw: Bytes)
    requires |raw| >= HEADER_SIZE
    ensures MessageBits(Codeword(raw)) == Reordered(MessageBits(raw))
  {
    CodewordParts(raw, raw[0..9], raw[10..|raw|], raw[9..10]);
    MessageBitsSlice(raw, 0, 9);
    MessageBitsSlice(raw, 10, |raw|);
    MessageBitsSlice(raw, 9, 10);
    ReorderedParts(MessageBits(raw), 72, 80, |raw| * 8);
  }

  lemma CodewordParts(raw: Bytes, header: Bytes, payload: Bytes, check: Bytes)
    requires |raw| >= HEADER_SIZE
    requires header == raw[0..9] && payload == raw[10..|raw|] && check == raw[9..10]
    ensures MessageBits(Codeword(raw)) == MessageBits(header) + MessageBits(payload) + MessageBits(check)
  {
    assert Codeword(raw) == header + payload + check;
    MessageBitsConcat(header, payload);
    MessageBitsConcat(header + payload, check);
  }

  lemma ReorderedParts(x: Bits, i: nat, j: nat, n: nat)
    requires i == 72 && j == 80 && |x| == n >= 80
    ensures Reordered(x) == x[0..i] + x[j..n] + x[i..j]
  {}

  /** A checksum is right exactly when the polynomial divides the code word. */
  lemma CodewordDivisible(d: Bytes, check: Byte)
    ensures Divides(MessageBits(d + [check])) <==> check == CrcOf(d)
  {
    assert (d + [check])[..|d|] == d;
    CrcDivides(d, check);
  }

  // ---------------------------------------------------------------- the exact condition

  /** Damage that leaves the length byte alone goes unnoticed exactly when it leaves magic and version alone
      and the polynomial divides it. */
  lemma DamageUnnoticed(raw: Bytes, payload: Bytes, raw': Bytes)
    requires ExactFrame(raw, payload) && |raw'| == |raw|
    requires Undamaged(Damage(raw, raw'), 64, 72)
    ensures UnpackMessage(raw').Ok?
       <==> Undamaged(Damage(raw, raw'), 0, 24) && Divides(Reordered(Damage(raw, raw')))
  {
    DamageOfSlice(raw, raw', 0, 3);
    DamageOfSlice(raw, raw', 8, 9);
    assert raw[8..9][0] == raw'[8..9][0];
    AcceptedIff(raw);
    AcceptedIff(raw');
    DamageDivides(raw, raw');
    ZeroRemainder(Reordered(Damage(raw, raw')));
  }

  lemma AcceptedIff(raw: Bytes)
    requires |raw| >= HEADER_SIZE && |raw| == HEADER_SIZE + raw[8]
    ensures UnpackMessage(raw).Ok?
       <==> raw[0..3] == MAGIC + [PROTOCOL_VERSION] && Remainder(MessageBits(Codeword(raw))) == ZERO
  {
    assert raw[0..3] == raw[0..2] + [raw[2]];
    assert raw[HEADER_SIZE..|raw|] == raw[10..];
    ChecksumDivides(raw);
  }

  lemma DamageDivides(raw: Bytes, raw': Bytes)
    requires |raw'| == |raw| >= HEADER_SIZE
    requires Remainder(MessageBits(Codeword(raw))) == ZERO
    ensures Remainder(MessageBits(Codeword(raw'))) == Remainder(Reordered(Damage(raw, raw')))
  {
    CodewordBits(raw);
    CodewordBits(raw');
    var b, b' := MessageBits(raw), MessageBits(raw');
    RemainderLinear(Reordered(b), Reordered(b'));
    ReorderedXor(b, b');
    ZeroAdd(Remainder(Reordered(b')));
  }

  lemma ReorderedXor(b: Bits, b': Bits)
    requires |b| == |b'| >= 80
    ensures XorBits(Reordered(b), Reordered(b')) == Reordered(XorBits(b, b'))
  {}

  lemma ChecksumDivides(raw: Bytes)
    requires |raw| >= HEADER_SIZE
    ensures raw[9] == CrcOf(raw[0..9] + raw[10..]) <==> Remainder(MessageBits(Codeword(raw))) == ZERO
  {
    assert raw[0..9] == raw[..9] && raw[9..10] == [raw[9]];
    CodewordDivisible(raw[..9] + raw[10..], raw[9]);
    ZeroRemainder(MessageBits(Codeword(raw)));
  }

  // ---------------------------------------------------------------- consequences

  /** A burst of at most 8 bits, in the order header, payload, checksum, is rejected. */
  lemma CodewordBurstRejected(raw: Bytes, payload: Bytes, raw': Bytes, at: nat)
    requires ExactFrame(raw, payload) && |raw'| == |raw| && raw' != raw
    requires Undamaged(Damage(raw, raw'), 64, 72)
    requires Within(Reordered(Damage(raw, raw')), at, 8)
    ensures UnpackMessage(raw').Err?
  {
    DamageUnnoticed(raw, payload, raw');
    var x := Damage(raw, raw');
    DamageOfSlice(raw, raw', 0, |raw|);
    assert raw[0..|raw|] == raw && raw'[0..|raw|] == raw';
    var k :| 0 <= k < |x| && x[k];
    ReorderedAt(x, k);
    BurstDetected(Reordered(x), at);
    ZeroRemainder(Reordered(x));
  }

  /** Where bit k of a frame stands in the code word. */
  function CodewordPosition(k: nat, n: nat): nat
    requires 80 <= n && k < n
  {
    if k < 72 then k else if k < 80 then n - 80 + k else k - 8
  }

  lemma ReorderedAt(x: Bits, k: nat)
    requires |x| >= 80 && k < |x|
    ensures Reordered(x)[CodewordPosition(k, |x|)] == x[k]
  {}

  lemma ReorderedFrom(x: Bits, p: nat) returns (k: nat)
    requires |x| >= 80 && p < |x|
    ensures k < |x| && CodewordPosition(k, |x|) == p
  {
    k := if p < 72 then p else if p < |x| - 8 then p + 8 else p - (|x| - 80);
  }

  /** A burst of at most 8 bits within bytes 0 to 7, within the checksum, or within the payload is rejected. */
  lemma BurstRejected(raw: Bytes, payload: Bytes, raw': Bytes, at: nat, lo: nat, hi: nat)
    requires ExactFrame(raw, payload) && |raw'| == |raw| && raw' != raw
    requires (lo, hi) in {(0, 64), (72, 80), (80, 8 * |raw|)}
    requires Within(Damage(raw, raw'), at, 8) && Within(Damage(raw, raw'), lo, hi - lo)
    ensures UnpackMessage(raw').Err?
  {
    var x := Damage(raw, raw');
    var shift := if lo == 0 then 0 else if lo == 72 then |x| - 80 else -8;
    var at' := if at + shift < 0 then 0 else at + shift;
    forall p | 0 <= p < |x| && Reordered(x)[p] ensures at' <= p < at' + 8 {
      var k := ReorderedFrom(x, p);
      ReorderedAt(x, k);
    }
    CodewordBurstRejected(raw, payload, raw', at');
  }

  /** Two flipped bits outside the length byte are missed exactly when they spare magic and version and lie a
      multiple of 127 bits apart in the code word. */
  lemma TwoFlips(raw: Bytes, payload: Bytes, raw': Bytes, i: nat, j: nat)
    requires ExactFrame(raw, payload) && |raw'| == |raw|
    requires Undamaged(Damage(raw, raw'), 64, 72)
    requires i < j < 8 * |raw| && ExactlyAt(Reordered(Damage(raw, raw')), i, j)
    ensures UnpackMessage(raw').Ok? <==> 24 <= i && (j - i) % ORDER == 0
  {
    DamageUnnoticed(raw, payload, raw');
    var x := Damage(raw, raw');
    TwoBitsDetected(Reordered(x), i, j);
    ZeroRemainder(Reordered(x));
    forall k | 0 <= k < 24 ensures Reordered(x)[k] == x[k] {
      ReorderedAt(x, k);
    }
    assert Reordered(x)[i];
  }

  lemma {:induction false} OnesConcat(a: Bits, b: Bits)
    ensures Ones(a + b) == Ones(a) + Ones(b)
  {
    if b == [] {
      assert a + b == a;
    } else {
      assert (a + b)[..|a + b| - 1] == a + b[..|b| - 1];
      OnesConcat(a, b[..|b| - 1]);
    }
  }

  lemma OnesReordered(x: Bits)
    requires |x| >= 80
    ensures Ones(Reordered(x)) == Ones(x)
  {
    assert x == x[..72] + (x[72..80] + x[80..]);
    OnesConcat(x[..72], x[72..80] + x[80..]);
    OnesConcat(x[72..80], x[80..]);
    OnesConcat(x[..72], x[80..]);
    OnesConcat(x[..72] + x[80..], x[72..80]);
  }

  /** Every packed frame has even weight. */
  lemma FrameWeightEven(raw: Bytes, payload: Bytes)
    requires ExactFrame(raw, payload)
    ensures Ones(MessageBits(raw)) % 2 == 0
  {
    assert raw[HEADER_SIZE..] == payload;
    ChecksumDivides(raw);
    CodewordBits(raw);
    CrcParity(MessageBits(Codeword(raw)));
    OnesReordered(MessageBits(raw));
  }

  /** Any odd number of flipped bits outside the length byte is rejected. */
  lemma OddFlipsRejected(raw: Bytes, payload: Bytes, raw': Bytes)
    requires ExactFrame(raw, payload) && |raw'| == |raw|
    requires Undamaged(Damage(raw, raw'), 64, 72)
    requires Ones(Damage(raw, raw')) % 2 == 1
    ensures UnpackMessage(raw').Err?
  {
    DamageUnnoticed(raw, payload, raw');
    OnesReordered(Damage(raw, raw'));
    CrcParity(Reordered(Damage(raw, raw')));
    ZeroRemainder(Reordered(Damage(raw, raw')));
  }

  // ---------------------------------------------------------------- the length byte

  /** A frame cut short is rejected, and so is any other damage that raises the length byte. */
  lemma LengthRaisedRejected(raw: Bytes, payload: Bytes, raw': Bytes)
    requires ExactFrame(raw, payload)
    requires raw' < raw || (|raw'| == |raw| && raw'[8] > raw[8])
    ensures UnpackMessage(raw').Err?
  {}

  /** Lowering only the length byte goes unnoticed exactly when the shorter message has the same CRC. */
  lemma LengthLowered(raw: Bytes, payload: Bytes, length: Byte)
    requires ExactFrame(raw, payload) && length < |payload|
    ensures UnpackMessage(raw[8 := length]).Ok?
       <==> CrcOf(raw[..8] + [length] + payload[..length]) == CrcOf(raw[..9] + payload)
  {
    var raw' := raw[8 := length];
    assert raw'[0..9] == raw[..8] + [length];
    assert raw'[HEADER_SIZE..HEADER_SIZE + length] == payload[..length];
    assert raw[0..9] == raw[..9] && raw'[0..2] == raw[0..2];
  }

  /** Division by x, the inverse of `TimesX`. */
  function DivideX(c: Register): Register {
    Register(c.b0, c.b7, c.b6, c.b5 != c.b0, c.b4 != c.b0, c.b3, c.b2, c.b1)
  }

  lemma {:induction false} DivideXPower(c: Register, n: nat) returns (d: Register)
    ensures TimesXPower(d, n) == c
    decreases n
  {
    if n == 0 {
      d := c;
    } else {
      d := DivideXPower(DivideX(c), n - 1);
      assert TimesX(DivideX(c)) == c;
    }
  }

  /** After any message one more byte can bring the CRC to any value. */
  lemma ByteReaching(message: Bytes, target: Byte) returns (p: Byte)
    ensures CrcOf(message + [p]) == target
  {
    var c := Remainder(MessageBits(message));
    var d := DivideXPower(RegisterOf(target), 8);
    p := ByteOf(Add(c, d));
    RegisterOfByteOf(Add(c, d));
    AddTwice(c, d);
    CrcOfLast(message, p);
    ByteOfRegisterOf(target);
  }

  lemma CrcOfLast(message: Bytes, p: Byte)
    ensures CrcOf(message + [p]) == ByteOf(TimesXPower(Add(Remainder(MessageBits(message)), RegisterOf(p)), 8))
  {
    assert (message + [p])[..|message|] == message;
    RemainderConcat(MessageBits(message), BitsOf(p, BYTE_BITS));
    FeedByte(Remainder(MessageBits(message)), p);
  }

  lemma AddTwice(c: Register, d: Register)
    ensures Add(c, Add(c, d)) == d
  {}

  /** Detection really stops at the length byte: under every header there is a one-byte payload whose frame still
      passes after its length is cleared to 0. */
  lemma ClearedLengthMissed(msgType: Byte, msgId: Word, chunkNum: Byte, totalChunks: Byte) returns (p: Byte)
    ensures var packed := PackMessage(msgType, msgId, chunkNum, totalChunks, [p]);
            packed.Ok? && UnpackMessage(packed.value[8 := 0]).Ok?
  {
    var header := HeaderNoCrc(msgType, msgId, chunkNum, totalChunks, 1);
    p := ByteReaching(header, CrcOf(header[..8] + [0] + []));
    var raw := PackMessage(msgType, msgId, chunkNum, totalChunks, [p]).value;
    PackedIsExact(msgType, msgId, chunkNum, totalChunks, [p]);
    assert raw[..9] == header && raw[..8] == header[..8] && [p][..0] == [];
    LengthLowered(raw, [p], 0);
  }
}
