/** Splitting data into frames, and the reassembler of chunker.py. */
module Chunker {
  import opened Bytes
  import opened Protocol

  // ---------------------------------------------------------------- splitting

  function Total(n: nat): nat {
    if n == 0 then 1 else (n + MAX_CHUNK_DATA - 1) / MAX_CHUNK_DATA
  }

  function Min(a: int, b: int): int {
    if a < b then a else b
  }

  function Piece(data: Bytes, i: nat): Bytes
    requires i < Total(|data|)
  {
    data[i * MAX_CHUNK_DATA..Min((i + 1) * MAX_CHUNK_DATA, |data|)]
  }

  function Concat(pieces: seq<Bytes>): Bytes {
    if pieces == [] then [] else Concat(pieces[..|pieces| - 1]) + pieces[|pieces| - 1]
  }

  /** `frame` is chunk `i` of `total` under the message id, and carries `payload`. */
  predicate IsChunk(frame: Bytes, msgType: int, msgId: int, i: nat, total: nat, payload: Bytes) {
    && |frame| <= HEADER_SIZE + MAX_CHUNK_DATA
    && UnpackMessage(frame).Ok?
    && UnpackMessage(frame).value.1 == payload
    && var h := UnpackMessage(frame).value.0;
       h.msgType == msgType && h.msgId == msgId && h.chunkNum == i && h.totalChunks == total
  }

  /** `frames` are numbered in order under one message id, and their payloads make up `data`. */
  ghost predicate Carries(frames: seq<Bytes>, data: Bytes, msgType: int, msgId: int) {
    exists payloads: seq<Bytes> ::
      && |payloads| == |frames| && Concat(payloads) == data
      && forall i :: 0 <= i < |frames| ==> IsChunk(frames[i], msgType, msgId, i, |frames|, payloads[i])
  }

  predicate PieceFrames(frames: seq<Bytes>, data: Bytes, msgType: int, msgId: int, total: nat) {
    && |frames| <= total == Total(|data|)
    && forall i :: 0 <= i < |frames| ==> IsChunk(frames[i], msgType, msgId, i, total, Piece(data, i))
  }

  lemma OneMore(frames: seq<Bytes>, frame: Bytes, data: Bytes, msgType: int, msgId: int, total: nat)
    requires PieceFrames(frames, data, msgType, msgId, total) && |frames| < total
    requires IsChunk(frame, msgType, msgId, |frames|, total, Piece(data, |frames|))
    ensures PieceFrames(frames + [frame], data, msgType, msgId, total)
  {}

  /** At most 255 frames of at most 220 bytes, one for each 210 bytes of data begun and one when there are none. */
  predicate WithinSizes(frames: seq<Bytes>, n: nat) {
    && n <= 53550 && |frames| == (if n == 0 then 1 else (n + 209) / 210)
    && forall i :: 0 <= i < |frames| ==> |frames[i]| <= 220
  }

  lemma SizesFit(frames: seq<Bytes>, data: Bytes, msgType: int, msgId: int)
    requires PieceFrames(frames, data, msgType, msgId, |frames|) && |data| <= 255 * MAX_CHUNK_DATA
    ensures WithinSizes(frames, |data|)
  {}

  /** `msgId` stands for the caller's id or the random one. */
  method ChunkPayload(data: Bytes, msgType: int, msgId: int) returns (r: Result<seq<Bytes>>)
    ensures r.Ok? <==> |data| <= 255 * MAX_CHUNK_DATA && InRange(msgType, msgId, 0, 0)
    ensures |data| > 255 * MAX_CHUNK_DATA ==> r == Err(TooManyChunks)
    ensures r.Ok? ==> |r.value| == Total(|data|) && Carries(r.value, data, msgType, msgId)
    ensures r.Ok? ==> PieceFrames(r.value, data, msgType, msgId, |r.value|)
    ensures r.Ok? ==> WithinSizes(r.value, |data|)
  {
    if |data| == 0 {
      var frame := PackMessage(msgType, msgId, 0, 1, []);
      if frame.Err? {
        return Err(frame.error);
      }
      PackedChunk(msgType, msgId, 0, 1, []);
      r := Ok([frame.value]);
      PiecesCarry(r.value, data, msgType, msgId);
      SizesFit(r.value, data, msgType, msgId);
      return;
    }
    var chunks: seq<Bytes> := [];
    var total := (|data| + MAX_CHUNK_DATA - 1) / MAX_CHUNK_DATA;
    if total > 255 {
      return Err(TooManyChunks);
    }
    for i := 0 to total
      invariant |chunks| == i && PieceFrames(chunks, data, msgType, msgId, total)
      invariant i > 0 ==> InRange(msgType, msgId, 0, 0)
    {
      var start := i * MAX_CHUNK_DATA;
      var end := Min(start + MAX_CHUNK_DATA, |data|);
      var chunkData := data[start..end];
      var frame := PackMessage(msgType, msgId, i, total, chunkData);
      if frame.Err? {
        return Err(frame.error);
      }
      PackedChunk(msgType, msgId, i, total, chunkData);
      OneMore(chunks, frame.value, data, msgType, msgId, total);
      chunks := chunks + [frame.value];
    }
    PiecesCarry(chunks, data, msgType, msgId);
    SizesFit(chunks, data, msgType, msgId);
    r := Ok(chunks);
  }

  lemma PackedChunk(msgType: int, msgId: int, i: nat, total: nat, payload: Bytes)
    requires PackMessage(msgType, msgId, i, total, payload).Ok?
    ensures IsChunk(PackMessage(msgType, msgId, i, total, payload).value, msgType, msgId, i, total, payload)
  {
    var frame := PackMessage(msgType, msgId, i, total, payload).value;
    UnpackAfterPack(msgType, msgId, i, total, payload, []);
    assert frame + [] == frame;
  }

  function Pieces(data: Bytes, n: nat): (ps: seq<Bytes>)
    requires n <= Total(|data|)
    ensures |ps| == n
  {
    seq(n, i requires 0 <= i < n => Piece(data, i))
  }

  lemma PiecesCarry(frames: seq<Bytes>, data: Bytes, msgType: int, msgId: int)
    requires PieceFrames(frames, data, msgType, msgId, |frames|)
    ensures Carries(frames, data, msgType, msgId)
  {
    ConcatPieces(data, |frames|);
    assert data[..|data|] == data;
    assert forall i :: 0 <= i < |frames| ==> Pieces(data, |frames|)[i] == Piece(data, i);
  }

  lemma {:induction false} ConcatPieces(data: Bytes, n: nat)
    requires n <= Total(|data|)
    ensures Concat(Pieces(data, n)) == data[..Min(n * MAX_CHUNK_DATA, |data|)]
  {
    if n > 0 {
      ConcatPieces(data, n - 1);
      assert Pieces(data, n)[..n - 1] == Pieces(data, n - 1);
      var start, end := (n - 1) * MAX_CHUNK_DATA, Min(n * MAX_CHUNK_DATA, |data|);
      assert data[..end] == data[..start] + data[start..end];
    }
  }

  lemma {:induction false} ConcatLength(pieces: seq<Bytes>, limit: nat)
    requires forall i :: 0 <= i < |pieces| ==> |pieces[i]| <= limit
    ensures |Concat(pieces)| <= limit * |pieces|
  {
    if pieces != [] {
      ConcatLength(pieces[..|pieces| - 1], limit);
    }
  }

  /** No fewer frames can carry the data. */
  lemma SplitMinimal(data: Bytes, pieces: seq<Bytes>)
    requires pieces != [] && Concat(pieces) == data
    requires forall i :: 0 <= i < |pieces| ==> |pieces[i]| <= MAX_CHUNK_DATA
    ensures Total(|data|) <= |pieces|
  {
    ConcatLength(pieces, MAX_CHUNK_DATA);
  }

  /** The pieces joined in order are the data. */
  lemma {:induction false} JoinedPieces(data: Bytes, chunks: map<nat, Bytes>, n: nat)
    requires n <= Total(|data|)
    requires forall i :: 0 <= i < n ==> i in chunks && chunks[i] == Piece(data, i)
    ensures Joined(chunks, n) == data[..Min(n * MAX_CHUNK_DATA, |data|)]
  {
    if n > 0 {
      JoinedPieces(data, chunks, n - 1);
      var start, end := (n - 1) * MAX_CHUNK_DATA, Min(n * MAX_CHUNK_DATA, |data|);
      assert data[..end] == data[..start] + data[start..end];
    }
  }

  // ---------------------------------------------------------------- reassembly, as a function of the calls

  const CHUNK_REASSEMBLY_TIMEOUT: real := 120.0

  datatype Key = Key(senderId: string, msgId: nat)

  datatype Buffer = Buffer(total: nat, chunks: map<nat, Bytes>, createdAt: real)

  type Buffers = map<Key, Buffer>

  /** `KeyMissing` is the KeyError of joining a buffer that is full without holding every index, `Incomplete` the
      ValueError of joining one that is not full. */
  datatype Outcome = Nothing | Complete(data: Bytes) | KeyMissing | Incomplete

  datatype Call = Call(now: real, key: Key, chunkNum: nat, total: nat, payload: Bytes)

  predicate HasAll(chunks: map<nat, Bytes>, n: nat) {
    forall i :: 0 <= i < n ==> i in chunks
  }

  function Joined(chunks: map<nat, Bytes>, n: nat): Bytes
    requires HasAll(chunks, n)
  {
    if n == 0 then [] else Joined(chunks, n - 1) + chunks[n - 1]
  }

  predicate Expired(b: Buffer, now: real) {
    now - b.createdAt > CHUNK_REASSEMBLY_TIMEOUT
  }

  function Cleaned(bs: Buffers, now: real): Buffers {
    map k | k in bs && !Expired(bs[k], now) :: bs[k]
  }

  /** The buffer a call adds to. */
  function Opened(bs: Buffers, c: Call): Buffer {
    var live := Cleaned(bs, c.now);
    if c.key in live then live[c.key] else Buffer(c.total, map[], c.now)
  }

  /** The same with its chunk added. */
  function Filled(bs: Buffers, c: Call): Buffer {
    var b := Opened(bs, c);
    b.(chunks := b.chunks[c.chunkNum := c.payload])
  }

  function Received(bs: Buffers, c: Call): (Buffers, Outcome) {
    var live := Cleaned(bs, c.now);
    var b := Filled(bs, c);
    if |b.chunks| == b.total then
      if HasAll(b.chunks, b.total) then (live - {c.key}, Complete(Joined(b.chunks, b.total)))
      else (live[c.key := b], KeyMissing)
    else (live[c.key := b], Nothing)
  }

  lemma ReceivedCases(bs: Buffers, c: Call)
    ensures var added := Cleaned(bs, c.now)[c.key := Filled(bs, c)];
            var b := added[c.key];
            Received(bs, c) ==
              if |b.chunks| != b.total then (added, Nothing)
              else if HasAll(b.chunks, b.total) then (added - {c.key}, Complete(Joined(b.chunks, b.total)))
              else (added, KeyMissing)
  {
    var live := Cleaned(bs, c.now);
    assert live[c.key := Filled(bs, c)] - {c.key} == live - {c.key};
  }

  function State(log: seq<Call>): Buffers {
    if log == [] then map[] else Received(State(log[..|log| - 1]), log[|log| - 1]).0
  }

  /** What the last call of `log` returned. */
  function LastOutcome(log: seq<Call>): Outcome
    requires log != []
  {
    Received(State(log[..|log| - 1]), log[|log| - 1]).1
  }

  // ---------------------------------------------------------------- the classes

  class ReassemblyBuffer {
    const totalChunks: nat
    const createdAt: real
    var chunks: map<nat, Bytes>

    constructor (totalChunks: nat, now: real)
      ensures View() == Buffer(totalChunks, map[], now)
    {
      this.totalChunks := totalChunks;
      this.createdAt := now;
      this.chunks := map[];
    }

    ghost function View(): Buffer
      reads this
    {
      Buffer(totalChunks, chunks, createdAt)
    }

    predicate IsComplete()
      reads this
    {
      |chunks| == totalChunks
    }

    predicate IsExpired(now: real)
      reads this
      ensures IsExpired(now) <==> Expired(View(), now)
    {
      now - createdAt > CHUNK_REASSEMBLY_TIMEOUT
    }

    method AddChunk(chunkNum: nat, payload: Bytes) returns (completed: bool)
      modifies this
      ensures chunks == old(chunks)[chunkNum := payload]
      ensures completed <==> |chunks| == totalChunks
    {
      chunks := chunks[chunkNum := payload];
      completed := IsComplete();
    }

    /** The indices below the total that have not arrived, in order. */
    method MissingChunks() returns (missing: seq<nat>)
      ensures forall i: nat :: i in missing <==> i < totalChunks && i !in chunks
      ensures forall i, j :: 0 <= i < j < |missing| ==> missing[i] < missing[j]
    {
      missing := [];
      for i := 0 to totalChunks
        invariant forall k: nat :: k in missing <==> k < i && k !in chunks
        invariant forall k :: 0 <= k < |missing| ==> missing[k] < i
        invariant forall k, l :: 0 <= k < l < |missing| ==> missing[k] < missing[l]
      {
        if i !in chunks {
          missing := missing + [i];
        }
      }
    }

    /** Joins the chunks of a complete buffer. */
    method Reassemble() returns (r: Outcome)
      ensures r == if |chunks| != totalChunks then Incomplete
                   else if HasAll(chunks, totalChunks) then Complete(Joined(chunks, totalChunks)) else KeyMissing
    {
      if !IsComplete() {
        return Incomplete;
      }
      var data: Bytes := [];
      for i := 0 to totalChunks
        invariant HasAll(chunks, i) && data == Joined(chunks, i)
      {
        if i !in chunks {
          return KeyMissing;
        }
        data := data + chunks[i];
      }
      r := Complete(data);
    }
  }

  class ChunkReassembler {
    var buffers: map<Key, ReassemblyBuffer>
    ghost var log: seq<Call>  // every call of ReceiveChunk so far

    ghost predicate Valid()
      reads this, buffers.Values
    {
      Unshared() && View() == State(log)
    }

    ghost predicate Unshared()
      reads this`buffers
    {
      forall k, l :: k in buffers && l in buffers && k != l ==> buffers[k] != buffers[l]
    }

    ghost function View(): Buffers
      reads this`buffers, buffers.Values
    {
      map k | k in buffers :: buffers[k].View()
    }

    constructor ()
      ensures Valid() && log == [] && buffers == map[]
    {
      buffers := map[];
      log := [];
    }

    /** Drops the expired buffers and names them. */
    method CleanupExpired(now: real) returns (expired: set<Key>)
      requires Unshared()
      modifies this`buffers
      ensures Unshared() && buffers.Values <= old(buffers.Values)
      ensures View() == Cleaned(old(View()), now)
      ensures expired == old(buffers).Keys - buffers.Keys
    {
      expired := set k | k in buffers && buffers[k].IsExpired(now);
      buffers := map k | k in buffers && k !in expired :: buffers[k];
    }

    /** The buffer under `key`, created if there is none. */
    method Obtain(key: Key, totalChunks: nat, now: real) returns (buf: ReassemblyBuffer)
      requires Unshared()
      modifies this`buffers
      ensures Unshared() && key in buffers && buffers[key] == buf
      ensures fresh(buffers.Values - old(buffers.Values))
      ensures View() == if key in old(View()) then old(View()) else old(View())[key := Buffer(totalChunks, map[], now)]
    {
      if key !in buffers {
        var created := new ReassemblyBuffer(totalChunks, now);
        buffers := buffers[key := created];
      }
      buf := buffers[key];
    }

    method AddTo(key: Key, chunkNum: nat, payload: Bytes) returns (completed: bool)
      requires Unshared() && key in buffers
      modifies buffers[key]
      ensures var b := old(View())[key];
              var filled := b.(chunks := b.chunks[chunkNum := payload]);
              View() == old(View())[key := filled] && (completed <==> |filled.chunks| == filled.total)
    {
      completed := buffers[key].AddChunk(chunkNum, payload);
    }

    /** Joins and drops a complete buffer. */
    method Finish(key: Key) returns (r: Outcome)
      requires Unshared() && key in buffers && buffers[key].IsComplete()
      modifies this`buffers
      ensures Unshared() && buffers.Values <= old(buffers.Values)
      ensures var b := old(View())[key];
              if HasAll(b.chunks, b.total)
              then r == Complete(Joined(b.chunks, b.total)) && View() == old(View()) - {key}
              else r == KeyMissing && View() == old(View())
    {
      r := buffers[key].Reassemble();
      if r.Complete? {
        buffers := map k | k in buffers && k != key :: buffers[k];
      }
    }

    method ReceiveChunk(now: real, senderId: string, msgId: nat, chunkNum: nat, totalChunks: nat, payload: Bytes)
      returns (r: Outcome)
      requires Valid()
      modifies this, buffers.Values
      ensures Valid() && fresh(buffers.Values - old(buffers.Values))
      ensures log == old(log) + [Call(now, Key(senderId, msgId), chunkNum, totalChunks, payload)]
      ensures r == LastOutcome(log)
    {
      var call := Call(now, Key(senderId, msgId), chunkNum, totalChunks, payload);
      r := Process(call);
      log := log + [call];
      assert log[..|log| - 1] == old(log);
    }

    /** Cleans up and adds the chunk. */
    method Accept(c: Call) returns (completed: bool)
      requires Unshared()
      modifies this`buffers, buffers.Values
      ensures Unshared() && c.key in buffers && fresh(buffers.Values - old(buffers.Values))
      ensures View() == Cleaned(old(View()), c.now)[c.key := Filled(old(View()), c)]
      ensures completed <==> |Filled(old(View()), c).chunks| == Filled(old(View()), c).total
    {
      Prepare(c);
      completed := AddTo(c.key, c.chunkNum, c.payload);
    }

    /** Cleans up and makes sure there is a buffer. */
    method Prepare(c: Call)
      requires Unshared()
      modifies this`buffers
      ensures Unshared() && c.key in buffers && fresh(buffers.Values - old(buffers.Values))
      ensures View() == Cleaned(old(View()), c.now)[c.key := Opened(old(View()), c)]
    {
      var _ := CleanupExpired(c.now);
      var _ := Obtain(c.key, c.total, c.now);
    }

    method Process(c: Call) returns (r: Outcome)
      requires Unshared()
      modifies this`buffers, buffers.Values
      ensures Unshared() && fresh(buffers.Values - old(buffers.Values))
      ensures (View(), r) == Received(old(View()), c)
    {
      ghost var before := View();
      var completed := Accept(c);
      ReceivedCases(before, c);
      assert buffers[c.key].View() == View()[c.key];
      r := Nothing;
      if completed {
        r := Finish(c.key);
      }
    }

    /** The indices the named buffer still lacks; none when there is no such buffer. */
    method GetMissing(senderId: string, msgId: nat) returns (missing: seq<nat>)
      requires Valid()
      ensures var key := Key(senderId, msgId);
              forall i: nat :: i in missing <==>
                key in State(log) && i < State(log)[key].total && i !in State(log)[key].chunks
    {
      var key := Key(senderId, msgId);
      if key !in buffers {
        assert key !in View();
        missing := [];
      } else {
        assert View()[key] == buffers[key].View();
        missing := buffers[key].MissingChunks();
      }
    }
  }
}
