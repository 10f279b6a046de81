/** The client's acknowledgement table and its send-and-retry loop, run against any behaviour of radio and gateway. */
module RetryLoop {
  import opened Bytes
  import opened Protocol
  import Chunker

  // ---------------------------------------------------------------- acknowledgements

  type Acks = map<nat, set<Byte>>

  /** The table after an ACK payload: only message ids the client has sent under are tracked. */
  function Recorded(acks: Acks, payload: Bytes): Acks {
    match DecodeAck(payload)
    case Err(_) => acks
    case Ok(ack) => if ack.msgId in acks then acks[ack.msgId := acks[ack.msgId] + {ack.chunk}] else acks
  }

  /** The payload is an ACK of this chunk: two bytes of message id, then the chunk. */
  predicate Acknowledges(payload: Bytes, msgId: nat, chunk: Byte) {
    |payload| >= 4 && FromBigEndian(payload[..2]) == msgId && payload[2] == chunk
  }

  class Transfers {
    var ackedChunks: Acks

    constructor ()
      ensures ackedChunks == map[]
    {
      ackedChunks := map[];
    }

    /** Splits a transaction and starts tracking its message id. */
    method RelayRawTx(txBytes: Bytes, msgId: Word) returns (r: Result<seq<Bytes>>)
      modifies this
      ensures r.Ok? <==> |txBytes| <= 255 * MAX_CHUNK_DATA
      ensures r.Ok? ==> Chunker.PieceFrames(r.value, txBytes, TX_CHUNK, msgId, |r.value|)
      ensures r.Ok? ==> forall i :: 0 <= i < |r.value| ==> UnpackMessage(r.value[i]).value.0.msgType == 0x01
      ensures ackedChunks == if r.Ok? then old(ackedChunks)[msgId := {}] else old(ackedChunks)
    {
      r := Chunker.ChunkPayload(txBytes, TX_CHUNK, msgId);
      if r.Ok? {
        ackedChunks := ackedChunks[msgId := {}];
      }
    }

    method HandleAck(payload: Bytes)
      modifies this
      ensures ackedChunks == Recorded(old(ackedChunks), payload) && ackedChunks.Keys == old(ackedChunks).Keys
      ensures forall id, chunk :: id in ackedChunks ==>
                (chunk in ackedChunks[id] <==> chunk in old(ackedChunks)[id] || Acknowledges(payload, id, chunk))
    {
      var decoded := DecodeAck(payload);
      if decoded.Err? {
        return;
      }
      var msgId, chunkNum := decoded.value.msgId, decoded.value.chunk;
      if msgId in ackedChunks {
        ackedChunks := ackedChunks[msgId := ackedChunks[msgId] + {chunkNum}];
      }
    }
  }

  // ---------------------------------------------------------------- the loop as a machine

  const ACK_TIMEOUT: nat := 30
  const RETRY_DELAY: nat := 10
  const INTER_CHUNK_DELAY: nat := 2
  const MAX_RETRIES: nat := 3

  /** What a step finds: the chunks acknowledged by then, and whether the radio takes a transmission. */
  datatype Env = Env(acked: set<Byte>, ok: bool)

  /** `Done(0)` ends silently, `Done(u)` reports that `u` chunks were not delivered. */
  datatype Phase =
    | Sending(next: nat)
    | Waiting(attempt: nat)
    | Resending(attempt: nat, todo: seq<nat>)
    | Checking
    | Done(unacked: nat)

  /** Round 0 is the first pass, round `a + 1` the retransmissions of attempt `a`. */
  datatype Send = Send(round: nat, idx: nat)

  /** `info` holds the chunk numbers, `first` counts the transmissions of the first pass, `oks` what the radio
      answered to each, `seen` the acknowledged chunks at each check, `slept` the seconds waited. */
  datatype Loop = Loop(
    info: seq<Byte>, phase: Phase, first: nat, sends: seq<Send>, oks: seq<bool>, seen: seq<set<Byte>>, slept: nat)

  /** The positions of the chunks that are not acknowledged, in order. */
  function Unacked(info: seq<Byte>, acked: set<Byte>): seq<nat> {
    if info == [] then []
    else
      var n := |info| - 1;
      Unacked(info[..n], acked) + if info[n] in acked then [] else [n]
  }

  function Start(info: seq<Byte>): Loop {
    Loop(info, if info == [] then Waiting(0) else Sending(0), 0, [], [], [], 0)
  }

  function Awaiting(attempt: nat): Phase {
    if attempt == MAX_RETRIES then Checking else Waiting(attempt)
  }

  function Transmitted(l: Loop, s: Send, ok: bool, pause: nat, phase: Phase): Loop {
    l.(phase := phase, sends := l.sends + [s], oks := l.oks + [ok], slept := l.slept + pause)
  }

  function SendNext(l: Loop, e: Env, i: nat): Loop {
    var l' := l.(first := i + 1);
    if e.ok && i + 1 < |l.info| then Transmitted(l', Send(0, i), e.ok, INTER_CHUNK_DELAY, Sending(i + 1))
    else Transmitted(l', Send(0, i), e.ok, 0, Waiting(0))
  }

  function Check(l: Loop, e: Env, attempt: nat): Loop {
    var todo := Unacked(l.info, e.acked);
    l.(phase := if todo == [] then Done(0) else Resending(attempt, todo),
       seen := l.seen + [e.acked], slept := l.slept + ACK_TIMEOUT)
  }

  function OneResent(attempt: nat, todo: seq<nat>): Phase
    requires todo != []
  {
    if |todo| == 1 then Awaiting(attempt + 1) else Resending(attempt, todo[1..])
  }

  function ResendNext(l: Loop, e: Env, attempt: nat, todo: seq<nat>): Loop
    requires todo != []
  {
    Transmitted(l, Send(attempt + 1, todo[0]), e.ok, RETRY_DELAY, OneResent(attempt, todo))
  }

  function FinalCheck(l: Loop, e: Env): Loop {
    l.(phase := Done(|Unacked(l.info, e.acked)|), seen := l.seen + [e.acked])
  }

  function Step(l: Loop, e: Env): Loop {
    match l.phase
    case Sending(i) => SendNext(l, e, i)
    case Waiting(a) => Check(l, e, a)
    case Resending(a, todo) => if todo == [] then l else ResendNext(l, e, a, todo)
    case Checking => FinalCheck(l, e)
    case Done(_) => l
  }

  function After(l: Loop, env: nat -> Env, steps: nat): Loop {
    if steps == 0 then l else Step(After(l, env, steps - 1), env(steps - 1))
  }

  // ---------------------------------------------------------------- the loop itself

  ghost predicate AllUnpack(chunks: seq<Bytes>) {
    forall i :: 0 <= i < |chunks| ==> UnpackMessage(chunks[i]).Ok?
  }

  function NumbersOf(chunks: seq<Bytes>): (info: seq<Byte>)
    requires AllUnpack(chunks)
    ensures |info| == |chunks|
  {
    seq(|chunks|, i requires 0 <= i < |chunks| => UnpackMessage(chunks[i]).value.0.chunkNum)
  }

  method ChunkNumbers(chunks: seq<Bytes>) returns (r: Result<seq<Byte>>)
    ensures r.Ok? <==> AllUnpack(chunks)
    ensures r.Ok? ==> r.value == NumbersOf(chunks)
  {
    var info: seq<Byte> := [];
    for i := 0 to |chunks|
      invariant |info| == i && AllUnpack(chunks[..i])
      invariant forall j :: 0 <= j < i ==> info[j] == UnpackMessage(chunks[j]).value.0.chunkNum
    {
      var unpacked := UnpackMessage(chunks[i]);
      if unpacked.Err? {
        return Err(unpacked.error);
      }
      info := info + [unpacked.value.0.chunkNum];
    }
    assert chunks[..|chunks|] == chunks;
    r := Ok(info);
  }

  /** The machine stands at `phase`, having transmitted `sends` and waited `slept` seconds. */
  predicate Tracks(l: Loop, info: seq<Byte>, phase: Phase, sends: seq<Send>, slept: nat) {
    l.info == info && l.phase == phase && l.sends == sends && l.slept == slept
  }

  function SentPhase(n: nat, i: nat): Phase {
    if i < n then Sending(i) else Waiting(0)
  }

  lemma SentOne(info: seq<Byte>, env: nat -> Env, i: nat, sends: seq<Send>, slept: nat)
    requires i < |info| && Tracks(After(Start(info), env, i), info, Sending(i), sends, slept)
    ensures var goesOn := env(i).ok && i + 1 < |info|;
            Tracks(After(Start(info), env, i + 1), info, if goesOn then Sending(i + 1) else Waiting(0),
                   sends + [Send(0, i)], slept + if goesOn then INTER_CHUNK_DELAY else 0)
  {
    var l := After(Start(info), env, i);
    assert After(Start(info), env, i + 1) == SendNext(l, env(i), i);
  }

  /** The first pass, which the first refused transmission ends. */
  method SendChunks(info: seq<Byte>, env: nat -> Env) returns (sent: bool, sends: seq<Send>, slept: nat)
    ensures Tracks(After(Start(info), env, |sends|), info, Waiting(0), sends, slept)
    ensures sent <==> |sends| == |info| && forall i :: 0 <= i < |sends| ==> env(i).ok
  {
    sends, slept := [], 0;
    for i := 0 to |info|
      invariant |sends| == i
      invariant Tracks(After(Start(info), env, i), info, SentPhase(|info|, i), sends, slept)
      invariant forall j :: 0 <= j < i ==> env(j).ok
    {
      var success := env(i).ok;
      SentOne(info, env, i, sends, slept);
      sends := sends + [Send(0, i)];
      if !success {
        return false, sends, slept;
      }
      if i < |info| - 1 {
        slept := slept + INTER_CHUNK_DELAY;
      }
    }
    sent := true;
  }

  /** The retransmissions of one attempt; `k` steps, `sent` and `waited` lie behind it. */
  method Resend(ghost start: Loop, env: nat -> Env, k: nat, ghost info: seq<Byte>, attempt: nat, unacked: seq<nat>,
                sent: seq<Send>, waited: nat)
    returns (sends: seq<Send>, slept: nat)
    requires unacked != [] && Tracks(After(start, env, k), info, Resending(attempt, unacked), sent, waited)
    ensures Tracks(After(start, env, k + |unacked|), info, Awaiting(attempt + 1), sends, slept)
  {
    sends, slept := sent, waited;
    ghost var step: nat := k;
    NoneResent(attempt, unacked);
    for j := 0 to |unacked|
      invariant step == k + j
      invariant Tracks(After(start, env, step), info, Resent(attempt, unacked, j), sends, slept)
    {
      ResentOne(start, env, step, info, attempt, unacked, j, sends, slept);
      sends := sends + [Send(attempt + 1, unacked[j])];
      slept := slept + RETRY_DELAY;
      step := step + 1;
    }
  }

  /** The phase after `j` of the retransmissions. */
  function Resent(attempt: nat, unacked: seq<nat>, j: nat): Phase
    requires j <= |unacked|
  {
    if j < |unacked| then Resending(attempt, unacked[j..]) else Awaiting(attempt + 1)
  }

  lemma NoneResent(attempt: nat, unacked: seq<nat>)
    requires unacked != []
    ensures Resent(attempt, unacked, 0) == Resending(attempt, unacked)
  {}

  lemma OneLess(attempt: nat, unacked: seq<nat>, j: nat)
    requires j < |unacked|
    ensures var todo := unacked[j..];
            && Resent(attempt, unacked, j) == Resending(attempt, todo) && todo[0] == unacked[j]
            && Resent(attempt, unacked, j + 1) == OneResent(attempt, todo)
  {}

  lemma ResentOne(start: Loop, env: nat -> Env, k: nat, info: seq<Byte>, attempt: nat, unacked: seq<nat>, j: nat,
                  sends: seq<Send>, slept: nat)
    requires j < |unacked| && Tracks(After(start, env, k), info, Resent(attempt, unacked, j), sends, slept)
    ensures Tracks(After(start, env, k + 1), info, Resent(attempt, unacked, j + 1),
                   sends + [Send(attempt + 1, unacked[j])], slept + RETRY_DELAY)
  {
    OneLess(attempt, unacked, j);
    assert After(start, env, k + 1) == ResendNext(After(start, env, k), env(k), attempt, unacked[j..]);
  }

  /** The check after the wait of an attempt. */
  lemma CheckedOne(start: Loop, env: nat -> Env, k: nat, info: seq<Byte>, attempt: nat, sends: seq<Send>, slept: nat)
    requires Tracks(After(start, env, k), info, Waiting(attempt), sends, slept)
    ensures var todo := Unacked(info, env(k).acked);
            Tracks(After(start, env, k + 1), info, if todo == [] then Done(0) else Resending(attempt, todo), sends,
                   slept + ACK_TIMEOUT)
  {
    assert After(start, env, k + 1) == Check(After(start, env, k), env(k), attempt);
  }

  lemma CheckedLast(start: Loop, env: nat -> Env, k: nat, info: seq<Byte>, sends: seq<Send>, slept: nat)
    requires Tracks(After(start, env, k), info, Checking, sends, slept)
    ensures Tracks(After(start, env, k + 1), info, Done(|Unacked(info, env(k).acked)|), sends, slept)
  {
    assert After(start, env, k + 1) == FinalCheck(After(start, env, k), env(k));
  }

  /** Sends the chunks and retries; the result counts the chunks reported as undelivered. */
  method Deliver(info: seq<Byte>, env: nat -> Env) returns (unacked: nat, sends: seq<Send>, slept: nat)
    ensures exists steps: nat :: Tracks(After(Start(info), env, steps), info, Done(unacked), sends, slept)
  {
    var _, firstSends, firstSlept := SendChunks(info, env);
    sends, slept := firstSends, firstSlept;
    var k: nat := |sends|;
    for attempt := 0 to MAX_RETRIES
      invariant Tracks(After(Start(info), env, k), info, Awaiting(attempt), sends, slept)
    {
      CheckedOne(Start(info), env, k, info, attempt, sends, slept);
      slept := slept + ACK_TIMEOUT;
      var todo := Unacked(info, env(k).acked);
      k := k + 1;
      if todo == [] {
        return 0, sends, slept;
      }
      sends, slept := Resend(Start(info), env, k, info, attempt, todo, sends, slept);
      k := k + |todo|;
    }
    unacked := |Unacked(info, env(k).acked)|;
    CheckedLast(Start(info), env, k, info, sends, slept);
  }

  /** Runs to the end from any behaviour `env` of the world, and is a run of the machine. The result is the number of
      chunks reported as undelivered: none is no report. Damaged chunks raise before anything is sent. */
  method Run(chunks: seq<Bytes>, env: nat -> Env) returns (r: Result<nat>, sends: seq<Send>, slept: nat)
    ensures r.Ok? <==> AllUnpack(chunks)
    ensures r.Err? ==> sends == [] && slept == 0
    ensures r.Ok? ==> var info := NumbersOf(chunks);
                      exists steps: nat :: Tracks(After(Start(info), env, steps), info, Done(r.value), sends, slept)
  {
    var chunkInfo := ChunkNumbers(chunks);
    if chunkInfo.Err? {
      return Err(chunkInfo.error), [], 0;
    }
    var unacked;
    unacked, sends, slept := Deliver(chunkInfo.value, env);
    r := Ok(unacked);
  }

  // ---------------------------------------------------------------- what is transmitted, exactly

  lemma {:induction false} UnackedExact(info: seq<Byte>, acked: set<Byte>)
    ensures forall i: nat :: i in Unacked(info, acked) <==> i < |info| && info[i] !in acked
    ensures forall i, j :: 0 <= i < j < |Unacked(info, acked)| ==> Unacked(info, acked)[i] < Unacked(info, acked)[j]
    ensures |Unacked(info, acked)| <= |info|
  {
    if info != [] {
      var n := |info| - 1;
      UnackedExact(info[..n], acked);
      forall i | 0 <= i < |Unacked(info[..n], acked)| ensures Unacked(info[..n], acked)[i] < n {
        assert Unacked(info[..n], acked)[i] in Unacked(info[..n], acked);
      }
    }
  }

  function Upto(n: nat): (s: seq<nat>)
    ensures |s| == n && forall i :: 0 <= i < n ==> s[i] == i
  {
    seq(n, i => i)
  }

  function InRound(round: nat, todo: seq<nat>): (s: seq<Send>)
    ensures |s| == |todo| && forall i :: 0 <= i < |s| ==> s[i] == Send(round, todo[i])
  {
    seq(|todo|, i requires 0 <= i < |todo| => Send(round, todo[i]))
  }

  /** The transmissions that what was seen calls for: the first pass, then in every round the chunks that the check
      before it found unacknowledged. */
  function Plan(info: seq<Byte>, first: nat, seen: seq<set<Byte>>): seq<Send> {
    if seen == [] then InRound(0, Upto(first))
    else
      var n := |seen|;
      Plan(info, first, seen[..n - 1]) + if n > MAX_RETRIES then [] else InRound(n, Unacked(info, seen[n - 1]))
  }

  /** The part of the plan that is still to come. */
  function Pending(l: Loop): seq<Send> {
    if l.phase.Resending? then InRound(l.phase.attempt + 1, l.phase.todo) else []
  }

  predicate PhaseFits(l: Loop) {
    match l.phase
    case Sending(i) => i < |l.info| && l.first == i && l.seen == []
    case Waiting(a) => a < MAX_RETRIES && |l.seen| == a
    case Resending(a, todo) => a < MAX_RETRIES && |l.seen| == a + 1 && 0 < |todo| <= |l.info|
    case Checking => |l.seen| == MAX_RETRIES
    case Done(u) =>
      && 0 < |l.seen| <= MAX_RETRIES + 1 && u == |Unacked(l.info, l.seen[|l.seen| - 1])|
      && (u > 0 ==> |l.seen| == MAX_RETRIES + 1)
  }

  /** The first pass covers every chunk unless the radio refused one, which then was its last. */
  predicate FirstPassFits(l: Loop) {
    && l.first <= |l.info| && l.first <= |l.sends| == |l.oks|
    && (l.phase.Sending? ==> l.first == |l.sends|)
    && (forall i :: 0 <= i < l.first - 1 ==> l.oks[i])
    && (if l.phase.Sending? then l.first > 0 ==> l.oks[l.first - 1]
        else l.first < |l.info| ==> l.first > 0 && !l.oks[l.first - 1])
  }

  ghost predicate Inv(l: Loop) {
    && PhaseFits(l) && FirstPassFits(l)
    && PlanFits(l)
    && l.slept + Remaining(l) <= LongestWait(|l.info|)
  }

  function Attempt(n: nat): nat {
    ACK_TIMEOUT + RETRY_DELAY * n
  }

  function LongestWait(n: nat): nat {
    (if n == 0 then 0 else INTER_CHUNK_DELAY * (n - 1)) + MAX_RETRIES * Attempt(n)
  }

  /** An upper bound on the seconds still to wait. */
  function Remaining(l: Loop): int {
    var n := |l.info|;
    match l.phase
    case Sending(i) => INTER_CHUNK_DELAY * (n - 1 - i) + MAX_RETRIES * Attempt(n)
    case Waiting(a) => (MAX_RETRIES - a) * Attempt(n)
    case Resending(a, todo) => RETRY_DELAY * |todo| + (MAX_RETRIES - 1 - a) * Attempt(n)
    case _ => 0
  }

  lemma StartFits(info: seq<Byte>)
    ensures Inv(Start(info))
  {
    assert Start(info).sends == Plan(info, 0, []);
  }

  lemma StepKeeps(l: Loop, e: Env)
    requires Inv(l)
    ensures Inv(Step(l, e))
  {
    PhaseKept(l, e);
    FirstPassKept(l, e);
    PlanKept(l, e);
    WaitKept(l, e);
  }

  lemma PhaseKept(l: Loop, e: Env)
    requires PhaseFits(l)
    ensures PhaseFits(Step(l, e)) && Step(l, e).info == l.info
  {
    UnackedExact(l.info, e.acked);
  }

  lemma FirstPassKept(l: Loop, e: Env)
    requires PhaseFits(l) && FirstPassFits(l)
    ensures FirstPassFits(Step(l, e))
  {}

  ghost predicate PlanFits(l: Loop) {
    l.sends + Pending(l) == Plan(l.info, l.first, l.seen)
  }

  lemma PlanKept(l: Loop, e: Env)
    requires PhaseFits(l) && PlanFits(l)
    ensures PlanFits(Step(l, e))
  {
    match l.phase
    case Sending(i) => PlanSent(l, e, i);
    case Waiting(a) => PlanChecked(l, e, a);
    case Resending(a, todo) => PlanResent(l, e, a, todo);
    case Checking => SeesMore(l, e);
    case Done(_) =>
  }

  lemma PlanSent(l: Loop, e: Env, i: nat)
    requires l.phase == Sending(i) && PhaseFits(l) && PlanFits(l)
    ensures PlanFits(SendNext(l, e, i))
  {
    assert InRound(0, Upto(i + 1)) == InRound(0, Upto(i)) + [Send(0, i)];
  }

  lemma PlanChecked(l: Loop, e: Env, a: nat)
    requires l.phase == Waiting(a) && PhaseFits(l) && PlanFits(l)
    ensures PlanFits(Check(l, e, a))
  {
    SeesMore(l, e);
  }

  lemma PlanResent(l: Loop, e: Env, a: nat, todo: seq<nat>)
    requires l.phase == Resending(a, todo) && PhaseFits(l) && PlanFits(l)
    ensures PlanFits(ResendNext(l, e, a, todo))
  {
    var s, rest := Send(a + 1, todo[0]), InRound(a + 1, todo[1..]);
    assert InRound(a + 1, todo) == [s] + rest;
    OneMoved(l.sends, s, rest);
    var l' := ResendNext(l, e, a, todo);
    assert Pending(l') == rest;
    assert l'.sends == l.sends + [s];
  }

  lemma OneMoved(sends: seq<Send>, s: Send, rest: seq<Send>)
    ensures (sends + [s]) + rest == sends + ([s] + rest)
  {}

  lemma WaitKept(l: Loop, e: Env)
    requires PhaseFits(l)
    ensures Step(l, e).slept + Remaining(Step(l, e)) <= l.slept + Remaining(l)
  {
    match l.phase
    case Sending(i) => Unwind(0, |l.info|);
    case Waiting(a) => WaitChecked(l, e, a);
    case Resending(a, todo) => WaitResent(l, e, a, todo);
    case _ =>
  }

  lemma Unwind(a: nat, n: nat)
    requires a <= MAX_RETRIES
    ensures a < MAX_RETRIES ==> (MAX_RETRIES - a) * Attempt(n) == Attempt(n) + (MAX_RETRIES - 1 - a) * Attempt(n)
    ensures (MAX_RETRIES - a) * Attempt(n) >= 0
  {}

  lemma WaitChecked(l: Loop, e: Env, a: nat)
    requires l.phase == Waiting(a) && a < MAX_RETRIES
    ensures var l' := Check(l, e, a); l'.slept + Remaining(l') <= l.slept + Remaining(l)
  {
    UnackedExact(l.info, e.acked);
    Unwind(a, |l.info|);
    Unwind(a + 1, |l.info|);
  }

  lemma WaitResent(l: Loop, e: Env, a: nat, todo: seq<nat>)
    requires l.phase == Resending(a, todo) && a < MAX_RETRIES && todo != []
    ensures var l' := ResendNext(l, e, a, todo); l'.slept + Remaining(l') <= l.slept + Remaining(l)
  {}

  lemma SeesMore(l: Loop, e: Env)
    ensures var seen := l.seen + [e.acked];
            Plan(l.info, l.first, seen)
            == Plan(l.info, l.first, l.seen)
               + if |seen| > MAX_RETRIES then [] else InRound(|seen|, Unacked(l.info, e.acked))
  {
    assert (l.seen + [e.acked])[..|l.seen|] == l.seen;
  }

  lemma {:induction false} AlwaysFits(info: seq<Byte>, env: nat -> Env, k: nat)
    ensures Inv(After(Start(info), env, k)) && After(Start(info), env, k).info == info
  {
    if k == 0 {
      StartFits(info);
    } else {
      AlwaysFits(info, env, k - 1);
      StepKeeps(After(Start(info), env, k - 1), env(k - 1));
    }
  }

  /** At every moment the transmissions are the plan up to what is pending; at the end they are all of it. */
  lemma TransmissionsArePlanned(info: seq<Byte>, env: nat -> Env, k: nat)
    ensures var l := After(Start(info), env, k);
            && l.sends <= Plan(info, l.first, l.seen)
            && (l.phase.Done? ==> l.sends == Plan(info, l.first, l.seen))
  {
    AlwaysFits(info, env, k);
  }

  // ---------------------------------------------------------------- how often a chunk is transmitted

  function Count(sends: seq<Send>, idx: nat): nat {
    if sends == [] then 0
    else Count(sends[..|sends| - 1], idx) + if sends[|sends| - 1].idx == idx then 1 else 0
  }

  /** The checks, among those that lead to a round, that found the chunk number unacknowledged. */
  function Missed(seen: seq<set<Byte>>, chunk: Byte): (m: nat)
    ensures m <= |seen| && m <= MAX_RETRIES
  {
    if seen == [] then 0
    else
      Missed(seen[..|seen| - 1], chunk)
      + if |seen| <= MAX_RETRIES && chunk !in seen[|seen| - 1] then 1 else 0
  }

  lemma {:induction false} CountConcat(a: seq<Send>, b: seq<Send>, idx: nat)
    ensures Count(a + b, idx) == Count(a, idx) + Count(b, idx)
  {
    if b == [] {
      assert a + b == a;
    } else {
      CountConcat(a, b[..|b| - 1], idx);
      assert (a + b)[..|a + b| - 1] == a + b[..|b| - 1];
    }
  }

  lemma InLast(todo: seq<nat>, idx: nat)
    requires todo != [] && forall i, j :: 0 <= i < j < |todo| ==> todo[i] < todo[j]
    ensures var n := |todo| - 1;
            (idx in todo <==> idx in todo[..n] || idx == todo[n]) && !(idx in todo[..n] && idx == todo[n])
  {}

  lemma {:induction false} CountInRound(round: nat, todo: seq<nat>, idx: nat)
    requires forall i, j :: 0 <= i < j < |todo| ==> todo[i] < todo[j]
    ensures Count(InRound(round, todo), idx) == if idx in todo then 1 else 0
  {
    if todo != [] {
      var n := |todo| - 1;
      CountInRound(round, todo[..n], idx);
      assert InRound(round, todo)[..n] == InRound(round, todo[..n]);
      InLast(todo, idx);
    }
  }

  lemma {:induction false} CountPlanned(info: seq<Byte>, first: nat, seen: seq<set<Byte>>, idx: nat)
    requires idx < |info|
    ensures Count(Plan(info, first, seen), idx) == (if idx < first then 1 else 0) + Missed(seen, info[idx])
  {
    if seen == [] {
      CountInRound(0, Upto(first), idx);
      assert idx < first ==> Upto(first)[idx] == idx;
    } else {
      CountPlanned(info, first, seen[..|seen| - 1], idx);
      CountRound(info, first, seen, idx);
    }
  }

  lemma CountRound(info: seq<Byte>, first: nat, seen: seq<set<Byte>>, idx: nat)
    requires idx < |info| && seen != []
    ensures var n := |seen| - 1;
            Count(Plan(info, first, seen), idx) == Count(Plan(info, first, seen[..n]), idx)
              + if |seen| <= MAX_RETRIES && info[idx] !in seen[n] then 1 else 0
  {
    var n := |seen|;
    var before := Plan(info, first, seen[..n - 1]);
    if n <= MAX_RETRIES {
      CountResent(info, seen[n - 1], n, idx);
      CountConcat(before, InRound(n, Unacked(info, seen[n - 1])), idx);
    } else {
      assert Plan(info, first, seen) == before;
    }
  }

  lemma CountResent(info: seq<Byte>, acked: set<Byte>, round: nat, idx: nat)
    requires idx < |info|
    ensures Count(InRound(round, Unacked(info, acked)), idx) == if info[idx] in acked then 0 else 1
  {
    UnackedExact(info, acked);
    CountInRound(round, Unacked(info, acked), idx);
  }

  /** Over a whole run a chunk is transmitted once if the first pass reached it, and once more for each of the first
      MAX_RETRIES checks that missed its acknowledgement; never more often than that at any moment. */
  lemma TransmissionsCounted(info: seq<Byte>, env: nat -> Env, k: nat, idx: nat)
    requires idx < |info|
    ensures var l := After(Start(info), env, k);
            var planned := (if idx < l.first then 1 else 0) + Missed(l.seen, info[idx]);
            && Count(l.sends, idx) <= planned <= 1 + MAX_RETRIES
            && (l.phase.Done? ==> Count(l.sends, idx) == planned)
  {
    AlwaysFits(info, env, k);
    var l := After(Start(info), env, k);
    CountPlanned(info, l.first, l.seen, idx);
    CountConcat(l.sends, Pending(l), idx);
  }

  // ---------------------------------------------------------------- acknowledgements end retransmission

  ghost predicate Growing(env: nat -> Env) {
    forall i: nat, j: nat :: i <= j ==> env(i).acked <= env(j).acked
  }

  /** A chain of checks, all within `acked`. */
  ghost predicate ChainWithin(seen: seq<set<Byte>>, acked: set<Byte>) {
    && (forall i, j :: 0 <= i < j < |seen| ==> seen[i] <= seen[j])
    && (forall i :: 0 <= i < |seen| ==> seen[i] <= acked)
  }

  lemma SeenAfter(l: Loop, e: Env)
    ensures Step(l, e).seen == l.seen || Step(l, e).seen == l.seen + [e.acked]
  {}

  lemma {:induction false} ChecksGrow(info: seq<Byte>, env: nat -> Env, k: nat)
    requires Growing(env)
    ensures ChainWithin(After(Start(info), env, k).seen, env(k).acked)
  {
    if k > 0 {
      ChecksGrow(info, env, k - 1);
      SeenAfter(After(Start(info), env, k - 1), env(k - 1));
      assert env(k - 1).acked <= env(k).acked;
    }
  }

  lemma InRoundHolds(round: nat, todo: seq<nat>, s: Send)
    requires s in InRound(round, todo)
    ensures s.round == round && s.idx in todo
  {
    var k :| 0 <= k < |todo| && InRound(round, todo)[k] == s;
  }

  /** What the plan holds beyond the first pass was found unacknowledged by the check before. */
  predicate CalledFor(info: seq<Byte>, seen: seq<set<Byte>>, s: Send) {
    s.round > 0 ==> s.round <= |seen| && s.idx < |info| && info[s.idx] !in seen[s.round - 1]
  }

  lemma PlanParts(info: seq<Byte>, first: nat, seen: seq<set<Byte>>, s: Send)
    requires seen != [] && s in Plan(info, first, seen)
    ensures var n := |seen|; s in Plan(info, first, seen[..n - 1]) || s in InRound(n, Unacked(info, seen[n - 1]))
  {}

  lemma {:induction false} PlannedRounds(info: seq<Byte>, first: nat, seen: seq<set<Byte>>, s: Send)
    requires s in Plan(info, first, seen)
    ensures CalledFor(info, seen, s)
  {
    if seen == [] {
      InRoundHolds(0, Upto(first), s);
    } else {
      var n := |seen|;
      PlanParts(info, first, seen, s);
      if s in Plan(info, first, seen[..n - 1]) {
        PlannedRounds(info, first, seen[..n - 1], s);
      } else {
        InRoundHolds(n, Unacked(info, seen[n - 1]), s);
        UnackedExact(info, seen[n - 1]);
      }
    }
  }

  lemma SendsCalledFor(l: Loop, s: Send)
    requires PlanFits(l) && s in l.sends
    ensures CalledFor(l.info, l.seen, s)
  {
    assert s in l.sends + Pending(l);
    PlannedRounds(l.info, l.first, l.seen, s);
  }

  /** When acknowledgements are never withdrawn, a chunk that a check found acknowledged is not transmitted in any
      later round. */
  lemma NeverAfterAcknowledged(info: seq<Byte>, env: nat -> Env, k: nat, s: Send, check: nat)
    requires Growing(env)
    requires var l := After(Start(info), env, k);
             s in l.sends && s.idx < |info| && check < |l.seen| && info[s.idx] in l.seen[check]
    ensures s.round <= check
  {
    AlwaysFits(info, env, k);
    ChecksGrow(info, env, k);
    SendsCalledFor(After(Start(info), env, k), s);
    OnceSeen(After(Start(info), env, k).seen, env(k).acked, check, s.round, info[s.idx]);
  }

  lemma OnceSeen(seen: seq<set<Byte>>, acked: set<Byte>, check: nat, round: nat, chunk: Byte)
    requires ChainWithin(seen, acked) && check < |seen| && chunk in seen[check]
    requires round > 0 ==> round <= |seen| && chunk !in seen[round - 1]
    ensures round <= check
  {
    assert forall r :: check <= r < |seen| ==> chunk in seen[r];
  }

  // ---------------------------------------------------------------- how it ends

  ghost predicate AllAcknowledged(info: seq<Byte>, acked: set<Byte>) {
    forall i :: 0 <= i < |info| ==> info[i] in acked
  }

  /** A failure is reported exactly when the last check finds a chunk unacknowledged, and then that check is the one
      after the last retry; the report counts the unacknowledged chunks. */
  lemma ReportedExactlyWhen(info: seq<Byte>, env: nat -> Env, k: nat)
    requires After(Start(info), env, k).phase.Done?
    ensures var l := After(Start(info), env, k);
            && 0 < |l.seen| <= MAX_RETRIES + 1
            && (l.phase.unacked > 0 <==> !AllAcknowledged(info, l.seen[|l.seen| - 1]))
            && (l.phase.unacked > 0 ==> |l.seen| == MAX_RETRIES + 1)
            && l.phase.unacked == |Unacked(info, l.seen[|l.seen| - 1])|
  {
    AlwaysFits(info, env, k);
    DoneSilently(After(Start(info), env, k));
  }

  lemma DoneSilently(l: Loop)
    requires PhaseFits(l) && l.phase.Done?
    ensures l.phase.unacked == 0 <==> AllAcknowledged(l.info, l.seen[|l.seen| - 1])
  {
    var todo := Unacked(l.info, l.seen[|l.seen| - 1]);
    UnackedExact(l.info, l.seen[|l.seen| - 1]);
    if todo != [] {
      assert todo[0] in todo;
    }
  }

  /** The loop never waits longer than this. */
  lemma WaitBounded(info: seq<Byte>, env: nat -> Env, k: nat)
    requires info != []
    ensures After(Start(info), env, k).slept <= 2 * (|info| - 1) + 3 * (30 + 10 * |info|)
  {
    AlwaysFits(info, env, k);
    RemainingNatural(After(Start(info), env, k));
  }

  lemma RemainingNatural(l: Loop)
    requires PhaseFits(l)
    ensures Remaining(l) >= 0
  {
    if l.phase.Waiting? {
      assert (MAX_RETRIES - l.phase.attempt) * Attempt(|l.info|) >= 0;
    } else if l.phase.Resending? {
      assert (MAX_RETRIES - 1 - l.phase.attempt) * Attempt(|l.info|) >= 0;
    }
  }

  // ---------------------------------------------------------------- how long it waits, exactly

  /** The transmissions of the first pass that are followed by another. */
  function Followed(l: Loop): nat {
    if l.first == 0 || l.phase.Sending? then l.first else l.first - 1
  }

  predicate WaitsFit(l: Loop) {
    l.slept == 2 * Followed(l) + 30 * (if |l.seen| < 3 then |l.seen| else 3) + 10 * (|l.sends| - l.first)
  }

  lemma WaitsKept(l: Loop, e: Env)
    requires PhaseFits(l) && FirstPassFits(l) && WaitsFit(l)
    ensures WaitsFit(Step(l, e))
  {}

  lemma AlwaysPhased(info: seq<Byte>, env: nat -> Env, k: nat)
    ensures PhaseFits(After(Start(info), env, k)) && FirstPassFits(After(Start(info), env, k))
  {
    AlwaysFits(info, env, k);
  }

  lemma {:induction false} AlwaysWaits(info: seq<Byte>, env: nat -> Env, k: nat)
    ensures WaitsFit(After(Start(info), env, k))
  {
    if k > 0 {
      AlwaysWaits(info, env, k - 1);
      AlwaysPhased(info, env, k - 1);
      WaitsKept(After(Start(info), env, k - 1), env(k - 1));
    }
  }

  /** At every moment of every run the seconds waited are 2 for each transmission of the first pass that is followed by
      another, 30 for each of the first three checks, and 10 for each retransmission. */
  lemma SleptExactly(info: seq<Byte>, env: nat -> Env, k: nat)
    ensures var l := After(Start(info), env, k);
            var followed := if l.first == 0 || l.phase.Sending? then l.first else l.first - 1;
            var checks := if |l.seen| < 3 then |l.seen| else 3;
            l.first <= |l.sends| && l.slept == 2 * followed + 30 * checks + 10 * (|l.sends| - l.first)
  {
    AlwaysWaits(info, env, k);
    AlwaysPhased(info, env, k);
  }

  // ---------------------------------------------------------------- a run nobody answers

  /** No chunk of this number list is acknowledged. */
  ghost predicate NoneAcknowledged(info: seq<Byte>, acked: set<Byte>) {
    forall i :: 0 <= i < |info| ==> info[i] !in acked
  }

  lemma {:induction false} AllUnacked(info: seq<Byte>, acked: set<Byte>)
    requires NoneAcknowledged(info, acked)
    ensures |Unacked(info, acked)| == |info|
  {
    if info != [] {
      AllUnacked(info[..|info| - 1], acked);
    }
  }

  lemma PlanOneMore(info: seq<Byte>, first: nat, seen: seq<set<Byte>>)
    requires seen != []
    ensures |Plan(info, first, seen)| == |Plan(info, first, seen[..|seen| - 1])|
              + if |seen| > MAX_RETRIES then 0 else |Unacked(info, seen[|seen| - 1])|
  {}

  /** `n` for each of the first three checks. */
  function Thrice(checks: nat, n: nat): nat {
    if checks == 0 then 0 else Thrice(checks - 1, n) + if checks > 3 then 0 else n
  }

  lemma {:induction false} ThriceAtEnd(checks: nat, n: nat)
    requires checks >= 3
    ensures Thrice(checks, n) == 3 * n
  {
    if checks > 3 {
      ThriceAtEnd(checks - 1, n);
    } else {
      assert Thrice(checks - 2, n) == Thrice(checks - 3, n) + n;
    }
  }

  lemma {:induction false} PlanOfNone(info: seq<Byte>, first: nat, seen: seq<set<Byte>>)
    requires forall j :: 0 <= j < |seen| ==> NoneAcknowledged(info, seen[j])
    ensures |Plan(info, first, seen)| == first + Thrice(|seen|, |info|)
  {
    if seen != [] {
      PlanOfNone(info, first, seen[..|seen| - 1]);
      PlanOneMore(info, first, seen);
      AllUnacked(info, seen[|seen| - 1]);
    }
  }

  lemma {:induction false} SeenOfNone(info: seq<Byte>, env: nat -> Env, k: nat)
    requires forall j: nat :: NoneAcknowledged(info, env(j).acked)
    ensures forall j :: 0 <= j < |After(Start(info), env, k).seen| ==>
              NoneAcknowledged(info, After(Start(info), env, k).seen[j])
  {
    if k > 0 {
      SeenOfNone(info, env, k - 1);
      SeenAfter(After(Start(info), env, k - 1), env(k - 1));
    }
  }

  /** The first pass takes the first steps, and its answers are the radio's. */
  predicate FirstSteps(l: Loop, env: nat -> Env, k: nat) {
    && l.first <= |l.oks| && (l.phase.Sending? ==> l.first == k)
    && forall i :: 0 <= i < l.first ==> l.oks[i] == env(i).ok
  }

  lemma FirstStepsKept(l: Loop, env: nat -> Env, k: nat)
    requires PhaseFits(l) && FirstPassFits(l) && FirstSteps(l, env, k)
    ensures FirstSteps(Step(l, env(k)), env, k + 1)
  {}

  lemma {:induction false} FirstStepsTaken(info: seq<Byte>, env: nat -> Env, k: nat)
    ensures FirstSteps(After(Start(info), env, k), env, k)
  {
    if k > 0 {
      FirstStepsTaken(info, env, k - 1);
      AlwaysPhased(info, env, k - 1);
      FirstStepsKept(After(Start(info), env, k - 1), env, k - 1);
    }
  }

  /** When nothing is ever acknowledged and the radio takes the first pass, the loop ends with a report of all n chunks
      after transmitting each of them four times and waiting exactly 2(n - 1) + 3(30 + 10n) seconds. */
  lemma NobodyAnswers(info: seq<Byte>, env: nat -> Env, k: nat)
    requires info != [] && After(Start(info), env, k).phase.Done?
    requires forall j: nat :: NoneAcknowledged(info, env(j).acked)
    requires forall j: nat :: j < |info| ==> env(j).ok
    ensures var l := After(Start(info), env, k);
            && l.phase == Done(|info|) && |l.sends| == 4 * |info|
            && l.slept == 2 * (|info| - 1) + 3 * (30 + 10 * |info|)
  {
    var l := After(Start(info), env, k);
    AlwaysFits(info, env, k);
    SleptExactly(info, env, k);
    SeenOfNone(info, env, k);
    FirstStepsTaken(info, env, k);
    PlanOfNone(info, l.first, l.seen);
    TransmissionsArePlanned(info, env, k);
    ThriceAtEnd(|l.seen|, |info|);
    AllUnacked(info, l.seen[|l.seen| - 1]);
  }
}
