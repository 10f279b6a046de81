/** An honest sender, a radio that drops, duplicates and reorders, and the gateway: what holds in every run. */
module Relay {
  import opened Bytes
  import opened Protocol
  import opened Gateway
  import Chunker
  import GatewayRuns
  import Reassembly
  import RetryLoop

  // ---------------------------------------------------------------- the system

  /** One relayed transaction; the sender uses `msgId` for nothing else. */
  datatype Session = Session(cfg: Config, sender: string, msgId: Word, data: Bytes, frames: seq<Bytes>)

  predicate Honest(s: Session) {
    Chunker.PieceFrames(s.frames, s.data, TX_CHUNK, s.msgId, |s.frames|) && |s.frames| <= 255
  }

  function KeyOf(s: Session): Chunker.Key {
    Chunker.Key(s.sender, s.msgId)
  }

  /** A frame the radio took, and the seconds the sender had waited by then. */
  datatype Flight = Flight(frame: Bytes, emitted: nat)

  /** `air` holds the frames the radio took, which it may deliver in any order, any number of times or never. */
  datatype World = World(
    loop: RetryLoop.Loop, air: seq<Flight>, acks: RetryLoop.Acks, books: Books, arrivals: seq<Arrival>)

  datatype Event =
    | SenderStep(ok: bool)
    | Deliver(i: nat, now: real, rpc: Rpc)
    | Foreign(arrival: Arrival)           // anything else the gateway handles
    | AckBack(i: nat, ackId: Word)        // a reply of the gateway reaches the sender

  function Numbers(n: nat): (s: seq<Byte>)
    requires n <= 256
    ensures |s| == n && forall i :: 0 <= i < n ==> s[i] == i
  {
    seq(n, i requires 0 <= i < n => i)
  }

  function Initial(s: Session): World
    requires Honest(s)
  {
    World(RetryLoop.Start(Numbers(|s.frames|)), [], map[s.msgId := {}], NO_BOOKS, [])
  }

  function Acked(s: Session, w: World): set<Byte> {
    if s.msgId in w.acks then w.acks[s.msgId] else {}
  }

  function Arrive(s: Session, w: World, a: Arrival): World {
    w.(books := Handled(s.cfg, w.books, a), arrivals := w.arrivals + [a])
  }

  /** What a step of the sender puts on air. */
  function Emitted(s: Session, before: RetryLoop.Loop, after: RetryLoop.Loop, ok: bool): seq<Flight> {
    if |after.sends| == |before.sends| + 1 && ok && after.sends[|before.sends|].idx < |s.frames|
    then [Flight(s.frames[after.sends[|before.sends|].idx], before.slept)]
    else []
  }

  function Send(s: Session, w: World, ok: bool): World {
    var after := RetryLoop.Step(w.loop, RetryLoop.Env(Acked(s, w), ok));
    w.(loop := after, air := w.air + Emitted(s, w.loop, after, ok))
  }

  /** A frame on air is unpacked and dispatched on its type. */
  function Received(s: Session, w: World, frame: Bytes, now: real, rpc: Rpc): World {
    match UnpackMessage(frame)
    case Err(_) => w
    case Ok((h, payload)) =>
      if h.msgType == TX_CHUNK then Arrive(s, w, ChunkArrival(now, s.sender, h, payload, rpc)) else w
  }

  predicate IsForeign(s: Session, a: Arrival) {
    a.ChunkArrival? ==> CallOf(a).key != KeyOf(s)
  }

  /** The gateway frames an ACK payload under an id of its own; the sender unpacks and records it. */
  function AckHeard(w: World, payload: Bytes, ackId: Word): World {
    match PackMessage(ACK, ackId, 0, 1, payload)
    case Err(_) => w
    case Ok(frame) =>
      match UnpackMessage(frame)
      case Err(_) => w
      case Ok((h, heard)) => if h.msgType == ACK then w.(acks := RetryLoop.Recorded(w.acks, heard)) else w
  }

  function Next(s: Session, w: World, e: Event): World {
    match e
    case SenderStep(ok) => Send(s, w, ok)
    case Deliver(i, now, rpc) => if i < |w.air| then Received(s, w, w.air[i].frame, now, rpc) else w
    case Foreign(a) => if IsForeign(s, a) then Arrive(s, w, a) else w
    case AckBack(i, ackId) =>
      if i < |w.books.replies| && w.books.replies[i].AckReply? && w.books.replies[i].dest == s.sender
      then AckHeard(w, w.books.replies[i].payload, ackId)
      else w
  }

  function Run(s: Session, events: seq<Event>): World
    requires Honest(s)
  {
    if events == [] then Initial(s) else Next(s, Run(s, events[..|events| - 1]), events[|events| - 1])
  }

  // ---------------------------------------------------------------- chunks sent, accepted and acknowledged

  /** The chunks of which the radio took a transmission. */
  function Sent(l: RetryLoop.Loop): set<nat> {
    set j | 0 <= j < |l.sends| && j < |l.oks| && l.oks[j] :: l.sends[j].idx
  }

  /** The chunk numbers the gateway passed to its reassembler under a key. */
  function Accepted(calls: seq<Chunker.Call>, k: Chunker.Key): set<nat> {
    set c | c in calls && c.key == k :: c.chunkNum
  }

  ghost predicate AirFits(s: Session, w: World) {
    forall f :: f in w.air ==> FlightFits(s, f, Sent(w.loop))
  }

  ghost predicate FlightFits(s: Session, f: Flight, sent: set<nat>) {
    exists i :: 0 <= i < |s.frames| && s.frames[i] == f.frame && i in sent
  }

  predicate CallFits(s: Session, c: Chunker.Call) {
    c.key == KeyOf(s) ==>
      c.total == Chunker.Total(|s.data|) && c.chunkNum < c.total && c.payload == Chunker.Piece(s.data, c.chunkNum)
  }

  ghost predicate CallsFit(s: Session, w: World) {
    && (forall c :: c in w.books.calls ==> CallFits(s, c))
    && Accepted(w.books.calls, KeyOf(s)) <= Sent(w.loop)
  }

  /** An ACK for this session speaks of an accepted chunk. */
  predicate AckFits(s: Session, accepted: set<nat>, payload: Bytes) {
    DecodeAck(payload).Ok? && DecodeAck(payload).value.msgId == s.msgId ==> DecodeAck(payload).value.chunk in accepted
  }

  ghost predicate RepliesFit(s: Session, b: Books) {
    forall r :: r in b.replies && r.AckReply? && r.dest == s.sender ==>
      AckFits(s, Accepted(b.calls, KeyOf(s)), r.payload)
  }

  ghost predicate AcksFit(s: Session, w: World) {
    && s.msgId in w.acks && Acked(s, w) <= Accepted(w.books.calls, KeyOf(s))
    && forall x :: x in w.loop.seen ==> x <= Acked(s, w)
  }

  ghost predicate LoopFits(s: Session, w: World) {
    |s.frames| <= 255 && RetryLoop.Inv(w.loop) && w.loop.info == Numbers(|s.frames|)
  }

  ghost predicate Inv(s: Session, w: World) {
    && LoopFits(s, w) && AirFits(s, w) && CallsFit(s, w) && RepliesFit(s, w.books) && AcksFit(s, w)
    && w.books == Kept(s.cfg, w.arrivals)
  }

  // ---------------------------------------------------------------- every step keeps the invariant

  lemma SendsGrow(l: RetryLoop.Loop, e: RetryLoop.Env)
    ensures var l' := RetryLoop.Step(l, e);
            && (l'.seen == l.seen || l'.seen == l.seen + [e.acked])
            && ((l'.sends == l.sends && l'.oks == l.oks)
                || (|l'.sends| == |l.sends| + 1 && l'.sends[..|l.sends|] == l.sends && l'.oks == l.oks + [e.ok]))
  {}

  lemma SendKeeps(s: Session, w: World, ok: bool)
    requires Inv(s, w)
    ensures Inv(s, Send(s, w, ok))
  {
    var e := RetryLoop.Env(Acked(s, w), ok);
    RetryLoop.StepKeeps(w.loop, e);
    RetryLoop.PhaseKept(w.loop, e);
    AirGrows(s, w, ok);
    SentKept(s, w, ok);
  }

  lemma SentKept(s: Session, w: World, ok: bool)
    requires CallsFit(s, w) && AcksFit(s, w) && |w.loop.oks| == |w.loop.sends|
    ensures CallsFit(s, Send(s, w, ok)) && AcksFit(s, Send(s, w, ok))
  {
    var e := RetryLoop.Env(Acked(s, w), ok);
    SendsGrow(w.loop, e);
    SentGrows(w.loop, RetryLoop.Step(w.loop, e), ok);
  }

  /** One more transmission. */
  lemma SentGrows(l: RetryLoop.Loop, l': RetryLoop.Loop, ok: bool)
    requires |l.oks| == |l.sends|
    requires (l'.sends == l.sends && l'.oks == l.oks)
          || (|l'.sends| == |l.sends| + 1 && l'.sends[..|l.sends|] == l.sends && l'.oks == l.oks + [ok])
    ensures Sent(l) <= Sent(l')
    ensures |l'.sends| > |l.sends| && ok ==> l'.sends[|l.sends|].idx in Sent(l')
  {
    forall i | i in Sent(l) ensures i in Sent(l') {
      var j :| 0 <= j < |l.sends| && l.oks[j] && l.sends[j].idx == i;
      assert l'.sends[j] == l.sends[j] && l'.oks[j];
    }
    if |l'.sends| > |l.sends| && ok {
      assert l'.oks[|l.sends|];
    }
  }

  lemma AirGrows(s: Session, w: World, ok: bool)
    requires AirFits(s, w) && |w.loop.oks| == |w.loop.sends|
    ensures AirFits(s, Send(s, w, ok))
  {
    var w' := Send(s, w, ok);
    SendsGrow(w.loop, RetryLoop.Env(Acked(s, w), ok));
    SentGrows(w.loop, w'.loop, ok);
    forall f | f in w'.air ensures FlightFits(s, f, Sent(w'.loop)) {
      if f in w.air {
        assert FlightFits(s, f, Sent(w.loop));
      } else {
        assert s.frames[w'.loop.sends[|w.loop.sends|].idx] == f.frame;
      }
    }
  }

  predicate Collects(cfg: Config, b: Books, a: Arrival) {
    a.ChunkArrival? && Passes(cfg, b, a)
  }

  /** A chunk that passes the rate limiter is acknowledged and handed to the reassembler. */
  lemma HandledChunk(cfg: Config, b: Books, a: Arrival)
    requires Collects(cfg, b, a)
    ensures var b' := Handled(cfg, b, a);
            && b'.calls == b.calls + [CallOf(a)]
            && |b'.replies| > |b.replies| && b'.replies[|b.replies|] == AckReply(a.sender, AckPayload(a.header))
            && (forall r :: r in b'.replies && r.AckReply? ==>
                  r in b.replies || r == AckReply(a.sender, AckPayload(a.header)))
  {}

  lemma HandledOther(cfg: Config, b: Books, a: Arrival)
    requires !Collects(cfg, b, a)
    ensures var b' := Handled(cfg, b, a);
            && b'.calls == b.calls
            && forall r :: r in b'.replies && r.AckReply? ==> r in b.replies
  {}

  lemma AcceptedOneMore(calls: seq<Chunker.Call>, c: Chunker.Call, k: Chunker.Key)
    ensures Accepted(calls + [c], k) == Accepted(calls, k) + if c.key == k then {c.chunkNum} else {}
  {}

  lemma OutcomesOneMore(calls: seq<Chunker.Call>, c: Chunker.Call, k: Chunker.Key)
    ensures Reassembly.OutcomesFor(calls + [c], k)
         == Reassembly.OutcomesFor(calls, k) + if c.key == k then [Chunker.LastOutcome(calls + [c])] else []
  {
    assert (calls + [c])[..|calls|] == calls;
  }

  lemma RepliesKept(s: Session, b: Books, a: Arrival)
    requires RepliesFit(s, b)
    ensures RepliesFit(s, Handled(s.cfg, b, a))
    ensures Accepted(b.calls, KeyOf(s)) <= Accepted(Handled(s.cfg, b, a).calls, KeyOf(s))
  {
    if Collects(s.cfg, b, a) {
      HandledChunk(s.cfg, b, a);
      AcceptedOneMore(b.calls, CallOf(a), KeyOf(s));
      WordSize();
      DecodeAckAfterEncode(a.header.msgId, a.header.chunkNum, 0);
    } else {
      HandledOther(s.cfg, b, a);
    }
  }

  predicate ArrivalFits(s: Session, w: World, a: Arrival)
    requires a.ChunkArrival?
  {
    CallFits(s, CallOf(a)) && (CallOf(a).key == KeyOf(s) ==> CallOf(a).chunkNum in Sent(w.loop))
  }

  lemma CallsKept(s: Session, w: World, a: Arrival)
    requires CallsFit(s, w)
    requires a.ChunkArrival? ==> ArrivalFits(s, w, a)
    ensures CallsFit(s, Arrive(s, w, a))
  {
    if Collects(s.cfg, w.books, a) {
      HandledChunk(s.cfg, w.books, a);
      AcceptedOneMore(w.books.calls, CallOf(a), KeyOf(s));
    } else {
      HandledOther(s.cfg, w.books, a);
    }
  }

  lemma ArrivalKeeps(s: Session, w: World, a: Arrival)
    requires Inv(s, w)
    requires a.ChunkArrival? ==> ArrivalFits(s, w, a)
    ensures Inv(s, Arrive(s, w, a))
  {
    CallsKept(s, w, a);
    RepliesKept(s, w.books, a);
    assert (w.arrivals + [a])[..|w.arrivals|] == w.arrivals;
  }

  lemma DeliveryKeeps(s: Session, w: World, f: Flight, now: real, rpc: Rpc)
    requires Honest(s) && Inv(s, w) && f in w.air
    ensures Inv(s, Received(s, w, f.frame, now, rpc))
  {
    assert FlightFits(s, f, Sent(w.loop));
    var i :| 0 <= i < |s.frames| && s.frames[i] == f.frame && i in Sent(w.loop);
    assert Chunker.IsChunk(f.frame, TX_CHUNK, s.msgId, i, |s.frames|, Chunker.Piece(s.data, i));
    var (h, payload) := UnpackMessage(f.frame).value;
    ArrivalKeeps(s, w, ChunkArrival(now, s.sender, h, payload, rpc));
  }

  lemma HeardAsSent(w: World, payload: Bytes, ackId: Word)
    ensures AckHeard(w, payload, ackId)
         == if |payload| <= MAX_CHUNK_DATA then w.(acks := RetryLoop.Recorded(w.acks, payload)) else w
  {
    if |payload| <= MAX_CHUNK_DATA {
      UnpackAfterPack(ACK, ackId, 0, 1, payload, []);
      var frame := PackMessage(ACK, ackId, 0, 1, payload).value;
      assert frame + [] == frame;
    }
  }

  lemma RecordedFits(s: Session, w: World, payload: Bytes)
    requires Inv(s, w) && AckFits(s, Accepted(w.books.calls, KeyOf(s)), payload)
    ensures Inv(s, w.(acks := RetryLoop.Recorded(w.acks, payload)))
  {}

  lemma AckKeeps(s: Session, w: World, i: nat, ackId: Word)
    requires Inv(s, w)
    requires i < |w.books.replies| && w.books.replies[i].AckReply? && w.books.replies[i].dest == s.sender
    ensures Inv(s, AckHeard(w, w.books.replies[i].payload, ackId))
  {
    assert w.books.replies[i] in w.books.replies;
    HeardAsSent(w, w.books.replies[i].payload, ackId);
    RecordedFits(s, w, w.books.replies[i].payload);
  }

  lemma NextKeeps(s: Session, w: World, e: Event)
    requires Honest(s) && Inv(s, w)
    ensures Inv(s, Next(s, w, e))
  {
    match e
    case SenderStep(ok) => SendKeeps(s, w, ok);
    case Deliver(i, now, rpc) =>
      if i < |w.air| {
        DeliveryKeeps(s, w, w.air[i], now, rpc);
      }
    case Foreign(a) =>
      if IsForeign(s, a) {
        ArrivalKeeps(s, w, a);
      }
    case AckBack(i, ackId) =>
      if i < |w.books.replies| && w.books.replies[i].AckReply? && w.books.replies[i].dest == s.sender {
        AckKeeps(s, w, i, ackId);
      }
  }

  lemma {:induction false} RunKeeps(s: Session, events: seq<Event>)
    requires Honest(s)
    ensures Inv(s, Run(s, events))
  {
    if events == [] {
      RetryLoop.StartFits(Numbers(|s.frames|));
    } else {
      RunKeeps(s, events[..|events| - 1]);
      NextKeeps(s, Run(s, events[..|events| - 1]), events[|events| - 1]);
    }
  }

  // ---------------------------------------------------------------- the theorems

  /** In every run the acknowledged chunks were accepted by the gateway, and the accepted chunks were sent. */
  lemma AckedWereAcceptedWereSent(s: Session, events: seq<Event>)
    requires Honest(s)
    ensures var w := Run(s, events);
            Acked(s, w) <= Accepted(w.books.calls, KeyOf(s)) <= Sent(w.loop)
  {
    RunKeeps(s, events);
  }

  lemma {:induction false} OutcomesGenuine(log: seq<Chunker.Call>, k: Chunker.Key, data: Bytes)
    requires Reassembly.AllFrom(log, k, data)
    ensures forall o :: o in Reassembly.OutcomesFor(log, k) ==> o == Chunker.Nothing || o == Chunker.Complete(data)
  {
    if log != [] {
      OutcomesGenuine(log[..|log| - 1], k, data);
      if log[|log| - 1].key == k {
        Reassembly.OnlyOriginalDelivered(log, k, data);
      }
    }
  }

  lemma CallsAllFrom(s: Session, w: World)
    requires CallsFit(s, w)
    ensures Reassembly.AllFrom(w.books.calls, KeyOf(s), s.data)
  {
    forall i | 0 <= i < |w.books.calls| ensures CallFits(s, w.books.calls[i]) {
      assert w.books.calls[i] in w.books.calls;
    }
  }

  /** In every run, whatever the clock does, the gateway reassembles nothing but the original bytes. */
  lemma NothingElseReassembled(s: Session, events: seq<Event>)
    requires Honest(s)
    ensures forall o :: o in Reassembly.OutcomesFor(Run(s, events).books.calls, KeyOf(s)) ==>
              o == Chunker.Nothing || o == Chunker.Complete(s.data)
  {
    RunKeeps(s, events);
    CallsAllFrom(s, Run(s, events));
    OutcomesGenuine(Run(s, events).books.calls, KeyOf(s), s.data);
  }

  lemma {:induction false} OnlyKeyMembers(log: seq<Chunker.Call>, k: Chunker.Key)
    ensures forall c :: c in Reassembly.OnlyKey(log, k) <==> c in log && c.key == k
  {
    if log != [] {
      OnlyKeyMembers(log[..|log| - 1], k);
      assert log == log[..|log| - 1] + [log[|log| - 1]];
    }
  }

  lemma {:induction false} OutcomeListed(log: seq<Chunker.Call>, k: Chunker.Key, j: nat)
    requires j < |log| && log[j].key == k
    ensures Chunker.LastOutcome(log[..j + 1]) in Reassembly.OutcomesFor(log, k)
  {
    var n := |log| - 1;
    if j < n {
      OutcomeListed(log[..n], k, j);
      assert log[..n][..j + 1] == log[..j + 1];
    } else {
      assert log[..j + 1] == log;
    }
  }

  /** Every outcome is that of some call. */
  lemma OutcomeFound(log: seq<Chunker.Call>, k: Chunker.Key, o: Chunker.Outcome) returns (j: nat)
    requires o in Reassembly.OutcomesFor(log, k)
    ensures j < |log| && log[j].key == k && Chunker.LastOutcome(log[..j + 1]) == o
  {
    var front := PrefixFound(log, k, o);
    j := |front| - 1;
    assert log[..j + 1] == front;
  }

  lemma {:induction false} PrefixFound(log: seq<Chunker.Call>, k: Chunker.Key, o: Chunker.Outcome)
    returns (front: seq<Chunker.Call>)
    requires o in Reassembly.OutcomesFor(log, k)
    ensures front != [] && front <= log && front[|front| - 1].key == k && Chunker.LastOutcome(front) == o
  {
    if o in Reassembly.OutcomesFor(log[..|log| - 1], k) {
      front := PrefixFound(log[..|log| - 1], k, o);
    } else {
      front := log;
    }
  }

  /** When every chunk has been accepted and the buffer never expired, the data has been reassembled. */
  lemma ReassembledOnce(log: seq<Chunker.Call>, k: Chunker.Key, data: Bytes)
    requires Reassembly.StaysExpired(Reassembly.Times(log)) && Reassembly.AllFrom(log, k, data)
    requires Reassembly.NeverExpires(Reassembly.OnlyKey(log, k), Chunker.Total(|data|))
    requires forall i: nat :: i < Chunker.Total(|data|) ==> i in Accepted(log, k)
    ensures Chunker.Complete(data) in Reassembly.OutcomesFor(log, k)
  {
    var solo := Reassembly.OnlyKey(log, k);
    OnlyKeyMembers(log, k);
    SoloFits(log, k, data);
    assert 0 in Accepted(log, k);
    var j := Reassembly.EventuallyDelivered(solo, k, data);
    OutcomeListed(solo, k, j);
    Reassembly.NonInterference(log, k);
  }

  lemma SoloFits(log: seq<Chunker.Call>, k: Chunker.Key, data: Bytes)
    requires Reassembly.AllFrom(log, k, data)
    requires forall i: nat :: i < Chunker.Total(|data|) ==> i in Accepted(log, k)
    ensures var solo := Reassembly.OnlyKey(log, k);
            && solo != [] && Reassembly.Solo(solo, k) && Reassembly.AllFrom(solo, k, data)
            && forall i: nat :: i < Chunker.Total(|data|) ==> Reassembly.Seen(solo, i)
  {
    var solo := Reassembly.OnlyKey(log, k);
    OnlyKeyMembers(log, k);
    forall i | 0 <= i < |solo| ensures solo[i].key == k && solo[i] in log {
      assert solo[i] in solo;
    }
    forall i: nat | i < Chunker.Total(|data|) ensures Reassembly.Seen(solo, i) {
      assert i in Accepted(log, k);
      var c :| c in log && c.key == k && c.chunkNum == i;
      assert c in solo;
    }
    assert Reassembly.Seen(solo, 0);
  }

  /** At the gateway's clock readings what has expired stays expired, and its buffer for the session never did. */
  ghost predicate Timely(s: Session, calls: seq<Chunker.Call>) {
    && Reassembly.StaysExpired(Reassembly.Times(calls))
    && Reassembly.NeverExpires(Reassembly.OnlyKey(calls, KeyOf(s)), |s.frames|)
  }

  /** What the gateway has broadcast for the session, and for everything else. */
  function BroadcastFor(s: Session, w: World): seq<Bytes> {
    Reassembly.CompletedFor(w.books.calls, KeyOf(s), true)
  }

  function BroadcastElse(s: Session, w: World): seq<Bytes> {
    Reassembly.CompletedFor(w.books.calls, KeyOf(s), false)
  }

  /** In every run the gateway broadcasts for the session copies of the original bytes and nothing else, one for each
      time it completed them, and so no more often than it accepted chunks for it, divided by their number; what it
      broadcasts besides completes other traffic. */
  lemma SessionBroadcasts(s: Session, events: seq<Event>)
    requires Honest(s)
    ensures var w := Run(s, events);
            && multiset(w.books.relays) == multiset(BroadcastFor(s, w)) + multiset(BroadcastElse(s, w))
            && (forall data :: data in BroadcastFor(s, w) ==> data == s.data)
            && |BroadcastFor(s, w)| == Reassembly.Deliveries(Reassembly.OutcomesFor(w.books.calls, KeyOf(s)))
            && |BroadcastFor(s, w)| * |s.frames| <= |Reassembly.OnlyKey(w.books.calls, KeyOf(s))|
  {
    var w := Run(s, events);
    RunKeeps(s, events);
    GatewayRuns.BroadcastsExactly(s.cfg, w.arrivals);
    Reassembly.CompletedSplits(w.books.calls, KeyOf(s));
    Reassembly.CompletedAreDeliveries(w.books.calls, KeyOf(s));
    NothingElseReassembled(s, events);
    CallsAllFrom(s, w);
    Reassembly.DeliveriesBounded(w.books.calls, KeyOf(s), s.data);
  }

  /** The data has come out of the gateway's reassembler. */
  ghost predicate Reassembled(s: Session, w: World) {
    Chunker.Complete(s.data) in Reassembly.OutcomesFor(w.books.calls, KeyOf(s))
  }

  lemma ReassembledIsBroadcast(s: Session, events: seq<Event>)
    requires Honest(s) && Reassembled(s, Run(s, events))
    ensures s.data in BroadcastFor(s, Run(s, events)) && s.data in Run(s, events).books.relays
  {
    var w := Run(s, events);
    SessionBroadcasts(s, events);
    Reassembly.CompletedAreDeliveries(w.books.calls, KeyOf(s));
    assert s.data in multiset(BroadcastFor(s, w));
    assert s.data in multiset(w.books.relays);
  }

  /** If the sender has every chunk acknowledged in a timely run, then the gateway has reassembled the original bytes
      and broadcast them; by `SessionBroadcasts` it has broadcast nothing else for the session. */
  lemma DeliveredWhenAcknowledged(s: Session, events: seq<Event>)
    requires Honest(s)
    requires var w := Run(s, events);
             Timely(s, w.books.calls) && forall i :: 0 <= i < |s.frames| ==> i in Acked(s, w)
    ensures Reassembled(s, Run(s, events))
    ensures BroadcastFor(s, Run(s, events)) != [] && s.data in Run(s, events).books.relays
    ensures forall data :: data in BroadcastFor(s, Run(s, events)) ==> data == s.data
  {
    var w := Run(s, events);
    RunKeeps(s, events);
    CallsAllFrom(s, w);
    ReassembledOnce(w.books.calls, KeyOf(s), s.data);
    SessionBroadcasts(s, events);
    ReassembledIsBroadcast(s, events);
  }

  /** A sender whose loop ends without a report has seen every chunk acknowledged. */
  lemma SilentEndMeansAcknowledged(s: Session, events: seq<Event>)
    requires Honest(s) && Run(s, events).loop.phase == RetryLoop.Done(0)
    ensures forall i :: 0 <= i < |s.frames| ==> i in Acked(s, Run(s, events))
  {
    var w := Run(s, events);
    RunKeeps(s, events);
    RetryLoop.DoneSilently(w.loop);
    var last := w.loop.seen[|w.loop.seen| - 1];
    assert last in w.loop.seen && last <= Acked(s, w);
    forall i | 0 <= i < |s.frames| ensures i in last {
      assert w.loop.info[i] == i;
    }
  }

  /** In a timely run, silence means delivery. */
  lemma SilentEndMeansDelivered(s: Session, events: seq<Event>)
    requires Honest(s) && Run(s, events).loop.phase == RetryLoop.Done(0)
    requires Timely(s, Run(s, events).books.calls)
    ensures s.data in Run(s, events).books.relays
  {
    SilentEndMeansAcknowledged(s, events);
    DeliveredWhenAcknowledged(s, events);
  }

  // ---------------------------------------------------------------- silence without a timely clock

  /** A single chunk completes the data at once. */
  lemma OneChunkFills(front: seq<Chunker.Call>, c: Chunker.Call, data: Bytes)
    requires Reassembly.AllFrom(front + [c], c.key, data) && Chunker.Total(|data|) == 1
    ensures Chunker.LastOutcome(front + [c]) == Chunker.Complete(data)
  {
    var log := front + [c];
    assert log[..|front|] == front && log[|front|] == c;
    forall i | 0 <= i < |front| && front[i].key == c.key ensures log[i] == front[i] {}
    Reassembly.BuffersFaithful(front, c.key, data);
    FilledByOne(Chunker.State(front), c, data);
    Reassembly.OnlyOriginalDelivered(log, c.key, data);
  }

  lemma FilledByOne(bs: Chunker.Buffers, c: Chunker.Call, data: Bytes)
    requires Chunker.Total(|data|) == 1 == c.total && c.chunkNum == 0 && c.payload == Chunker.Piece(data, 0)
    requires c.key in bs ==> Reassembly.Faithful(bs[c.key], data)
    ensures Chunker.Filled(bs, c).chunks.Keys == Reassembly.Range(1)
  {
    var keys := Chunker.Filled(bs, c).chunks.Keys;
    assert forall i: nat :: i in keys <==> i < 1;
  }

  lemma OneChunkCompletes(log: seq<Chunker.Call>, k: Chunker.Key, data: Bytes)
    requires Reassembly.AllFrom(log, k, data) && Chunker.Total(|data|) == 1 && 0 in Accepted(log, k)
    ensures Chunker.Complete(data) in Reassembly.OutcomesFor(log, k)
  {
    var c :| c in log && c.key == k && c.chunkNum == 0;
    var m :| 0 <= m < |log| && log[m] == c;
    assert log[..m + 1] == log[..m] + [c];
    OneChunkFills(log[..m], c, data);
    OutcomeListed(log, k, m);
  }

  /** For a transaction of one chunk silence means delivery in every run, whatever the clock does. */
  lemma SilenceForOneChunk(s: Session, events: seq<Event>)
    requires Honest(s) && |s.frames| == 1 && Run(s, events).loop.phase == RetryLoop.Done(0)
    ensures Reassembled(s, Run(s, events)) && s.data in Run(s, events).books.relays
  {
    RunKeeps(s, events);
    SilentEndMeansAcknowledged(s, events);
    CallsAllFrom(s, Run(s, events));
    OneChunkCompletes(Run(s, events).books.calls, KeyOf(s), s.data);
    ReassembledIsBroadcast(s, events);
  }
}
