/** Runs of the relay system that show which of its promises can be kept, and exactly when. */
module RelayRuns {
  import opened Bytes
  import opened Protocol
  import opened Gateway
  import opened GatewayRuns
  import opened RateBounds
  import opened Relay
  import opened RelayCapacity
  import Chunker
  import RateLimiting
  import Reassembly
  import RetryLoop

  // ---------------------------------------------------------------- one clock for sender and gateway

  /** A frame arrives no earlier than it was sent and no later than the sender's clock stands. */
  predicate Paced(w: World, e: Event) {
    e.Deliver? && e.i < |w.air| ==> w.air[e.i].emitted as real <= e.now <= w.loop.slept as real
  }

  ghost predicate PacedRun(s: Session, events: seq<Event>)
    requires Honest(s)
  {
    events != [] ==>
      var front, e := events[..|events| - 1], events[|events| - 1];
      PacedRun(s, front) && Paced(Run(s, front), e)
  }

  /** The gateway's clock does not run backwards and agrees with the sender's waits. */
  ghost predicate InStep(s: Session, events: seq<Event>)
    requires Honest(s)
  {
    InOrder(Run(s, events).arrivals) && PacedRun(s, events)
  }

  lemma OneMoreEvent(s: Session, events: seq<Event>, e: Event)
    requires Honest(s)
    ensures Run(s, events + [e]) == Next(s, Run(s, events), e)
    ensures PacedRun(s, events + [e]) <==> PacedRun(s, events) && Paced(Run(s, events), e)
  {
    assert (events + [e])[..|events|] == events;
  }

  // ---------------------------------------------------------------- times that the rate limiter allows

  /** `first`, then from `second` on one every `step` seconds. */
  function Stagger(first: real, second: real, step: real, i: nat): real {
    if i == 0 then first else second + (i - 1) as real * step
  }

  function Staggered(n: nat, first: real, second: real, step: real): (ts: seq<real>)
    ensures |ts| == n && forall i :: 0 <= i < n ==> ts[i] == Stagger(first, second, step, i)
  {
    seq(n, i requires 0 <= i < n => Stagger(first, second, step, i))
  }

  /** At least `step` seconds between any two neighbours. */
  ghost predicate Apart(ts: seq<real>, step: real) {
    forall i, j :: 0 <= i <= j < |ts| ==> ts[j] - ts[i] >= (j - i) as real * step
  }

  lemma StaggerApart(first: real, second: real, step: real, i: nat, j: nat)
    requires i <= j && step >= 0.0 && second - first >= step
    ensures Stagger(first, second, step, j) - Stagger(first, second, step, i) >= (j - i) as real * step
  {
    if i > 0 {
      assert (j - 1) as real * step - (i - 1) as real * step == (j - i) as real * step;
    } else if j > 0 {
      assert (j - 1) as real * step + step == j as real * step;
    }
  }

  lemma StaggeredApart(n: nat, first: real, second: real, step: real)
    requires step >= 0.0 && second - first >= step
    ensures Apart(Staggered(n, first, second, step), step)
  {
    forall i, j | 0 <= i <= j < n
      ensures Stagger(first, second, step, j) - Stagger(first, second, step, i) >= (j - i) as real * step
    {
      StaggerApart(first, second, step, i, j);
    }
  }

  lemma ApartOrdered(ts: seq<real>, step: real)
    requires Apart(ts, step) && step >= 0.0
    ensures Ordered(ts)
  {
    forall i, j | 0 <= i < j < |ts| ensures ts[i] <= ts[j] {
      ProductMonotone(step, 0.0, (j - i) as real);
    }
  }

  /** Requests at these times, and no others, are all served. */
  ghost predicate Servable(lim: RateLimiting.Policy, ts: seq<real>) {
    forall m :: 0 <= m < |ts| ==> ServedAt(lim, ts, m)
  }

  predicate ServedAt(lim: RateLimiting.Policy, ts: seq<real>, m: nat)
    requires m < |ts|
  {
    Allowed(lim, ts[..m + 1], m)
  }

  lemma {:induction false} GrantedAtMost(lim: RateLimiting.Policy, ts: seq<real>, i: nat, j: nat)
    requires i <= j <= |ts|
    ensures Granted(lim, ts, i, j) <= j - i
    decreases j
  {
    if i < j {
      GrantedAtMost(lim, ts, i, j - 1);
    }
  }

  /** A line that is below another at 0 and at `m` is below it in between. */
  lemma Interpolated(g: real, burst: int, d: nat, m: nat)
    requires burst >= 1 && d <= m && (m + 1) as real <= burst as real + m as real * g
    ensures (d + 1) as real <= burst as real + d as real * g
  {
    if g >= 1.0 {
      ProductMonotone(d as real, 1.0, g);
    } else {
      ProductMonotone(1.0 - g, d as real, m as real);
      assert (1.0 - g) * d as real == d as real - d as real * g;
      assert (1.0 - g) * m as real == m as real - m as real * g;
    }
  }

  /** `n` requests `step` seconds apart fit the allowance. */
  predicate StepsFit(lim: RateLimiting.Policy, n: nat, step: real) {
    lim.burst >= 1 && n as real <= lim.burst as real + (n - 1) as real * RateLimiting.Refill(lim, step)
  }

  lemma RefillOfSteps(lim: RateLimiting.Policy, step: real, d: nat, elapsed: real)
    requires lim.rate >= 0.0 && elapsed >= d as real * step
    ensures RateLimiting.Refill(lim, elapsed) >= d as real * RateLimiting.Refill(lim, step)
  {
    RefillMonotone(lim, d as real * step, elapsed);
    var x, r := d as real, lim.rate;
    assert (x * step) * r == x * (step * r);
  }

  lemma FitsAllowance(lim: RateLimiting.Policy, ts: seq<real>, i: nat, m: nat, refill: real)
    requires i <= m < |ts| && (m - i + 1) as real <= lim.burst as real + refill
    requires refill <= RateLimiting.Refill(lim, ts[m] - ts[i])
    ensures !Exceeds(lim, ts, i, m)
  {
    GrantedAtMost(lim, ts, i, m);
  }

  lemma NotExceeded(lim: RateLimiting.Policy, ts: seq<real>, n: nat, step: real, i: nat, m: nat)
    requires lim.rate >= 0.0 && StepsFit(lim, n, step) && i <= m < |ts| <= n
    requires ts[m] - ts[i] >= (m - i) as real * step
    ensures !Exceeds(lim, ts, i, m)
  {
    var g := RateLimiting.Refill(lim, step);
    RefillOfSteps(lim, step, m - i, ts[m] - ts[i]);
    Interpolated(g, lim.burst, m - i, n - 1);
    FitsAllowance(lim, ts, i, m, (m - i) as real * g);
  }

  lemma ApartServable(lim: RateLimiting.Policy, ts: seq<real>, step: real)
    requires lim.rate >= 0.0 && StepsFit(lim, |ts|, step) && Apart(ts, step)
    ensures Servable(lim, ts)
  {
    forall m | 0 <= m < |ts| ensures ServedAt(lim, ts, m) {
      var upTo := ts[..m + 1];
      DeniedExactlyWhen(lim, upTo, m);
      forall i | 0 <= i <= m ensures !Exceeds(lim, upTo, i, m) {
        assert upTo[m] == ts[m] && upTo[i] == ts[i];
        NotExceeded(lim, upTo, |ts|, step, i, m);
      }
    }
  }

  lemma {:induction false} TimesOfOne(log: seq<RateLimiting.Event>, sender: string)
    requires forall i :: 0 <= i < |log| ==> log[i].Request? && log[i].sender == sender
    ensures var ts := TimesOf(log, sender); |ts| == |log| && forall i :: 0 <= i < |ts| ==> ts[i] == log[i].now
  {
    if log != [] {
      TimesOfOne(log[..|log| - 1], sender);
    }
  }

  /** The next request of a servable sequence is served. */
  lemma NextServed(lim: RateLimiting.Policy, log: seq<RateLimiting.Event>, sender: string, ts: seq<real>, m: nat)
    requires Servable(lim, ts) && |log| == m < |ts|
    requires forall i :: 0 <= i < m ==> log[i] == RateLimiting.Request(ts[i], sender)
    ensures RateLimiting.Answer(lim, log, ts[m], sender)
  {
    TimesOfOne(log, sender);
    assert ServedAt(lim, ts, m);
    assert TimesOf(log, sender) + [ts[m]] == ts[..m + 1];
    AnswerAsAllowed(lim, log, ts[m], sender);
  }

  // ---------------------------------------------------------------- the sender up to its last check, unheard

  /** The first `m` frames, one every two seconds. */
  function FirstFlights(s: Session, m: nat): (air: seq<Flight>)
    requires m <= |s.frames|
    ensures |air| == m
    ensures forall i :: 0 <= i < m ==> air[i] == Flight(s.frames[i], RetryLoop.INTER_CHUNK_DELAY * i)
  {
    seq(m, i requires 0 <= i < m => Flight(s.frames[i], RetryLoop.INTER_CHUNK_DELAY * i))
  }

  /** Nothing has been delivered; `m` frames are on air. */
  ghost predicate Quiet(s: Session, w: World, phase: RetryLoop.Phase, m: nat, slept: nat) {
    && m <= |s.frames| <= 255
    && w.loop.info == Numbers(|s.frames|) && w.loop.phase == phase && w.loop.slept == slept
    && w.air == FirstFlights(s, m) && w.acks == map[s.msgId := {}] && w.books == NO_BOOKS && w.arrivals == []
  }

  lemma SendsNext(s: Session, w: World, m: nat)
    requires m < |s.frames| && Quiet(s, w, RetryLoop.Sending(m), m, RetryLoop.INTER_CHUNK_DELAY * m)
    ensures var n, pause, w' := |s.frames|, RetryLoop.INTER_CHUNK_DELAY, Send(s, w, true);
            if m + 1 < n then Quiet(s, w', RetryLoop.Sending(m + 1), m + 1, pause * (m + 1))
            else Quiet(s, w', RetryLoop.Waiting(0), n, pause * (n - 1))
  {
    assert FirstFlights(s, m + 1) == FirstFlights(s, m) + [Flight(s.frames[m], RetryLoop.INTER_CHUNK_DELAY * m)];
  }

  lemma SenderStepPaced(s: Session, events: seq<Event>, ok: bool)
    requires Honest(s) && PacedRun(s, events)
    ensures PacedRun(s, events + [SenderStep(ok)])
    ensures Run(s, events + [SenderStep(ok)]) == Send(s, Run(s, events), ok)
  {
    OneMoreEvent(s, events, SenderStep(ok));
  }

  /** The first pass up to chunk `m`. */
  lemma {:induction false} SentUpTo(s: Session, m: nat) returns (events: seq<Event>)
    requires Honest(s) && m < |s.frames|
    ensures PacedRun(s, events)
    ensures Quiet(s, Run(s, events), RetryLoop.Sending(m), m, RetryLoop.INTER_CHUNK_DELAY * m)
  {
    if m == 0 {
      events := [];
    } else {
      var before := SentUpTo(s, m - 1);
      SendsNext(s, Run(s, before), m - 1);
      SenderStepPaced(s, before, true);
      events := before + [SenderStep(true)];
    }
  }

  lemma AllSent(s: Session) returns (events: seq<Event>)
    requires Honest(s)
    ensures PacedRun(s, events)
    ensures Quiet(s, Run(s, events), RetryLoop.Waiting(0), |s.frames|, RetryLoop.INTER_CHUNK_DELAY * (|s.frames| - 1))
  {
    var before := SentUpTo(s, |s.frames| - 1);
    SendsNext(s, Run(s, before), |s.frames| - 1);
    SenderStepPaced(s, before, true);
    events := before + [SenderStep(true)];
  }

  /** Without acknowledgements every chunk is missing. */
  lemma {:induction false} UnackedAll(info: seq<Byte>)
    ensures |RetryLoop.Unacked(info, {})| == |info|
  {
    if info != [] {
      UnackedAll(info[..|info| - 1]);
    }
  }

  lemma ChecksUnheard(s: Session, w: World, attempt: nat, slept: nat)
    requires s.frames != [] && Quiet(s, w, RetryLoop.Waiting(attempt), |s.frames|, slept)
    ensures var todo := RetryLoop.Unacked(Numbers(|s.frames|), {});
            && |todo| == |s.frames|
            && Quiet(s, Send(s, w, false), RetryLoop.Resending(attempt, todo), |s.frames|,
                     slept + RetryLoop.ACK_TIMEOUT)
  {
    UnackedAll(Numbers(|s.frames|));
  }

  lemma ResendRefused(s: Session, w: World, attempt: nat, todo: seq<nat>, slept: nat)
    requires todo != [] && Quiet(s, w, RetryLoop.Resending(attempt, todo), |s.frames|, slept)
    ensures Quiet(s, Send(s, w, false), RetryLoop.OneResent(attempt, todo), |s.frames|, slept + RetryLoop.RETRY_DELAY)
  {}

  /** Retransmissions that the radio refuses. */
  lemma {:induction false} AllRefused(s: Session, before: seq<Event>, attempt: nat, todo: seq<nat>, slept: nat)
    returns (events: seq<Event>)
    requires Honest(s) && PacedRun(s, before) && todo != []
    requires Quiet(s, Run(s, before), RetryLoop.Resending(attempt, todo), |s.frames|, slept)
    ensures PacedRun(s, events)
    ensures Quiet(s, Run(s, events), RetryLoop.Awaiting(attempt + 1), |s.frames|,
                  slept + RetryLoop.RETRY_DELAY * |todo|)
    decreases |todo|
  {
    ResendRefused(s, Run(s, before), attempt, todo, slept);
    SenderStepPaced(s, before, false);
    events := before + [SenderStep(false)];
    if |todo| > 1 {
      events := AllRefused(s, events, attempt, todo[1..], slept + RetryLoop.RETRY_DELAY);
    }
  }

  lemma AttemptUnheard(s: Session, before: seq<Event>, attempt: nat, slept: nat) returns (events: seq<Event>)
    requires Honest(s) && PacedRun(s, before)
    requires Quiet(s, Run(s, before), RetryLoop.Waiting(attempt), |s.frames|, slept)
    ensures PacedRun(s, events)
    ensures Quiet(s, Run(s, events), RetryLoop.Awaiting(attempt + 1), |s.frames|, slept + RetryLoop.Attempt(|s.frames|))
  {
    ChecksUnheard(s, Run(s, before), attempt, slept);
    SenderStepPaced(s, before, false);
    events := AllRefused(s, before + [SenderStep(false)], attempt, RetryLoop.Unacked(Numbers(|s.frames|), {}),
                         slept + RetryLoop.ACK_TIMEOUT);
  }

  /** The seconds waited before an attempt when nothing is heard. */
  function SleptBy(n: nat, attempt: nat): nat
    requires n > 0
  {
    if attempt == 0 then RetryLoop.INTER_CHUNK_DELAY * (n - 1) else SleptBy(n, attempt - 1) + RetryLoop.Attempt(n)
  }

  lemma SleptInAll(n: nat)
    requires n > 0
    ensures SleptBy(n, RetryLoop.MAX_RETRIES) == RetryLoop.LongestWait(n)
  {
    assert SleptBy(n, 1) == SleptBy(n, 0) + RetryLoop.Attempt(n);
    assert SleptBy(n, 2) == SleptBy(n, 1) + RetryLoop.Attempt(n);
  }

  /** Nothing heard before an attempt. */
  ghost predicate Unheard(s: Session, events: seq<Event>, attempt: nat)
    requires Honest(s)
  {
    && PacedRun(s, events)
    && Quiet(s, Run(s, events), RetryLoop.Awaiting(attempt), |s.frames|, SleptBy(|s.frames|, attempt))
  }

  lemma OneMoreUnheard(s: Session, before: seq<Event>, attempt: nat) returns (events: seq<Event>)
    requires Honest(s) && attempt < RetryLoop.MAX_RETRIES && Unheard(s, before, attempt)
    ensures Unheard(s, events, attempt + 1)
  {
    events := AttemptUnheard(s, before, attempt, SleptBy(|s.frames|, attempt));
  }

  lemma NoneYetUnheard(s: Session) returns (events: seq<Event>)
    requires Honest(s)
    ensures Unheard(s, events, 0)
  {
    events := AllSent(s);
  }

  lemma UpToAttempt(s: Session) returns (events: seq<Event>)
    requires Honest(s)
    ensures Unheard(s, events, RetryLoop.MAX_RETRIES)
  {
    events := NoneYetUnheard(s);
    for attempt := 0 to RetryLoop.MAX_RETRIES
      invariant Unheard(s, events, attempt)
    {
      events := OneMoreUnheard(s, events, attempt);
    }
  }

  /** The sender stands before its last check; only the first pass is on air. */
  lemma UpToLastCheck(s: Session) returns (events: seq<Event>)
    requires Honest(s)
    ensures PacedRun(s, events)
    ensures Quiet(s, Run(s, events), RetryLoop.Checking, |s.frames|, RetryLoop.LongestWait(|s.frames|))
  {
    SleptInAll(|s.frames|);
    events := UpToAttempt(s);
  }

  // ---------------------------------------------------------------- delivery at given times

  /** The call that delivers chunk `i`. */
  predicate IsCallOf(s: Session, ts: seq<real>, c: Chunker.Call, i: nat) {
    i < |ts| && c.key == KeyOf(s) && c.chunkNum == i && c.now == ts[i]
  }

  predicate IsArrivalOf(s: Session, ts: seq<real>, a: Arrival, i: nat) {
    i < |ts| && a.now == ts[i] && a.sender == s.sender
  }

  /** The first `m` chunks have been delivered, in order, each once. */
  ghost predicate Delivered(s: Session, ts: seq<real>, w: World, m: nat) {
    && |w.arrivals| == m && (forall i :: 0 <= i < m ==> IsArrivalOf(s, ts, w.arrivals[i], i))
    && |w.books.calls| == m && (forall i :: 0 <= i < m ==> IsCallOf(s, ts, w.books.calls[i], i))
  }

  /** The sender waits for its last check meanwhile. */
  ghost predicate LastCheckDue(s: Session, w: World) {
    && |s.frames| <= 255 && w.loop.info == Numbers(|s.frames|) && w.loop.phase == RetryLoop.Checking
    && w.loop.slept == RetryLoop.LongestWait(|s.frames|) && w.air == FirstFlights(s, |s.frames|)
  }

  /** The acknowledgements of the first `m` chunks have all been heard, or all been lost. */
  ghost predicate HeardSoFar(s: Session, acks: RetryLoop.Acks, m: nat, heard: bool) {
    s.msgId in acks && forall c: Byte :: c in acks[s.msgId] <==> heard && c < m
  }

  /** The times agree with the sender's waits. */
  ghost predicate InPace(ts: seq<real>) {
    forall i :: 0 <= i < |ts| ==>
      (RetryLoop.INTER_CHUNK_DELAY * i) as real <= ts[i] <= RetryLoop.LongestWait(|ts|) as real
  }

  /** The next chunk passes the rate limiter. */
  lemma NextPasses(s: Session, ts: seq<real>, w: World, m: nat, a: Arrival)
    requires m < |ts| && Delivered(s, ts, w, m) && w.books == Kept(s.cfg, w.arrivals) && IsArrivalOf(s, ts, a, m)
    requires Servable(s.cfg.policy, ts)
    ensures Passes(s.cfg, w.books, a)
  {
    var log := Requests(w.arrivals);
    ChargesAreRequests(s.cfg, w.arrivals);
    forall i | 0 <= i < m ensures log[i] == RateLimiting.Request(ts[i], s.sender) {
      assert IsArrivalOf(s, ts, w.arrivals[i], i);
    }
    NextServed(s.cfg.policy, log, s.sender, ts, m);
  }

  /** What the gateway hears of chunk `m`. */
  function ChunkArrivalOf(s: Session, ts: seq<real>, m: nat, rpc: Rpc): Arrival
    requires Honest(s) && m < |s.frames| == |ts|
  {
    var (h, payload) := UnpackMessage(s.frames[m]).value;
    ChunkArrival(ts[m], s.sender, h, payload, rpc)
  }

  lemma FrameArrives(s: Session, ts: seq<real>, w: World, m: nat, rpc: Rpc)
    requires Honest(s) && m < |s.frames| == |ts|
    ensures var a := ChunkArrivalOf(s, ts, m, rpc);
            && a.header.msgId == s.msgId && a.header.chunkNum == m && IsCallOf(s, ts, CallOf(a), m)
            && Received(s, w, s.frames[m], ts[m], rpc) == Arrive(s, w, a)
  {
    assert Chunker.IsChunk(s.frames[m], TX_CHUNK, s.msgId, m, |s.frames|, Chunker.Piece(s.data, m));
  }

  /** It is collected, and an ACK is on its way. */
  lemma CollectsNext(s: Session, ts: seq<real>, w: World, m: nat, a: Arrival)
    requires Delivered(s, ts, w, m) && Collects(s.cfg, w.books, a)
    requires IsArrivalOf(s, ts, a, m) && IsCallOf(s, ts, CallOf(a), m)
    ensures var w' := Arrive(s, w, a);
            && Delivered(s, ts, w', m + 1) && w'.loop == w.loop && w'.air == w.air && w'.acks == w.acks
            && |w.books.replies| < |w'.books.replies|
            && w'.books.replies[|w.books.replies|] == AckReply(s.sender, AckPayload(a.header))
  {
    HandledChunk(s.cfg, w.books, a);
    OneMoreDelivered(s, ts, w, m, a, Handled(s.cfg, w.books, a));
  }

  lemma OneMoreDelivered(s: Session, ts: seq<real>, w: World, m: nat, a: Arrival, after: Books)
    requires Delivered(s, ts, w, m) && a.ChunkArrival? && after.calls == w.books.calls + [CallOf(a)]
    requires IsArrivalOf(s, ts, a, m) && IsCallOf(s, ts, CallOf(a), m)
    ensures Delivered(s, ts, w.(books := after, arrivals := w.arrivals + [a]), m + 1)
  {}

  lemma DeliveryPaced(s: Session, ts: seq<real>, before: seq<Event>, m: nat, rpc: Rpc)
    requires Honest(s) && m < |s.frames| == |ts| && LastCheckDue(s, Run(s, before))
    ensures var e := Deliver(m, ts[m], rpc);
            && Run(s, before + [e]) == Received(s, Run(s, before), s.frames[m], ts[m], rpc)
            && (InPace(ts) && PacedRun(s, before) ==> PacedRun(s, before + [e]))
  {
    OneMoreEvent(s, before, Deliver(m, ts[m], rpc));
  }

  lemma DeliversNext(s: Session, ts: seq<real>, before: seq<Event>, m: nat, rpc: Rpc) returns (events: seq<Event>)
    requires Honest(s) && m < |s.frames| == |ts| && Servable(s.cfg.policy, ts)
    requires Delivered(s, ts, Run(s, before), m) && LastCheckDue(s, Run(s, before))
    ensures var w, w' := Run(s, before), Run(s, events);
            var ack := AckPayload(ChunkArrivalOf(s, ts, m, rpc).header);
            && Delivered(s, ts, w', m + 1) && LastCheckDue(s, w') && w'.acks == w.acks
            && |w.books.replies| < |w'.books.replies|
            && w'.books.replies[|w.books.replies|] == AckReply(s.sender, ack)
    ensures InPace(ts) && PacedRun(s, before) ==> PacedRun(s, events)
  {
    var w := Run(s, before);
    var a := ChunkArrivalOf(s, ts, m, rpc);
    RunKeeps(s, before);
    FrameArrives(s, ts, w, m, rpc);
    NextPasses(s, ts, w, m, a);
    CollectsNext(s, ts, w, m, a);
    DeliveryPaced(s, ts, before, m, rpc);
    events := before + [Deliver(m, ts[m], rpc)];
  }

  lemma HeardOf(s: Session, w: World, h: Header, ackId: Word)
    requires h.msgId == s.msgId && s.msgId in w.acks
    ensures AckHeard(w, AckPayload(h), ackId) == w.(acks := w.acks[s.msgId := w.acks[s.msgId] + {h.chunkNum}])
  {
    WordSize();
    DecodeAckAfterEncode(h.msgId, h.chunkNum, 0);
    HeardAsSent(w, AckPayload(h), ackId);
  }

  lemma BackHeard(s: Session, w: World, i: nat, h: Header, ackId: Word)
    requires h.msgId == s.msgId && s.msgId in w.acks
    requires i < |w.books.replies| && w.books.replies[i] == AckReply(s.sender, AckPayload(h))
    ensures Next(s, w, AckBack(i, ackId)) == w.(acks := w.acks[s.msgId := w.acks[s.msgId] + {h.chunkNum}])
  {
    HeardOf(s, w, h, ackId);
  }

  lemma HeardGrows(s: Session, acks: RetryLoop.Acks, m: nat, c: Byte)
    requires HeardSoFar(s, acks, m, true) && c == m
    ensures HeardSoFar(s, acks[s.msgId := acks[s.msgId] + {c}], m + 1, true)
  {}

  lemma DespiteAcks(s: Session, ts: seq<real>, w: World, m: nat, acks: RetryLoop.Acks)
    requires Delivered(s, ts, w, m) && LastCheckDue(s, w)
    ensures Delivered(s, ts, w.(acks := acks), m) && LastCheckDue(s, w.(acks := acks))
  {}

  /** The ACK is heard. */
  lemma HearsNext(s: Session, ts: seq<real>, before: seq<Event>, m: nat, i: nat, h: Header, ackId: Word)
    returns (events: seq<Event>)
    requires Honest(s) && Delivered(s, ts, Run(s, before), m + 1) && LastCheckDue(s, Run(s, before))
    requires HeardSoFar(s, Run(s, before).acks, m, true) && h.msgId == s.msgId && h.chunkNum == m
    requires i < |Run(s, before).books.replies| && Run(s, before).books.replies[i] == AckReply(s.sender, AckPayload(h))
    ensures Delivered(s, ts, Run(s, events), m + 1) && LastCheckDue(s, Run(s, events))
    ensures HeardSoFar(s, Run(s, events).acks, m + 1, true)
    ensures PacedRun(s, before) ==> PacedRun(s, events)
  {
    var w := Run(s, before);
    events := before + [AckBack(i, ackId)];
    OneMoreEvent(s, before, AckBack(i, ackId));
    BackHeard(s, w, i, h, ackId);
    HeardGrows(s, w.acks, m, h.chunkNum);
    DespiteAcks(s, ts, w, m + 1, w.acks[s.msgId := w.acks[s.msgId] + {h.chunkNum}]);
  }

  /** The run that delivers the first `m` chunks. */
  lemma {:induction false} DeliveredUpTo(s: Session, ts: seq<real>, m: nat, rpc: Rpc, ackId: Word, heard: bool)
    returns (events: seq<Event>)
    requires Honest(s) && m <= |s.frames| == |ts| && Servable(s.cfg.policy, ts)
    ensures Delivered(s, ts, Run(s, events), m) && LastCheckDue(s, Run(s, events))
    ensures HeardSoFar(s, Run(s, events).acks, m, heard)
    ensures InPace(ts) ==> PacedRun(s, events)
  {
    if m == 0 {
      events := UpToLastCheck(s);
    } else {
      var before := DeliveredUpTo(s, ts, m - 1, rpc, ackId, heard);
      events := DeliversNext(s, ts, before, m - 1, rpc);
      if heard {
        var h := ChunkArrivalOf(s, ts, m - 1, rpc).header;
        FrameArrives(s, ts, Run(s, before), m - 1, rpc);
        events := HearsNext(s, ts, events, m - 1, |Run(s, before).books.replies|, h, ackId);
      }
    }
  }

  // ---------------------------------------------------------------- the last check

  lemma NoneUnacked(info: seq<Byte>, acked: set<Byte>)
    ensures RetryLoop.Unacked(info, acked) == [] <==> RetryLoop.AllAcknowledged(info, acked)
  {
    RetryLoop.UnackedExact(info, acked);
    var todo := RetryLoop.Unacked(info, acked);
    if todo != [] {
      assert todo[0] in todo;
    }
  }

  lemma EndsAs(s: Session, w: World, heard: bool)
    requires LastCheckDue(s, w) && HeardSoFar(s, w.acks, |s.frames|, heard)
    ensures Send(s, w, true).loop.phase == RetryLoop.Done(if heard then 0 else |s.frames|)
    ensures Send(s, w, true).books == w.books && Send(s, w, true).arrivals == w.arrivals
  {
    var info, acked := Numbers(|s.frames|), w.acks[s.msgId];
    if heard {
      NoneUnacked(info, acked);
    } else {
      assert acked == {};
      UnackedAll(info);
    }
  }

  /** The whole run: every chunk is delivered once, at the given times; the sender hears of all or of none. */
  lemma FullRun(s: Session, ts: seq<real>, rpc: Rpc, ackId: Word, heard: bool) returns (events: seq<Event>)
    requires Honest(s) && |s.frames| == |ts| && Servable(s.cfg.policy, ts)
    ensures Delivered(s, ts, Run(s, events), |ts|)
    ensures Run(s, events).loop.phase == RetryLoop.Done(if heard then 0 else |ts|)
    ensures InPace(ts) ==> PacedRun(s, events)
  {
    var before := DeliveredUpTo(s, ts, |ts|, rpc, ackId, heard);
    EndsAs(s, Run(s, before), heard);
    events := before + [SenderStep(true)];
    OneMoreEvent(s, before, SenderStep(true));
  }

  // ---------------------------------------------------------------- what comes of it

  lemma {:induction false} AllOneKey(log: seq<Chunker.Call>, k: Chunker.Key)
    requires Reassembly.Solo(log, k)
    ensures Reassembly.OnlyKey(log, k) == log
  {
    if log != [] {
      AllOneKey(log[..|log| - 1], k);
      assert log == log[..|log| - 1] + [log[|log| - 1]];
    }
  }

  lemma DeliveredInOrder(s: Session, ts: seq<real>, w: World)
    requires Delivered(s, ts, w, |ts|) && Ordered(ts)
    ensures InOrder(w.arrivals)
  {
    forall i, j | 0 <= i < j < |ts| ensures w.arrivals[i].now <= w.arrivals[j].now {
      assert IsArrivalOf(s, ts, w.arrivals[i], i) && IsArrivalOf(s, ts, w.arrivals[j], j);
    }
  }

  lemma DeliveredCalls(s: Session, ts: seq<real>, w: World)
    requires Delivered(s, ts, w, |ts|)
    ensures Reassembly.Solo(w.books.calls, KeyOf(s)) && Reassembly.Times(w.books.calls) == ts
    ensures forall i :: 0 <= i < |ts| ==> w.books.calls[i].chunkNum == i
  {
    forall i | 0 <= i < |ts|
      ensures w.books.calls[i].key == KeyOf(s) && w.books.calls[i].chunkNum == i && w.books.calls[i].now == ts[i]
    {
      assert IsCallOf(s, ts, w.books.calls[i], i);
    }
  }

  /** Calls within one timeout that bring every chunk complete the data. */
  lemma TogetherComplete(calls: seq<Chunker.Call>, k: Chunker.Key, data: Bytes)
    requires Reassembly.Solo(calls, k) && Reassembly.AllFrom(calls, k, data) && |calls| == Chunker.Total(|data|)
    requires forall i :: 0 <= i < |calls| ==> calls[i].chunkNum == i
    requires forall i, j :: 0 <= i < j < |calls| ==> calls[j].now - calls[i].now <= Chunker.CHUNK_REASSEMBLY_TIMEOUT
    ensures Chunker.Complete(data) in Reassembly.OutcomesFor(calls, k)
  {
    AllOneKey(calls, k);
    forall i: nat | i < |calls| ensures i in Accepted(calls, k) {
      assert calls[i] in calls;
    }
    Reassembly.QuickRunNeverExpires(calls, |calls|);
    ReassembledOnce(calls, k, data);
  }

  lemma TogetherReassembled(s: Session, ts: seq<real>, events: seq<Event>)
    requires Honest(s) && |ts| == |s.frames| && Delivered(s, ts, Run(s, events), |ts|)
    requires forall i, j :: 0 <= i < j < |ts| ==> ts[j] - ts[i] <= Chunker.CHUNK_REASSEMBLY_TIMEOUT
    ensures Reassembled(s, Run(s, events))
  {
    var w := Run(s, events);
    RunKeeps(s, events);
    CallsAllFrom(s, w);
    DeliveredCalls(s, ts, w);
    forall i, j | 0 <= i < j < |ts|
      ensures w.books.calls[j].now - w.books.calls[i].now <= Chunker.CHUNK_REASSEMBLY_TIMEOUT
    {
      assert Reassembly.Times(w.books.calls)[i] == ts[i] && Reassembly.Times(w.books.calls)[j] == ts[j];
    }
    TogetherComplete(w.books.calls, KeyOf(s), s.data);
  }

  /** When the second call comes too late for the first, no later buffer reaches back to the first. */
  lemma {:induction false} OpenedLater(log: seq<Chunker.Call>, n: nat, j: nat)
    requires 0 < j < |log| && Reassembly.TimedOut(log, 0, 1)
    ensures Reassembly.OpenedBy(log, n, j) > 0
  {
    if j > 1 {
      OpenedLater(log, n, j - 1);
    }
  }

  /** So none covers index 0 and the others together. */
  lemma NeverCovered(log: seq<Chunker.Call>, n: nat, j: nat)
    requires n > 1 && j < |log| && (|log| > 1 ==> Reassembly.TimedOut(log, 0, 1))
    requires forall i :: 0 <= i < |log| ==> log[i].chunkNum == i
    ensures Reassembly.Nums(log, Reassembly.OpenedBy(log, n, j), j) != Reassembly.Range(n)
  {
    if j == 0 {
      assert 1 !in Reassembly.Nums(log, 0, 0) && 1 in Reassembly.Range(n);
    } else {
      OpenedLater(log, n, j);
      Reassembly.NumsCollect(log, Reassembly.OpenedBy(log, n, j), j);
      assert 0 !in Reassembly.Nums(log, Reassembly.OpenedBy(log, n, j), j) && 0 in Reassembly.Range(n);
    }
  }

  /** A first chunk whose buffer has expired when the second comes is lost for good. */
  lemma TooLateLost(s: Session, ts: seq<real>, events: seq<Event>)
    requires Honest(s) && |ts| == |s.frames| > 1 && Delivered(s, ts, Run(s, events), |ts|)
    requires ts[1] - ts[0] > Chunker.CHUNK_REASSEMBLY_TIMEOUT
    ensures !Reassembled(s, Run(s, events))
  {
    var w := Run(s, events);
    var calls := w.books.calls;
    RunKeeps(s, events);
    CallsAllFrom(s, w);
    DeliveredCalls(s, ts, w);
    assert Reassembly.Times(calls)[0] == calls[0].now && Reassembly.Times(calls)[1] == calls[1].now;
    if Reassembled(s, w) {
      var j := OutcomeFound(calls, KeyOf(s), Chunker.Complete(s.data));
      Reassembly.DeliveredExactlyWhen(calls, KeyOf(s), s.data, j);
      NeverCovered(calls, |ts|, j);
    }
  }

  // ---------------------------------------------------------------- all of the budget

  /** The pause between chunks that spreads them evenly over one timeout. */
  function Gap(n: nat): real {
    if n > 1 then Chunker.CHUNK_REASSEMBLY_TIMEOUT / (n - 1) as real else 0.0
  }

  /** From the end of the first pass on. */
  function SpreadTimes(n: nat): (ts: seq<real>)
    requires n > 0
    ensures |ts| == n
  {
    var start := (RetryLoop.INTER_CHUNK_DELAY * (n - 1)) as real;
    Staggered(n, start, start + Gap(n), Gap(n))
  }

  lemma GapsFill(n: nat)
    requires n > 1
    ensures Gap(n) * (n - 1) as real == Chunker.CHUNK_REASSEMBLY_TIMEOUT && Gap(n) >= 0.0
  {}

  lemma GapsWithin(n: nat, i: nat)
    requires i < n
    ensures 0.0 <= Gap(n) * i as real <= Chunker.CHUNK_REASSEMBLY_TIMEOUT
  {
    if n > 1 {
      GapsFill(n);
      ProductMonotone(Gap(n), i as real, (n - 1) as real);
      ProductMonotone(Gap(n), 0.0, i as real);
    } else {
      assert Gap(n) * i as real == 0.0;
    }
  }

  lemma StaggerEven(first: real, step: real, i: nat)
    ensures Stagger(first, first + step, step, i) == first + step * i as real
  {
    if i > 0 {
      assert step + (i - 1) as real * step == step * i as real;
    } else {
      assert step * i as real == 0.0;
    }
  }

  lemma SpreadAt(n: nat, i: nat)
    requires i < n
    ensures var start := (RetryLoop.INTER_CHUNK_DELAY * (n - 1)) as real;
            start <= SpreadTimes(n)[i] <= start + Chunker.CHUNK_REASSEMBLY_TIMEOUT
  {
    GapsWithin(n, i);
    StaggerEven((RetryLoop.INTER_CHUNK_DELAY * (n - 1)) as real, Gap(n), i);
  }

  lemma SpreadInPace(n: nat)
    requires n > 0
    ensures InPace(SpreadTimes(n))
    ensures forall i, j :: 0 <= i < j < n ==> SpreadTimes(n)[j] - SpreadTimes(n)[i] <= Chunker.CHUNK_REASSEMBLY_TIMEOUT
  {
    forall i | 0 <= i < n
      ensures (RetryLoop.INTER_CHUNK_DELAY * i) as real <= SpreadTimes(n)[i] <= RetryLoop.LongestWait(n) as real
    {
      SpreadAt(n, i);
    }
    forall i, j | 0 <= i < j < n ensures SpreadTimes(n)[j] - SpreadTimes(n)[i] <= Chunker.CHUNK_REASSEMBLY_TIMEOUT {
      SpreadAt(n, i);
      SpreadAt(n, j);
    }
  }

  lemma GapFits(lim: RateLimiting.Policy, n: nat)
    requires WithinBudget(lim, n) && n > 0
    ensures StepsFit(lim, n, Gap(n)) && Gap(n) >= 0.0
  {
    if n > 1 {
      var m, g, r := (n - 1) as real, Gap(n), lim.rate;
      GapsFill(n);
      assert m * (g * r) == (g * m) * r;
    }
  }

  lemma SpreadServable(lim: RateLimiting.Policy, n: nat)
    requires WithinBudget(lim, n) && n > 0 && lim.rate >= 0.0
    ensures Servable(lim, SpreadTimes(n)) && Ordered(SpreadTimes(n))
  {
    var start := (RetryLoop.INTER_CHUNK_DELAY * (n - 1)) as real;
    GapFits(lim, n);
    StaggeredApart(n, start, start + Gap(n), Gap(n));
    ApartServable(lim, SpreadTimes(n), Gap(n));
    ApartOrdered(SpreadTimes(n), Gap(n));
  }

  /** A run for every transaction within the budget, heard or unheard: the chunks arrive spread over one timeout, while
      the sender retransmits in vain. */
  lemma BudgetRun(s: Session, rpc: Rpc, ackId: Word, heard: bool) returns (events: seq<Event>)
    requires Honest(s) && WithinBudget(s.cfg.policy, |s.frames|) && s.cfg.policy.rate >= 0.0
    ensures InStep(s, events) && Reassembled(s, Run(s, events))
    ensures Run(s, events).loop.phase == RetryLoop.Done(if heard then 0 else |s.frames|)
  {
    var ts := SpreadTimes(|s.frames|);
    SpreadServable(s.cfg.policy, |s.frames|);
    SpreadInPace(|s.frames|);
    events := FullRun(s, ts, rpc, ackId, heard);
    DeliveredInOrder(s, ts, Run(s, events));
    TogetherReassembled(s, ts, events);
  }

  // ---------------------------------------------------------------- exactly when

  const ANSWERS := Rpc(true, true, true)

  /** A transaction can come out of the gateway's reassembler at all, when the clock does not run backwards, exactly
      when its chunks are within the budget; and then also in a run whose times agree with the sender's. */
  lemma ReassembledExactlyWhen(s: Session)
    requires Honest(s) && s.cfg.policy.rate >= 0.0
    ensures (exists events :: InOrder(Run(s, events).arrivals) && Reassembled(s, Run(s, events)))
       <==> WithinBudget(s.cfg.policy, |s.frames|)
    ensures (exists events :: InStep(s, events) && Reassembled(s, Run(s, events)))
       <==> WithinBudget(s.cfg.policy, |s.frames|)
  {
    if WithinBudget(s.cfg.policy, |s.frames|) {
      var events := BudgetRun(s, ANSWERS, 0, true);
      assert InStep(s, events) && Reassembled(s, Run(s, events));
    }
    if events :| InOrder(Run(s, events).arrivals) && Reassembled(s, Run(s, events)) {
      ReassembledFitsBudget(s, events);
    }
  }

  /** The sender is told nothing, and the data has come out. */
  ghost predicate SilentlyDelivered(s: Session, w: World) {
    w.loop.phase == RetryLoop.Done(0) && Reassembled(s, w)
  }

  /** The sender is told of a failure, and the data has come out. */
  ghost predicate ReportedThoughDelivered(s: Session, w: World) {
    w.loop.phase.Done? && w.loop.phase.unacked > 0 && Reassembled(s, w)
  }

  /** A transaction can be delivered and acknowledged in full exactly when its chunks are within the budget. */
  lemma DeliverableExactlyWhen(s: Session)
    requires Honest(s) && s.cfg.policy.rate >= 0.0
    ensures (exists events :: InOrder(Run(s, events).arrivals) && SilentlyDelivered(s, Run(s, events)))
       <==> WithinBudget(s.cfg.policy, |s.frames|)
    ensures (exists events :: InStep(s, events) && SilentlyDelivered(s, Run(s, events)))
       <==> WithinBudget(s.cfg.policy, |s.frames|)
  {
    if WithinBudget(s.cfg.policy, |s.frames|) {
      var events := BudgetRun(s, ANSWERS, 0, true);
      assert InStep(s, events) && SilentlyDelivered(s, Run(s, events));
    }
    if events :| InOrder(Run(s, events).arrivals) && SilentlyDelivered(s, Run(s, events)) {
      ReassembledFitsBudget(s, events);
    }
  }

  /** A report of failure means that the data never came out exactly when the transaction exceeds the budget: within it
      there are runs, also in step with the sender, that report failure of a transaction that was delivered. */
  lemma ReportMeansLossExactlyWhen(s: Session)
    requires Honest(s) && s.cfg.policy.rate >= 0.0
    ensures (exists events :: InOrder(Run(s, events).arrivals) && ReportedThoughDelivered(s, Run(s, events)))
       <==> WithinBudget(s.cfg.policy, |s.frames|)
    ensures (exists events :: InStep(s, events) && ReportedThoughDelivered(s, Run(s, events)))
       <==> WithinBudget(s.cfg.policy, |s.frames|)
  {
    if WithinBudget(s.cfg.policy, |s.frames|) {
      var events := BudgetRun(s, ANSWERS, 0, false);
      assert InStep(s, events) && ReportedThoughDelivered(s, Run(s, events));
    }
    if events :| InOrder(Run(s, events).arrivals) && ReportedThoughDelivered(s, Run(s, events)) {
      ReassembledFitsBudget(s, events);
    }
  }

  // ---------------------------------------------------------------- when silence means delivery

  ghost predicate SilentlyLost(s: Session, w: World) {
    w.loop.phase == RetryLoop.Done(0) && !Reassembled(s, w)
  }

  /** Chunks that come so far apart that every buffer expires before the next are acknowledged and lost. */
  lemma LosingRun(s: Session, ts: seq<real>, step: real) returns (events: seq<Event>)
    requires Honest(s) && |ts| == |s.frames| > 1 && s.cfg.policy.rate >= 0.0 && step >= 0.0
    requires Apart(ts, step) && StepsFit(s.cfg.policy, |ts|, step)
    requires ts[1] - ts[0] > Chunker.CHUNK_REASSEMBLY_TIMEOUT
    ensures InOrder(Run(s, events).arrivals) && SilentlyLost(s, Run(s, events))
    ensures InPace(ts) ==> PacedRun(s, events)
  {
    ApartServable(s.cfg.policy, ts, step);
    ApartOrdered(ts, step);
    events := FullRun(s, ts, ANSWERS, 0, true);
    DeliveredInOrder(s, ts, Run(s, events));
    TooLateLost(s, ts, events);
  }

  /** A pause longer than the timeout in which a token is refilled, if any is. */
  function LongPause(lim: RateLimiting.Policy): real {
    121.0 + if lim.rate > 0.0 then 1.0 / lim.rate else 0.0
  }

  lemma LongPauseFits(lim: RateLimiting.Policy, n: nat)
    requires n > 0 && Acceptable(lim, n) && lim.rate >= 0.0
    ensures StepsFit(lim, n, LongPause(lim)) && LongPause(lim) > Chunker.CHUNK_REASSEMBLY_TIMEOUT
  {
    var p, r, g := LongPause(lim), lim.rate, RateLimiting.Refill(lim, LongPause(lim));
    if r > 0.0 {
      assert 1.0 / r > 0.0;
      assert (121.0 + 1.0 / r) * r == 121.0 * r + 1.0;
      assert g >= 1.0;
      ProductMonotone((n - 1) as real, 1.0, g);
    } else {
      assert g == 0.0;
    }
  }

  /** For a transaction of several chunks that can be accepted at all, a run that ends silently without delivery. */
  lemma SilentLossRun(s: Session) returns (events: seq<Event>)
    requires Honest(s) && |s.frames| > 1 && s.cfg.policy.rate >= 0.0 && Acceptable(s.cfg.policy, |s.frames|)
    ensures InOrder(Run(s, events).arrivals) && SilentlyLost(s, Run(s, events))
  {
    var n, p := |s.frames|, LongPause(s.cfg.policy);
    LongPauseFits(s.cfg.policy, n);
    StaggeredApart(n, 0.0, p, p);
    var ts := Staggered(n, 0.0, p, p);
    assert ts[1] - ts[0] == p;
    events := LosingRun(s, ts, p);
  }

  /** When the clock does not run backwards, silence means delivery in every run exactly for transactions of one chunk,
      and for those that no run accepts in full, which never end silently. */
  lemma SilenceMeansDeliveryExactlyWhen(s: Session)
    requires Honest(s) && s.cfg.policy.rate >= 0.0
    ensures (exists events :: InOrder(Run(s, events).arrivals) && SilentlyLost(s, Run(s, events)))
       <==> |s.frames| > 1 && Acceptable(s.cfg.policy, |s.frames|)
  {
    if |s.frames| > 1 && Acceptable(s.cfg.policy, |s.frames|) {
      var events := SilentLossRun(s);
    }
    if events :| InOrder(Run(s, events).arrivals) && SilentlyLost(s, Run(s, events)) {
      SilenceIsAcceptable(s, events);
      if |s.frames| == 1 {
        SilenceForOneChunk(s, events);
      }
    }
  }

  /** The pause that spreads the other chunks over what remains of the sender's patience. */
  const LATE_PAUSE: real := 32.0

  lemma LateInPace(n: nat)
    requires n > 1
    ensures InPace(Staggered(n, 0.0, 121.0, LATE_PAUSE))
  {}

  /** The same within the sender's patience: the first chunk arrives at once, the second after 121 seconds, the others
      one every 32. Under the default configuration this is every transaction of several chunks. */
  lemma SilentLossInStep(s: Session) returns (events: seq<Event>)
    requires Honest(s) && |s.frames| > 1 && s.cfg.policy.rate >= 0.0 && StepsFit(s.cfg.policy, |s.frames|, LATE_PAUSE)
    ensures InStep(s, events) && SilentlyLost(s, Run(s, events))
  {
    var n := |s.frames|;
    StaggeredApart(n, 0.0, 121.0, LATE_PAUSE);
    LateInPace(n);
    events := LosingRun(s, Staggered(n, 0.0, 121.0, LATE_PAUSE), LATE_PAUSE);
  }

  lemma DefaultLosesSilently(n: nat)
    requires n > 0
    ensures StepsFit(RateLimiting.Policy(3, 10.0 / 60.0), n, LATE_PAUSE)
  {
    var g := RateLimiting.Refill(RateLimiting.Policy(3, 10.0 / 60.0), LATE_PAUSE);
    assert g >= 5.0;
    ProductMonotone((n - 1) as real, 1.0, g);
  }
}
