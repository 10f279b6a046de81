/** What the gateway's hot wallet pays over whole runs. */
module GatewayRuns {
  import opened Bytes
  import opened Protocol
  import opened Gateway
  import Chunker
  import RateLimiting
  import opened RateBounds
  import Reassembly

  ghost predicate InOrder(arrivals: seq<Arrival>) {
    forall i, j :: 0 <= i < j < |arrivals| ==> arrivals[i].now <= arrivals[j].now
  }

  // ---------------------------------------------------------------- authorisation

  /** Ten to the power n, pinned: it turns sums into products and is 10 at 1. */
  lemma {:induction false} PowerAdds(a: nat, b: nat)
    ensures Power10(1) == 10.0 && Power10(a + b) == Power10(a) * Power10(b)
  {
    if a == 0 {
      assert Power10(0) == 1.0;
    } else {
      PowerAdds(a - 1, b);
    }
  }

  lemma {:induction false} PowerPositive(n: nat)
    ensures Power10(n) >= 1.0
  {
    if n > 0 {
      PowerPositive(n - 1);
    }
  }

  /** A micro-unit and a lamport are the 6th and 9th decimal. */
  lemma PowersInUse()
    ensures Power10(6) == 1000000.0 && Power10(9) == 1000000000.0
  {
    PowerAdds(1, 1);
    PowerAdds(2, 1);
    PowerAdds(3, 3);
    PowerAdds(6, 3);
  }

  /** An amount no greater than its limit; truncation lets nothing pass a limit between -1 and 0 but a zero amount. */
  predicate Within(amount: nat, limit: real) {
    amount as real <= limit || (amount == 0 && limit > -1.0)
  }

  lemma TruncatedLimit(amount: nat, limit: real)
    ensures amount <= Truncate(limit) <==> Within(amount, limit)
  {}

  /** The limit in reals: a SOL is 10^9 lamports, a token ten to its decimals base units. */
  predicate WithinLimit(cfg: Config, mint: Bytes, amount: nat) {
    if mint == [] then Within(amount, cfg.maxTransferSol * 1000000000.0)
    else mint in cfg.tokenLimits ==>
      mint in cfg.knownTokens && Within(amount, cfg.tokenLimits[mint] * Power10(cfg.knownTokens[mint]))
  }

  /** Signed by its sender, who may make requests. */
  predicate Trusted(cfg: Config, r: TxRequest) {
    && WellFormed(r)
    && cfg.verify(r.senderPubkey, GatewaySigned(r), r.signature)
    && (cfg.allowedRequesters == [] || r.senderPubkey in cfg.allowedRequesters)
  }

  predicate Known(cfg: Config, mint: Bytes) {
    mint == [] || mint in cfg.knownTokens
  }

  /** A payment the configuration authorises. */
  predicate Authorised(cfg: Config, p: Payment) {
    var r := p.request;
    cfg.hotWallet && Trusted(cfg, r) && Known(cfg, r.mint) && WithinLimit(cfg, r.mint, r.amount)
  }

  lemma LimitChecked(cfg: Config, r: TxRequest)
    requires WellFormed(r)
    ensures LimitCheck(cfg, r) == if !Known(cfg, r.mint) then Fault(UnsupportedToken)
                                  else if !WithinLimit(cfg, r.mint, r.amount) then Fault(AmountExceeded) else Fine
  {
    if r.mint == [] {
      TruncatedLimit(r.amount, cfg.maxTransferSol * 1000000000.0);
    } else if r.mint in cfg.tokenLimits && r.mint in cfg.knownTokens {
      TruncatedLimit(r.amount, cfg.tokenLimits[r.mint] * Power10(cfg.knownTokens[r.mint]));
    }
  }

  /** The checks before a payment, as one condition: the request decodes, is authorised, and the node and the
      transaction builder do their part. */
  lemma PaysExactlyWhen(cfg: Config, payload: Bytes, rpc: Rpc, now: real, sender: string)
    ensures var decoded := DecodeTxRequest(payload, cfg.utf8);
            Decide(cfg, payload, rpc).Pay?
            <==> decoded.Ok? && Authorised(cfg, Payment(now, sender, decoded.value)) && rpc.blockhash && rpc.create
  {
    if DecodeTxRequest(payload, cfg.utf8).Ok? {
      DecodedWellFormed(payload, cfg.utf8);
      LimitChecked(cfg, DecodeTxRequest(payload, cfg.utf8).value);
    }
  }

  /** Every payment of every run is authorised. */
  lemma {:induction false} PaymentsAuthorised(cfg: Config, arrivals: seq<Arrival>)
    ensures forall p :: p in Kept(cfg, arrivals).payments ==> Authorised(cfg, p)
  {
    if arrivals != [] {
      var front, last := arrivals[..|arrivals| - 1], arrivals[|arrivals| - 1];
      PaymentsAuthorised(cfg, front);
      if last.RequestArrival? && Decide(cfg, last.payload, last.rpc).Pay? {
        PaysExactlyWhen(cfg, last.payload, last.rpc, last.now, last.sender);
      }
    }
  }

  /** At most the configured maximum where that is not negative: 10^9 lamports a SOL, 10^decimals base units a token. */
  predicate WithinMaximum(cfg: Config, mint: Bytes, amount: nat) {
    if mint == [] then cfg.maxTransferSol >= 0.0 ==> amount as real <= cfg.maxTransferSol * 1000000000.0
    else mint in cfg.tokenLimits && mint in cfg.knownTokens && cfg.tokenLimits[mint] >= 0.0 ==>
      amount as real <= cfg.tokenLimits[mint] * Power10(cfg.knownTokens[mint])
  }

  lemma MaximumKept(cfg: Config, mint: Bytes, amount: nat)
    requires WithinLimit(cfg, mint, amount)
    ensures WithinMaximum(cfg, mint, amount)
  {
    if mint != [] && mint in cfg.tokenLimits && mint in cfg.knownTokens && cfg.tokenLimits[mint] >= 0.0 {
      PowerPositive(cfg.knownTokens[mint]);
      ProductNonNegative(cfg.tokenLimits[mint], Power10(cfg.knownTokens[mint]));
    }
  }

  lemma ProductNonNegative(a: real, b: real)
    requires a >= 0.0 && b >= 0.0
    ensures a * b >= 0.0
  {}

  /** No payment of any run exceeds its configured maximum. */
  lemma PaymentsWithinMaximum(cfg: Config, arrivals: seq<Arrival>, p: Payment)
    requires p in Kept(cfg, arrivals).payments
    ensures WithinMaximum(cfg, p.request.mint, p.request.amount)
  {
    PaymentsAuthorised(cfg, arrivals);
    MaximumKept(cfg, p.request.mint, p.request.amount);
  }

  datatype Ask = Ask(dest: Bytes, amount: nat, mint: Bytes)

  /** Signatures verify only on what the key holder signed, and key holders sign only what their clients build. */
  ghost predicate Unforgeable(cfg: Config, asked: map<Bytes, set<Ask>>) {
    forall key, message, signature :: cfg.verify(key, message, signature) && |key| == 32 ==>
      key in asked && exists ask :: ask in asked[key] && SignedFor(key, ask, message)
  }

  predicate SignedFor(key: Bytes, ask: Ask, message: Bytes) {
    && ask.amount < Pow256(AMOUNT_BYTES) && |ask.dest| == 32 && (ask.mint == [] || |ask.mint| == 32)
    && message == ClientSigned(key, ask.dest, ask.amount, ask.mint)
  }

  /** The hot wallet pays only transfers that a key holder asked for: same destination, amount and token. */
  lemma PaysOnlyWhatWasAsked(cfg: Config, arrivals: seq<Arrival>, asked: map<Bytes, set<Ask>>, p: Payment)
    requires Unforgeable(cfg, asked) && p in Kept(cfg, arrivals).payments
    ensures p.request.senderPubkey in asked
    ensures Ask(p.request.destPubkey, p.request.amount, p.request.mint) in asked[p.request.senderPubkey]
  {
    PaymentsAuthorised(cfg, arrivals);
    var r := p.request;
    var ask :| ask in asked[r.senderPubkey] && SignedFor(r.senderPubkey, ask, GatewaySigned(r));
    SignedAsClient(r, r.senderPubkey, ask.dest, ask.amount, ask.mint);
  }

  // ---------------------------------------------------------------- how much is paid

  predicate Counts(p: Payment, sender: string, mint: Bytes, lo: real, hi: real) {
    p.sender == sender && p.request.mint == mint && lo <= p.now <= hi
  }

  /** What is paid in one token (SOL is the empty mint) for one mesh sender in a window. */
  function Outflow(ps: seq<Payment>, sender: string, mint: Bytes, lo: real, hi: real): nat {
    if ps == [] then 0
    else
      var last := ps[|ps| - 1];
      Outflow(ps[..|ps| - 1], sender, mint, lo, hi)
      + if Counts(last, sender, mint, lo, hi) then last.request.amount else 0
  }

  function Count(ps: seq<Payment>, sender: string, mint: Bytes, lo: real, hi: real): nat {
    if ps == [] then 0
    else Count(ps[..|ps| - 1], sender, mint, lo, hi) + if Counts(ps[|ps| - 1], sender, mint, lo, hi) then 1 else 0
  }

  /** The configured maximum of one transfer, in lamports or base units. */
  function Cap(cfg: Config, mint: Bytes): real
    requires mint == [] || (mint in cfg.tokenLimits && mint in cfg.knownTokens)
  {
    if mint == [] then cfg.maxTransferSol * 1000000000.0 else cfg.tokenLimits[mint] * Power10(cfg.knownTokens[mint])
  }

  /** Nothing, or at most `times` payments of `cap`. */
  predicate AtMost(paid: nat, cap: real, times: real) {
    paid == 0 || (cap > 0.0 && paid as real <= cap * times)
  }

  lemma {:induction false} OutflowByCount(cfg: Config, ps: seq<Payment>, sender: string, mint: Bytes,
                                          lo: real, hi: real)
    requires forall p :: p in ps ==> Authorised(cfg, p)
    requires mint == [] || (mint in cfg.tokenLimits && mint in cfg.knownTokens)
    ensures AtMost(Outflow(ps, sender, mint, lo, hi), Cap(cfg, mint), Count(ps, sender, mint, lo, hi) as real)
  {
    if ps != [] {
      var front, last := ps[..|ps| - 1], ps[|ps| - 1];
      assert forall p :: p in front ==> p in ps;
      OutflowByCount(cfg, front, sender, mint, lo, hi);
      if Counts(last, sender, mint, lo, hi) {
        assert last in ps && Authorised(cfg, last);
        WithinCap(cfg, mint, last.request.amount);
        OnePaymentMore(Outflow(front, sender, mint, lo, hi), last.request.amount, Cap(cfg, mint),
                       Count(front, sender, mint, lo, hi));
      }
    }
  }

  lemma WithinCap(cfg: Config, mint: Bytes, amount: nat)
    requires mint == [] || (mint in cfg.tokenLimits && mint in cfg.knownTokens)
    requires WithinLimit(cfg, mint, amount)
    ensures amount == 0 || amount as real <= Cap(cfg, mint)
  {}

  lemma OnePaymentMore(paid: nat, amount: nat, cap: real, n: nat)
    requires AtMost(paid, cap, n as real) && (amount == 0 || amount as real <= cap)
    ensures AtMost(paid + amount, cap, (n + 1) as real)
  {
    assert cap * (n + 1) as real == cap * n as real + cap;
    if cap > 0.0 {
      ProductMonotone(cap, 0.0, n as real);
    }
  }

  // ---------------------------------------------------------------- what is charged

  /** What an arrival adds to charges and payments. */
  lemma HandledPayment(cfg: Config, b: Books, a: Arrival)
    ensures var after := Handled(cfg, b, a);
            && after.charges == b.charges + [RateLimiting.Request(a.now, a.sender)]
            && (after.payments == b.payments
                || (Passes(cfg, b, a) && a.RequestArrival? && Decide(cfg, a.payload, a.rpc).Pay?
                    && after.payments == b.payments + [PaymentFor(cfg, a)]))
  {}

  function PaymentFor(cfg: Config, a: Arrival): Payment
    requires a.RequestArrival? && Decide(cfg, a.payload, a.rpc).Pay?
  {
    Payment(a.now, a.sender, Decide(cfg, a.payload, a.rpc).request)
  }

  function Requests(arrivals: seq<Arrival>): (log: seq<RateLimiting.Event>)
    ensures |log| == |arrivals|
    ensures forall i :: 0 <= i < |log| ==> log[i] == RateLimiting.Request(arrivals[i].now, arrivals[i].sender)
  {
    seq(|arrivals|, i requires 0 <= i < |arrivals| => RateLimiting.Request(arrivals[i].now, arrivals[i].sender))
  }

  predicate Charges(b: Books, arrivals: seq<Arrival>) {
    b.charges == Requests(arrivals)
  }

  lemma ChargesKept(cfg: Config, b: Books, arrivals: seq<Arrival>)
    requires arrivals != [] && Charges(b, arrivals[..|arrivals| - 1])
    ensures Charges(Handled(cfg, b, arrivals[|arrivals| - 1]), arrivals)
  {
    var front, a := arrivals[..|arrivals| - 1], arrivals[|arrivals| - 1];
    HandledPayment(cfg, b, a);
    assert Requests(arrivals) == Requests(front) + [RateLimiting.Request(a.now, a.sender)];
  }

  /** Every arrival is charged to its sender. */
  lemma {:induction false} ChargesAreRequests(cfg: Config, arrivals: seq<Arrival>)
    ensures Charges(Kept(cfg, arrivals), arrivals)
  {
    if arrivals != [] {
      var front := arrivals[..|arrivals| - 1];
      ChargesAreRequests(cfg, front);
      ChargesKept(cfg, Kept(cfg, front), arrivals);
    }
  }

  // ---------------------------------------------------------------- what is broadcast

  /** Whether the rate limiter lets an arrival pass after these. */
  predicate IsServed(lim: RateLimiting.Policy, before: seq<Arrival>, a: Arrival) {
    RateLimiting.Answer(lim, Requests(before), a.now, a.sender)
  }

  /** The chunks that pass the rate limiter, as calls of the reassembler. */
  function ServedChunks(lim: RateLimiting.Policy, arrivals: seq<Arrival>): seq<Chunker.Call> {
    if arrivals == [] then []
    else
      var front, a := arrivals[..|arrivals| - 1], arrivals[|arrivals| - 1];
      ServedChunks(lim, front)
      + if a.ChunkArrival? && IsServed(lim, front, a)
        then [Chunker.Call(a.now, Chunker.Key(a.sender, a.header.msgId), a.header.chunkNum, a.header.totalChunks,
                           a.payload)]
        else []
  }

  lemma PassesAsServed(cfg: Config, arrivals: seq<Arrival>, a: Arrival)
    ensures Passes(cfg, Kept(cfg, arrivals), a) <==> IsServed(cfg.policy, arrivals, a)
  {
    ChargesAreRequests(cfg, arrivals);
  }

  predicate RelaysFit(b: Books) {
    b.relays == Reassembly.Completed(b.calls)
  }

  lemma CollectedRelays(b: Books, a: Arrival)
    requires a.ChunkArrival? && RelaysFit(b)
    ensures RelaysFit(Collected(b, a))
  {
    assert (b.calls + [CallOf(a)])[..|b.calls|] == b.calls;
  }

  lemma HandledRelays(cfg: Config, b: Books, a: Arrival)
    ensures a.ChunkArrival? && Passes(cfg, b, a) ==> Handled(cfg, b, a) == ChunkHandled(Charged(b, a), a)
    ensures !(a.ChunkArrival? && Passes(cfg, b, a)) ==>
              Handled(cfg, b, a).relays == b.relays && Handled(cfg, b, a).calls == b.calls
  {}

  lemma RelaysKept(cfg: Config, b: Books, a: Arrival)
    requires RelaysFit(b)
    ensures RelaysFit(Handled(cfg, b, a))
  {
    HandledRelays(cfg, b, a);
    if a.ChunkArrival? && Passes(cfg, b, a) {
      var charged := Charged(b, a);
      CollectedRelays(charged.(replies := charged.replies + [AckReply(a.sender, AckPayload(a.header))]), a);
    }
  }

  lemma CallsOneMore(cfg: Config, b: Books, a: Arrival)
    ensures Handled(cfg, b, a).calls == b.calls + if a.ChunkArrival? && Passes(cfg, b, a) then [CallOf(a)] else []
  {}

  /** The reassembler gets exactly the served chunks, and what is broadcast is exactly what it completes: each time
      once, in order, and nothing else. */
  lemma {:induction false} BroadcastsExactly(cfg: Config, arrivals: seq<Arrival>)
    ensures Kept(cfg, arrivals).calls == ServedChunks(cfg.policy, arrivals)
    ensures Kept(cfg, arrivals).relays == Reassembly.Completed(ServedChunks(cfg.policy, arrivals))
  {
    if arrivals != [] {
      var front, a := arrivals[..|arrivals| - 1], arrivals[|arrivals| - 1];
      BroadcastsExactly(cfg, front);
      PassesAsServed(cfg, front, a);
      CallsOneMore(cfg, Kept(cfg, front), a);
      RelaysKept(cfg, Kept(cfg, front), a);
    }
  }

  // ---------------------------------------------------------------- what is answered

  /** The replies to a chunk: a NACK when it is not served; else an ACK of its number and, when it completes the data,
      the result of the broadcast. */
  predicate ChunkAnswered(a: Arrival, served: bool, completes: bool, replies: seq<Reply>)
    requires a.ChunkArrival?
  {
    if !served then replies == [NackReply(a.sender, a.header.msgId, RateLimited)]
    else
      && |replies| == (if completes then 2 else 1)
      && replies[0].AckReply? && replies[0].dest == a.sender
      && DecodeAck(replies[0].payload) == Ok(Ack(a.header.msgId, a.header.chunkNum, 0))
      && (completes ==> replies[1] == ResultReply(a.sender, a.header.msgId, a.rpc.broadcast))
  }

  lemma ChunkReplies(cfg: Config, arrivals: seq<Arrival>, a: Arrival) returns (replies: seq<Reply>)
    requires a.ChunkArrival?
    ensures Kept(cfg, arrivals + [a]).replies == Kept(cfg, arrivals).replies + replies
    ensures var calls := ServedChunks(cfg.policy, arrivals + [a]);
            var served := IsServed(cfg.policy, arrivals, a);
            ChunkAnswered(a, served, served && calls != [] && Chunker.LastOutcome(calls).Complete?, replies)
  {
    var b := Kept(cfg, arrivals);
    assert (arrivals + [a])[..|arrivals|] == arrivals;
    BroadcastsExactly(cfg, arrivals);
    PassesAsServed(cfg, arrivals, a);
    replies := RepliesToChunk(cfg, b, a);
  }

  lemma CollectedReplies(b: Books, a: Arrival)
    requires a.ChunkArrival?
    ensures Collected(b, a).replies == b.replies + if Chunker.LastOutcome(b.calls + [CallOf(a)]).Complete?
                                                   then [ResultReply(a.sender, a.header.msgId, a.rpc.broadcast)] else []
  {}

  lemma RepliesToChunk(cfg: Config, b: Books, a: Arrival) returns (replies: seq<Reply>)
    requires a.ChunkArrival?
    ensures Handled(cfg, b, a).replies == b.replies + replies
    ensures ChunkAnswered(a, Passes(cfg, b, a), Chunker.LastOutcome(b.calls + [CallOf(a)]).Complete?, replies)
  {
    if Passes(cfg, b, a) {
      HandledRelays(cfg, b, a);
      var charged, ack := Charged(b, a), AckReply(a.sender, AckPayload(a.header));
      CollectedReplies(charged.(replies := charged.replies + [ack]), a);
      WordSize();
      DecodeAckAfterEncode(a.header.msgId, a.header.chunkNum, 0);
      replies := [ack];
      if Chunker.LastOutcome(b.calls + [CallOf(a)]).Complete? {
        replies := replies + [ResultReply(a.sender, a.header.msgId, a.rpc.broadcast)];
      }
    } else {
      replies := [NackReply(a.sender, a.header.msgId, RateLimited)];
    }
  }

  /** The reply to a served transfer request: exactly one of these, each under its condition. */
  ghost predicate RequestAnswered(cfg: Config, a: Arrival, reply: Reply)
    requires a.RequestArrival?
  {
    var decoded := DecodeTxRequest(a.payload, cfg.utf8);
    var trusted := cfg.hotWallet && decoded.Ok? && Trusted(cfg, decoded.value);
    var known := trusted && Known(cfg, decoded.value.mint);
    var within := known && WithinLimit(cfg, decoded.value.mint, decoded.value.amount);
    && (reply == Refusal(a, InvalidTx) <==> cfg.hotWallet && decoded.Err?)
    && (reply == Refusal(a, Unauthorized) <==> !trusted && !(cfg.hotWallet && decoded.Err?))
    && (reply == Refusal(a, UnsupportedToken) <==> trusted && !known)
    && (reply == Refusal(a, AmountExceeded) <==> known && !within)
    && (reply == Refusal(a, RpcError) <==> within && !(a.rpc.blockhash && a.rpc.create))
    && (reply == ResultReply(a.sender, a.header.msgId, a.rpc.broadcast)
        <==> within && a.rpc.blockhash && a.rpc.create)
  }

  function Refusal(a: Arrival, code: ErrorCode): Reply {
    NackReply(a.sender, a.header.msgId, code)
  }

  lemma DecisionCodes(cfg: Config, a: Arrival)
    requires a.RequestArrival?
    ensures var decision := Decide(cfg, a.payload, a.rpc);
            RequestAnswered(cfg, a, if decision.Refuse? then Refusal(a, decision.code)
                                    else ResultReply(a.sender, a.header.msgId, a.rpc.broadcast))
  {
    if DecodeTxRequest(a.payload, cfg.utf8).Ok? {
      DecodedWellFormed(a.payload, cfg.utf8);
      LimitChecked(cfg, DecodeTxRequest(a.payload, cfg.utf8).value);
    }
  }

  /** A request gets exactly one reply, and is paid exactly when that is the result of its broadcast. */
  lemma RequestReplies(cfg: Config, arrivals: seq<Arrival>, a: Arrival) returns (reply: Reply)
    requires a.RequestArrival?
    ensures var before, after := Kept(cfg, arrivals), Kept(cfg, arrivals + [a]);
            var decoded := DecodeTxRequest(a.payload, cfg.utf8);
            && after.replies == before.replies + [reply]
            && after.payments == before.payments + if reply.ResultReply? && decoded.Ok?
                                                   then [Payment(a.now, a.sender, decoded.value)] else []
    ensures if IsServed(cfg.policy, arrivals, a) then RequestAnswered(cfg, a, reply)
            else reply == Refusal(a, RateLimited)
  {
    var b := Kept(cfg, arrivals);
    assert (arrivals + [a])[..|arrivals|] == arrivals;
    PassesAsServed(cfg, arrivals, a);
    DecisionCodes(cfg, a);
    var decision := Decide(cfg, a.payload, a.rpc);
    reply := if !Passes(cfg, b, a) then Refusal(a, RateLimited)
             else if decision.Refuse? then Refusal(a, decision.code)
             else ResultReply(a.sender, a.header.msgId, a.rpc.broadcast);
  }

  /** A query that is not served is refused; nothing else comes of it here. */
  lemma QueryReplies(cfg: Config, arrivals: seq<Arrival>, a: Arrival)
    requires a.QueryArrival?
    ensures var before, after := Kept(cfg, arrivals), Kept(cfg, arrivals + [a]);
            && after.replies == before.replies + (if IsServed(cfg.policy, arrivals, a) then []
                                                  else [Refusal(a, RateLimited)])
            && after.payments == before.payments
  {
    assert (arrivals + [a])[..|arrivals|] == arrivals;
    PassesAsServed(cfg, arrivals, a);
  }

  // ---------------------------------------------------------------- how many requests are served

  /** The requests of a sender in a window that the rate limiter lets pass. */
  function Served(lim: RateLimiting.Policy, log: seq<RateLimiting.Event>, sender: string, lo: real, hi: real): nat {
    if log == [] then 0
    else
      var front, last := log[..|log| - 1], log[|log| - 1];
      Served(lim, front, sender, lo, hi)
      + if last.Request? && ServedNow(lim, front, last.now, last.sender, sender, lo, hi) then 1 else 0
  }

  predicate ServedNow(lim: RateLimiting.Policy, log: seq<RateLimiting.Event>, now: real, from: string, sender: string,
                      lo: real, hi: real)
  {
    from == sender && lo <= now <= hi && RateLimiting.Answer(lim, log, now, sender)
  }

  lemma ServedOneMore(lim: RateLimiting.Policy, log: seq<RateLimiting.Event>, now: real, from: string, sender: string,
                      lo: real, hi: real)
    ensures Served(lim, log + [RateLimiting.Request(now, from)], sender, lo, hi)
         == Served(lim, log, sender, lo, hi) + if ServedNow(lim, log, now, from, sender, lo, hi) then 1 else 0
  {
    assert (log + [RateLimiting.Request(now, from)])[..|log|] == log;
  }

  lemma {:induction false} GrantedOfPrefix(lim: RateLimiting.Policy, ts: seq<real>, t: real, n: nat, lo: real, hi: real)
    requires n <= |ts|
    ensures GrantedWithin(lim, ts + [t], n, lo, hi) == GrantedWithin(lim, ts, n, lo, hi)
  {
    if n > 0 {
      GrantedOfPrefix(lim, ts, t, n - 1, lo, hi);
      FoundOfPrefix(lim, ts, t, n - 1);
      assert (ts + [t])[n - 1] == ts[n - 1];
    }
  }

  /** The requests of a sender that pass are the ones its own times allow. */
  lemma AnswerAsAllowed(lim: RateLimiting.Policy, log: seq<RateLimiting.Event>, now: real, sender: string)
    requires forall i :: 0 <= i < |log| ==> log[i].Request?
    ensures var ts := TimesOf(log, sender);
            RateLimiting.Answer(lim, log, now, sender) == Allowed(lim, ts + [now], |ts|)
  {
    var longer := log + [RateLimiting.Request(now, sender)];
    SendersIndependent(lim, log, sender);
    SendersIndependent(lim, longer, sender);
    assert longer[..|log|] == log;
    var ts := TimesOf(log, sender);
    assert AnswersFor(lim, longer, sender)[|ts|] == Answers(lim, ts + [now])[|ts|];
  }

  lemma {:induction false} ServedIsGranted(lim: RateLimiting.Policy, log: seq<RateLimiting.Event>, sender: string,
                                           lo: real, hi: real)
    requires forall i :: 0 <= i < |log| ==> log[i].Request?
    ensures var ts := TimesOf(log, sender);
            Served(lim, log, sender, lo, hi) == GrantedWithin(lim, ts, |ts|, lo, hi)
  {
    if log != [] {
      var front, last := log[..|log| - 1], log[|log| - 1];
      ServedIsGranted(lim, front, sender, lo, hi);
      if last.sender == sender {
        GrantedLast(lim, front, last.now, sender, lo, hi);
      }
    }
  }

  lemma GrantedLast(lim: RateLimiting.Policy, log: seq<RateLimiting.Event>, now: real, sender: string,
                    lo: real, hi: real)
    requires forall i :: 0 <= i < |log| ==> log[i].Request?
    ensures var ts := TimesOf(log, sender);
            GrantedWithin(lim, ts + [now], |ts| + 1, lo, hi)
            == GrantedWithin(lim, ts, |ts|, lo, hi) + if ServedNow(lim, log, now, sender, sender, lo, hi) then 1 else 0
  {
    var ts := TimesOf(log, sender);
    GrantedOfPrefix(lim, ts, now, |ts|, lo, hi);
    AnswerAsAllowed(lim, log, now, sender);
  }

  /** What a window lets through of one sender. */
  function WindowAllowance(lim: RateLimiting.Policy, lo: real, hi: real): real {
    lim.burst as real + RateLimiting.Refill(lim, hi - lo)
  }

  /** With a clock that does not run backwards no more arrivals of a sender are served in a window. */
  lemma ServedBounded(cfg: Config, arrivals: seq<Arrival>, sender: string, lo: real, hi: real)
    requires InOrder(arrivals) && cfg.policy.rate >= 0.0
    ensures var served := Served(cfg.policy, Kept(cfg, arrivals).charges, sender, lo, hi);
            served == 0 || served as real <= WindowAllowance(cfg.policy, lo, hi)
  {
    var log := Requests(arrivals);
    ChargesAreRequests(cfg, arrivals);
    ServedIsGranted(cfg.policy, log, sender, lo, hi);
    TimesOrdered(log, sender);
    WindowBound(cfg.policy, TimesOf(log, sender), |TimesOf(log, sender)|, lo, hi);
  }

  // ---------------------------------------------------------------- how many transfers are made

  /** The transfers made for one mesh sender in a window, whatever the token. */
  function Transfers(ps: seq<Payment>, sender: string, lo: real, hi: real): nat {
    if ps == [] then 0
    else
      var last := ps[|ps| - 1];
      Transfers(ps[..|ps| - 1], sender, lo, hi) + if last.sender == sender && lo <= last.now <= hi then 1 else 0
  }

  ghost predicate TransfersServed(cfg: Config, b: Books, sender: string, lo: real, hi: real) {
    Transfers(b.payments, sender, lo, hi) <= Served(cfg.policy, b.charges, sender, lo, hi)
  }

  lemma TransfersOneMore(ps: seq<Payment>, p: Payment, sender: string, lo: real, hi: real)
    ensures Transfers(ps + [p], sender, lo, hi)
         == Transfers(ps, sender, lo, hi) + if p.sender == sender && lo <= p.now <= hi then 1 else 0
  {
    assert (ps + [p])[..|ps|] == ps;
  }

  lemma TransfersServedKept(cfg: Config, b: Books, a: Arrival, sender: string, lo: real, hi: real)
    requires TransfersServed(cfg, b, sender, lo, hi)
    ensures TransfersServed(cfg, Handled(cfg, b, a), sender, lo, hi)
  {
    HandledPayment(cfg, b, a);
    ServedOneMore(cfg.policy, b.charges, a.now, a.sender, sender, lo, hi);
    if Handled(cfg, b, a).payments != b.payments {
      TransfersOneMore(b.payments, PaymentFor(cfg, a), sender, lo, hi);
    }
  }

  /** No more transfers are made in a window than requests are served in it. */
  lemma {:induction false} TransfersWithinServed(cfg: Config, arrivals: seq<Arrival>, sender: string,
                                                 lo: real, hi: real)
    ensures TransfersServed(cfg, Kept(cfg, arrivals), sender, lo, hi)
  {
    if arrivals != [] {
      var front, a := arrivals[..|arrivals| - 1], arrivals[|arrivals| - 1];
      TransfersWithinServed(cfg, front, sender, lo, hi);
      TransfersServedKept(cfg, Kept(cfg, front), a, sender, lo, hi);
    }
  }

  /** With a clock that does not run backwards, the hot wallet makes at most burst + rate * T transfers of any kind for
      one mesh sender in a window of length T. */
  lemma TransfersBounded(cfg: Config, arrivals: seq<Arrival>, sender: string, lo: real, hi: real)
    requires InOrder(arrivals) && cfg.policy.rate >= 0.0
    ensures var made := Transfers(Kept(cfg, arrivals).payments, sender, lo, hi);
            made == 0 || made as real <= WindowAllowance(cfg.policy, lo, hi)
  {
    ServedBounded(cfg, arrivals, sender, lo, hi);
    TransfersWithinServed(cfg, arrivals, sender, lo, hi);
  }

  lemma {:induction false} CountWithinTransfers(ps: seq<Payment>, sender: string, mint: Bytes, lo: real, hi: real)
    ensures Count(ps, sender, mint, lo, hi) <= Transfers(ps, sender, lo, hi)
  {
    if ps != [] {
      CountWithinTransfers(ps[..|ps| - 1], sender, mint, lo, hi);
    }
  }

  lemma OutflowOf(cfg: Config, ps: seq<Payment>, sender: string, mint: Bytes, lo: real, hi: real, bound: real)
    requires forall p :: p in ps ==> Authorised(cfg, p)
    requires mint == [] || (mint in cfg.tokenLimits && mint in cfg.knownTokens)
    requires var made := Transfers(ps, sender, lo, hi); made == 0 || made as real <= bound
    ensures AtMost(Outflow(ps, sender, mint, lo, hi), Cap(cfg, mint), bound)
  {
    OutflowByCount(cfg, ps, sender, mint, lo, hi);
    CountWithinTransfers(ps, sender, mint, lo, hi);
    PaidWithin(Outflow(ps, sender, mint, lo, hi), Cap(cfg, mint), Count(ps, sender, mint, lo, hi),
               Transfers(ps, sender, lo, hi), bound);
  }

  /** With a clock that does not run backwards, the hot wallet pays for one mesh sender, in any window, at most the
      configured maximum times the requests the rate limiter grants in it. */
  lemma OutflowBounded(cfg: Config, arrivals: seq<Arrival>, sender: string, mint: Bytes, lo: real, hi: real)
    requires InOrder(arrivals) && cfg.policy.rate >= 0.0
    requires mint == [] || (mint in cfg.tokenLimits && mint in cfg.knownTokens)
    ensures AtMost(Outflow(Kept(cfg, arrivals).payments, sender, mint, lo, hi), Cap(cfg, mint),
                   WindowAllowance(cfg.policy, lo, hi))
  {
    PaymentsAuthorised(cfg, arrivals);
    TransfersBounded(cfg, arrivals, sender, lo, hi);
    OutflowOf(cfg, Kept(cfg, arrivals).payments, sender, mint, lo, hi, WindowAllowance(cfg.policy, lo, hi));
  }

  lemma PaidWithin(paid: nat, cap: real, n: nat, granted: nat, bound: real)
    requires AtMost(paid, cap, n as real)
    requires n <= granted && (granted == 0 || granted as real <= bound)
    ensures AtMost(paid, cap, bound)
  {
    ZeroTimes(cap);
    if paid > 0 {
      ProductMonotone(cap, n as real, bound);
    }
  }

  lemma ZeroTimes(c: real)
    ensures c * 0.0 == 0.0
  {}

  lemma ProductMonotone(c: real, a: real, b: real)
    requires c >= 0.0 && a <= b
    ensures c * a <= c * b
  {
    assert c * (b - a) >= 0.0;
  }

  // ---------------------------------------------------------------- repeated requests

  /** Only this one signed request arrives, from whatever mesh senders and at whatever times. */
  ghost predicate Repeats(arrivals: seq<Arrival>, payload: Bytes, rpc: Rpc) {
    forall i :: 0 <= i < |arrivals| ==>
      arrivals[i].RequestArrival? && arrivals[i].payload == payload && arrivals[i].rpc == rpc
  }

  /** A mesh sender of its own for each repetition. */
  function Name(n: nat): (name: string)
    ensures |name| == n
  {
    seq(n, _ => 'a')
  }

  function Repetitions(header: Header, payload: Bytes, rpc: Rpc, now: real, n: nat): (arrivals: seq<Arrival>)
    ensures |arrivals| == n
    ensures forall i :: 0 <= i < n ==> arrivals[i] == RequestArrival(now, Name(i), header, payload, rpc)
  {
    seq(n, i requires 0 <= i < n => RequestArrival(now, Name(i), header, payload, rpc))
  }

  lemma {:induction false} NoRequestFrom(log: seq<RateLimiting.Event>, sender: string)
    requires forall i :: 0 <= i < |log| ==> log[i].Request? && log[i].sender != sender
    ensures TimesOf(log, sender) == []
  {
    if log != [] {
      NoRequestFrom(log[..|log| - 1], sender);
    }
  }

  /** A sender that has asked for nothing yet is served. */
  lemma NewSenderPasses(lim: RateLimiting.Policy, log: seq<RateLimiting.Event>, now: real, sender: string)
    requires lim.burst >= 1
    requires forall i :: 0 <= i < |log| ==> log[i].Request? && log[i].sender != sender
    ensures RateLimiting.Answer(lim, log, now, sender)
  {
    NoRequestFrom(log, sender);
    AnswerAsAllowed(lim, log, now, sender);
  }

  ghost predicate PaidTimes(ps: seq<Payment>, n: nat, request: TxRequest) {
    |ps| == n && forall i :: 0 <= i < n ==> ps[i].request == request
  }

  /** One signed request can be paid any number of times at once: nothing in it is used up. */
  lemma {:induction false} PaidEachTime(cfg: Config, header: Header, payload: Bytes, rpc: Rpc, now: real, n: nat)
    requires Decide(cfg, payload, rpc).Pay? && cfg.policy.burst >= 1
    ensures PaidTimes(Kept(cfg, Repetitions(header, payload, rpc, now, n)).payments, n,
                      Decide(cfg, payload, rpc).request)
  {
    if n > 0 {
      PaidEachTime(cfg, header, payload, rpc, now, n - 1);
      PaidOnceMore(cfg, header, payload, rpc, now, n - 1);
    }
  }

  lemma PaidOnceMore(cfg: Config, header: Header, payload: Bytes, rpc: Rpc, now: real, n: nat)
    requires Decide(cfg, payload, rpc).Pay? && cfg.policy.burst >= 1
    requires PaidTimes(Kept(cfg, Repetitions(header, payload, rpc, now, n)).payments, n,
                       Decide(cfg, payload, rpc).request)
    ensures PaidTimes(Kept(cfg, Repetitions(header, payload, rpc, now, n + 1)).payments, n + 1,
                      Decide(cfg, payload, rpc).request)
  {
    var front, arrivals := Repetitions(header, payload, rpc, now, n), Repetitions(header, payload, rpc, now, n + 1);
    var a := arrivals[n];
    assert arrivals[..n] == front;
    ChargesAreRequests(cfg, front);
    NewSenderPasses(cfg.policy, Requests(front), now, Name(n));
    PassesAndPays(cfg, Kept(cfg, front), a);
    OneMorePaid(Kept(cfg, front).payments, PaymentFor(cfg, a), n, Decide(cfg, payload, rpc).request);
  }

  lemma OneMorePaid(ps: seq<Payment>, p: Payment, n: nat, request: TxRequest)
    requires PaidTimes(ps, n, request) && p.request == request
    ensures PaidTimes(ps + [p], n + 1, request)
  {}

  lemma PassesAndPays(cfg: Config, b: Books, a: Arrival)
    requires Passes(cfg, b, a) && a.RequestArrival? && Decide(cfg, a.payload, a.rpc).Pay?
    ensures Handled(cfg, b, a).payments == b.payments + [PaymentFor(cfg, a)]
  {}

  lemma TooSmallBurst(lim: RateLimiting.Policy, log: seq<RateLimiting.Event>, now: real, sender: string)
    requires lim.burst < 1
    ensures !RateLimiting.Answer(lim, log, now, sender)
  {}

  lemma {:induction false} PaidOnlyWhen(cfg: Config, arrivals: seq<Arrival>, payload: Bytes, rpc: Rpc)
    requires Repeats(arrivals, payload, rpc) && Kept(cfg, arrivals).payments != []
    ensures Decide(cfg, payload, rpc).Pay? && cfg.policy.burst >= 1
  {
    var front, a := arrivals[..|arrivals| - 1], arrivals[|arrivals| - 1];
    if Kept(cfg, front).payments != [] {
      PaidOnlyWhen(cfg, front, payload, rpc);
    } else {
      HandledPayment(cfg, Kept(cfg, front), a);
      if cfg.policy.burst < 1 {
        TooSmallBurst(cfg.policy, Kept(cfg, front).charges, a.now, a.sender);
      }
    }
  }

  /** `n` payments of one signed request occur in some run exactly when a single one does: when it is payable and the
      rate limiter has a token to give. Per mesh sender the window bounds apply. */
  lemma PaidRepeatedlyExactlyWhen(cfg: Config, payload: Bytes, rpc: Rpc, n: nat)
    requires n > 0
    ensures (exists arrivals :: Repeats(arrivals, payload, rpc) && |Kept(cfg, arrivals).payments| == n)
       <==> Decide(cfg, payload, rpc).Pay? && cfg.policy.burst >= 1
  {
    if Decide(cfg, payload, rpc).Pay? && cfg.policy.burst >= 1 {
      var header := Protocol.Header(0, 0, 0, 0, 0, 0);
      PaidEachTime(cfg, header, payload, rpc, 0.0, n);
      assert Repeats(Repetitions(header, payload, rpc, 0.0, n), payload, rpc);
    }
    if arrivals :| Repeats(arrivals, payload, rpc) && |Kept(cfg, arrivals).payments| == n {
      PaidOnlyWhen(cfg, arrivals, payload, rpc);
    }
  }
}
