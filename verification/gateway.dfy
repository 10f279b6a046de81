/** The gateway's handlers for relayed chunks and hot-wallet requests, and what they do over whole runs. */
module Gateway {
  import opened Bytes
  import opened Protocol
  import Chunker
  import RateLimiting

  // ---------------------------------------------------------------- what is signed

  /** The bytes a client signs for a transfer; an empty mint stands for SOL. */
  function ClientSigned(sender: Bytes, dest: Bytes, amount: nat, mint: Bytes): Bytes
    requires amount < Pow256(AMOUNT_BYTES)
  {
    sender + dest + BigEndian(amount, AMOUNT_BYTES) + if mint == [] then [] else [0x01] + mint
  }

  /** The bytes the gateway rebuilds from a decoded request. */
  function GatewaySigned(r: TxRequest): Bytes
    requires r.amount < Pow256(AMOUNT_BYTES)
  {
    r.senderPubkey + r.destPubkey + BigEndian(r.amount, AMOUNT_BYTES)
    + if r.flags == 0 then [] else [r.flags] + if r.flags % 2 == 1 && r.mint != [] then r.mint else []
  }

  /** Field lengths as decoding leaves them. */
  predicate WellFormed(r: TxRequest) {
    && |r.signature| == 64 && |r.senderPubkey| == 32 && |r.destPubkey| == 32 && r.amount < Pow256(AMOUNT_BYTES)
    && |r.mint| == if r.flags % 2 == 1 then 32 else 0
  }

  lemma DecodedWellFormed(payload: Bytes, utf8: Bytes -> bool)
    requires DecodeTxRequest(payload, utf8).Ok?
    ensures WellFormed(DecodeTxRequest(payload, utf8).value)
  {
    BigEndianInverts(payload[128..136]);
  }

  /** The gateway checks the signature on exactly the bytes the client signed, whatever memo goes along. */
  lemma SignedBytesAgree(sender: Bytes, dest: Bytes, amount: nat, signature: Bytes, memo: Bytes, mint: Bytes,
                         utf8: Bytes -> bool)
    requires EncodeTxRequest(sender, dest, amount, signature, memo, mint).Ok? && (memo == [] || utf8(memo))
    ensures var decoded := DecodeTxRequest(EncodeTxRequest(sender, dest, amount, signature, memo, mint).value, utf8);
            && decoded.Ok? && decoded.value.amount < Pow256(AMOUNT_BYTES)
            && GatewaySigned(decoded.value) == ClientSigned(sender, dest, amount, mint)
  {
    DecodeAfterEncode(sender, dest, amount, signature, memo, mint, utf8);
  }

  /** Where the fields stand in the signed bytes. */
  lemma SignedParts(r: TxRequest)
    requires WellFormed(r)
    ensures var b := GatewaySigned(r);
            && |b| >= 72 && b[0..32] == r.senderPubkey && b[32..64] == r.destPubkey
            && FromBigEndian(b[64..72]) == r.amount
            && (|b| == 72 <==> r.flags == 0)
            && (|b| > 72 ==> b[72] == r.flags && b[73..] == r.mint)
  {
    var b := GatewaySigned(r);
    FromBigEndianInverts(r.amount, AMOUNT_BYTES);
    assert b[64..72] == BigEndian(r.amount, AMOUNT_BYTES);
  }

  /** The signed bytes determine sender, destination, amount, flags and mint. */
  lemma SignedBytesInjective(r: TxRequest, r': TxRequest)
    requires WellFormed(r) && WellFormed(r') && GatewaySigned(r) == GatewaySigned(r')
    ensures r.senderPubkey == r'.senderPubkey && r.destPubkey == r'.destPubkey && r.amount == r'.amount
    ensures r.flags == r'.flags && r.mint == r'.mint
  {
    SignedParts(r);
    SignedParts(r');
  }

  /** A request whose signed bytes are those of a client's transfer asks for that transfer. */
  lemma SignedAsClient(r: TxRequest, sender: Bytes, dest: Bytes, amount: nat, mint: Bytes)
    requires WellFormed(r) && amount < Pow256(AMOUNT_BYTES)
    requires |sender| == 32 && |dest| == 32 && (mint == [] || |mint| == 32)
    requires GatewaySigned(r) == ClientSigned(sender, dest, amount, mint)
    ensures r.senderPubkey == sender && r.destPubkey == dest && r.amount == amount && r.mint == mint
  {
    var r' := TxRequest(r.signature, sender, dest, amount, if mint == [] then 0 else 1, mint, []);
    assert GatewaySigned(r') == ClientSigned(sender, dest, amount, mint);
    SignedBytesInjective(r, r');
  }

  // ---------------------------------------------------------------- configuration and decisions

  const LAMPORTS_PER_SOL: real := 1000000000.0

  /** Python's int() on a float: towards zero. */
  function Truncate(x: real): int {
    if x >= 0.0 then x.Floor else -((-x).Floor)
  }

  function Power10(n: nat): real {
    if n == 0 then 1.0 else 10.0 * Power10(n - 1)
  }

  /** Public keys and mints are kept as bytes. `knownTokens` gives decimals, `tokenLimits` the configured maxima. */
  datatype Config = Config(
    allowedRequesters: seq<Bytes>, maxTransferSol: real, tokenLimits: map<Bytes, real>, knownTokens: map<Bytes, nat>,
    hotWallet: bool, policy: RateLimiting.Policy, verify: (Bytes, Bytes, Bytes) -> bool, utf8: Bytes -> bool)

  datatype ErrorCode = InvalidTx | RpcError | Unauthorized | AmountExceeded | RateLimited | UnsupportedToken

  /** How the RPC node and the transaction builder answer. */
  datatype Rpc = Rpc(blockhash: bool, create: bool, broadcast: bool)

  datatype Decision = Refuse(code: ErrorCode) | Pay(request: TxRequest)

  function MaxLamports(cfg: Config): int {
    Truncate(cfg.maxTransferSol * LAMPORTS_PER_SOL)
  }

  function MaxBaseUnits(cfg: Config, mint: Bytes): int
    requires mint in cfg.tokenLimits && mint in cfg.knownTokens
  {
    Truncate(cfg.tokenLimits[mint] * Power10(cfg.knownTokens[mint]))
  }

  datatype Check = Fine | Fault(code: ErrorCode)

  /** A token must be known and within its limit if it has one; anything else is SOL. */
  function LimitCheck(cfg: Config, r: TxRequest): Check {
    if |r.mint| == 32 then
      if r.mint !in cfg.knownTokens then Fault(UnsupportedToken)
      else if r.mint in cfg.tokenLimits && r.amount > MaxBaseUnits(cfg, r.mint) then Fault(AmountExceeded)
      else Fine
    else if r.amount > MaxLamports(cfg) then Fault(AmountExceeded)
    else Fine
  }

  /** The decision on a decoded request. */
  function DecideDecoded(cfg: Config, r: TxRequest, rpc: Rpc): Decision
    requires r.amount < Pow256(AMOUNT_BYTES)
  {
    if !cfg.verify(r.senderPubkey, GatewaySigned(r), r.signature) then Refuse(Unauthorized)
    else if cfg.allowedRequesters != [] && r.senderPubkey !in cfg.allowedRequesters then Refuse(Unauthorized)
    else if LimitCheck(cfg, r).Fault? then Refuse(LimitCheck(cfg, r).code)
    else if !rpc.blockhash || !rpc.create then Refuse(RpcError)
    else Pay(r)
  }

  /** The decision on a request that passed the rate limiter. */
  function Decide(cfg: Config, payload: Bytes, rpc: Rpc): Decision {
    if !cfg.hotWallet then Refuse(Unauthorized)
    else
      var decoded := DecodeTxRequest(payload, cfg.utf8);
      if decoded.Err? then Refuse(InvalidTx)
      else
        DecodedWellFormed(payload, cfg.utf8);
        DecideDecoded(cfg, decoded.value, rpc)
  }

  // ---------------------------------------------------------------- runs, as functions of what arrived

  datatype Arrival =
    | ChunkArrival(now: real, sender: string, header: Header, payload: Bytes, rpc: Rpc)
    | RequestArrival(now: real, sender: string, header: Header, payload: Bytes, rpc: Rpc)
    | QueryArrival(now: real, sender: string, header: Header)  // a balance or blockhash request

  datatype Reply =
    | AckReply(dest: string, payload: Bytes)
    | NackReply(dest: string, msgId: nat, code: ErrorCode)
    | ResultReply(dest: string, msgId: nat, success: bool)

  /** A hot-wallet transfer handed to the RPC node. */
  datatype Payment = Payment(now: real, sender: string, request: TxRequest)

  /** What the gateway has recorded and sent: the requests charged to the rate limiter, the calls of the reassembler,
      the replies, the relayed transactions and the payments handed to the RPC node. */
  datatype Books = Books(
    charges: seq<RateLimiting.Event>, calls: seq<Chunker.Call>, replies: seq<Reply>, relays: seq<Bytes>,
    payments: seq<Payment>)

  predicate Passes(cfg: Config, b: Books, a: Arrival) {
    RateLimiting.Answer(cfg.policy, b.charges, a.now, a.sender)
  }

  function CallOf(a: Arrival): Chunker.Call
    requires a.ChunkArrival?
  {
    Chunker.Call(a.now, Chunker.Key(a.sender, a.header.msgId), a.header.chunkNum, a.header.totalChunks, a.payload)
  }

  function AckPayload(h: Header): Bytes {
    WordSize();
    EncodeAck(h.msgId, h.chunkNum, 0).value
  }

  function Charged(b: Books, a: Arrival): Books {
    b.(charges := b.charges + [RateLimiting.Request(a.now, a.sender)])
  }

  function Nack(a: Arrival): Reply {
    NackReply(a.sender, a.header.msgId, RateLimited)
  }

  function Collected(b: Books, a: Arrival): Books
    requires a.ChunkArrival?
  {
    var calls := b.calls + [CallOf(a)];
    match Chunker.LastOutcome(calls)
    case Complete(data) =>
      b.(calls := calls, relays := b.relays + [data],
         replies := b.replies + [ResultReply(a.sender, a.header.msgId, a.rpc.broadcast)])
    case _ => b.(calls := calls)
  }

  function ChunkHandled(b: Books, a: Arrival): Books
    requires a.ChunkArrival?
  {
    Collected(b.(replies := b.replies + [AckReply(a.sender, AckPayload(a.header))]), a)
  }

  function RequestHandled(cfg: Config, b: Books, a: Arrival): Books
    requires a.RequestArrival?
  {
    match Decide(cfg, a.payload, a.rpc)
    case Refuse(code) => b.(replies := b.replies + [NackReply(a.sender, a.header.msgId, code)])
    case Pay(request) =>
      b.(payments := b.payments + [Payment(a.now, a.sender, request)],
         replies := b.replies + [ResultReply(a.sender, a.header.msgId, a.rpc.broadcast)])
  }

  function Handled(cfg: Config, b: Books, a: Arrival): Books {
    var charged := Charged(b, a);
    if !Passes(cfg, b, a) then charged.(replies := b.replies + [Nack(a)])
    else
      match a
      case QueryArrival(_, _, _) => charged
      case RequestArrival(_, _, _, _, _) => RequestHandled(cfg, charged, a)
      case ChunkArrival(_, _, _, _, _) => ChunkHandled(charged, a)
  }

  const NO_BOOKS := Books([], [], [], [], [])

  function Kept(cfg: Config, arrivals: seq<Arrival>): Books {
    if arrivals == [] then NO_BOOKS
    else Handled(cfg, Kept(cfg, arrivals[..|arrivals| - 1]), arrivals[|arrivals| - 1])
  }

  // ---------------------------------------------------------------- the class

  class GatewayNode {
    const config: Config
    const rateLimiter: RateLimiting.RateLimiter
    const reassembler: Chunker.ChunkReassembler
    var replies: seq<Reply>
    var relays: seq<Bytes>
    var payments: seq<Payment>
    ghost var arrivals: seq<Arrival>  // everything handled so far

    ghost predicate Valid()
      reads this, rateLimiter, rateLimiter.buckets.Values, reassembler, reassembler.buffers.Values
    {
      Intact() && View() == Kept(config, arrivals)
    }

    /** The parts are valid. */
    ghost predicate Intact()
      reads rateLimiter, rateLimiter.buckets.Values, reassembler, reassembler.buffers.Values
    {
      rateLimiter.Valid() && rateLimiter.Terms() == config.policy && reassembler.Valid()
    }

    ghost function View(): Books
      reads this`replies, this`relays, this`payments, rateLimiter`log, reassembler`log
    {
      Books(rateLimiter.log, reassembler.log, replies, relays, payments)
    }

    constructor (config: Config, maxPerMinute: real)
      requires config.policy.rate == maxPerMinute / 60.0
      ensures Valid() && arrivals == [] && this.config == config
      ensures fresh(rateLimiter) && rateLimiter.buckets == map[]
      ensures fresh(reassembler) && reassembler.buffers == map[]
    {
      this.config := config;
      this.rateLimiter := new RateLimiting.RateLimiter(maxPerMinute, config.policy.burst);
      this.reassembler := new Chunker.ChunkReassembler();
      this.replies, this.relays, this.payments, this.arrivals := [], [], [], [];
    }

    ghost method Enter(a: Arrival)
      requires Valid()
      modifies this`arrivals
      ensures Intact() && arrivals == old(arrivals) + [a]
      ensures Kept(config, arrivals) == Handled(config, View(), a)
    {
      arrivals := arrivals + [a];
      assert arrivals[..|arrivals| - 1] == old(arrivals);
    }

    /** Charges the sender; a refusal is answered with a NACK. */
    method CheckRateLimit(a: Arrival) returns (allowed: bool)
      requires Intact()
      modifies this`replies, rateLimiter, rateLimiter.buckets.Values
      ensures Intact() && fresh(rateLimiter.buckets.Values - old(rateLimiter.buckets.Values))
      ensures reassembler.buffers == old(reassembler.buffers)
      ensures allowed == Passes(config, old(View()), a)
      ensures View() == if allowed then Charged(old(View()), a)
                        else Charged(old(View()), a).(replies := old(replies) + [Nack(a)])
    {
      allowed := Admit(a);
      if !allowed {
        Send(Nack(a));
      }
    }

    method Admit(a: Arrival) returns (allowed: bool)
      requires Intact()
      modifies rateLimiter, rateLimiter.buckets.Values
      ensures Intact() && fresh(rateLimiter.buckets.Values - old(rateLimiter.buckets.Values))
      ensures allowed == Passes(config, old(View()), a) && View() == Charged(old(View()), a)
    {
      allowed := rateLimiter.IsAllowed(a.now, a.sender);
    }

    method Send(reply: Reply)
      requires Intact()
      modifies this`replies
      ensures Intact() && replies == old(replies) + [reply]
    {
      replies := replies + [reply];
    }

    method HandleTxChunk(now: real, header: Header, payload: Bytes, sender: string, rpc: Rpc)
      requires Valid()
      modifies this, rateLimiter, rateLimiter.buckets.Values, reassembler, reassembler.buffers.Values
      ensures Valid() && arrivals == old(arrivals) + [ChunkArrival(now, sender, header, payload, rpc)]
      ensures fresh(rateLimiter.buckets.Values - old(rateLimiter.buckets.Values))
      ensures fresh(reassembler.buffers.Values - old(reassembler.buffers.Values))
    {
      var a := ChunkArrival(now, sender, header, payload, rpc);
      Enter(a);
      ServeChunk(a);
    }

    method ServeChunk(a: Arrival)
      requires Intact() && a.ChunkArrival?
      modifies this`replies, this`relays
      modifies rateLimiter, rateLimiter.buckets.Values, reassembler, reassembler.buffers.Values
      ensures Intact() && View() == Handled(config, old(View()), a)
      ensures fresh(rateLimiter.buckets.Values - old(rateLimiter.buckets.Values))
      ensures fresh(reassembler.buffers.Values - old(reassembler.buffers.Values))
    {
      var allowed := CheckRateLimit(a);
      if !allowed {
        return;
      }
      Acknowledge(a);
    }

    method Acknowledge(a: Arrival)
      requires Intact() && a.ChunkArrival?
      modifies this`replies, this`relays, reassembler, reassembler.buffers.Values
      ensures Intact() && fresh(reassembler.buffers.Values - old(reassembler.buffers.Values))
      ensures rateLimiter.buckets == old(rateLimiter.buckets)
      ensures View() == ChunkHandled(old(View()), a)
    {
      Send(AckReply(a.sender, AckPayload(a.header)));
      Collect(a);
    }

    /** Feeds the reassembler and broadcasts what it completes. */
    method Collect(a: Arrival)
      requires Intact() && a.ChunkArrival?
      modifies this`replies, this`relays, reassembler, reassembler.buffers.Values
      ensures Intact() && fresh(reassembler.buffers.Values - old(reassembler.buffers.Values))
      ensures View() == Collected(old(View()), a)
    {
      var outcome := Feed(a);
      if outcome.Complete? {
        Broadcast(outcome.data);
        Send(ResultReply(a.sender, a.header.msgId, a.rpc.broadcast));
      }
    }

    method Feed(a: Arrival) returns (outcome: Chunker.Outcome)
      requires Intact() && a.ChunkArrival?
      modifies reassembler, reassembler.buffers.Values
      ensures Intact() && fresh(reassembler.buffers.Values - old(reassembler.buffers.Values))
      ensures reassembler.log == old(reassembler.log) + [CallOf(a)] && outcome == Chunker.LastOutcome(reassembler.log)
    {
      outcome := reassembler.ReceiveChunk(
        a.now, a.sender, a.header.msgId, a.header.chunkNum, a.header.totalChunks, a.payload);
      assert rateLimiter.Valid();
    }

    method Broadcast(data: Bytes)
      requires Intact()
      modifies this`relays
      ensures Intact() && relays == old(relays) + [data]
    {
      relays := relays + [data];
    }

    method HandleTxRequest(now: real, header: Header, payload: Bytes, sender: string, rpc: Rpc)
      requires Valid()
      modifies this, rateLimiter, rateLimiter.buckets.Values
      ensures Valid() && arrivals == old(arrivals) + [RequestArrival(now, sender, header, payload, rpc)]
      ensures fresh(rateLimiter.buckets.Values - old(rateLimiter.buckets.Values))
    {
      var a := RequestArrival(now, sender, header, payload, rpc);
      Enter(a);
      ServeRequest(a);
    }

    method ServeRequest(a: Arrival)
      requires Intact() && a.RequestArrival?
      modifies this`replies, this`payments, rateLimiter, rateLimiter.buckets.Values
      ensures Intact() && View() == Handled(config, old(View()), a)
      ensures fresh(rateLimiter.buckets.Values - old(rateLimiter.buckets.Values))
    {
      var allowed := CheckRateLimit(a);
      if allowed {
        Transfer(a);
      }
    }

    /** The part of the handler behind the rate limiter. */
    method Transfer(a: Arrival)
      requires Intact() && a.RequestArrival?
      modifies this`replies, this`payments
      ensures Intact() && View() == RequestHandled(config, old(View()), a)
    {
      var decision := Judge(a.payload, a.rpc);
      if decision.Refuse? {
        replies := replies + [NackReply(a.sender, a.header.msgId, decision.code)];
        return;
      }
      payments := payments + [Payment(a.now, a.sender, decision.request)];
      replies := replies + [ResultReply(a.sender, a.header.msgId, a.rpc.broadcast)];
    }

    /** A balance or blockhash request, as far as the rate limiter is concerned. */
    method HandleQuery(now: real, header: Header, sender: string)
      requires Valid()
      modifies this, rateLimiter, rateLimiter.buckets.Values
      ensures Valid() && arrivals == old(arrivals) + [QueryArrival(now, sender, header)]
      ensures fresh(rateLimiter.buckets.Values - old(rateLimiter.buckets.Values))
    {
      var a := QueryArrival(now, sender, header);
      Enter(a);
      ServeQuery(a);
    }

    method ServeQuery(a: Arrival)
      requires Intact() && a.QueryArrival?
      modifies this`replies, rateLimiter, rateLimiter.buckets.Values
      ensures Intact() && View() == Handled(config, old(View()), a)
      ensures fresh(rateLimiter.buckets.Values - old(rateLimiter.buckets.Values))
    {
      var _ := CheckRateLimit(a);
    }

    /** The checks of the handler in their order; each refusal is answered with a NACK of that code. */
    method Judge(payload: Bytes, rpc: Rpc) returns (decision: Decision)
      ensures decision == Decide(config, payload, rpc)
    {
      if !config.hotWallet {
        return Refuse(Unauthorized);
      }
      var decoded := DecodeTxRequest(payload, config.utf8);
      if decoded.Err? {
        return Refuse(InvalidTx);
      }
      DecodedWellFormed(payload, config.utf8);
      decision := JudgeDecoded(decoded.value, rpc);
    }

    method JudgeDecoded(req: TxRequest, rpc: Rpc) returns (decision: Decision)
      requires req.amount < Pow256(AMOUNT_BYTES)
      ensures decision == DecideDecoded(config, req, rpc)
    {
      var signedData := SignedData(req);
      if !config.verify(req.senderPubkey, signedData, req.signature) {
        return Refuse(Unauthorized);
      }
      if |config.allowedRequesters| > 0 {
        if req.senderPubkey !in config.allowedRequesters {
          return Refuse(Unauthorized);
        }
      }
      var check := CheckLimit(req);
      if check.Fault? {
        return Refuse(check.code);
      }
      if !rpc.blockhash {
        return Refuse(RpcError);
      }
      if !rpc.create {
        return Refuse(RpcError);
      }
      return Pay(req);
    }

    method SignedData(req: TxRequest) returns (signedData: Bytes)
      requires req.amount < Pow256(AMOUNT_BYTES)
      ensures signedData == GatewaySigned(req)
    {
      signedData := req.senderPubkey + req.destPubkey + BigEndian(req.amount, AMOUNT_BYTES);
      if req.flags != 0 {
        signedData := signedData + [req.flags];
        if req.flags % 2 == 1 && req.mint != [] {
          signedData := signedData + req.mint;
        }
      }
      SignedDataBuilt(req, signedData);
    }

    method CheckLimit(req: TxRequest) returns (check: Check)
      ensures check == LimitCheck(config, req)
    {
      var isTokenTransfer := |req.mint| == 32;
      if isTokenTransfer {
        if req.mint !in config.knownTokens {
          return Fault(UnsupportedToken);
        }
        if req.mint in config.tokenLimits {
          var maxBaseUnits := Truncate(config.tokenLimits[req.mint] * Power10(config.knownTokens[req.mint]));
          assert maxBaseUnits == MaxBaseUnits(config, req.mint);
          if req.amount > maxBaseUnits {
            return Fault(AmountExceeded);
          }
        }
      } else {
        var maxLamports := Truncate(config.maxTransferSol * LAMPORTS_PER_SOL);
        assert maxLamports == MaxLamports(config);
        if req.amount > maxLamports {
          return Fault(AmountExceeded);
        }
      }
      return Fine;
    }
  }

  lemma SignedDataBuilt(r: TxRequest, s: Bytes)
    requires r.amount < Pow256(AMOUNT_BYTES)
    requires s == if r.flags == 0 then r.senderPubkey + r.destPubkey + BigEndian(r.amount, AMOUNT_BYTES)
                  else if r.flags % 2 == 1 && r.mint != []
                  then r.senderPubkey + r.destPubkey + BigEndian(r.amount, AMOUNT_BYTES) + [r.flags] + r.mint
                  else r.senderPubkey + r.destPubkey + BigEndian(r.amount, AMOUNT_BYTES) + [r.flags]
    ensures s == GatewaySigned(r)
  {}
}
