# SolMesh, modelled and verified

SolMesh moves signed Solana transactions over a lossy LoRa mesh. This project models its protocol core in Dafny and
proves what holds of every input and of every run. `dafny verify dfyconfig.toml` checks all of it.

| files | what they cover |
|---|---|
| `bytes.dfy`, `crc.dfy`, `crc_detection.dfy` | bytes and bits; the checksum loop as division by x^8+x^5+x^4+1 over GF(2); which differences it notices |
| `protocol.dfy`, `frame_detection.dfy` | frames, transfer requests and ACKs; which damage to a frame is rejected |
| `chunker.dfy`, `reassembly.dfy` | splitting and reassembly; what a reassembler returns over whole runs |
| `rate_limiter.dfy`, `rate_bounds.dfy` | the token buckets; exactly what they let through over whole runs |
| `store.dfy`, `flush_runs.dfy`, `client_flush.dfy` | the intent queue; flushing as a transition system with crashes; the flush code as a run of it |
| `gateway.dfy`, `gateway_runs.dfy` | the gateway's handlers; what its hot wallet pays over whole runs |
| `retry_loop.dfy`, `relay.dfy`, `relay_capacity.dfy`, `relay_runs.dfy` | the sender's loop; the sender, a lossy radio and the gateway together; which transactions they can carry, and what the sender's report or silence means |

How it is built. Each object that the source updates in place is a class, and each method is proved to compute a
function of its inputs and the old state. The reassembler, the rate limiter and the gateway also carry a ghost log of
the calls made so far, and their invariant says that the fields are the function of that log. The theorems are about
these functions, so they hold of every sequence of method calls.

Conventions.

- The checksum is the one the code computes: most significant bit first, unreflected, initial value 0, polynomial
  x^8+x^5+x^4+1. The docstring of `crc8` calls it CRC-8/MAXIM, which is a reflected CRC; the model follows the loop.
- The checksum covers bytes 0 to 8 and the payload but stands at byte 9, between them. Distances between damaged bits
  are therefore counted in the code word, which has the checksum last.
- Byte 8 is the length, and changing it changes which bytes are summed. Detection holds of all other bytes and of a
  raised length; a lowered length has an exact condition and a frame for which it goes unnoticed.
- The clock is an input of each call, one reading a call. `time.time()` may run backwards, so where a result needs
  something of the readings it says what: `IndependentExactlyWhen` gives the exact condition for reassembly, and the
  window bounds of the rate limiter need readings in order.
- In the relay system the gateway's clock may read anything at a delivery, so what holds of every run holds of every
  clock. Runs that are shown to exist are in step with the sender (`RelayRuns.InStep`): a frame is delivered no earlier
  than the sender had waited when it sent it, and no later than it has waited by then. Only
  `SilenceMeansDeliveryExactlyWhen` does without, and `SilentLossInStep` gives the part that is in step.
- There is one gateway. The client does not look at who acknowledges, so a second gateway that hears a broadcast chunk
  could acknowledge it without the first having it.
- Floating-point numbers are reals.
- What the mesh, the RPC node, the wallet and Ed25519 answer are parameters: any answers are allowed, except that
  `PaysOnlyWhatWasAsked` assumes signatures that cannot be forged.
- `Config.tokenLimits` is the table that `get_max_transfer_token` (`src/solmesh/config.py:54-63`) reads off the
  configuration, `Config.knownTokens` the decimals of `KNOWN_TOKENS`.
- A flush is one process holding the flush lock. Other processes may add, remove, clear and recover intents between
  any two of its steps, and it may crash between any two. Every intent id is new (the source draws a UUID), and a new
  intent is pending with no attempts made.
- A dispatch that raises anything but a wrong passphrase leaves an intent with attempts left in sending, in the code as
  here, and no flush takes it until the queue is reopened (`RetriedExactlyWhen`).
- Removing an intent does not recall it from a flush that has it in its list; `DispatchesBounded` holds of removed
  intents too.
- Long source functions are split into several methods here, in the source's order.

## Model

| member | source | states |
|---|---|---|
| Bytes.FromBigEndianInverts | src/solmesh/protocol.py:58-67 | a number that fits its field is read back from its big-endian bytes |
| Bytes.BigEndianInverts | src/solmesh/protocol.py:90 | bytes read as a number are written back unchanged, and the number fits the field |
| Bytes.BitsOfXor | src/solmesh/protocol.py:37 | integer XOR acts on the bits one by one |
| Bytes.BitsOfMasked | src/solmesh/protocol.py:43 | masking keeps exactly the low bits |
| Crc.Crc8 | src/solmesh/protocol.py:33-44 | the nested loop on integers returns the one byte that, appended to the message, makes it a multiple of x^8+x^5+x^4+1 over GF(2) |
| Crc.InnerStep | src/solmesh/protocol.py:38-43 | one pass of the inner loop is multiplication by x modulo the polynomial |
| Crc.FeedByte | src/solmesh/protocol.py:36-43 | the XOR of a byte followed by eight shifts is the same as feeding its eight bits one by one |
| Crc.RemainderConcat | src/solmesh/protocol.py:36-43 | the checksum of a concatenation continues from the checksum of its first part |
| Crc.Division | src/solmesh/protocol.py:33-44 | message(x)·x^8 is a quotient times the polynomial plus the register the loop ends with |
| Crc.DividesExactlyWhen | src/solmesh/protocol.py:33-44 | a message followed by 8 bits is a multiple of the polynomial if and only if the 8 bits are its register |
| Crc.CrcDivides | src/solmesh/protocol.py:33-44 | a message followed by a byte is a multiple of the polynomial if and only if the byte is its checksum |
| CrcDetection.RemainderLinear | src/solmesh/protocol.py:33-44 | the checksum is linear over XOR on messages of equal length |
| CrcDetection.CrcCollision | src/solmesh/protocol.py:33-44 | two messages of equal length share a checksum if and only if their difference times x^8 is a multiple of the polynomial, which for non-empty messages means that the difference is |
| CrcDetection.ZeroRemainder | src/solmesh/protocol.py:33-44 | the loop ends at zero if and only if what it was fed is a multiple of the polynomial |
| CrcDetection.TimesXInjective | src/solmesh/protocol.py:38-43 | a shift step never maps two states to one |
| CrcDetection.BurstChangesCrc | src/solmesh/protocol.py:33-44 | two messages of any equal length that differ, and only within 8 consecutive bits, have different checksums |
| CrcDetection.TwoFlipsSameCrc | src/solmesh/protocol.py:33-44 | two messages that differ in exactly two bits have the same checksum if and only if the bits lie a multiple of 127 apart |
| CrcDetection.OrderOfX | src/solmesh/protocol.py:40 | x has order exactly 127 modulo the polynomial |
| CrcDetection.CrcParity | src/solmesh/protocol.py:33-44 | the checksum has the parity of the message |
| CrcDetection.OddFlipsChangeCrc | src/solmesh/protocol.py:33-44 | two messages that differ in an odd number of bits have different checksums |
| Protocol.UnpackAfterPack | src/solmesh/protocol.py:47-118 | packing succeeds on every header in range and every payload of at most 210 bytes, and unpacking, whatever bytes follow, returns that header and payload |
| Protocol.FrameLayout | src/solmesh/protocol.py:47-69 | the ten header bytes of a frame, each with its value, and the payload behind them; more than 210 payload bytes are refused |
| Protocol.PackAfterUnpack | src/solmesh/protocol.py:72-118 | packing the header and payload of an accepted frame of at most 210 payload bytes gives its first 10 + length bytes |
| Protocol.AcceptsExactlyFrames | src/solmesh/protocol.py:72-118 | given a length field of at most 210, unpacking accepts exactly the byte strings that begin with a packed frame |
| Protocol.UnpackedExactlyWhen | src/solmesh/protocol.py:72-118 | each of the five errors if and only if its check is the first to fail, acceptance if and only if none does |
| Protocol.DecodeAfterEncode | src/solmesh/protocol.py:124-194 | decoding inverts encoding of a transfer request, with and without mint and memo |
| Protocol.RequestLayout | src/solmesh/protocol.py:124-154 | where each field of a transfer request stands |
| Protocol.EncodeAfterDecode | src/solmesh/protocol.py:124-194 | re-encoding any decoded request reproduces it but for the flags byte; it is restored if and only if it has a flags byte, and that is 0 or 1 |
| Protocol.DecodeAckAfterEncode | src/solmesh/protocol.py:216-231 | an encodable ACK is decoded to its message id, chunk and status |
| Protocol.AckLayout | src/solmesh/protocol.py:216-224 | the four bytes of an ACK, in a frame of type 0x10 |
| FrameDetection.PackedIsExact | src/solmesh/protocol.py:47-69 | what packing returns is a frame around its payload with nothing after it |
| FrameDetection.CodewordDivisible | src/solmesh/protocol.py:103-108 | a checksum is right if and only if message and checksum together are a multiple of the polynomial |
| FrameDetection.DamageUnnoticed | src/solmesh/protocol.py:72-118 | damage that spares the length byte is accepted if and only if it spares magic and version and is, in the code word, a multiple of the polynomial |
| FrameDetection.CodewordBurstRejected | src/solmesh/protocol.py:72-118 | a burst of at most 8 bits of the code word that spares the length byte is rejected |
| FrameDetection.BurstRejected | src/solmesh/protocol.py:72-118 | a burst of at most 8 bits within bytes 0 to 7, within the checksum or within the payload is rejected |
| FrameDetection.TwoFlips | src/solmesh/protocol.py:72-118 | two flipped bits outside the length byte are accepted if and only if they spare magic and version and lie a multiple of 127 bits apart in the code word |
| FrameDetection.FrameWeightEven | src/solmesh/protocol.py:47-69 | every packed frame has an even number of one bits |
| FrameDetection.OddFlipsRejected | src/solmesh/protocol.py:72-118 | an odd number of flipped bits outside the length byte is rejected |
| FrameDetection.LengthRaisedRejected | src/solmesh/protocol.py:101-109 | a frame cut short is rejected, and so is any damage that raises the length byte |
| FrameDetection.LengthLowered | src/solmesh/protocol.py:101-116 | lowering only the length byte is accepted if and only if the shorter message has the same checksum |
| FrameDetection.ByteReaching | src/solmesh/protocol.py:33-44 | after any message some next byte brings the checksum to any wanted value |
| FrameDetection.ClearedLengthMissed | src/solmesh/protocol.py:72-118 | under every header there is a one-byte payload whose frame is still accepted after its length byte is cleared |
| Chunker.ChunkPayload | src/solmesh/chunker.py:18-43 | fails if and only if the data exceeds 255·210 bytes or a header field is out of range; otherwise yields max(1, ⌈n/210⌉) frames of at most 220 bytes, numbered from 0, whose unpacked payloads concatenate to the data |
| Chunker.ConcatPieces | src/solmesh/chunker.py:30-42 | the first n pieces concatenate to the first n·210 bytes |
| Chunker.SplitMinimal | src/solmesh/chunker.py:30-31 | no smaller number of payloads of at most 210 bytes can make up the data |
| Chunker.JoinedPieces | src/solmesh/chunker.py:72-77 | joining a buffer that holds the pieces of the data gives the data |
| Chunker.ReassemblyBuffer.AddChunk | src/solmesh/chunker.py:63-66 | stores the chunk, replacing an earlier one of its number, and reports whether the count reached the total |
| Chunker.ReassemblyBuffer.MissingChunks | src/solmesh/chunker.py:68-70 | exactly the absent indices below the total, in increasing order |
| Chunker.ReassemblyBuffer.Reassemble | src/solmesh/chunker.py:72-77 | the chunks joined in index order; the two ways it raises |
| Chunker.ChunkReassembler.ReceiveChunk | src/solmesh/chunker.py:90-112 | returns what the log of all calls determines, and keeps the buffers what the log determines |
| Chunker.ChunkReassembler.Process | src/solmesh/chunker.py:90-112 | drops expired buffers, adds the chunk to the live or new buffer of its key, joins and drops a full one, and leaves other live buffers alone |
| Chunker.ChunkReassembler.CleanupExpired | src/solmesh/chunker.py:121-130 | drops and names exactly the buffers older than the timeout |
| Chunker.ChunkReassembler.GetMissing | src/solmesh/chunker.py:114-119 | exactly the indices the named buffer lacks, none if there is no such buffer |
| Reassembly.SameBuffer | src/solmesh/chunker.py:90-130 | up to expired buffers, a key's buffer in an interleaved run is the one its own calls build, under the same condition on the clock |
| Reassembly.NonInterference | src/solmesh/chunker.py:90-130 | when what has expired at one clock reading stays expired at all later ones, the results for a key in any interleaved run are those of its own calls alone |
| Reassembly.IndependentExactlyWhen | src/solmesh/chunker.py:90-130 | keys are independent in all runs with given clock readings if and only if no three readings in order have the second more than the timeout after the first and the third not |
| Reassembly.RevivedInterferes | src/solmesh/chunker.py:121-130 | at any readings with three such, a run in which a call for one key costs another its data, whatever the two chunks hold |
| Reassembly.OrderedStaysExpired | src/solmesh/chunker.py:59-61 | a clock that does not run backwards meets the condition |
| Reassembly.BuffersFaithful | src/solmesh/chunker.py:47-112 | a buffer fed from one split holds only pieces of that data, under their numbers |
| Reassembly.OnlyOriginalDelivered | src/solmesh/chunker.py:18-112 | under any order, duplication, loss, expiry, interleaving and clock, a call returns the original data when it supplies the last missing index of the live buffer, and nothing otherwise |
| Reassembly.LiveBuffer | src/solmesh/chunker.py:47-130 | which chunks the live buffer holds and when it was opened, read off times and chunk numbers |
| Reassembly.DeliveredExactlyWhen | src/solmesh/chunker.py:90-112 | times and chunk numbers alone decide which calls return the data |
| Reassembly.EventuallyDelivered | src/solmesh/chunker.py:90-130 | when every index has been received and no buffer expired, some call has returned the data |
| Reassembly.QuickRunNeverExpires | src/solmesh/chunker.py:59-61 | calls of which none comes more than one timeout after an earlier one find no expired buffer |
| Reassembly.DeliveriesBounded | src/solmesh/chunker.py:90-112 | deliveries under a key times the chunks of the data never exceed the calls for the key, whatever the clock, order and other traffic |
| RateLimiting.TokenBucket.Consume | src/solmesh/rate_limiter.py:20-32 | the new bucket and the answer are those of lazy refill capped at the burst |
| RateLimiting.RateLimiter.IsAllowed | src/solmesh/rate_limiter.py:44-51 | the answer and the buckets are those the log of all requests and cleanups determines |
| RateLimiting.RateLimiter.CleanupStale | src/solmesh/rate_limiter.py:53-62 | drops exactly the buckets idle for longer than the age, and counts them |
| RateLimiting.StaleDropped | src/solmesh/rate_limiter.py:53-62 | a cleanup drops a bucket if and only if it was last refilled more than the age ago, and leaves every other as it is |
| RateBounds.FoundIsLeastAllowance | src/solmesh/rate_limiter.py:20-32 | the tokens a request finds are the least of burst − granted + rate·elapsed counted from each earlier request |
| RateBounds.DeniedExactlyWhen | src/solmesh/rate_limiter.py:20-32 | a request is denied if and only if, counted from some request up to it, one more would exceed burst + rate·elapsed; for any clock, burst and rate |
| RateBounds.WindowBound | src/solmesh/rate_limiter.py:20-51 | in any window of length T at most burst + rate·T requests of a sender are allowed |
| RateBounds.SendersIndependent | src/solmesh/rate_limiter.py:35-51 | without cleanups the answers to a sender depend only on the times of its own requests |
| RateBounds.CleanupsUnnoticed | src/solmesh/rate_limiter.py:44-62 | cleanups anywhere in a run change no answer if a bucket refills completely within each age used |
| RateBounds.CleanupInvisibleExactlyWhen | src/solmesh/rate_limiter.py:44-62 | cleanups of one age are unobservable in all runs if and only if age·rate ≥ burst, or the burst is below one token and nothing is ever granted |
| RateBounds.VisibleCleanup | src/solmesh/rate_limiter.py:53-62 | below that age, a run in which a cleanup changes an answer |
| Store.IntentStore.constructor | src/solmesh/store.py:69-76 | opening a queue keeps its length, turns every sending intent into itself as pending and leaves every other; none is sending |
| Store.IntentStore.RecoverSending | src/solmesh/store.py:108-123 | the same for a queue at hand: every sending intent becomes pending, all others stay, none is sending |
| Store.IntentStore.Add | src/solmesh/store.py:127-167 | appends unless a pending intent has the same wallet, recipient, amount and token |
| Store.IntentStore.Get | src/solmesh/store.py:176-181 | the first intent with the id, or none |
| Store.IntentStore.UpdateStatus | src/solmesh/store.py:183-201 | changes status, error and hash of that intent alone, and tells whether there is one |
| Store.IntentStore.IncrementAttempts | src/solmesh/store.py:203-217 | counts one attempt of that intent, failing it at its limit |
| Store.IntentStore.Remove | src/solmesh/store.py:219-227 | drops exactly the intents with the id, and tells whether there were any |
| Store.IntentStore.Clear | src/solmesh/store.py:229-239 | drops exactly the intents with the status, or all, and counts them |
| Store.IntentStore.PendingIntents | src/solmesh/store.py:241-245 | each pending intent as often as it is queued and nothing else, in order of creation |
| Store.OldestFirstSorts | src/solmesh/store.py:241-245 | the order is by creation time and keeps every intent as often as it occurs |
| Store.OldestFirstStable | src/solmesh/store.py:241-245 | the order is stable: intents created at the same time stay in queue order |
| Store.FilterKeeps | src/solmesh/store.py:219-239 | what stays is exactly what the condition keeps |
| Store.FilterConcat | src/solmesh/store.py:219-239 | filtering treats each part of the list by itself and so keeps the order |
| FlushRuns.NextKeeps | src/solmesh/client.py:467-608 | every step, by this flush or another process, crash included, keeps the invariant of queue, flush and dispatch counts |
| FlushRuns.RunKeeps | src/solmesh/client.py:467-608 | so every run does |
| FlushRuns.StatusesConsistent | src/solmesh/store.py:183-217 | after any run: pending or sending means attempts below the limit, failed means at the limit, sent means between 1 and the limit |
| FlushRuns.DispatchesAccounted | src/solmesh/client.py:467-557 | dispatches, raised ones included, are exactly the attempts counted, those a crash kept from being counted, and one more only between dispatch and count |
| FlushRuns.DispatchesBounded | src/solmesh/client.py:467-557 | an intent, removed or not, is dispatched at most limit + lost times, and at most one is lost a crash |
| FlushRuns.SentStays | src/solmesh/client.py:537-557 | once sent, an intent stays as it is until removed and is never dispatched again |
| FlushRuns.RecoveredQueue | src/solmesh/store.py:108-123 | recovering and starting a flush queues every intent that was pending or sending |
| FlushRuns.CrashedIsFlushed | src/solmesh/store.py:108-123 | after a crash at any point of any run, an intent left in sending is pending once the queue is reopened, and the next flush has it in its queue |
| FlushRuns.CountingLowersPotential | src/solmesh/store.py:203-217 | counting an attempt strictly lowers the attempts left to all open intents together |
| FlushRuns.PotentialNeverRises | src/solmesh/client.py:467-608 | no step but adding an intent raises it |
| FlushRuns.PotentialRecovered | src/solmesh/store.py:108-123 | recovery leaves it as it is |
| FlushRuns.AttemptsBounded | src/solmesh/client.py:467-608 | in every run no more attempts are counted than the limits of the accepted intents add up to |
| ClientFlush.ClientNode.FlushIntent | src/solmesh/client.py:467-557 | the queue and the answer on every path: wrong passphrase, other exceptions, unsupported mode, success, failure, timeout |
| ClientFlush.ClientNode.FlushAllPending | src/solmesh/client.py:559-608 | changes at most intents that are pending, of the wallet asked for if any, and with a passphrase given or cached; lists exactly these, oldest first, each with the answer of its own turn, up to the first whose turn finds the gateway offline |
| ClientFlush.FlushesAllDue | src/solmesh/client.py:559-608 | the same for every queue of distinct ids, with what each intent becomes: that of its own turn if it was flushed, unchanged otherwise |
| ClientFlush.OnlyDueChanged | src/solmesh/client.py:577-591 | whatever is changed is pending, of the wallet asked for if any, and has a passphrase |
| ClientFlush.AllDueListed | src/solmesh/client.py:577-608 | with the gateway online throughout, an intent is listed if and only if it is pending, of the wallet asked for if any, and has a passphrase |
| ClientFlush.FlushIsRun | src/solmesh/client.py:467-557 | an uninterrupted flush of one intent is a run of the transition system |
| ClientFlush.FlushAllIsRun | src/solmesh/client.py:559-608 | so is flushing all pending intents, from any reachable queue |
| ClientFlush.FlushedInPlace | src/solmesh/client.py:467-557 | a flush changes the flushed intent alone, and what each path makes of it |
| ClientFlush.AnswerAgrees | src/solmesh/client.py:521-557 | what the caller is told agrees with what the queue keeps: status, attempts, hash and error |
| ClientFlush.RetriedExactlyWhen | src/solmesh/client.py:521-557 | a flushed intent is in the next flush if and only if it is neither sent nor out of attempts and its dispatch raised nothing but a wrong passphrase: any other exception leaves it in sending until the queue is reopened, and then it is in the next flush as well |
| ClientFlush.WrongPassphraseCostsNothing | src/solmesh/client.py:521-527 | a wrong passphrase dispatches nothing and counts nothing |
| ClientFlush.FlushLowersPotential | src/solmesh/client.py:521-557 | a completed flush strictly lowers the attempts left, unless the passphrase was wrong, which leaves them equal |
| Gateway.SignedBytesAgree | src/solmesh/client.py:282-328 | the bytes the gateway verifies are the bytes the client signed, for SOL and tokens, whatever the memo |
| Gateway.SignedBytesInjective | src/solmesh/gateway.py:256-264 | the signed bytes determine sender, destination, amount, flags and mint |
| Gateway.SignedAsClient | src/solmesh/gateway.py:256-264 | a request signed with a client's bytes asks for that client's transfer |
| Gateway.DecodedWellFormed | src/solmesh/protocol.py:157-194 | decoded fields have their lengths, and a mint goes with its flag |
| Gateway.GatewayNode.CheckRateLimit | src/solmesh/gateway.py:174-186 | charges the sender and answers a refusal with a NACK |
| Gateway.GatewayNode.HandleTxChunk | src/solmesh/gateway.py:188-224 | rate check, ACK, reassembly and broadcast of completed data, as a function of all arrivals; `BroadcastsExactly` and `ChunkReplies` say which function |
| Gateway.GatewayNode.HandleTxRequest | src/solmesh/gateway.py:226-367 | rate check, decision, payment or NACK, as a function of all arrivals; `RequestReplies` says which function |
| Gateway.GatewayNode.Judge | src/solmesh/gateway.py:240-352 | the checks in their order; `DecisionCodes` gives the condition of each refusal |
| Gateway.GatewayNode.HandleQuery | src/solmesh/gateway.py:369-430 | balance and blockhash requests charge the same rate limiter |
| GatewayRuns.PaymentsAuthorised | src/solmesh/gateway.py:226-367 | every payment of every run carries a valid signature of an allowed requester and is within the limits, 10^9 lamports a SOL and 10^decimals base units a token |
| GatewayRuns.PaymentsWithinMaximum | src/solmesh/gateway.py:286-319 | in every run a payment is at most the configured SOL times 10^9, or the configured tokens times 10^decimals, where that is not negative |
| GatewayRuns.TruncatedLimit | src/solmesh/gateway.py:304-313 | comparing with the truncated limit is comparing with the limit itself, but for a zero amount under a limit between -1 and 0 |
| GatewayRuns.PowerAdds | src/solmesh/gateway.py:304 | ten to the power of a sum is the product, and ten to the power 1 is 10 |
| GatewayRuns.PaysExactlyWhen | src/solmesh/gateway.py:240-367 | a request is paid if and only if it decodes, is signed, allowed, known and within the limits, and node and builder do their part |
| GatewayRuns.BroadcastsExactly | src/solmesh/gateway.py:188-224 | in every run the reassembler gets exactly the chunks the rate limiter serves, and what is broadcast is exactly what it completes, once each, in order |
| GatewayRuns.ChunkReplies | src/solmesh/gateway.py:188-224 | in every run a chunk is answered by a NACK if it is not served, else by one ACK of its number followed by one result if and only if it completes the data |
| GatewayRuns.RequestReplies | src/solmesh/gateway.py:226-367 | in every run a request gets exactly one reply: each NACK code if and only if its condition holds, the result if and only if it is paid |
| GatewayRuns.DecisionCodes | src/solmesh/gateway.py:240-352 | the condition of each refusal of a served request and of its payment; one of them holds |
| GatewayRuns.PaysOnlyWhatWasAsked | src/solmesh/gateway.py:256-272 | with unforgeable signatures, every payment has destination, amount and token that its key holder asked for |
| GatewayRuns.PaidRepeatedlyExactlyWhen | src/solmesh/gateway.py:226-367 | a request carries nothing that is used up: for every n > 0, runs in which one signed request is paid n times exist if and only if it is payable at all and the rate limiter has a token to give |
| GatewayRuns.ChargesAreRequests | src/solmesh/gateway.py:174-186 | every arrival is charged exactly once to its sender |
| GatewayRuns.ServedBounded | src/solmesh/gateway.py:174-186 | in every run and any window of length T, at most burst + rate·T arrivals of one sender are served |
| GatewayRuns.TransfersWithinServed | src/solmesh/gateway.py:226-236 | no more transfers are made for a sender in a window than requests of it are served there |
| GatewayRuns.TransfersBounded | src/solmesh/gateway.py:226-367 | in every run and any window of length T, the hot wallet makes at most burst + rate·T transfers of any kind for one mesh sender |
| GatewayRuns.OutflowBounded | src/solmesh/gateway.py:226-367 | in every run and any window of length T, the hot wallet pays for one mesh sender nothing or at most (burst + rate·T) times the configured maximum: SOL times 10^9 lamports, or tokens times 10^decimals base units |
| RetryLoop.Transfers.RelayRawTx | src/solmesh/client.py:173-192 | splits the transaction and starts tracking its id with no chunk acknowledged |
| RetryLoop.Transfers.HandleAck | src/solmesh/client.py:624-633 | a tracked message id gains exactly the chunk the payload names, and no id becomes tracked |
| RetryLoop.SendChunks | src/solmesh/mesh.py:112-123 | transmits in order, ends at the first refused transmission, and is a run of the machine |
| RetryLoop.Resend | src/solmesh/client.py:785-787 | retransmits each unacknowledged chunk once, in order, whatever the radio answers, and is a run of the machine |
| RetryLoop.Run | src/solmesh/client.py:756-802 | against any behaviour of the world the loop ends, as a run of the machine, with its transmissions, waiting time and report |
| RetryLoop.TransmissionsArePlanned | src/solmesh/client.py:756-802 | the transmissions are exactly the first pass and then, round by round, the chunks the check before found unacknowledged |
| RetryLoop.TransmissionsCounted | src/solmesh/client.py:756-802 | a chunk is transmitted once if the first pass reached it, plus once for each check that missed its ACK; at most 1 + MAX_RETRIES times |
| RetryLoop.NeverAfterAcknowledged | src/solmesh/client.py:771-787 | a chunk found acknowledged is not transmitted in any later round |
| RetryLoop.ReportedExactlyWhen | src/solmesh/client.py:789-802 | a failure is reported if and only if the last check finds a chunk unacknowledged, and it counts them |
| RetryLoop.WaitBounded | src/solmesh/client.py:770-787 | the loop waits at most 2(n−1) + 3(30 + 10n) seconds for n chunks |
| RetryLoop.SleptExactly | src/solmesh/client.py:766-787 | at every moment the seconds waited are exactly 2 for each first-pass transmission followed by another, 30 for each of the first three checks, 10 for each retransmission |
| RetryLoop.NobodyAnswers | src/solmesh/client.py:766-802 | n chunks that are never acknowledged, of which the radio takes the first pass: the loop reports all n after 4n transmissions and exactly 2(n−1) + 3(30 + 10n) seconds |
| Relay.NextKeeps | src/solmesh/gateway.py:188-224 | every step of sender, radio, gateway and other traffic keeps the invariant of the whole system |
| Relay.AckedWereAcceptedWereSent | src/solmesh/client.py:624-633 | in every run the acknowledged chunks were accepted by the gateway, and the accepted chunks were taken by the sender's radio |
| Relay.NothingElseReassembled | src/solmesh/gateway.py:188-224 | in every run, whatever the clock, the gateway reassembles nothing under the key but the original bytes |
| Relay.ReassembledOnce | src/solmesh/chunker.py:90-130 | when every chunk has been accepted among other traffic and the buffer never expired, the data has been reassembled |
| Relay.DeliveredWhenAcknowledged | src/solmesh/gateway.py:188-224 | when the sender has every chunk acknowledged, what had expired stayed expired and the buffer for the session never did, the gateway has reassembled the original bytes and broadcast them, and has broadcast nothing else for the session |
| Relay.SilentEndMeansDelivered | src/solmesh/client.py:776-778 | under the same conditions, a loop that ends without a report means delivery |
| Relay.SilenceForOneChunk | src/solmesh/client.py:776-778 | for a transaction of one chunk, a loop that ends without a report means delivery in every run, whatever the clock does |
| Relay.SessionBroadcasts | src/solmesh/gateway.py:209-224 | in every run what the gateway broadcasts for the session is the original bytes, once each time they are completed; that many times the chunks is at most the chunks accepted for it; every other broadcast completes other traffic |
| RelayCapacity.ReassembledFitsBudget | src/solmesh/gateway.py:188-224 | with a clock that does not run backwards, a transaction that is reassembled at all, after whatever expiries and retransmissions, has at most burst + rate·120 s chunks, and the burst is at least 1 |
| RelayCapacity.SilenceIsAcceptable | src/solmesh/client.py:776-778 | a loop that ends without a report takes a burst of at least 1, and a rate above 0 or no more chunks than the burst |
| RelayRuns.ReassembledExactlyWhen | src/solmesh/gateway.py:188-224 | with a clock that does not run backwards, some run reassembles the transaction if and only if it is within that budget; the same for runs whose times agree with the sender's waits |
| RelayRuns.DeliverableExactlyWhen | src/solmesh/client.py:776-778 | the same for runs that also end without a report |
| RelayRuns.ReportMeansLossExactlyWhen | src/solmesh/client.py:789-802 | the same for runs that end with a report of failure: so a report means that the data never came out if and only if the transaction exceeds the budget |
| RelayRuns.SilenceMeansDeliveryExactlyWhen | src/solmesh/client.py:776-778 | with a clock that does not run backwards, some run ends without a report and never reassembles the transaction if and only if it has several chunks and all of them can be accepted at all |
| RelayRuns.SilentLossInStep | src/solmesh/client.py:770-787 | such a run within the sender's waits: the first chunk at 0 s, the second at 121 s, the others every 32 s |
| RelayRuns.DefaultLosesSilently | src/solmesh/config.py:48-49 | with the default limits that is every transaction of several chunks |
| RelayCapacity.DefaultBudget | src/solmesh/config.py:48-49 | with the default limits the budget is 23 chunks |

## Left out

- FrameDetection.LengthLowered: one damaged bit in the length byte is not always noticed, because the checksum then covers other bytes; the lemma gives the exact condition and `ClearedLengthMissed` an instance.
- FrameDetection.TwoFlips: distances are those in the code word, so two bits either side of byte 9 count as 8 bits closer than in the frame.
- Chunker.ChunkPayload: the random message id is a parameter.
- Gateway.GatewayNode.Judge: exceptions outside the handler's own `try` blocks, such as a public key the Solana library rejects, are not modelled; the dispatcher logs them and sends nothing.
- Gateway.GatewayNode.HandleQuery: the answers to balance and blockhash requests are left out.
- GatewayRuns.OutflowBounded: counts the amounts asked for; network fees and the rent for a recipient's new token account are not modelled, but each belongs to a transfer, and `TransfersBounded` bounds those.
- GatewayRuns.PaysOnlyWhatWasAsked: says nothing on how often; `PaidRepeatedlyExactlyWhen` does.
- Gateway.SignedBytesAgree: the memo is not part of the signed bytes, in the code as in the model.
- Relay.DeliveredWhenAcknowledged: damage and forgery on the radio are not part of the system; what a receiver makes of damaged frames is in `frame_detection.dfy`.
- RelayRuns.ReportMeansLossExactlyWhen: a NACK also puts a failure into the client's results while the retries go on; results other than the loop's report are not modelled.
- RetryLoop.Run: sending on a closed interface raises (`src/solmesh/mesh.py:94-95`), which ends the source's loop without a report; here every transmission is taken or refused.
- Relay.SilentEndMeansDelivered: needs what the sender cannot see, that the buffer never expired; `SilenceMeansDeliveryExactlyWhen` says when silence alone is enough.
- Store.IntentStore.RecoverSending: the `updated_at` field is left out.
- Store.IntentStore.IncrementAttempts: the `updated_at` field is left out.
- Store.IntentStore.UpdateStatus: the `updated_at` field is left out; nothing reads it.
- ClientFlush.ClientNode.FlushIntent: the error of an unsupported mode lacks the number the source appends.
- The JSON file, its lock and its permissions: each store operation is one atomic step, and unlocked loads and saves that overlap are not modelled.
- No two pending intents with the same parameters: not an invariant, since `add` compares with pending intents only and a sending one may return to pending.
- UTF-8: which memos decode is a parameter.
- Balance, blockhash, beacon, result, address-share and NACK payload codecs: fixed layouts that would add only easy round trips.
- Wallet encryption, key derivation, Ed25519 and Solana instruction building: foreign libraries.
- Meshtastic device I/O, the beacon thread, the HTTP API, the command line and configuration loading: plumbing.
- The address-share exchange with its own small retry loop (`src/solmesh/client.py:196-222`): one chunk, no reassembly.
