/** What a reassembler returns over whole runs, stated on the log of its calls. */
module Reassembly {
  import opened Bytes
  import opened Chunker

  // ---------------------------------------------------------------- runs

  ghost predicate Monotone(log: seq<Call>) {
    forall i, j :: 0 <= i < j < |log| ==> log[i].now <= log[j].now
  }

  /** The calls for one key, in order. */
  function OnlyKey(log: seq<Call>, k: Key): seq<Call> {
    if log == [] then []
    else
      var front, last := log[..|log| - 1], log[|log| - 1];
      if last.key == k then OnlyKey(front, k) + [last] else OnlyKey(front, k)
  }

  /** The outcomes of the calls for one key, in order. */
  function OutcomesFor(log: seq<Call>, k: Key): seq<Outcome> {
    if log == [] then []
    else
      var front, last := log[..|log| - 1], log[|log| - 1];
      if last.key == k then OutcomesFor(front, k) + [LastOutcome(log)] else OutcomesFor(front, k)
  }

  // ---------------------------------------------------------------- keys do not interfere

  /** The clock readings of the calls. */
  function Times(log: seq<Call>): (ts: seq<real>)
    ensures |ts| == |log| && forall i :: 0 <= i < |log| ==> ts[i] == log[i].now
  {
    seq(|log|, i requires 0 <= i < |log| => log[i].now)
  }

  /** What was opened at one reading and has expired at a later one is expired at all that follow. */
  ghost predicate StaysExpired(ts: seq<real>) {
    forall i, j, l :: 0 <= i < j < l < |ts| && ts[j] - ts[i] > CHUNK_REASSEMBLY_TIMEOUT ==>
      ts[l] - ts[i] > CHUNK_REASSEMBLY_TIMEOUT
  }

  /** A clock that never runs backwards will do. */
  lemma OrderedStaysExpired(log: seq<Call>)
    requires Monotone(log)
    ensures StaysExpired(Times(log))
  {
    forall j, l | 0 <= j < l < |log| ensures Times(log)[j] <= Times(log)[l] {
      assert log[j].now <= log[l].now;
    }
  }

  predicate AgreeOn(a: Buffers, b: Buffers, k: Key) {
    (k in a <==> k in b) && (k in a ==> a[k] == b[k])
  }

  lemma ReceivedElsewhere(bs: Buffers, c: Call, k: Key)
    requires c.key != k
    ensures AgreeOn(Received(bs, c).0, Cleaned(bs, c.now), k)
  {}

  lemma ReceivedAgrees(a: Buffers, b: Buffers, c: Call)
    requires AgreeOn(Cleaned(a, c.now), Cleaned(b, c.now), c.key)
    ensures AgreeOn(Received(a, c).0, Received(b, c).0, c.key)
    ensures Received(a, c).1 == Received(b, c).1
  {}

  lemma AgreeCleaned(a: Buffers, b: Buffers, k: Key, now: real)
    requires AgreeOn(a, b, k)
    ensures AgreeOn(Cleaned(a, now), Cleaned(b, now), k)
  {}

  /** A buffer was opened at the time of some call. */
  lemma {:induction false} OpenedAtCall(log: seq<Call>, k: Key) returns (i: nat)
    requires k in State(log)
    ensures i < |log| && State(log)[k].createdAt == log[i].now
  {
    var front, c := log[..|log| - 1], log[|log| - 1];
    if c.key == k && k !in Cleaned(State(front), c.now) {
      i := |log| - 1;
    } else {
      OpenedEarlier(State(front), c, k);
      i := OpenedAtCall(front, k);
    }
  }

  lemma OpenedEarlier(bs: Buffers, c: Call, k: Key)
    requires k in Received(bs, c).0 && (c.key != k || k in Cleaned(bs, c.now))
    ensures k in bs && Received(bs, c).0[k].createdAt == bs[k].createdAt
  {}

  /** Cleaning at an earlier call for another key takes nothing that cleaning at `now` would have left. */
  lemma CleanedBetween(front: seq<Call>, c: Call, now: real, k: Key)
    requires StaysExpired(Times(front) + [c.now] + [now])
    ensures AgreeOn(Cleaned(Cleaned(State(front), c.now), now), Cleaned(State(front), now), k)
  {
    if k in State(front) {
      var i := OpenedAtCall(front, k);
      var ts := Times(front) + [c.now] + [now];
      assert ts[i] == front[i].now && ts[|front|] == c.now && ts[|front| + 1] == now;
    }
  }

  /** Leaving out readings keeps the property. */
  lemma StaysExpiredShorter(ts: seq<real>, t: real, now: real)
    requires StaysExpired(ts + [t] + [now])
    ensures StaysExpired(ts + [t]) && StaysExpired(ts + [now])
  {
    var all, before, without := ts + [t] + [now], ts + [t], ts + [now];
    assert forall i :: 0 <= i < |before| ==> before[i] == all[i];
    forall i, j, l | 0 <= i < j < l < |without| && without[j] - without[i] > CHUNK_REASSEMBLY_TIMEOUT
      ensures without[l] - without[i] > CHUNK_REASSEMBLY_TIMEOUT
    {
      var l' := if l == |ts| then l + 1 else l;
      assert all[i] == without[i] && all[j] == without[j] && all[l'] == without[l];
    }
  }

  lemma TimesOfLast(log: seq<Call>)
    requires log != []
    ensures Times(log) == Times(log[..|log| - 1]) + [log[|log| - 1].now]
  {}

  /** Up to buffers that have expired meanwhile, the buffer of a key is the one its own calls build. */
  lemma {:induction false} SameBuffer(log: seq<Call>, k: Key, now: real)
    requires StaysExpired(Times(log) + [now])
    ensures AgreeOn(Cleaned(State(log), now), Cleaned(State(OnlyKey(log, k)), now), k)
  {
    if log != [] {
      var front, c := log[..|log| - 1], log[|log| - 1];
      TimesOfLast(log);
      StaysExpiredShorter(Times(front), c.now, now);
      if c.key == k {
        SameBuffer(front, k, c.now);
        SameAfterOwn(log, k, now);
      } else {
        SameBuffer(front, k, now);
        SameAfterOther(log, k, now);
      }
    }
  }

  lemma SameAfterOwn(log: seq<Call>, k: Key, now: real)
    requires log != [] && log[|log| - 1].key == k
    requires var front, c := log[..|log| - 1], log[|log| - 1];
             AgreeOn(Cleaned(State(front), c.now), Cleaned(State(OnlyKey(front, k)), c.now), k)
    ensures AgreeOn(Cleaned(State(log), now), Cleaned(State(OnlyKey(log, k)), now), k)
  {
    var front, c := log[..|log| - 1], log[|log| - 1];
    ReceivedAgrees(State(front), State(OnlyKey(front, k)), c);
    assert OnlyKey(log, k)[..|OnlyKey(log, k)| - 1] == OnlyKey(front, k);
    AgreeCleaned(State(log), State(OnlyKey(log, k)), k, now);
  }

  lemma SameAfterOther(log: seq<Call>, k: Key, now: real)
    requires log != [] && log[|log| - 1].key != k && StaysExpired(Times(log) + [now])
    requires var front := log[..|log| - 1];
             AgreeOn(Cleaned(State(front), now), Cleaned(State(OnlyKey(front, k)), now), k)
    ensures AgreeOn(Cleaned(State(log), now), Cleaned(State(OnlyKey(log, k)), now), k)
  {
    var front, c := log[..|log| - 1], log[|log| - 1];
    TimesOfLast(log);
    CleanedBetween(front, c, now, k);
    ReceivedElsewhere(State(front), c, k);
    AgreeCleaned(State(log), Cleaned(State(front), c.now), k, now);
  }

  /** When an expired buffer stays expired, what the calls for one key return does not depend on the calls for other
      keys, although those expire its buffer. */
  lemma {:induction false} NonInterference(log: seq<Call>, k: Key)
    requires StaysExpired(Times(log))
    ensures OutcomesFor(log, k) == OutcomesFor(OnlyKey(log, k), k)
  {
    if log != [] {
      var front, c := log[..|log| - 1], log[|log| - 1];
      TimesOfLast(log);
      assert StaysExpired(Times(front)) by {
        assert forall i :: 0 <= i < |front| ==> Times(front)[i] == Times(log)[i];
      }
      NonInterference(front, k);
      if c.key == k {
        var solo := OnlyKey(log, k);
        assert solo[..|solo| - 1] == OnlyKey(front, k);
        SameBuffer(front, k, c.now);
        ReceivedAgrees(State(front), State(OnlyKey(front, k)), c);
      }
    }
  }

  // ---------------------------------------------------------------- and only then

  /** At these readings no run lets the calls for one key change the results for another. */
  ghost predicate KeysIndependent(ts: seq<real>) {
    forall log, k | Times(log) == ts :: OutcomesFor(log, k) == OutcomesFor(OnlyKey(log, k), k)
  }

  const MINE := Key("a", 0)
  const OTHER := Key("b", 0)

  /** `a` and `b` under one key, at readings `i` and `l`; everything else goes to another key. */
  function Split(ts: seq<real>, i: nat, l: nat, a: Bytes, b: Bytes): (log: seq<Call>)
    ensures |log| == |ts| && Times(log) == ts
  {
    seq(|ts|, p requires 0 <= p < |ts| =>
      if p == i then Call(ts[p], MINE, 0, 2, a) else if p == l then Call(ts[p], MINE, 1, 2, b)
      else Call(ts[p], OTHER, 0, 2, []))
  }

  /** Another key's call leaves a buffer as it is, or expires it. */
  lemma PassedOver(bs: Buffers, c: Call, k: Key, since: real)
    requires c.key != k && (k in bs ==> bs[k].createdAt == since)
    ensures var after := Received(bs, c).0;
            k in after ==> k in bs && after[k].createdAt == since && c.now - since <= CHUNK_REASSEMBLY_TIMEOUT
  {
    ReceivedElsewhere(bs, c, k);
  }

  lemma OpenedNow(bs: Buffers, c: Call)
    requires c.key !in bs
    ensures c.key in Received(bs, c).0 ==> Received(bs, c).0[c.key].createdAt == c.now
  {}

  lemma {:induction false} NeverOpened(log: seq<Call>, k: Key)
    requires forall p :: 0 <= p < |log| ==> log[p].key != k
    ensures k !in State(log)
  {
    if log != [] {
      NeverOpened(log[..|log| - 1], k);
      ReceivedElsewhere(State(log[..|log| - 1]), log[|log| - 1], k);
    }
  }

  ghost predicate HeldSince(bs: Buffers, k: Key, since: real) {
    k in bs ==> bs[k].createdAt == since
  }

  ghost predicate OnlyCall(log: seq<Call>, k: Key, i: nat) {
    i < |log| && log[i].key == k && forall p :: 0 <= p < |log| && p != i ==> log[p].key != k
  }

  /** Without further calls for the key, its buffer is the one call `i` opened. */
  lemma {:induction false} OpenedOnce(log: seq<Call>, k: Key, i: nat)
    requires OnlyCall(log, k, i)
    ensures HeldSince(State(log), k, log[i].now)
  {
    var front, c := log[..|log| - 1], log[|log| - 1];
    if |front| == i {
      NeverOpened(front, k);
      OpenedNow(State(front), c);
    } else {
      OpenedOnce(front, k, i);
      PassedOver(State(front), c, k, log[i].now);
    }
  }

  /** An expired reading takes it. */
  lemma {:induction false} ExpiredByCall(log: seq<Call>, k: Key, i: nat, j: nat)
    requires OnlyCall(log, k, i) && i < j < |log| && log[j].now - log[i].now > CHUNK_REASSEMBLY_TIMEOUT
    ensures k !in State(log)
  {
    var front, c := log[..|log| - 1], log[|log| - 1];
    if |front| == j {
      OpenedOnce(front, k, i);
    } else {
      ExpiredByCall(front, k, i, j);
    }
    PassedOver(State(front), c, k, log[i].now);
  }

  /** A chunk that opens a buffer of two returns nothing. */
  lemma OpensHalf(bs: Buffers, c: Call)
    requires c.key !in Cleaned(bs, c.now) && c.total == 2
    ensures Received(bs, c) == (Cleaned(bs, c.now)[c.key := Buffer(2, map[c.chunkNum := c.payload], c.now)], Nothing)
  {
    assert |map[c.chunkNum := c.payload]| == 1;
  }

  /** The second chunk, in time, returns the data. */
  lemma CompletesHalf(bs: Buffers, c: Call, first: Bytes, since: real)
    requires c.key in bs && bs[c.key] == Buffer(2, map[0 := first], since)
    requires c.now - since <= CHUNK_REASSEMBLY_TIMEOUT && c.chunkNum == 1
    ensures Received(bs, c).1 == Complete(first + c.payload)
  {
    JoinTwo(map[0 := first][1 := c.payload]);
  }

  lemma JoinTwo(chunks: map<nat, Bytes>)
    requires chunks.Keys == {0, 1}
    ensures |chunks| == 2 && HasAll(chunks, 2) && Joined(chunks, 2) == chunks[0] + chunks[1]
  {
    assert |chunks| == |chunks.Keys|;
    assert Joined(chunks, 1) == [] + chunks[0];
  }

  lemma OneMoreCall(log: seq<Call>, c: Call, k: Key)
    ensures OnlyKey(log + [c], k) == OnlyKey(log, k) + if c.key == k then [c] else []
    ensures OutcomesFor(log + [c], k) == OutcomesFor(log, k) + if c.key == k then [Received(State(log), c).1] else []
    ensures State(log + [c]) == Received(State(log), c).0
  {
    assert (log + [c])[..|log|] == log;
  }

  /** The key's own two calls deliver. */
  lemma AloneDelivers(c: Call, d: Call)
    requires c.key == d.key && c.total == 2 && c.chunkNum == 0 && d.chunkNum == 1
    requires d.now - c.now <= CHUNK_REASSEMBLY_TIMEOUT
    ensures OutcomesFor([] + [c] + [d], c.key) == [Nothing, Complete(c.payload + d.payload)]
  {
    OneMoreCall([], c, c.key);
    OneMoreCall([] + [c], d, c.key);
    OpensHalf(map[], c);
    CompletesHalf(State([] + [c]), d, c.payload, c.now);
  }

  /** What the first `m` calls have returned for the key, and which calls were for it. */
  ghost predicate LostUpTo(log: seq<Call>, i: nat, l: nat, m: nat)
    requires i < l < |log| && m <= |log|
  {
    Lost(OutcomesFor(log[..m], MINE), OnlyKey(log[..m], MINE), log, i, l, m)
  }

  ghost predicate Lost(outcomes: seq<Outcome>, solo: seq<Call>, log: seq<Call>, i: nat, l: nat, m: nat)
    requires i < l < |log|
  {
    && outcomes == (if m <= i then [] else if m <= l then [Nothing] else [Nothing, Nothing])
    && solo == (if m <= i then [] else if m <= l then [log[i]] else [log[i], log[l]])
  }

  lemma LostNext(outcomes: seq<Outcome>, solo: seq<Call>, log: seq<Call>, i: nat, l: nat, m: nat)
    requires i < l < |log| && m < |log| && Lost(outcomes, solo, log, i, l, m)
    ensures var own := m == i || m == l;
            Lost(outcomes + (if own then [Nothing] else []), solo + (if own then [log[m]] else []), log, i, l, m + 1)
  {}

  /** The interleaved run returns nothing for the key. */
  lemma {:induction false} SplitLoses(log: seq<Call>, i: nat, j: nat, l: nat, m: nat)
    requires i < j < l < |log| && m <= |log| && log[j].now - log[i].now > CHUNK_REASSEMBLY_TIMEOUT
    requires forall p :: 0 <= p < |log| ==> log[p].total == 2 && (log[p].key == MINE <==> p == i || p == l)
    ensures LostUpTo(log, i, l, m)
  {
    if m > 0 {
      SplitLoses(log, i, j, l, m - 1);
      if m - 1 == i || m - 1 == l {
        ReturnsNothing(log, i, j, l, m - 1);
      }
      LosesNext(log, i, l, m - 1);
    }
  }

  lemma LosesNext(log: seq<Call>, i: nat, l: nat, m: nat)
    requires i < l < |log| && m < |log| && LostUpTo(log, i, l, m)
    requires log[m].key == MINE <==> m == i || m == l
    requires m == i || m == l ==> Received(State(log[..m]), log[m]).1 == Nothing
    ensures LostUpTo(log, i, l, m + 1)
  {
    assert log[..m + 1] == log[..m] + [log[m]];
    OneMoreCall(log[..m], log[m], MINE);
    LostNext(OutcomesFor(log[..m], MINE), OnlyKey(log[..m], MINE), log, i, l, m);
  }

  lemma ReturnsNothing(log: seq<Call>, i: nat, j: nat, l: nat, m: nat)
    requires i < j < l < |log| && log[j].now - log[i].now > CHUNK_REASSEMBLY_TIMEOUT
    requires forall p :: 0 <= p < |log| ==> log[p].total == 2 && (log[p].key == MINE <==> p == i || p == l)
    requires m == i || m == l
    ensures Received(State(log[..m]), log[m]).1 == Nothing
  {
    var before := log[..m];
    if m == i {
      NeverOpened(before, MINE);
    } else {
      ExpiredByCall(before, MINE, i, j);
    }
    OpensHalf(State(before), log[m]);
  }

  /** Keys are independent in all runs at these clock readings exactly when an expired buffer stays expired. */
  lemma IndependentExactlyWhen(ts: seq<real>)
    ensures KeysIndependent(ts) <==> StaysExpired(ts)
  {
    if StaysExpired(ts) {
      forall log, k | Times(log) == ts ensures OutcomesFor(log, k) == OutcomesFor(OnlyKey(log, k), k) {
        NonInterference(log, k);
      }
    } else {
      var i, j, l :| 0 <= i < j < l < |ts| && ts[j] - ts[i] > CHUNK_REASSEMBLY_TIMEOUT
                     && ts[l] - ts[i] <= CHUNK_REASSEMBLY_TIMEOUT;
      RevivedInterferes(ts, i, j, l, [], []);
    }
  }

  /** A buffer that another key's call expires at reading `j` would have been live again at reading `l`. */
  lemma RevivedInterferes(ts: seq<real>, i: nat, j: nat, l: nat, a: Bytes, b: Bytes)
    requires i < j < l < |ts|
    requires ts[j] - ts[i] > CHUNK_REASSEMBLY_TIMEOUT && ts[l] - ts[i] <= CHUNK_REASSEMBLY_TIMEOUT
    ensures var log := Split(ts, i, l, a, b);
            && OutcomesFor(log, MINE) == [Nothing, Nothing]
            && OutcomesFor(OnlyKey(log, MINE), MINE) == [Nothing, Complete(a + b)]
    ensures !KeysIndependent(ts)
  {
    var log := Split(ts, i, l, a, b);
    SplitLoses(log, i, j, l, |ts|);
    assert log[..|ts|] == log;
    assert [] + [log[i]] + [log[l]] == [log[i], log[l]];
    AloneDelivers(log[i], log[l]);
    assert Times(log) == ts;
  }

  // ---------------------------------------------------------------- only the data that was split comes out

  /** Every call for the key carries a piece of `data`, as ChunkPayload numbers them. */
  ghost predicate AllFrom(log: seq<Call>, k: Key, data: Bytes) {
    forall i :: 0 <= i < |log| && log[i].key == k ==>
      var c := log[i];
      c.total == Total(|data|) && c.chunkNum < c.total && c.payload == Piece(data, c.chunkNum)
  }

  ghost predicate Faithful(b: Buffer, data: Bytes) {
    && b.total == Total(|data|)
    && forall i :: i in b.chunks ==> i < b.total && b.chunks[i] == Piece(data, i)
  }

  function Range(n: nat): (s: set<nat>)
    ensures forall i: nat :: i in s <==> i < n
    ensures |s| == n
  {
    if n == 0 then {} else Range(n - 1) + {n - 1}
  }

  lemma SubsetOfSameSize(s: set<nat>, t: set<nat>)
    requires s <= t && |s| == |t|
    ensures s == t
  {
    assert |t - s| == |t| - |s| by {
      assert t == s + (t - s);
    }
    assert t - s == {};
  }

  lemma CountIsCover(b: Buffer, data: Bytes)
    requires Faithful(b, data)
    ensures |b.chunks| == b.total <==> b.chunks.Keys == Range(b.total)
    ensures |b.chunks| == b.total ==> HasAll(b.chunks, b.total) && Joined(b.chunks, b.total) == data
  {
    assert |b.chunks| == |b.chunks.Keys|;
    if |b.chunks| == b.total {
      SubsetOfSameSize(b.chunks.Keys, Range(b.total));
      assert forall i: nat :: i < b.total ==> i in b.chunks.Keys;
      JoinedPieces(data, b.chunks, b.total);
      assert data[..|data|] == data;
    }
  }

  lemma FaithfulKept(bs: Buffers, c: Call, data: Bytes)
    requires c.key in bs ==> Faithful(bs[c.key], data)
    requires c.total == Total(|data|) && c.chunkNum < c.total && c.payload == Piece(data, c.chunkNum)
    ensures c.key in Received(bs, c).0 ==> Faithful(Received(bs, c).0[c.key], data)
  {
    assert Faithful(Opened(bs, c), data);
    assert Faithful(Filled(bs, c), data);
  }

  lemma {:induction false} BuffersFaithful(log: seq<Call>, k: Key, data: Bytes)
    requires AllFrom(log, k, data)
    ensures k in State(log) ==> Faithful(State(log)[k], data)
  {
    if log != [] {
      var front, c := log[..|log| - 1], log[|log| - 1];
      BuffersFaithful(front, k, data);
      if c.key == k {
        FaithfulKept(State(front), c, data);
      } else {
        ReceivedElsewhere(State(front), c, k);
      }
    }
  }

  /** Whatever the order, duplication, loss, expiry, interleaving or clock, a call for the key returns nothing or the
      original data; and it returns the data exactly when it supplies the last missing index of the live buffer. */
  lemma OnlyOriginalDelivered(log: seq<Call>, k: Key, data: Bytes)
    requires log != [] && log[|log| - 1].key == k && AllFrom(log, k, data)
    ensures var b := Filled(State(log[..|log| - 1]), log[|log| - 1]);
            LastOutcome(log) == if b.chunks.Keys == Range(Total(|data|)) then Complete(data) else Nothing
  {
    var front, c := log[..|log| - 1], log[|log| - 1];
    BuffersFaithful(front, k, data);
    CountIsCover(Filled(State(front), c), data);
  }

  // ---------------------------------------------------------------- the live buffer, read off the log

  /** The chunk numbers received by calls `s` to `j`. */
  function Nums(log: seq<Call>, s: nat, j: nat): set<nat>
    requires s <= j < |log|
    decreases j
  {
    if j == s then {log[j].chunkNum} else Nums(log, s, j - 1) + {log[j].chunkNum}
  }

  /** The call that opened the buffer call `j` adds to: a buffer lasts until it holds all `n` chunks or is older than
      the timeout. */
  function OpenedBy(log: seq<Call>, n: nat, j: nat): (s: nat)
    requires j < |log|
    ensures s <= j
  {
    if j == 0 then 0
    else
      var s := OpenedBy(log, n, j - 1);
      if Nums(log, s, j - 1) == Range(n) || TimedOut(log, s, j) then j else s
  }

  predicate TimedOut(log: seq<Call>, s: nat, j: nat)
    requires s < |log| && j < |log|
  {
    log[j].now - log[s].now > CHUNK_REASSEMBLY_TIMEOUT
  }

  ghost predicate Solo(log: seq<Call>, k: Key) {
    forall i :: 0 <= i < |log| ==> log[i].key == k
  }

  /** The buffer after call `j`, read off the log. */
  ghost predicate BufferMatches(bs: Buffers, log: seq<Call>, k: Key, n: nat, j: nat)
    requires j < |log|
  {
    var s := OpenedBy(log, n, j);
    && (k in bs <==> Nums(log, s, j) != Range(n))
    && (k in bs ==> bs[k].createdAt == log[s].now && bs[k].chunks.Keys == Nums(log, s, j))
  }

  /** The buffer call `j` fills, read off the log. */
  ghost predicate FilledMatches(b: Buffer, log: seq<Call>, n: nat, j: nat)
    requires j < |log|
  {
    var s := OpenedBy(log, n, j);
    b.createdAt == log[s].now && b.chunks.Keys == Nums(log, s, j)
  }

  lemma FilledFromNone(log: seq<Call>, n: nat)
    requires log != []
    ensures FilledMatches(Filled(map[], log[0]), log, n, 0)
  {}

  lemma FilledFromLive(bs: Buffers, log: seq<Call>, k: Key, n: nat, j: nat)
    requires 0 < j < |log| && log[j].key == k
    requires BufferMatches(bs, log, k, n, j - 1)
    ensures FilledMatches(Filled(bs, log[j]), log, n, j)
  {
    var s := OpenedBy(log, n, j - 1);
    assert k in Cleaned(bs, log[j].now) <==> Nums(log, s, j - 1) != Range(n) && !TimedOut(log, s, j);
  }

  lemma LiveFromFilled(bs: Buffers, log: seq<Call>, k: Key, data: Bytes, j: nat)
    requires j < |log| && log[j].key == k
    requires k in bs ==> Faithful(bs[k], data)
    requires AllFrom(log, k, data)
    requires FilledMatches(Filled(bs, log[j]), log, Total(|data|), j)
    ensures BufferMatches(Received(bs, log[j]).0, log, k, Total(|data|), j)
  {
    assert Faithful(Filled(bs, log[j]), data);
    CountIsCover(Filled(bs, log[j]), data);
  }

  lemma {:induction false} LiveBuffer(log: seq<Call>, k: Key, data: Bytes, j: nat)
    requires j < |log| && Solo(log, k) && AllFrom(log, k, data)
    ensures BufferMatches(State(log[..j + 1]), log, k, Total(|data|), j)
    ensures FilledMatches(Filled(State(log[..j]), log[j]), log, Total(|data|), j)
  {
    var front := log[..j];
    if j == 0 {
      FilledFromNone(log, Total(|data|));
    } else {
      LiveBuffer(log, k, data, j - 1);
      FilledFromLive(State(front), log, k, Total(|data|), j);
    }
    BuffersFaithful(front, k, data);
    LiveFromFilled(State(front), log, k, data, j);
    StateAfter(log, j);
  }

  lemma StateAfter(log: seq<Call>, j: nat)
    requires j < |log|
    ensures State(log[..j + 1]) == Received(State(log[..j]), log[j]).0
  {
    assert log[..j + 1][..j] == log[..j];
  }

  /** Times and chunk numbers alone decide which calls deliver. */
  lemma DeliveredExactlyWhen(log: seq<Call>, k: Key, data: Bytes, j: nat)
    requires j < |log| && Solo(log, k) && AllFrom(log, k, data)
    ensures var n := Total(|data|);
            LastOutcome(log[..j + 1])
            == if Nums(log, OpenedBy(log, n, j), j) == Range(n) then Complete(data) else Nothing
  {
    assert log[..j + 1][..j] == log[..j];
    LiveBuffer(log, k, data, j);
    OnlyOriginalDelivered(log[..j + 1], k, data);
  }

  // ---------------------------------------------------------------- delivery

  /** Call `j` found a live buffer too old to use. */
  predicate ExpiresAt(log: seq<Call>, n: nat, j: nat)
    requires 0 < j < |log|
  {
    var s := OpenedBy(log, n, j - 1);
    Nums(log, s, j - 1) != Range(n) && TimedOut(log, s, j)
  }

  ghost predicate NeverExpires(log: seq<Call>, n: nat) {
    forall j :: 0 < j < |log| ==> !ExpiresAt(log, n, j)
  }

  ghost predicate Seen(log: seq<Call>, i: nat) {
    exists m :: 0 <= m < |log| && log[m].chunkNum == i
  }

  lemma {:induction false} NumsCollect(log: seq<Call>, s: nat, j: nat)
    requires s <= j < |log|
    ensures forall i :: i in Nums(log, s, j) <==> exists m :: s <= m <= j && log[m].chunkNum == i
  {
    if s < j {
      NumsCollect(log, s, j - 1);
    }
  }

  lemma AllSeenCovers(log: seq<Call>, n: nat)
    requires log != []
    requires forall m :: 0 <= m < |log| ==> log[m].chunkNum < n
    requires forall i: nat :: i < n ==> Seen(log, i)
    ensures Nums(log, 0, |log| - 1) == Range(n)
  {
    NumsCollect(log, 0, |log| - 1);
    forall i: nat ensures i in Nums(log, 0, |log| - 1) <==> i in Range(n) {
      if i < n {
        assert Seen(log, i);
      }
    }
  }

  lemma {:induction false} OneBufferUntilCovered(log: seq<Call>, n: nat, j: nat)
    requires j < |log| && NeverExpires(log, n)
    requires forall m :: 0 <= m < j ==> Nums(log, 0, m) != Range(n)
    ensures OpenedBy(log, n, j) == 0
  {
    if j > 0 {
      OneBufferUntilCovered(log, n, j - 1);
      assert !ExpiresAt(log, n, j);
    }
  }

  /** The call with which the calls so far have brought every index. */
  lemma FirstCover(log: seq<Call>, n: nat) returns (j: nat)
    requires log != []
    requires forall m :: 0 <= m < |log| ==> log[m].chunkNum < n
    requires forall i: nat :: i < n ==> Seen(log, i)
    ensures j < |log| && Nums(log, 0, j) == Range(n)
    ensures forall m :: 0 <= m < j ==> Nums(log, 0, m) != Range(n)
  {
    AllSeenCovers(log, n);
    j := 0;
    while Nums(log, 0, j) != Range(n)
      invariant j < |log|
      invariant forall m :: 0 <= m < j ==> Nums(log, 0, m) != Range(n)
      decreases |log| - j
    {
      j := j + 1;
    }
  }

  /** If every index has been received and no buffer expired, some call delivered the data. */
  lemma EventuallyDelivered(log: seq<Call>, k: Key, data: Bytes) returns (j: nat)
    requires log != [] && Solo(log, k) && AllFrom(log, k, data)
    requires NeverExpires(log, Total(|data|))
    requires forall i: nat :: i < Total(|data|) ==> Seen(log, i)
    ensures j < |log| && LastOutcome(log[..j + 1]) == Complete(data)
  {
    j := FirstCover(log, Total(|data|));
    FirstCoverDelivers(log, k, data, j);
  }

  lemma FirstCoverDelivers(log: seq<Call>, k: Key, data: Bytes, j: nat)
    requires j < |log| && Solo(log, k) && AllFrom(log, k, data) && NeverExpires(log, Total(|data|))
    requires Nums(log, 0, j) == Range(Total(|data|))
    requires forall m :: 0 <= m < j ==> Nums(log, 0, m) != Range(Total(|data|))
    ensures LastOutcome(log[..j + 1]) == Complete(data)
  {
    OneBufferUntilCovered(log, Total(|data|), j);
    DeliveredExactlyWhen(log, k, data, j);
  }

  /** Calls of which none comes more than one timeout after an earlier one never find an expired buffer. */
  lemma QuickRunNeverExpires(log: seq<Call>, n: nat)
    requires forall i, j :: 0 <= i < j < |log| ==> log[j].now - log[i].now <= CHUNK_REASSEMBLY_TIMEOUT
    ensures NeverExpires(log, n)
  {
    forall j | 0 < j < |log| ensures !ExpiresAt(log, n, j) {
      assert OpenedBy(log, n, j - 1) < j;
    }
  }

  // ---------------------------------------------------------------- how often

  /** How many of the outcomes hand over data. */
  function Deliveries(outcomes: seq<Outcome>): nat {
    if outcomes == [] then 0
    else Deliveries(outcomes[..|outcomes| - 1]) + if outcomes[|outcomes| - 1].Complete? then 1 else 0
  }

  /** The chunks that wait in the buffer of a key. */
  function Held(bs: Buffers, k: Key): nat {
    if k in bs then |bs[k].chunks| else 0
  }

  /** What `d` deliveries of `n` chunks take. */
  function Spent(d: nat, n: nat): nat {
    if d == 0 then 0 else Spent(d - 1, n) + n
  }

  lemma {:induction false} SpentIsProduct(d: nat, n: nat)
    ensures Spent(d, n) == d * n
  {
    if d > 0 {
      SpentIsProduct(d - 1, n);
      assert d * n == (d - 1) * n + n;
    }
  }

  /** Calls are spent on deliveries, wait in the buffer, or are lost. */
  ghost predicate CallsCover(log: seq<Call>, k: Key, n: nat) {
    Spent(Deliveries(OutcomesFor(log, k)), n) + Held(State(log), k) <= |OnlyKey(log, k)|
  }

  lemma HeldElsewhere(bs: Buffers, c: Call, k: Key)
    requires c.key != k
    ensures Held(Received(bs, c).0, k) <= Held(bs, k)
  {
    ReceivedElsewhere(bs, c, k);
  }

  lemma HeldAfterOwn(bs: Buffers, c: Call, n: nat)
    requires c.total == n && (c.key in bs ==> bs[c.key].total == n)
    ensures var (after, outcome) := Received(bs, c);
            (if outcome.Complete? then n else 0) + Held(after, c.key) <= Held(bs, c.key) + 1
  {
    OneMoreChunk(Opened(bs, c).chunks, c.chunkNum, c.payload);
  }

  lemma OneMoreChunk(chunks: map<nat, Bytes>, i: nat, payload: Bytes)
    ensures |chunks[i := payload]| <= |chunks| + 1
  {
    var longer := chunks[i := payload];
    assert longer.Keys == chunks.Keys + {i};
    assert |longer| == |longer.Keys| && |chunks| == |chunks.Keys|;
  }

  lemma DeliveriesOneMore(outcomes: seq<Outcome>, o: Outcome)
    ensures Deliveries(outcomes + [o]) == Deliveries(outcomes) + if o.Complete? then 1 else 0
  {
    assert (outcomes + [o])[..|outcomes|] == outcomes;
  }

  lemma {:induction false} DeliveriesCovered(log: seq<Call>, k: Key, data: Bytes)
    requires AllFrom(log, k, data)
    ensures CallsCover(log, k, Total(|data|))
  {
    if log != [] {
      var front, c := log[..|log| - 1], log[|log| - 1];
      DeliveriesCovered(front, k, data);
      BuffersFaithful(front, k, data);
      assert log == front + [c];
      if c.key == k {
        OneMoreCovered(front, c, Total(|data|));
      } else {
        OtherCovered(front, c, k, Total(|data|));
      }
    }
  }

  /** Every delivery takes a call of its own for each chunk: deliveries times chunks never exceed the calls for the
      key. */
  lemma DeliveriesBounded(log: seq<Call>, k: Key, data: Bytes)
    requires AllFrom(log, k, data)
    ensures Deliveries(OutcomesFor(log, k)) * Total(|data|) <= |OnlyKey(log, k)|
  {
    DeliveriesCovered(log, k, data);
    SpentIsProduct(Deliveries(OutcomesFor(log, k)), Total(|data|));
  }

  lemma OtherCovered(front: seq<Call>, c: Call, k: Key, n: nat)
    requires CallsCover(front, k, n) && c.key != k
    ensures CallsCover(front + [c], k, n)
  {
    OneMoreCall(front, c, k);
    HeldElsewhere(State(front), c, k);
    assert OutcomesFor(front, k) + [] == OutcomesFor(front, k);
  }

  lemma OneMoreCovered(front: seq<Call>, c: Call, n: nat)
    requires CallsCover(front, c.key, n) && c.total == n && (c.key in State(front) ==> State(front)[c.key].total == n)
    ensures CallsCover(front + [c], c.key, n)
  {
    OneMoreCall(front, c, c.key);
    HeldAfterOwn(State(front), c, n);
    var (after, outcome) := Received(State(front), c);
    SpentOneMore(OutcomesFor(front, c.key), outcome, n, Held(State(front), c.key), Held(after, c.key),
                 |OnlyKey(front, c.key)|);
  }

  lemma SpentOneMore(outcomes: seq<Outcome>, o: Outcome, n: nat, held: nat, held': nat, calls: nat)
    requires Spent(Deliveries(outcomes), n) + held <= calls && (if o.Complete? then n else 0) + held' <= held + 1
    ensures Spent(Deliveries(outcomes + [o]), n) + held' <= calls + 1
  {
    DeliveriesOneMore(outcomes, o);
  }

  // ---------------------------------------------------------------- what is handed over

  /** The data an outcome hands over, if any. */
  function Handed(o: Outcome): seq<Bytes> {
    match o
    case Complete(data) => [data]
    case _ => []
  }

  /** What the calls hand over, in order. */
  function Completed(log: seq<Call>): seq<Bytes> {
    if log == [] then [] else Completed(log[..|log| - 1]) + Handed(LastOutcome(log))
  }

  /** The part of it under one key, or under the others. */
  function CompletedFor(log: seq<Call>, k: Key, own: bool): seq<Bytes> {
    if log == [] then []
    else
      CompletedFor(log[..|log| - 1], k, own)
      + if (log[|log| - 1].key == k) == own then Handed(LastOutcome(log)) else []
  }

  lemma {:induction false} CompletedSplits(log: seq<Call>, k: Key)
    ensures multiset(Completed(log)) == multiset(CompletedFor(log, k, true)) + multiset(CompletedFor(log, k, false))
  {
    if log != [] {
      CompletedSplits(log[..|log| - 1], k);
    }
  }

  /** Under a key as many data are handed over as there are deliveries. */
  lemma {:induction false} CompletedAreDeliveries(log: seq<Call>, k: Key)
    ensures |CompletedFor(log, k, true)| == Deliveries(OutcomesFor(log, k))
    ensures forall data :: data in CompletedFor(log, k, true) <==> Complete(data) in OutcomesFor(log, k)
  {
    if log != [] {
      CompletedAreDeliveries(log[..|log| - 1], k);
      DeliveriesOneMore(OutcomesFor(log[..|log| - 1], k), LastOutcome(log));
    }
  }
}
