/** Which transactions can be relayed at all: the rate limiter and the reassembly timeout bound the chunks. */
module RelayCapacity {
  import opened Bytes
  import opened Protocol
  import opened Gateway
  import opened GatewayRuns
  import opened RateBounds
  import opened Relay
  import Chunker
  import RateLimiting
  import Reassembly
  import RetryLoop

  /** `n` requests of one sender can be served within one reassembly timeout. */
  predicate WithinBudget(lim: RateLimiting.Policy, n: nat) {
    lim.burst >= 1 && n as real <= lim.burst as real + RateLimiting.Refill(lim, Chunker.CHUNK_REASSEMBLY_TIMEOUT)
  }

  /** With the default configuration, a burst of 3 and 10 requests a minute, that is 23 of the 255 possible chunks. */
  lemma DefaultBudget(n: nat)
    ensures WithinBudget(RateLimiting.Policy(3, 10.0 / 60.0), n) <==> n <= 23
  {
    assert RateLimiting.Refill(RateLimiting.Policy(3, 10.0 / 60.0), Chunker.CHUNK_REASSEMBLY_TIMEOUT) == 20.0;
  }

  // ---------------------------------------------------------------- no more than the budget

  /** The calls for a key in a window. */
  function CallsWithin(calls: seq<Chunker.Call>, k: Chunker.Key, lo: real, hi: real): nat {
    if calls == [] then 0
    else
      var last := calls[|calls| - 1];
      CallsWithin(calls[..|calls| - 1], k, lo, hi) + if last.key == k && lo <= last.now <= hi then 1 else 0
  }

  lemma CallsOneMore(calls: seq<Chunker.Call>, c: Chunker.Call, k: Chunker.Key, lo: real, hi: real)
    ensures CallsWithin(calls + [c], k, lo, hi)
         == CallsWithin(calls, k, lo, hi) + if c.key == k && lo <= c.now <= hi then 1 else 0
  {
    assert (calls + [c])[..|calls|] == calls;
  }

  ghost predicate CallsServed(cfg: Config, b: Books, k: Chunker.Key, lo: real, hi: real) {
    CallsWithin(b.calls, k, lo, hi) <= Served(cfg.policy, b.charges, k.senderId, lo, hi)
  }

  lemma CallsServedKept(cfg: Config, b: Books, a: Arrival, k: Chunker.Key, lo: real, hi: real)
    requires CallsServed(cfg, b, k, lo, hi)
    ensures CallsServed(cfg, Handled(cfg, b, a), k, lo, hi)
  {
    HandledPayment(cfg, b, a);
    ServedOneMore(cfg.policy, b.charges, a.now, a.sender, k.senderId, lo, hi);
    if Collects(cfg, b, a) {
      HandledChunk(cfg, b, a);
      CallsOneMore(b.calls, CallOf(a), k, lo, hi);
    } else {
      HandledOther(cfg, b, a);
    }
  }

  /** No more chunks are collected in a window than requests are served in it. */
  lemma {:induction false} CallsWithinServed(cfg: Config, arrivals: seq<Arrival>, k: Chunker.Key, lo: real, hi: real)
    ensures CallsServed(cfg, Kept(cfg, arrivals), k, lo, hi)
  {
    if arrivals != [] {
      var front, a := arrivals[..|arrivals| - 1], arrivals[|arrivals| - 1];
      CallsWithinServed(cfg, front, k, lo, hi);
      CallsServedKept(cfg, Kept(cfg, front), a, k, lo, hi);
    }
  }

  ghost predicate CallsUntil(calls: seq<Chunker.Call>, now: real) {
    Reassembly.Monotone(calls) && forall i :: 0 <= i < |calls| ==> calls[i].now <= now
  }

  /** When the arrivals are in order, so are the calls. */
  lemma {:induction false} CallsInOrder(cfg: Config, arrivals: seq<Arrival>, now: real)
    requires InOrder(arrivals) && forall i :: 0 <= i < |arrivals| ==> arrivals[i].now <= now
    ensures CallsUntil(Kept(cfg, arrivals).calls, now)
  {
    if arrivals != [] {
      var front, a := arrivals[..|arrivals| - 1], arrivals[|arrivals| - 1];
      CallsInOrder(cfg, front, a.now);
      CallsInOrderKept(cfg, Kept(cfg, front), a);
    }
  }

  lemma CallsInOrderKept(cfg: Config, b: Books, a: Arrival)
    requires CallsUntil(b.calls, a.now)
    ensures CallsUntil(Handled(cfg, b, a).calls, a.now)
  {
    if Collects(cfg, b, a) {
      HandledChunk(cfg, b, a);
    } else {
      HandledOther(cfg, b, a);
    }
  }

  lemma {:induction false} OnlyKeyInOrder(log: seq<Chunker.Call>, k: Chunker.Key, now: real)
    requires CallsUntil(log, now)
    ensures CallsUntil(Reassembly.OnlyKey(log, k), now)
  {
    if log != [] {
      OnlyKeyInOrder(log[..|log| - 1], k, log[|log| - 1].now);
    }
  }

  /** A key's own calls fill a window as they do among others. */
  lemma {:induction false} CallsOfKey(log: seq<Chunker.Call>, k: Chunker.Key, lo: real, hi: real)
    ensures CallsWithin(Reassembly.OnlyKey(log, k), k, lo, hi) == CallsWithin(log, k, lo, hi)
  {
    if log != [] {
      var front, last := log[..|log| - 1], log[|log| - 1];
      CallsOfKey(front, k, lo, hi);
      if last.key == k {
        CallsOneMore(Reassembly.OnlyKey(front, k), last, k, lo, hi);
      }
    }
  }

  lemma {:induction false} RangeWithin(log: seq<Chunker.Call>, k: Chunker.Key, s: nat, m: nat, lo: real, hi: real)
    requires s <= m <= |log| && forall i :: s <= i < m ==> log[i].key == k && lo <= log[i].now <= hi
    ensures CallsWithin(log, k, lo, hi) >= m - s
  {
    if log != [] && s < m {
      RangeWithin(log[..|log| - 1], k, s, if m == |log| then m - 1 else m, lo, hi);
    }
  }

  lemma {:induction false} NumsSpan(log: seq<Chunker.Call>, s: nat, j: nat)
    requires s <= j < |log|
    ensures |Reassembly.Nums(log, s, j)| <= j - s + 1
  {
    if s < j {
      NumsSpan(log, s, j - 1);
    }
  }

  /** A buffer that covers every index has collected them within one timeout. */
  lemma CoveredWindow(solo: seq<Chunker.Call>, k: Chunker.Key, n: nat, j: nat) returns (lo: real)
    requires j < |solo| && Reassembly.Solo(solo, k) && Reassembly.Monotone(solo)
    requires Reassembly.Nums(solo, Reassembly.OpenedBy(solo, n, j), j) == Reassembly.Range(n)
    ensures CallsWithin(solo, k, lo, lo + Chunker.CHUNK_REASSEMBLY_TIMEOUT) >= n
  {
    var s := Reassembly.OpenedBy(solo, n, j);
    lo := solo[s].now;
    NumsSpan(solo, s, j);
    assert solo[j].now - lo <= Chunker.CHUNK_REASSEMBLY_TIMEOUT;
    forall i | s <= i <= j ensures lo <= solo[i].now <= solo[j].now {
      assert s < i ==> solo[s].now <= solo[i].now;
      assert i < j ==> solo[i].now <= solo[j].now;
    }
    RangeWithin(solo, k, s, j + 1, lo, lo + Chunker.CHUNK_REASSEMBLY_TIMEOUT);
  }

  lemma {:induction false} NothingServed(lim: RateLimiting.Policy, log: seq<RateLimiting.Event>, sender: string,
                                         lo: real, hi: real)
    requires lim.burst < 1
    ensures Served(lim, log, sender, lo, hi) == 0
  {
    if log != [] {
      var front, last := log[..|log| - 1], log[|log| - 1];
      NothingServed(lim, front, sender, lo, hi);
      TooSmallBurst(lim, front, last.now, sender);
    }
  }

  lemma ServedFitsBudget(cfg: Config, arrivals: seq<Arrival>, sender: string, lo: real, n: nat)
    requires InOrder(arrivals) && cfg.policy.rate >= 0.0
    requires 0 < n <= Served(cfg.policy, Kept(cfg, arrivals).charges, sender, lo, lo + Chunker.CHUNK_REASSEMBLY_TIMEOUT)
    ensures WithinBudget(cfg.policy, n)
  {
    var hi := lo + Chunker.CHUNK_REASSEMBLY_TIMEOUT;
    ServedBounded(cfg, arrivals, sender, lo, hi);
    if cfg.policy.burst < 1 {
      NothingServed(cfg.policy, Kept(cfg, arrivals).charges, sender, lo, hi);
    }
    assert hi - lo == Chunker.CHUNK_REASSEMBLY_TIMEOUT;
  }

  /** When the data comes out, the calls for the key that made it up lie in one timeout. */
  lemma ReassembledWindow(log: seq<Chunker.Call>, k: Chunker.Key, data: Bytes) returns (lo: real)
    requires Reassembly.Monotone(log) && Reassembly.AllFrom(log, k, data)
    requires Chunker.Complete(data) in Reassembly.OutcomesFor(log, k)
    ensures CallsWithin(log, k, lo, lo + Chunker.CHUNK_REASSEMBLY_TIMEOUT) >= Chunker.Total(|data|)
  {
    var solo := Reassembly.OnlyKey(log, k);
    Reassembly.OrderedStaysExpired(log);
    Reassembly.NonInterference(log, k);
    SoloKeeps(log, k, data);
    var j := OutcomeFound(solo, k, Chunker.Complete(data));
    Reassembly.DeliveredExactlyWhen(solo, k, data, j);
    lo := CoveredWindow(solo, k, Chunker.Total(|data|), j);
    CallsOfKey(log, k, lo, lo + Chunker.CHUNK_REASSEMBLY_TIMEOUT);
  }

  lemma SoloKeeps(log: seq<Chunker.Call>, k: Chunker.Key, data: Bytes)
    requires Reassembly.Monotone(log) && Reassembly.AllFrom(log, k, data)
    ensures var solo := Reassembly.OnlyKey(log, k);
            Reassembly.Monotone(solo) && Reassembly.Solo(solo, k) && Reassembly.AllFrom(solo, k, data)
  {
    var solo := Reassembly.OnlyKey(log, k);
    OnlyKeyInOrder(log, k, if log == [] then 0.0 else log[|log| - 1].now);
    OnlyKeyMembers(log, k);
    forall i | 0 <= i < |solo| ensures solo[i].key == k && solo[i] in log {
      assert solo[i] in solo;
    }
  }

  lemma RunInOrder(s: Session, events: seq<Event>)
    requires Honest(s) && InOrder(Run(s, events).arrivals)
    ensures Reassembly.Monotone(Run(s, events).books.calls)
    ensures Reassembly.AllFrom(Run(s, events).books.calls, KeyOf(s), s.data)
  {
    var w := Run(s, events);
    RunKeeps(s, events);
    CallsAllFrom(s, w);
    CallsInOrder(s.cfg, w.arrivals, if w.arrivals == [] then 0.0 else w.arrivals[|w.arrivals| - 1].now);
  }

  /** No run with a clock that does not run backwards reassembles a transaction that exceeds the budget, whatever the
      sender retransmits and however many buffers expire. */
  lemma ReassembledFitsBudget(s: Session, events: seq<Event>)
    requires Honest(s) && s.cfg.policy.rate >= 0.0
    requires InOrder(Run(s, events).arrivals) && Reassembled(s, Run(s, events))
    ensures WithinBudget(s.cfg.policy, |s.frames|)
  {
    var w := Run(s, events);
    RunKeeps(s, events);
    RunInOrder(s, events);
    var lo := ReassembledWindow(w.books.calls, KeyOf(s), s.data);
    CallsWithinServed(s.cfg, w.arrivals, KeyOf(s), lo, lo + Chunker.CHUNK_REASSEMBLY_TIMEOUT);
    ServedFitsBudget(s.cfg, w.arrivals, s.sender, lo, |s.frames|);
  }

  // ---------------------------------------------------------------- what silence takes

  /** All chunks can be accepted at all, at whatever times. */
  predicate Acceptable(lim: RateLimiting.Policy, n: nat) {
    lim.burst >= 1 && (lim.rate > 0.0 || n <= lim.burst)
  }

  /** The calls that bring every chunk, in the window from the first to the last. */
  lemma AcceptedWindow(log: seq<Chunker.Call>, k: Chunker.Key, data: Bytes) returns (lo: real, hi: real)
    requires Reassembly.Monotone(log) && Reassembly.AllFrom(log, k, data)
    requires forall i: nat :: i < Chunker.Total(|data|) ==> i in Accepted(log, k)
    ensures CallsWithin(log, k, lo, hi) >= Chunker.Total(|data|)
  {
    var solo := Reassembly.OnlyKey(log, k);
    SoloFits(log, k, data);
    SoloKeeps(log, k, data);
    Reassembly.AllSeenCovers(solo, Chunker.Total(|data|));
    NumsSpan(solo, 0, |solo| - 1);
    lo, hi := solo[0].now, solo[|solo| - 1].now;
    RangeWithin(solo, k, 0, |solo|, lo, hi);
    CallsOfKey(log, k, lo, hi);
  }

  /** When every chunk has been accepted, that many requests have been served in some window. */
  lemma AcceptedServed(s: Session, events: seq<Event>) returns (lo: real, hi: real)
    requires Honest(s) && InOrder(Run(s, events).arrivals)
    requires forall i: nat :: i < |s.frames| ==> i in Accepted(Run(s, events).books.calls, KeyOf(s))
    ensures Served(s.cfg.policy, Kept(s.cfg, Run(s, events).arrivals).charges, s.sender, lo, hi) >= |s.frames|
  {
    var w := Run(s, events);
    RunKeeps(s, events);
    RunInOrder(s, events);
    lo, hi := AcceptedWindow(w.books.calls, KeyOf(s), s.data);
    CallsWithinServed(s.cfg, w.arrivals, KeyOf(s), lo, hi);
  }

  lemma AllowanceAcceptable(lim: RateLimiting.Policy, lo: real, hi: real, n: nat)
    requires lim.rate >= 0.0 && lim.burst >= 1 && n as real <= WindowAllowance(lim, lo, hi)
    ensures Acceptable(lim, n)
  {
    if lim.rate == 0.0 {
      assert RateLimiting.Refill(lim, hi - lo) == 0.0;
    }
  }

  lemma ServedIsAcceptable(cfg: Config, arrivals: seq<Arrival>, sender: string, lo: real, hi: real, n: nat)
    requires InOrder(arrivals) && cfg.policy.rate >= 0.0
    requires 0 < n <= Served(cfg.policy, Kept(cfg, arrivals).charges, sender, lo, hi)
    ensures Acceptable(cfg.policy, n)
  {
    ServedBounded(cfg, arrivals, sender, lo, hi);
    if cfg.policy.burst < 1 {
      NothingServed(cfg.policy, Kept(cfg, arrivals).charges, sender, lo, hi);
    } else {
      AllowanceAcceptable(cfg.policy, lo, hi, n);
    }
  }

  /** A silent end takes a rate limiter that can accept every chunk. */
  lemma SilenceIsAcceptable(s: Session, events: seq<Event>)
    requires Honest(s) && s.cfg.policy.rate >= 0.0
    requires InOrder(Run(s, events).arrivals) && Run(s, events).loop.phase == RetryLoop.Done(0)
    ensures Acceptable(s.cfg.policy, |s.frames|)
  {
    SilentEndMeansAcknowledged(s, events);
    AckedWereAcceptedWereSent(s, events);
    var lo, hi := AcceptedServed(s, events);
    ServedIsAcceptable(s.cfg, Run(s, events).arrivals, s.sender, lo, hi, |s.frames|);
  }
}
