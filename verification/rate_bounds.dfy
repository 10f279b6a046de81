/** What the rate limiter lets through over whole runs. */
module RateBounds {
  import opened RateLimiting

  // ---------------------------------------------------------------- one sender's requests

  function Charge(granted: bool): real {
    if granted then 1.0 else 0.0
  }

  /** The tokens request `j` of one sender finds, if its bucket is full at request 0 and never dropped. */
  function Found(lim: Policy, ts: seq<real>, j: nat): real
    requires j < |ts|
  {
    if j == 0 then lim.burst as real
    else
      var before := Found(lim, ts, j - 1);
      Least(lim.burst as real, before - Charge(before >= 1.0) + Refill(lim, ts[j] - ts[j - 1]))
  }

  predicate Allowed(lim: Policy, ts: seq<real>, j: nat)
    requires j < |ts|
  {
    Found(lim, ts, j) >= 1.0
  }

  function Answers(lim: Policy, ts: seq<real>): (as_: seq<bool>)
    ensures |as_| == |ts|
  {
    seq(|ts|, j requires 0 <= j < |ts| => Allowed(lim, ts, j))
  }

  /** How many of the requests `i` to `j - 1` are allowed. */
  function Granted(lim: Policy, ts: seq<real>, i: nat, j: nat): nat
    requires i <= j <= |ts|
    decreases j
  {
    if i == j then 0 else Granted(lim, ts, i, j - 1) + if Allowed(lim, ts, j - 1) then 1 else 0
  }

  // ---------------------------------------------------------------- the exact condition

  /** What the requests from `i` on leave of a full bucket for request `j`. */
  function Allowance(lim: Policy, ts: seq<real>, i: nat, j: nat): real
    requires i <= j < |ts|
  {
    lim.burst as real - Granted(lim, ts, i, j) as real + Refill(lim, ts[j] - ts[i])
  }

  lemma RefillAdds(lim: Policy, a: real, b: real)
    ensures Refill(lim, a + b) == Refill(lim, a) + Refill(lim, b)
  {}

  lemma RefillMonotone(lim: Policy, a: real, b: real)
    requires lim.rate >= 0.0 && a <= b
    ensures Refill(lim, a) <= Refill(lim, b)
  {
    assert (b - a) * lim.rate >= 0.0;
    RefillAdds(lim, a, b - a);
  }

  lemma AllowanceStep(lim: Policy, ts: seq<real>, i: nat, j: nat)
    requires i < j < |ts|
    ensures Allowance(lim, ts, i, j)
         == Allowance(lim, ts, i, j - 1) - Charge(Allowed(lim, ts, j - 1)) + Refill(lim, ts[j] - ts[j - 1])
  {
    RefillAdds(lim, ts[j - 1] - ts[i], ts[j] - ts[j - 1]);
  }

  lemma AllowanceNow(lim: Policy, ts: seq<real>, j: nat)
    requires j < |ts|
    ensures Allowance(lim, ts, j, j) == lim.burst as real
  {
    assert Refill(lim, ts[j] - ts[j]) == 0.0;
  }

  /** A request finds the least of the allowances left by the requests up to it. */
  lemma {:induction false} FoundIsLeastAllowance(lim: Policy, ts: seq<real>, j: nat) returns (at: nat)
    requires j < |ts|
    ensures forall i :: 0 <= i <= j ==> Found(lim, ts, j) <= Allowance(lim, ts, i, j)
    ensures at <= j && Found(lim, ts, j) == Allowance(lim, ts, at, j)
  {
    AllowanceNow(lim, ts, j);
    if j == 0 {
      at := 0;
    } else {
      at := FoundIsLeastAllowance(lim, ts, j - 1);
      forall i | 0 <= i < j ensures Found(lim, ts, j) <= Allowance(lim, ts, i, j) {
        AllowanceStep(lim, ts, i, j);
      }
      AllowanceStep(lim, ts, at, j);
      if Found(lim, ts, j) == lim.burst as real {
        at := j;
      }
    }
  }

  /** Counted from request `i`, granting request `j` too would exceed burst + rate * elapsed. */
  predicate Exceeds(lim: Policy, ts: seq<real>, i: nat, j: nat)
    requires i <= j < |ts|
  {
    Granted(lim, ts, i, j) as real + 1.0 > lim.burst as real + Refill(lim, ts[j] - ts[i])
  }

  /** A request is denied exactly when granting it would exceed the allowance counted from some request up to it.
      No assumption on clock, burst or rate. */
  lemma DeniedExactlyWhen(lim: Policy, ts: seq<real>, j: nat)
    requires j < |ts|
    ensures !Allowed(lim, ts, j) <==> exists i :: 0 <= i <= j && Exceeds(lim, ts, i, j)
  {
    var at := FoundIsLeastAllowance(lim, ts, j);
    assert forall i :: 0 <= i <= j ==> (Exceeds(lim, ts, i, j) <==> Allowance(lim, ts, i, j) < 1.0);
    if !Allowed(lim, ts, j) {
      assert Exceeds(lim, ts, at, j);
    }
  }

  // ---------------------------------------------------------------- windows

  ghost predicate Ordered(ts: seq<real>) {
    forall i, j :: 0 <= i < j < |ts| ==> ts[i] <= ts[j]
  }

  /** How many requests at times in [lo, hi] are allowed. */
  function GrantedWithin(lim: Policy, ts: seq<real>, n: nat, lo: real, hi: real): nat
    requires n <= |ts|
  {
    if n == 0 then 0
    else GrantedWithin(lim, ts, n - 1, lo, hi) + if lo <= ts[n - 1] <= hi && Allowed(lim, ts, n - 1) then 1 else 0
  }

  /** The requests before `n` that fall in the window are those from some request on. */
  lemma {:induction false} WindowStart(lim: Policy, ts: seq<real>, n: nat, lo: real, hi: real) returns (i: nat)
    requires n <= |ts| && Ordered(ts) && forall m :: 0 <= m < n ==> ts[m] <= hi
    ensures i <= n && (i < n ==> lo <= ts[i])
    ensures GrantedWithin(lim, ts, n, lo, hi) == Granted(lim, ts, i, n)
  {
    if n == 0 {
      i := 0;
    } else {
      i := WindowStart(lim, ts, n - 1, lo, hi);
      if ts[n - 1] < lo {
        assert Granted(lim, ts, n, n) == 0;
        NoneBefore(lim, ts, n, lo, hi);
        i := n;
      }
    }
  }

  lemma {:induction false} NoneBefore(lim: Policy, ts: seq<real>, n: nat, lo: real, hi: real)
    requires 0 < n <= |ts| && Ordered(ts) && ts[n - 1] < lo
    ensures GrantedWithin(lim, ts, n, lo, hi) == 0
  {
    if n > 1 {
      NoneBefore(lim, ts, n - 1, lo, hi);
    }
  }

  /** In any window [lo, hi] at most burst + rate * (hi - lo) requests of a sender are allowed. */
  lemma {:induction false} WindowBound(lim: Policy, ts: seq<real>, n: nat, lo: real, hi: real)
    requires n <= |ts| && Ordered(ts) && lim.rate >= 0.0
    ensures var granted := GrantedWithin(lim, ts, n, lo, hi);
            granted == 0 || granted as real <= lim.burst as real + Refill(lim, hi - lo)
  {
    if n > 0 {
      var last := n - 1;
      if lo <= ts[last] <= hi && Allowed(lim, ts, last) {
        var i := WindowStart(lim, ts, last, lo, hi);
        DeniedExactlyWhen(lim, ts, last);
        assert !Exceeds(lim, ts, i, last);
        RefillMonotone(lim, ts[last] - ts[i], hi - lo);
      } else {
        WindowBound(lim, ts, last, lo, hi);
      }
    }
  }

  // ---------------------------------------------------------------- many senders

  ghost predicate Monotone(log: seq<Event>) {
    forall i, j :: 0 <= i < j < |log| ==> log[i].now <= log[j].now
  }

  function TimesOf(log: seq<Event>, sender: string): seq<real> {
    if log == [] then []
    else
      var front, last := log[..|log| - 1], log[|log| - 1];
      if last.Request? && last.sender == sender then TimesOf(front, sender) + [last.now] else TimesOf(front, sender)
  }

  /** The answers one sender gets, in order. */
  function AnswersFor(lim: Policy, log: seq<Event>, sender: string): seq<bool> {
    if log == [] then []
    else
      var front, last := log[..|log| - 1], log[|log| - 1];
      if last.Request? && last.sender == sender
      then AnswersFor(lim, front, sender) + [Answer(lim, front, last.now, sender)]
      else AnswersFor(lim, front, sender)
  }

  lemma {:induction false} FoundOfPrefix(lim: Policy, ts: seq<real>, t: real, j: nat)
    requires j < |ts|
    ensures Found(lim, ts + [t], j) == Found(lim, ts, j)
  {
    if j > 0 {
      FoundOfPrefix(lim, ts, t, j - 1);
      assert (ts + [t])[j] == ts[j] && (ts + [t])[j - 1] == ts[j - 1];
    }
  }

  lemma AnswersOneMore(lim: Policy, ts: seq<real>, t: real)
    ensures Answers(lim, ts + [t]) == Answers(lim, ts) + [Allowed(lim, ts + [t], |ts|)]
  {
    forall j | 0 <= j < |ts| ensures Allowed(lim, ts + [t], j) == Allowed(lim, ts, j) {
      FoundOfPrefix(lim, ts, t, j);
    }
  }

  /** The bucket one sender's requests leave behind. */
  function Left(lim: Policy, ts: seq<real>): Bucket
    requires ts != []
  {
    var found := Found(lim, ts, |ts| - 1);
    Bucket(found - Charge(found >= 1.0), ts[|ts| - 1])
  }

  lemma ConsumedFromLeft(lim: Policy, ts: seq<real>, t: real)
    requires ts != []
    ensures Consumed(Left(lim, ts), lim, t) == (Left(lim, ts + [t]), Allowed(lim, ts + [t], |ts|))
  {
    var longer := ts + [t];
    FoundOfPrefix(lim, ts, t, |ts| - 1);
    assert longer[|ts|] == t && longer[|ts| - 1] == ts[|ts| - 1];
    assert Found(lim, longer, |ts|) == Refilled(Left(lim, ts), lim, t);
  }

  lemma ConsumedFromFresh(lim: Policy, t: real)
    ensures Consumed(Fresh(lim, t), lim, t) == (Left(lim, [t]), Allowed(lim, [t], 0))
  {}

  /** Without cleanups, what a sender is answered depends on the times of its own requests alone. */
  lemma {:induction false} SendersIndependent(lim: Policy, log: seq<Event>, sender: string)
    requires forall i :: 0 <= i < |log| ==> log[i].Request?
    ensures AnswersFor(lim, log, sender) == Answers(lim, TimesOf(log, sender))
    ensures var ts := TimesOf(log, sender);
            (sender in State(lim, log) <==> ts != []) && (ts != [] ==> State(lim, log)[sender] == Left(lim, ts))
  {
    if log != [] {
      var front, last := log[..|log| - 1], log[|log| - 1];
      SendersIndependent(lim, front, sender);
      var ts := TimesOf(front, sender);
      if last.sender == sender {
        AnswersOneMore(lim, ts, last.now);
        if ts == [] {
          assert [] + [last.now] == [last.now];
          ConsumedFromFresh(lim, last.now);
        } else {
          ConsumedFromLeft(lim, ts, last.now);
        }
      }
    }
  }

  // ---------------------------------------------------------------- cleanups

  /** A full bucket is what this one has become by `now`. */
  predicate FullAgain(lim: Policy, b: Bucket, now: real) {
    b.tokens + Refill(lim, now - b.lastRefill) >= lim.burst as real
  }

  lemma FullStaysFull(lim: Policy, b: Bucket, earlier: real, later: real)
    requires lim.rate >= 0.0 && earlier <= later && FullAgain(lim, b, earlier)
    ensures FullAgain(lim, b, later)
  {
    RefillMonotone(lim, earlier - b.lastRefill, later - b.lastRefill);
  }

  lemma StaleIsFull(lim: Policy, b: Bucket, now: real, maxAge: real)
    requires lim.rate >= 0.0 && b.tokens >= 0.0 && Refill(lim, maxAge) >= lim.burst as real
    requires now - b.lastRefill > maxAge
    ensures FullAgain(lim, b, now)
  {
    RefillMonotone(lim, maxAge, now - b.lastRefill);
  }

  lemma {:induction false} FoundNonNegative(lim: Policy, ts: seq<real>, j: nat)
    requires j < |ts| && Ordered(ts) && lim.rate >= 0.0 && lim.burst >= 0
    ensures Found(lim, ts, j) >= 0.0
  {
    if j > 0 {
      FoundNonNegative(lim, ts, j - 1);
      RefillMonotone(lim, 0.0, ts[j] - ts[j - 1]);
    }
  }

  lemma {:induction false} TimesOrdered(log: seq<Event>, sender: string)
    requires Monotone(log)
    ensures Ordered(TimesOf(log, sender))
    ensures forall i :: 0 <= i < |TimesOf(log, sender)| ==> TimesOf(log, sender)[i] <= log[|log| - 1].now
  {
    if log != [] {
      TimesOrdered(log[..|log| - 1], sender);
    }
  }

  ghost predicate CleanupsSpare(lim: Policy, log: seq<Event>) {
    forall i :: 0 <= i < |log| && log[i].Cleanup? ==> Refill(lim, log[i].maxAge) >= lim.burst as real
  }

  /** The sender's bucket is the one it would have without cleanups, or was dropped when that one had filled up. */
  ghost predicate AsIfKept(lim: Policy, log: seq<Event>, sender: string) {
    var ts := TimesOf(log, sender);
    var bs := State(lim, log);
    if sender in bs then ts != [] && bs[sender] == Left(lim, ts)
    else ts != [] ==> FullAgain(lim, Left(lim, ts), log[|log| - 1].now)
  }

  ghost predicate Unnoticed(lim: Policy, log: seq<Event>, sender: string) {
    AnswersFor(lim, log, sender) == Answers(lim, TimesOf(log, sender)) && AsIfKept(lim, log, sender)
  }

  ghost predicate Follows(log: seq<Event>, now: real) {
    log != [] ==> log[|log| - 1].now <= now
  }

  /** A dropped bucket that had filled up is still full. */
  lemma StillFull(lim: Policy, front: seq<Event>, now: real, sender: string)
    requires lim.rate >= 0.0 && AsIfKept(lim, front, sender) && Follows(front, now) && sender !in State(lim, front)
    ensures var ts := TimesOf(front, sender); ts != [] ==> FullAgain(lim, Left(lim, ts), now)
  {
    if TimesOf(front, sender) != [] {
      FullStaysFull(lim, Left(lim, TimesOf(front, sender)), front[|front| - 1].now, now);
    }
  }

  /** The sender's next request finds what it would have found. */
  lemma OwnUnnoticed(lim: Policy, front: seq<Event>, now: real, sender: string)
    requires lim.rate >= 0.0 && Unnoticed(lim, front, sender) && Follows(front, now)
    ensures Unnoticed(lim, front + [Request(now, sender)], sender)
  {
    var ts := TimesOf(front, sender);
    OneRequest(lim, front, now, sender);
    AnswersOneMore(lim, ts, now);
    assert [] + [now] == [now];
    ConsumedFromFresh(lim, now);
    if ts != [] {
      ConsumedFromLeft(lim, ts, now);
      if sender !in State(lim, front) {
        StillFull(lim, front, now, sender);
      }
    }
  }

  lemma OtherUnnoticed(lim: Policy, front: seq<Event>, e: Event, sender: string)
    requires lim.rate >= 0.0 && Unnoticed(lim, front, sender) && Follows(front, e.now)
    requires e.Request? && e.sender != sender
    ensures Unnoticed(lim, front + [e], sender)
  {
    assert (front + [e])[..|front|] == front;
    if sender !in State(lim, front) {
      StillFull(lim, front, e.now, sender);
    }
  }

  /** A cleanup drops only a bucket that has filled up. */
  lemma CleanupUnnoticed(lim: Policy, front: seq<Event>, e: Event, sender: string)
    requires lim.rate >= 0.0 && lim.burst >= 0 && Unnoticed(lim, front, sender) && Follows(front, e.now)
    requires e.Cleanup? && Refill(lim, e.maxAge) >= lim.burst as real && Ordered(TimesOf(front, sender))
    ensures Unnoticed(lim, front + [e], sender)
  {
    var ts := TimesOf(front, sender);
    assert (front + [e])[..|front|] == front;
    if sender !in State(lim, front) {
      StillFull(lim, front, e.now, sender);
    } else {
      FoundNonNegative(lim, ts, |ts| - 1);
      if sender !in State(lim, front + [e]) {
        StaleIsFull(lim, Left(lim, ts), e.now, e.maxAge);
      }
    }
  }

  lemma {:induction false} CleanupsUnnoticed(lim: Policy, log: seq<Event>, sender: string)
    requires Monotone(log) && lim.rate >= 0.0 && lim.burst >= 0 && CleanupsSpare(lim, log)
    ensures AnswersFor(lim, log, sender) == Answers(lim, TimesOf(log, sender))
    ensures AsIfKept(lim, log, sender)
  {
    if log != [] {
      var front, last := log[..|log| - 1], log[|log| - 1];
      CleanupsUnnoticed(lim, front, sender);
      assert log == front + [last];
      if last.Cleanup? {
        TimesOrdered(front, sender);
        CleanupUnnoticed(lim, front, last, sender);
      } else if last.sender == sender {
        OwnUnnoticed(lim, front, last.now, sender);
      } else {
        OtherUnnoticed(lim, front, last, sender);
      }
      assert Unnoticed(lim, log, sender);
    }
  }

  // ---------------------------------------------------------------- when cleanups show

  ghost predicate CleanupsUse(log: seq<Event>, maxAge: real) {
    forall i :: 0 <= i < |log| && log[i].Cleanup? ==> log[i].maxAge == maxAge
  }

  /** In no run do cleanups with this age change an answer. */
  ghost predicate CleanupInvisible(lim: Policy, maxAge: real) {
    forall log, sender | Monotone(log) && CleanupsUse(log, maxAge) ::
      AnswersFor(lim, log, sender) == Answers(lim, TimesOf(log, sender))
  }

  /** `n` requests of one sender at one time. */
  function Volley(now: real, sender: string, n: nat): (log: seq<Event>)
    ensures |log| == n && forall i :: 0 <= i < n ==> log[i] == Request(now, sender)
  {
    seq(n, _ => Request(now, sender))
  }

  function Repeat<T>(x: T, n: nat): (s: seq<T>)
    ensures |s| == n && forall i :: 0 <= i < n ==> s[i] == x
  {
    if n == 0 then [] else Repeat(x, n - 1) + [x]
  }

  lemma OneRequest(lim: Policy, log: seq<Event>, now: real, sender: string)
    ensures var longer := log + [Request(now, sender)];
            && TimesOf(longer, sender) == TimesOf(log, sender) + [now]
            && AnswersFor(lim, longer, sender) == AnswersFor(lim, log, sender) + [Answer(lim, log, now, sender)]
            && State(lim, longer)
               == State(lim, log)[sender := Consumed(BucketOf(State(lim, log), lim, now, sender), lim, now).0]
  {
    var longer := log + [Request(now, sender)];
    assert longer[..|log|] == log;
  }

  lemma VolleyOneMore(log: seq<Event>, now: real, sender: string, n: nat)
    ensures log + Volley(now, sender, n + 1) == log + Volley(now, sender, n) + [Request(now, sender)]
  {}

  lemma ConsumedAtOnce(lim: Policy, b: Bucket, now: real)
    requires b.lastRefill == now && 1.0 <= b.tokens <= lim.burst as real
    ensures Consumed(b, lim, now) == (Bucket(b.tokens - 1.0, now), true)
  {
    assert Refill(lim, now - now) == 0.0;
  }

  /** With a token left, one more request at the same time is granted. */
  lemma OneMoreGranted(lim: Policy, log: seq<Event>, now: real, sender: string, tokens: int)
    requires 1 <= tokens <= lim.burst && BucketOf(State(lim, log), lim, now, sender) == Bucket(tokens as real, now)
    ensures var longer := log + [Request(now, sender)];
            && AnswersFor(lim, longer, sender) == AnswersFor(lim, log, sender) + [true]
            && sender in State(lim, longer)
            && BucketOf(State(lim, longer), lim, now, sender) == Bucket((tokens - 1) as real, now)
  {
    OneRequest(lim, log, now, sender);
    ConsumedAtOnce(lim, Bucket(tokens as real, now), now);
  }

  /** What a volley of `n` into an absent bucket leaves. */
  ghost predicate VolleyLeaves(lim: Policy, log: seq<Event>, longer: seq<Event>, now: real, sender: string, n: nat) {
    && AnswersFor(lim, longer, sender) == AnswersFor(lim, log, sender) + Repeat(true, n)
    && BucketOf(State(lim, longer), lim, now, sender) == Bucket((lim.burst - n) as real, now)
    && (sender in State(lim, longer) <==> n > 0)
  }

  lemma VolleyLeavesNext(lim: Policy, log: seq<Event>, before: seq<Event>, now: real, sender: string, n: nat)
    requires n < lim.burst && VolleyLeaves(lim, log, before, now, sender, n)
    ensures VolleyLeaves(lim, log, before + [Request(now, sender)], now, sender, n + 1)
  {
    OneMoreGranted(lim, before, now, sender, lim.burst - n);
  }

  /** It is granted as long as tokens last. */
  lemma {:induction false} VolleyGranted(lim: Policy, log: seq<Event>, now: real, sender: string, n: nat)
    requires n <= lim.burst && sender !in State(lim, log)
    ensures VolleyLeaves(lim, log, log + Volley(now, sender, n), now, sender, n)
  {
    if n == 0 {
      assert log + Volley(now, sender, n) == log;
    } else {
      VolleyGranted(lim, log, now, sender, n - 1);
      VolleyOneMore(log, now, sender, n - 1);
      VolleyLeavesNext(lim, log, log + Volley(now, sender, n - 1), now, sender, n - 1);
    }
  }

  lemma {:induction false} VolleyTimes(log: seq<Event>, now: real, sender: string, n: nat)
    ensures TimesOf(log + Volley(now, sender, n), sender) == TimesOf(log, sender) + Repeat(now, n)
  {
    if n == 0 {
      assert log + Volley(now, sender, n) == log;
    } else {
      VolleyTimes(log, now, sender, n - 1);
      VolleyOneMore(log, now, sender, n - 1);
      var longer := log + Volley(now, sender, n);
      assert longer[..|longer| - 1] == log + Volley(now, sender, n - 1);
    }
  }

  /** An age at which the bucket is stale but not full again. */
  lemma StaleYetNotFull(lim: Policy, maxAge: real) returns (e: real)
    requires lim.burst >= 1 && lim.rate >= 0.0 && Refill(lim, maxAge) < lim.burst as real
    ensures e >= 0.0 && e > maxAge && Refill(lim, e) < lim.burst as real
  {
    if maxAge < 0.0 {
      e := 0.0;
    } else {
      var room := lim.burst as real - Refill(lim, maxAge);
      var d := room / (2.0 * (lim.rate + 1.0));
      assert d * (2.0 * (lim.rate + 1.0)) == room;
      assert d > 0.0;
      assert Refill(lim, d) + d == room / 2.0;
      RefillAdds(lim, maxAge, d);
      e := maxAge + d;
    }
  }

  /** A burst below one token never grants anything, cleanups or not. */
  lemma {:induction false} NothingGranted(lim: Policy, log: seq<Event>, sender: string)
    requires lim.burst < 1
    ensures AnswersFor(lim, log, sender) == Repeat(false, |TimesOf(log, sender)|)
  {
    if log != [] {
      NothingGranted(lim, log[..|log| - 1], sender);
    }
  }

  lemma NothingAllowed(lim: Policy, ts: seq<real>)
    requires lim.burst < 1
    ensures Answers(lim, ts) == Repeat(false, |ts|)
  {}

  /** Cleanups are invisible exactly when a bucket refills completely within the age they spare, or holds no token at
      all. */
  lemma CleanupInvisibleExactlyWhen(lim: Policy, maxAge: real)
    requires lim.rate >= 0.0
    ensures CleanupInvisible(lim, maxAge) <==> lim.burst < 1 || Refill(lim, maxAge) >= lim.burst as real
  {
    if lim.burst < 1 {
      forall log, sender | Monotone(log) && CleanupsUse(log, maxAge)
        ensures AnswersFor(lim, log, sender) == Answers(lim, TimesOf(log, sender))
      {
        NothingGranted(lim, log, sender);
        NothingAllowed(lim, TimesOf(log, sender));
      }
    } else if Refill(lim, maxAge) >= lim.burst as real {
      forall log, sender | Monotone(log) && CleanupsUse(log, maxAge)
        ensures AnswersFor(lim, log, sender) == Answers(lim, TimesOf(log, sender))
      {
        CleanupsUnnoticed(lim, log, sender);
      }
    } else {
      var log := VisibleCleanup(lim, maxAge, "");
    }
  }

  /** Two volleys with a cleanup between them. */
  function TwoVolleys(maxAge: real, e: real, sender: string, n: nat): seq<Event> {
    [] + Volley(0.0, sender, n) + [Cleanup(e, maxAge)] + Volley(e, sender, n)
  }

  lemma TwoVolleysOrdered(maxAge: real, e: real, sender: string, n: nat)
    requires e >= 0.0
    ensures Monotone(TwoVolleys(maxAge, e, sender, n)) && CleanupsUse(TwoVolleys(maxAge, e, sender, n), maxAge)
  {}

  lemma RepeatTwice<T>(x: T, n: nat, m: nat)
    ensures [] + Repeat(x, n) + Repeat(x, m) == Repeat(x, n + m)
  {}

  lemma VisibleCleanup(lim: Policy, maxAge: real, sender: string) returns (log: seq<Event>)
    requires lim.burst >= 1 && lim.rate >= 0.0 && Refill(lim, maxAge) < lim.burst as real
    ensures Monotone(log) && CleanupsUse(log, maxAge)
    ensures AnswersFor(lim, log, sender) != Answers(lim, TimesOf(log, sender))
  {
    var e := StaleYetNotFull(lim, maxAge);
    var n := lim.burst;
    log := TwoVolleys(maxAge, e, sender, n);
    TwoVolleysOrdered(maxAge, e, sender, n);
    BothVolleysGranted(lim, maxAge, e, sender);
    RepeatTwice(true, n, n);
    BothVolleyTimes(maxAge, e, sender, n);
    SomeDenied(lim, [] + Repeat(0.0, n) + Repeat(e, n), 0.0, e);
  }

  /** More requests in a window than its bound cannot all be granted. */
  lemma SomeDenied(lim: Policy, ts: seq<real>, lo: real, hi: real)
    requires lim.rate >= 0.0 && Ordered(ts) && forall m :: 0 <= m < |ts| ==> lo <= ts[m] <= hi
    requires |ts| as real > lim.burst as real + Refill(lim, hi - lo) && ts != []
    ensures Answers(lim, ts) != Repeat(true, |ts|)
  {
    if Answers(lim, ts) == Repeat(true, |ts|) {
      AllGranted(lim, ts, |ts|, lo, hi);
      WindowBound(lim, ts, |ts|, lo, hi);
    }
  }

  lemma BothVolleysGranted(lim: Policy, maxAge: real, e: real, sender: string)
    requires lim.burst >= 1 && e >= 0.0 && e > maxAge
    ensures var n := lim.burst;
            AnswersFor(lim, TwoVolleys(maxAge, e, sender, n), sender) == [] + Repeat(true, n) + Repeat(true, n)
  {
    var n := lim.burst;
    var first := [] + Volley(0.0, sender, n);
    var cleaned := first + [Cleanup(e, maxAge)];
    VolleyGranted(lim, [], 0.0, sender, n);
    assert cleaned[..|first|] == first;
    assert State(lim, first)[sender].lastRefill == 0.0;
    assert sender !in State(lim, cleaned);
    VolleyGranted(lim, cleaned, e, sender, n);
  }

  lemma BothVolleyTimes(maxAge: real, e: real, sender: string, n: nat)
    ensures TimesOf(TwoVolleys(maxAge, e, sender, n), sender) == [] + Repeat(0.0, n) + Repeat(e, n)
  {
    var first := [] + Volley(0.0, sender, n);
    var cleaned := first + [Cleanup(e, maxAge)];
    VolleyTimes([], 0.0, sender, n);
    assert cleaned[..|first|] == first;
    VolleyTimes(cleaned, e, sender, n);
  }

  lemma {:induction false} AllGranted(lim: Policy, ts: seq<real>, n: nat, lo: real, hi: real)
    requires n <= |ts| && forall m :: 0 <= m < n ==> lo <= ts[m] <= hi && Answers(lim, ts)[m]
    ensures GrantedWithin(lim, ts, n, lo, hi) == n
  {
    if n > 0 {
      AllGranted(lim, ts, n - 1, lo, hi);
      assert Answers(lim, ts)[n - 1];
    }
  }
}
