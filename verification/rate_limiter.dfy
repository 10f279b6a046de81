/** The token buckets of rate_limiter.py, with real-valued time and tokens. */
module RateLimiting {
  // ---------------------------------------------------------------- as functions

  datatype Policy = Policy(burst: int, rate: real)

  datatype Bucket = Bucket(tokens: real, lastRefill: real)

  type Buckets = map<string, Bucket>

  datatype Event = Request(now: real, sender: string) | Cleanup(now: real, maxAge: real)

  function Least(a: real, b: real): real {
    if a < b then a else b
  }

  function Fresh(lim: Policy, now: real): Bucket {
    Bucket(lim.burst as real, now)
  }

  /** What `elapsed` seconds add to a bucket. */
  function Refill(lim: Policy, elapsed: real): real {
    elapsed * lim.rate
  }

  /** The tokens a request at `now` finds. */
  function Refilled(b: Bucket, lim: Policy, now: real): real {
    Least(lim.burst as real, b.tokens + Refill(lim, now - b.lastRefill))
  }

  function Consumed(b: Bucket, lim: Policy, now: real): (Bucket, bool) {
    var tokens := Refilled(b, lim, now);
    if tokens >= 1.0 then (Bucket(tokens - 1.0, now), true) else (Bucket(tokens, now), false)
  }

  function BucketOf(bs: Buckets, lim: Policy, now: real, sender: string): Bucket {
    if sender in bs then bs[sender] else Fresh(lim, now)
  }

  function WithoutStale(bs: Buckets, now: real, maxAge: real): Buckets {
    map s | s in bs && !(now - bs[s].lastRefill > maxAge) :: bs[s]
  }

  function After(bs: Buckets, lim: Policy, e: Event): Buckets {
    match e
    case Request(now, sender) => bs[sender := Consumed(BucketOf(bs, lim, now, sender), lim, now).0]
    case Cleanup(now, maxAge) => WithoutStale(bs, now, maxAge)
  }

  function StaleSenders(bs: Buckets, now: real, maxAge: real): set<string> {
    set s | s in bs && now - bs[s].lastRefill > maxAge
  }

  lemma WithoutStaleDrops(bs: Buckets, now: real, maxAge: real)
    ensures WithoutStale(bs, now, maxAge) == bs - StaleSenders(bs, now, maxAge)
  {}

  function State(lim: Policy, log: seq<Event>): Buckets {
    if log == [] then map[] else After(State(lim, log[..|log| - 1]), lim, log[|log| - 1])
  }

  lemma StateGrows(lim: Policy, log: seq<Event>, e: Event)
    ensures State(lim, log + [e]) == After(State(lim, log), lim, e)
  {
    assert (log + [e])[..|log|] == log;
  }

  /** A cleanup drops exactly the buckets idle for more than `maxAge` and leaves the others as they are. */
  lemma StaleDropped(lim: Policy, log: seq<Event>, now: real, maxAge: real)
    ensures var before, after := State(lim, log), State(lim, log + [Cleanup(now, maxAge)]);
            && (forall s :: s in after <==> s in before && now - before[s].lastRefill <= maxAge)
            && (forall s :: s in after ==> after[s] == before[s])
  {
    StateGrows(lim, log, Cleanup(now, maxAge));
  }

  /** What a request following `log` is answered. */
  function Answer(lim: Policy, log: seq<Event>, now: real, sender: string): bool {
    Consumed(BucketOf(State(lim, log), lim, now, sender), lim, now).1
  }

  // ---------------------------------------------------------------- the classes

  class TokenBucket {
    const maxTokens: int
    const refillRate: real
    var tokens: real
    var lastRefill: real

    constructor (maxTokens: int, refillRate: real, now: real)
      ensures Terms() == Policy(maxTokens, refillRate)
      ensures View() == Fresh(Terms(), now)
    {
      this.maxTokens := maxTokens;
      this.refillRate := refillRate;
      this.tokens := maxTokens as real;
      this.lastRefill := now;
    }

    ghost function Terms(): Policy {
      Policy(maxTokens, refillRate)
    }

    ghost function View(): Bucket
      reads this
    {
      Bucket(tokens, lastRefill)
    }

    method Consume(now: real) returns (allowed: bool)
      modifies this
      ensures (View(), allowed) == Consumed(old(View()), Terms(), now)
    {
      var elapsed := now - lastRefill;
      lastRefill := now;
      tokens := Least(maxTokens as real, tokens + elapsed * refillRate);
      assert tokens == Refilled(old(View()), Terms(), now);
      if tokens >= 1.0 {
        tokens := tokens - 1.0;
        return true;
      }
      return false;
    }
  }

  class RateLimiter {
    const burst: int
    const refillRate: real
    var buckets: map<string, TokenBucket>
    ghost var log: seq<Event>  // every request and cleanup so far

    ghost function Terms(): Policy {
      Policy(burst, refillRate)
    }

    ghost predicate Valid()
      reads this, buckets.Values
    {
      Unshared() && View() == State(Terms(), log)
    }

    ghost predicate Unshared()
      reads this`buckets
    {
      && (forall s :: s in buckets ==> buckets[s].Terms() == Terms())
      && forall s, t :: s in buckets && t in buckets && s != t ==> buckets[s] != buckets[t]
    }

    ghost function View(): Buckets
      reads this`buckets, buckets.Values
    {
      map s | s in buckets :: buckets[s].View()
    }

    constructor (maxPerMinute: real, burst: int)
      ensures Valid() && log == [] && buckets == map[]
      ensures Terms() == Policy(burst, maxPerMinute / 60.0)
    {
      this.burst := burst;
      this.refillRate := maxPerMinute / 60.0;
      this.buckets := map[];
      this.log := [];
    }

    method IsAllowed(now: real, sender: string) returns (allowed: bool)
      requires Valid()
      modifies this, buckets.Values
      ensures Valid() && fresh(buckets.Values - old(buckets.Values))
      ensures log == old(log) + [Request(now, sender)]
      ensures allowed == Answer(Terms(), old(log), now, sender)
    {
      StateGrows(Terms(), log, Request(now, sender));
      allowed := Serve(now, sender);
      log := log + [Request(now, sender)];
    }

    method Serve(now: real, sender: string) returns (allowed: bool)
      requires Unshared()
      modifies this`buckets, buckets.Values
      ensures Unshared() && fresh(buckets.Values - old(buckets.Values))
      ensures View() == After(old(View()), Terms(), Request(now, sender))
      ensures allowed == Consumed(BucketOf(old(View()), Terms(), now, sender), Terms(), now).1
    {
      Obtain(now, sender);
      allowed := Charge(now, sender);
    }

    method Obtain(now: real, sender: string)
      requires Unshared()
      modifies this`buckets
      ensures Unshared() && sender in buckets
      ensures fresh(buckets.Values - old(buckets.Values))
      ensures View() == old(View())[sender := BucketOf(old(View()), Terms(), now, sender)]
    {
      if sender !in buckets {
        var created := new TokenBucket(burst, refillRate, now);
        buckets := buckets[sender := created];
      }
    }

    method Charge(now: real, sender: string) returns (allowed: bool)
      requires Unshared() && sender in buckets
      modifies buckets[sender]
      ensures var (b, answer) := Consumed(old(View())[sender], Terms(), now);
              View() == old(View())[sender := b] && allowed == answer
    {
      allowed := buckets[sender].Consume(now);
    }

    /** Drops the buckets idle for more than `maxAge` and counts them. */
    method CleanupStale(now: real, maxAge: real) returns (count: nat)
      requires Valid()
      modifies this
      ensures Valid() && buckets.Values <= old(buckets.Values)
      ensures log == old(log) + [Cleanup(now, maxAge)]
      ensures forall s :: s in View() <==> s in old(View()) && now - old(View())[s].lastRefill <= maxAge
      ensures forall s :: s in View() ==> View()[s] == old(View())[s]
      ensures count == |old(buckets).Keys - buckets.Keys|
    {
      StaleDropped(Terms(), log, now, maxAge);
      StateGrows(Terms(), log, Cleanup(now, maxAge));
      count := Forget(now, maxAge);
      log := log + [Cleanup(now, maxAge)];
    }

    method Forget(now: real, maxAge: real) returns (count: nat)
      requires Unshared()
      modifies this`buckets
      ensures Unshared() && buckets.Values <= old(buckets.Values)
      ensures View() == WithoutStale(old(View()), now, maxAge)
      ensures count == |old(buckets).Keys - buckets.Keys|
    {
      var stale := FindStale(now, maxAge);
      WithoutStaleDrops(View(), now, maxAge);
      Drop(stale);
      count := |stale|;
      assert stale == old(buckets).Keys - buckets.Keys;
    }

    method FindStale(now: real, maxAge: real) returns (stale: set<string>)
      ensures stale == StaleSenders(View(), now, maxAge) && stale <= buckets.Keys
    {
      stale := set s | s in buckets && now - buckets[s].lastRefill > maxAge;
    }

    method Drop(stale: set<string>)
      requires Unshared()
      modifies this`buckets
      ensures Unshared() && buckets.Values <= old(buckets.Values) && buckets.Keys == old(buckets).Keys - stale
      ensures View() == old(View()) - stale
    {
      buckets := map s | s in buckets && s !in stale :: buckets[s];
    }
  }
}
