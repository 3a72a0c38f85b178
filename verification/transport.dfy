/** Waiting for a rate-limit token: take, or sleep for the reported wait and try
    again. */
module Transport {
  import opened Wrappers
  import opened RateLimit

  /** The runtime's monotonic clock; a sleep lasts at least as long as asked. */
  class Clock {
    var now: nat

    constructor ()
    {
      now := 0;
    }

    method NowMillis() returns (t: nat)
      modifies this
      ensures old(now) <= t == now
    {
      var passed: nat :| true;
      now := now + passed;
      t := now;
    }

    method SleepMs(ms: nat)
      modifies this
      ensures now >= old(now) + ms
    {
      var late: nat :| true;
      now := now + ms + late;
    }
  }

  // RateLimited is the wait of a bucket that is never refilled, turned into an
  // error; StillWaiting is a caller whose patience is at an end.
  datatype Outcome = Acquired | RateLimited(retryAfterMs: nat) | StillWaiting

  /** Refilled, but too small for a token: every wait is in vain. */
  predicate InVain(b: Bucket) {
    b.capacity < MILLITOKENS_PER_TOKEN && b.refillPerSec > 0
  }

  /** A lone taker needs at most two takes: when the first is refused, the reported
      wait makes the second succeed. Only a bucket that is never refilled fails,
      and then without sleeping. Only one that waits in vain is waited for without
      end: `patience` bounds the takes, which the source does not. */
  method Acquire(limiter: TokenBucket?, clock: Clock, patience: nat) returns (r: Outcome, takes: nat)
    requires limiter != null ==> Valid(limiter.View()) && limiter.lastMs <= clock.now
    modifies limiter, clock
    ensures limiter == null ==> r == Acquired && takes == 0 && clock.now == old(clock.now)
    ensures limiter != null ==> takes <= patience && Valid(limiter.View()) && limiter.lastMs <= clock.now
    ensures limiter != null && r.StillWaiting? ==> takes == patience
    ensures limiter != null && InVain(old(limiter.View())) ==> r.StillWaiting?
    ensures limiter != null && !InVain(old(limiter.View())) ==> takes <= 2 && (patience >= 2 ==> !r.StillWaiting?)
    ensures r.RateLimited? ==> limiter != null && old(limiter.refillPerSec) == 0 && takes == 1 && r.retryAfterMs == U64_MAX
    ensures limiter != null ==>
      var b, e := old(limiter.View()), limiter.View();
      && b.lastMs <= e.lastMs && e == b.(tokens := e.tokens, lastMs := e.lastMs)
      // At most one token leaves the bucket, and only with success.
      && e.tokens + (if r.Acquired? then MILLITOKENS_PER_TOKEN else 0) <= b.tokens + b.refillPerSec * (e.lastMs - b.lastMs)
  {
    takes := 0;
    if limiter == null {
      return Acquired, takes;
    }
    ghost var b := limiter.View();
    while takes < patience
      invariant takes <= patience && (!InVain(b) ==> takes <= 1)
      invariant Valid(limiter.View()) && b.lastMs <= limiter.lastMs <= clock.now && old(clock.now) <= clock.now
      invariant limiter.View() == b.(tokens := limiter.tokensMillitokens, lastMs := limiter.lastMs)
      invariant limiter.View().tokens <= b.tokens + b.refillPerSec * (limiter.lastMs - b.lastMs)
      invariant takes == 1 && !InVain(b) ==> forall t: nat :: t >= clock.now ==> TryTake(limiter.View(), t).1.Granted?
    {
      var now := clock.NowMillis();
      ghost var before := limiter.View();
      RefillExact(before, now);
      var take := limiter.TakeOne(now);
      Distribute(b.refillPerSec, before.lastMs - b.lastMs, now - before.lastMs);
      takes := takes + 1;
      match take {
        case Granted => return Acquired, takes;
        case Wait(wait) =>
          if wait == U64_MAX {
            NeverRefilled(before, now);
            return RateLimited(wait), takes;
          }
          if !InVain(b) { WaitsOnce(before, now, wait); }
          clock.SleepMs(wait);
      }
    }
    return StillWaiting, takes;
  }

  lemma NeverRefilled(b: Bucket, now: nat)
    requires Valid(b) && TryTake(b, now).1 == Wait(U64_MAX)
    ensures b.refillPerSec == 0
  {
    RefillExact(b, now);
    if b.refillPerSec > 0 {
      CeilDiv(MILLITOKENS_PER_TOKEN, b.refillPerSec, MILLITOKENS_PER_TOKEN);
      CeilDiv(MILLITOKENS_PER_TOKEN - Refill(b, now).tokens, b.refillPerSec, MILLITOKENS_PER_TOKEN);
    }
  }

  lemma WaitsOnce(b: Bucket, now: nat, wait: nat)
    requires Valid(b) && b.lastMs <= now && TryTake(b, now).1 == Wait(wait) && wait < U64_MAX
    requires b.capacity >= MILLITOKENS_PER_TOKEN || b.refillPerSec == 0
    ensures forall t: nat :: t >= now + wait ==> TryTake(TryTake(b, now).0, t).1.Granted?
  {
    RefillExact(b, now);
    forall t: nat | t >= now + wait ensures TryTake(TryTake(b, now).0, t).1.Granted? {
      WaitIsExact(b, now, t);
    }
  }
}
