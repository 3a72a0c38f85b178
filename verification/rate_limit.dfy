/** The token bucket: exact accounting over any sequence of clock readings, and
    waits that are neither too short nor too long. */
module RateLimit {
  import opened Wrappers

  const MILLITOKENS_PER_TOKEN := 1000

  datatype Bucket = Bucket(capacity: nat, refillPerSec: nat, tokens: nat, lastMs: nat)

  datatype Take = Granted | Wait(ms: nat)

  function SaturatingAdd(a: nat, b: nat): nat { Min(a + b, U64_MAX) }

  /** Quantities in millitokens; the parameters are 32-bit. */
  predicate Valid(b: Bucket) {
    b.capacity <= U32_MAX * MILLITOKENS_PER_TOKEN && b.refillPerSec <= U32_MAX && b.tokens <= b.capacity
  }

  function New(capacity: nat, refillPerSec: nat, nowMs: nat): (b: Bucket)
    requires capacity <= U32_MAX && refillPerSec <= U32_MAX
    ensures Valid(b)
  {
    var millitokens := SaturatingMul(capacity, MILLITOKENS_PER_TOKEN);
    Bucket(millitokens, refillPerSec, millitokens, nowMs)
  }

  // A clock that went backwards adds nothing and is not remembered.
  function Refill(b: Bucket, nowMs: nat): Bucket {
    if nowMs <= b.lastMs then b
    else
      var gained := SaturatingMul(nowMs - b.lastMs, b.refillPerSec);
      b.(tokens := Min(SaturatingAdd(b.tokens, gained), b.capacity), lastMs := nowMs)
  }

  function TryTake(b: Bucket, nowMs: nat): (Bucket, Take)
    requires Valid(b)
  {
    var r := Refill(b, nowMs);
    if r.tokens >= MILLITOKENS_PER_TOKEN then (r.(tokens := r.tokens - MILLITOKENS_PER_TOKEN), Granted)
    else if r.refillPerSec == 0 then (r, Wait(U64_MAX))
    else (r, Wait((MILLITOKENS_PER_TOKEN - r.tokens + r.refillPerSec - 1) / r.refillPerSec))
  }

  // ---- Conservation ---------------------------------------------------------

  function Elapsed(b: Bucket, nowMs: nat): nat { if nowMs <= b.lastMs then 0 else nowMs - b.lastMs }

  /** What a refill would have added beyond the capacity. */
  function Spill(b: Bucket, nowMs: nat): nat {
    var full := b.tokens + b.refillPerSec * Elapsed(b, nowMs);
    if full > b.capacity then full - b.capacity else 0
  }

  lemma RefillExact(b: Bucket, nowMs: nat)
    requires Valid(b)
    ensures var r := Refill(b, nowMs);
            && Valid(r)
            && r == b.(tokens := r.tokens, lastMs := Max(b.lastMs, nowMs))
            && r.tokens + Spill(b, nowMs) == b.tokens + b.refillPerSec * Elapsed(b, nowMs)
            && (Spill(b, nowMs) > 0 ==> r.tokens == r.capacity)
  {
    assert (nowMs - b.lastMs) * b.refillPerSec == b.refillPerSec * (nowMs - b.lastMs);
    if nowMs > b.lastMs {
      assert b.refillPerSec * Elapsed(b, nowMs) >= 0;
    }
  }

  datatype Account = Account(bucket: Bucket, granted: nat, spilled: nat)

  /** The bucket after takers present the clock readings `nows`, in that order. */
  function Takes(b: Bucket, nows: seq<nat>): Account
    requires Valid(b)
    decreases |nows|
  {
    if nows == [] then Account(b, 0, 0)
    else
      RefillExact(b, nows[0]);
      var (b', take) := TryTake(b, nows[0]);
      var rest := Takes(b', nows[1..]);
      Account(rest.bucket, rest.granted + (if take.Granted? then 1 else 0), rest.spilled + Spill(b, nows[0]))
  }

  /** From any state and for any interleaving of takers and clock readings, even
      backward ones: tokens granted, held and spilled are exactly the tokens held
      at first plus the refill over the time that passed. So grants never exceed
      the burst plus the rate times the elapsed time. */
  lemma {:induction false} TokensAreConserved(b: Bucket, nows: seq<nat>)
    requires Valid(b)
    ensures
      var end := Takes(b, nows);
      && Valid(end.bucket)
      && end.bucket == b.(tokens := end.bucket.tokens, lastMs := end.bucket.lastMs)
      && b.lastMs <= end.bucket.lastMs
      && MILLITOKENS_PER_TOKEN * end.granted + end.bucket.tokens + end.spilled
         == b.tokens + b.refillPerSec * (end.bucket.lastMs - b.lastMs)
      && MILLITOKENS_PER_TOKEN * end.granted <= b.capacity + b.refillPerSec * (end.bucket.lastMs - b.lastMs)
    decreases |nows|
  {
    if nows != [] {
      RefillExact(b, nows[0]);
      var (b', take) := TryTake(b, nows[0]);
      TokensAreConserved(b', nows[1..]);
      var end := Takes(b, nows).bucket;
      assert b'.lastMs == b.lastMs + Elapsed(b, nows[0]);
      assert b.refillPerSec * (end.lastMs - b.lastMs)
          == b.refillPerSec * (end.lastMs - b'.lastMs) + b.refillPerSec * Elapsed(b, nows[0]) by {
        assert end.lastMs - b.lastMs == (end.lastMs - b'.lastMs) + Elapsed(b, nows[0]);
        Distribute(b.refillPerSec, end.lastMs - b'.lastMs, Elapsed(b, nows[0]));
      }
    }
  }

  lemma Distribute(a: int, x: int, y: int)
    ensures a * (x + y) == a * x + a * y
  {
  }

  /** A new bucket serves its full burst at once, and no more. */
  lemma {:induction false} NewBucketGrantsBurst(capacity: nat, refillPerSec: nat, nowMs: nat, takers: nat)
    requires capacity <= U32_MAX && refillPerSec <= U32_MAX
    ensures Takes(New(capacity, refillPerSec, nowMs), seq(takers, _ => nowMs)).granted == Min(capacity, takers)
  {
    GrantsWhatItHolds(New(capacity, refillPerSec, nowMs), capacity, takers);
  }

  lemma {:induction false} GrantsWhatItHolds(b: Bucket, held: nat, takers: nat)
    requires Valid(b) && b.tokens == held * MILLITOKENS_PER_TOKEN
    ensures Takes(b, seq(takers, _ => b.lastMs)).granted == Min(held, takers)
    decreases takers
  {
    if takers > 0 {
      var nows := seq(takers, _ => b.lastMs);
      assert nows[1..] == seq(takers - 1, _ => b.lastMs);
      var (b', take) := TryTake(b, b.lastMs);
      RefillExact(b, b.lastMs);
      GrantsWhatItHolds(b', if held > 0 then held - 1 else 0, takers - 1);
    }
  }

  // ---- Waits ----------------------------------------------------------------

  lemma CeilDiv(deficit: nat, rate: nat, t: nat)
    requires rate > 0
    ensures t >= (deficit + rate - 1) / rate <==> rate * t >= deficit
  {
    var w := (deficit + rate - 1) / rate;
    assert rate * w <= deficit + rate - 1 < rate * w + rate;
    if t >= w {
      assert rate * t >= rate * w by { MulMonotone(rate, w, t); }
    } else {
      assert rate * t <= rate * (w - 1) by { MulMonotone(rate, t, w - 1); }
    }
  }

  /** With no other taker, a refused take is granted at time `t` exactly when the
      reported wait has passed since the later of the clock and the last refill,
      and never when the bucket cannot hold a token or is not refilled. */
  lemma WaitIsExact(b: Bucket, nowMs: nat, t: nat)
    requires Valid(b) && TryTake(b, nowMs).1.Wait?
    ensures
      var (b', take) := TryTake(b, nowMs);
      Valid(b') && (TryTake(b', t).1.Granted? <==>
        b.capacity >= MILLITOKENS_PER_TOKEN && b.refillPerSec > 0 && t >= Max(b.lastMs, nowMs) + take.ms)
  {
    RefillExact(b, nowMs);
    var (b', take) := TryTake(b, nowMs);
    RefillExact(b', t);
    assert b'.lastMs == Max(b.lastMs, nowMs) && b'.tokens < MILLITOKENS_PER_TOKEN;
    if b.refillPerSec > 0 {
      CeilDiv(MILLITOKENS_PER_TOKEN - b'.tokens, b.refillPerSec, Elapsed(b', t));
      assert take.ms > 0 by { CeilDiv(MILLITOKENS_PER_TOKEN - b'.tokens, b.refillPerSec, 0); }
    }
  }

  /** A bucket of capacity zero with a refill rate refuses every take with a
      finite wait, so a caller that sleeps and retries never returns. */
  lemma {:induction false} ZeroCapacityNeverGrants(b: Bucket, nows: seq<nat>)
    requires Valid(b) && b.capacity == 0 && b.refillPerSec > 0
    ensures Takes(b, nows).granted == 0
    ensures forall now: nat :: TryTake(b, now).1.Wait? && TryTake(b, now).1.ms < U64_MAX
    decreases |nows|
  {
    forall now: nat ensures TryTake(b, now).1.Wait? && TryTake(b, now).1.ms < U64_MAX {
      RefillExact(b, now);
      CeilDiv(MILLITOKENS_PER_TOKEN, b.refillPerSec, MILLITOKENS_PER_TOKEN);
    }
    if nows != [] {
      RefillExact(b, nows[0]);
      ZeroCapacityNeverGrants(TryTake(b, nows[0]).0, nows[1..]);
    }
  }

  // ---- The object -----------------------------------------------------------

  class TokenBucket {
    var capacityMillitokens: nat
    var refillPerSec: nat
    var tokensMillitokens: nat
    var lastMs: nat

    function View(): Bucket
      reads this
    {
      Bucket(capacityMillitokens, refillPerSec, tokensMillitokens, lastMs)
    }

    constructor (capacity: nat, refillPerSec: nat, nowMs: nat)
      requires capacity <= U32_MAX && refillPerSec <= U32_MAX
      ensures View() == New(capacity, refillPerSec, nowMs) && Valid(View())
    {
      capacityMillitokens := SaturatingMul(capacity, MILLITOKENS_PER_TOKEN);
      this.refillPerSec := refillPerSec;
      tokensMillitokens := SaturatingMul(capacity, MILLITOKENS_PER_TOKEN);
      lastMs := nowMs;
    }

    method RefillTo(nowMs: nat)
      modifies this`tokensMillitokens, this`lastMs
      ensures View() == Refill(old(View()), nowMs)
    {
      var elapsedMs := if nowMs > lastMs then nowMs - lastMs else 0;
      if elapsedMs == 0 {
        return;
      }
      var gained := SaturatingMul(elapsedMs, refillPerSec);
      tokensMillitokens := Min(SaturatingAdd(tokensMillitokens, gained), capacityMillitokens);
      lastMs := nowMs;
    }

    method TakeOne(nowMs: nat) returns (r: Take)
      requires Valid(View())
      modifies this`tokensMillitokens, this`lastMs
      ensures (View(), r) == TryTake(old(View()), nowMs) && Valid(View())
    {
      RefillExact(View(), nowMs);
      RefillTo(nowMs);
      if tokensMillitokens >= MILLITOKENS_PER_TOKEN {
        tokensMillitokens := tokensMillitokens - MILLITOKENS_PER_TOKEN;
        return Granted;
      }
      var deficit := MILLITOKENS_PER_TOKEN - tokensMillitokens;
      if refillPerSec == 0 {
        return Wait(U64_MAX);
      }
      return Wait((deficit + refillPerSec - 1) / refillPerSec);
    }

    method Available(nowMs: nat) returns (n: nat)
      requires Valid(View())
      modifies this`tokensMillitokens, this`lastMs
      ensures View() == Refill(old(View()), nowMs) && Valid(View())
      ensures n == tokensMillitokens / MILLITOKENS_PER_TOKEN <= U32_MAX
    {
      RefillExact(View(), nowMs);
      RefillTo(nowMs);
      return Min(tokensMillitokens / MILLITOKENS_PER_TOKEN, U32_MAX);
    }
  }
}
