/** Backoff schedules and jitter in 64-bit arithmetic, against the unbounded
    exponential they stand for. */
module BackoffSchedule {
  import opened Wrappers

  function Pow(b: nat, e: nat): nat {
    if e == 0 then 1 else b * Pow(b, e - 1)
  }

  // u64::checked_pow of the standard library.
  function CheckedPow(b: nat, e: nat): Option<nat> {
    if Pow(b, e) <= U64_MAX then Some(Pow(b, e)) else None
  }

  datatype RawBackoff = RawBackoff(baseMs: nat, factor: nat, maxMs: nat, maxRetries: Option<nat>)

  type Backoff = b: RawBackoff |
    && b.baseMs <= U64_MAX && b.factor <= U32_MAX && b.maxMs <= U64_MAX
    && (b.maxRetries.Some? ==> b.maxRetries.value <= U32_MAX)
    witness RawBackoff(500, 2, 30000, None)

  /** The delay before retry number `attempt`, None at and beyond the ceiling. */
  function Delay(b: Backoff, attempt: nat): Option<nat> {
    if b.maxRetries.Some? && attempt >= b.maxRetries.value then None
    else
      var growth := match CheckedPow(b.factor, attempt) case Some(g) => g case None => U64_MAX;
      Some(Min(SaturatingMul(b.baseMs, growth), b.maxMs))
  }

  /** Checking and saturating never show: below the ceiling the delay is the
      truncated exponential over unbounded integers, factor 0 included. */
  lemma DelayIsTruncatedExponential(b: Backoff, attempt: nat)
    ensures Delay(b, attempt) ==
            if b.maxRetries.Some? && attempt >= b.maxRetries.value then None
            else Some(Min(b.baseMs * Pow(b.factor, attempt), b.maxMs))
  {
    var p := Pow(b.factor, attempt);
    if p > U64_MAX && b.baseMs > 0 {
      MulMonotone(b.baseMs, U64_MAX, p);
      assert b.baseMs * U64_MAX >= U64_MAX;
    }
  }

  lemma {:induction false} PowGrows(b: nat, i: nat, j: nat)
    requires i <= j && b >= 1
    ensures 1 <= Pow(b, i) <= Pow(b, j)
    decreases j
  {
    if i < j {
      PowGrows(b, i, j - 1);
      assert Pow(b, j) == b * Pow(b, j - 1) >= Pow(b, j - 1);
    } else if i > 0 {
      PowGrows(b, i - 1, i - 1);
      assert Pow(b, i) == b * Pow(b, i - 1) >= 1;
    }
  }

  predicate NeverShrinks(b: Backoff, i: nat, j: nat) {
    Delay(b, i).Some? && Delay(b, j).Some? ==> Delay(b, i).value <= Delay(b, j).value
  }

  /** Later delays are never shorter exactly when the factor is at least 1, or
      there is only one delay, or the delays are all zero. */
  lemma DelaysGrowIff(b: Backoff)
    ensures (forall i: nat, j: nat :: i <= j ==> NeverShrinks(b, i, j)) <==>
            b.factor >= 1 || b.baseMs == 0 || b.maxMs == 0 || (b.maxRetries.Some? && b.maxRetries.value <= 1)
  {
    hide Delay, Pow;
    if b.factor >= 1 || b.baseMs == 0 || b.maxMs == 0 || (b.maxRetries.Some? && b.maxRetries.value <= 1) {
      forall i: nat, j: nat | i <= j ensures NeverShrinks(b, i, j) {
        DelayPairGrows(b, i, j);
      }
    } else {
      ZeroFactorShrinks(b);
    }
  }

  lemma DelayPairGrows(b: Backoff, i: nat, j: nat)
    requires i <= j
    requires b.factor >= 1 || b.baseMs == 0 || b.maxMs == 0 || (b.maxRetries.Some? && b.maxRetries.value <= 1)
    ensures NeverShrinks(b, i, j)
  {
    hide Delay, Pow;
    DelayIsTruncatedExponential(b, i);
    DelayIsTruncatedExponential(b, j);
    if b.factor >= 1 {
      PowGrows(b.factor, i, j);
      MulMonotone(b.baseMs, Pow(b.factor, i), Pow(b.factor, j));
    }
  }

  lemma ZeroFactorShrinks(b: Backoff)
    requires b.factor == 0 && b.baseMs > 0 && b.maxMs > 0 && (b.maxRetries.Some? ==> b.maxRetries.value > 1)
    ensures !NeverShrinks(b, 0, 1)
  {
    DelayIsTruncatedExponential(b, 0);
    DelayIsTruncatedExponential(b, 1);
    assert Pow(0, 1) == 0 * Pow(0, 0) && Pow(0, 0) == 1;
  }

  // ---- Jitter ---------------------------------------------------------------

  datatype Jitter = NoJitter | Full | Equal

  // None is the overflow of `max + 1`, a panic.
  function Bounded(rand: nat, max: nat): Option<nat> {
    if max == 0 then Some(0)
    else if max == U64_MAX then None
    else Some(rand % (max + 1))
  }

  function Apply(j: Jitter, delayMs: nat, rand: nat): Option<nat> {
    match j
    case NoJitter => Some(delayMs)
    case Full => Bounded(rand, delayMs)
    case Equal =>
      var floor := delayMs / 2;
      match Bounded(rand, delayMs - floor) case None => None case Some(n) => Some(floor + n)
  }

  function Floor(j: Jitter, delayMs: nat): nat {
    match j
    case NoJitter => delayMs
    case Full => 0
    case Equal => delayMs / 2
  }

  /** Jitter overflows only for full jitter of the largest delay. */
  lemma JitterOverflowsIff(j: Jitter, delayMs: nat, rand: nat)
    requires delayMs <= U64_MAX
    ensures Apply(j, delayMs, rand).None? <==> j == Full && delayMs == U64_MAX
  {
  }

  lemma BoundedRange(max: nat, rand: nat, wanted: nat)
    requires max < U64_MAX
    ensures Bounded(rand, max).Some? && Bounded(rand, max).value <= max
    ensures wanted <= max ==> Bounded(wanted, max) == Some(wanted)
  {
    if wanted <= max {
      SmallModulus(wanted, max + 1);
    }
  }

  lemma SmallModulus(r: nat, m: nat)
    requires r < m
    ensures r % m == r
  {
  }

  /** Otherwise the jittered delay ranges over exactly [floor, delay]. */
  lemma JitterRange(j: Jitter, delayMs: nat, rand: nat, wanted: nat)
    requires delayMs < U64_MAX
    ensures Floor(j, delayMs) <= Apply(j, delayMs, rand).value <= delayMs
    ensures Floor(j, delayMs) <= wanted <= delayMs ==>
              exists r: nat :: r <= U64_MAX && Apply(j, delayMs, r) == Some(wanted)
  {
    hide Bounded;
    var span := if j.Equal? then delayMs - delayMs / 2 else delayMs;
    if j.Equal? || j.Full? {
      BoundedRange(span, rand, 0);
    }
    if Floor(j, delayMs) <= wanted <= delayMs {
      var r := wanted - Floor(j, delayMs);
      BoundedRange(span, rand, r);
      assert Apply(j, delayMs, r) == Some(wanted);
    }
  }
}
