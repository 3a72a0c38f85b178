/** The retry loop: attempts, jittered sleeps and a total time budget. */
module Retry {
  import opened Wrappers
  import opened BackoffSchedule

  const SEED_SALT: bv64 := 0x9E37_79B9_7F4A_7C15

  /** One xorshift64 step. */
  function XorShift(state: bv64): bv64 {
    var a := state ^ (state << 13);
    var b := a ^ (a >> 7);
    b ^ (b << 17)
  }

  // The state of the jitter source.
  datatype Seed = Seed(state: bv64)

  function NextRand(seed: Seed): Seed { Seed(XorShift(seed.state)) }

  // A drawn state as the number it denotes.
  function Draw(seed: Seed): nat { seed.state as nat }

  /** The seed of a run that starts at `startMs`. */
  function StartSeed(startMs: nat): Seed
    requires startMs <= U64_MAX
  {
    Seed((startMs as bv64 ^ SEED_SALT) | 1)
  }

  /** The jitter source never gets stuck at zero. */
  lemma SeedsStayNonZero(startMs: nat, seed: Seed)
    ensures startMs <= U64_MAX ==> StartSeed(startMs).state != 0
    ensures seed.state != 0 ==> NextRand(seed).state != 0
  {
  }

  datatype Policy = Policy(backoff: Backoff, jitter: Jitter, maxTotalMs: nat)

  function RemainingBudget(p: Policy, startMs: nat, nowMs: nat): nat {
    var elapsed := if nowMs > startMs then nowMs - startMs else 0;
    if p.maxTotalMs > elapsed then p.maxTotalMs - elapsed else 0
  }

  datatype Next = Sleep(ms: nat) | Stop | Overflow

  /** The next sleep: the larger of the jittered backoff and the server's hint,
      clamped to what remains; Overflow is a panic in the jitter. */
  function NextDelay(p: Policy, attempt: nat, hint: Option<nat>, remainingMs: nat, rand: nat): Next {
    if remainingMs == 0 then Stop
    else
      match Delay(p.backoff, attempt)
      case None => Stop
      case Some(scheduled) =>
        match Apply(p.jitter, scheduled, rand)
        case None => Overflow
        case Some(jittered) =>
          var wanted := if hint.Some? then Max(hint.value, jittered) else jittered;
          Sleep(Min(wanted, remainingMs))
  }

  lemma StopsIff(p: Policy, attempt: nat, hint: Option<nat>, remainingMs: nat, rand: nat)
    ensures NextDelay(p, attempt, hint, remainingMs, rand).Stop? <==>
            remainingMs == 0 || (p.backoff.maxRetries.Some? && attempt >= p.backoff.maxRetries.value)
    ensures NextDelay(p, attempt, hint, remainingMs, rand).Sleep? ==>
              NextDelay(p, attempt, hint, remainingMs, rand).ms <= remainingMs
  {
  }

  /** A sleep honours the server's hint and the jittered truncated exponential,
      whichever is longer, as far as the budget reaches. */
  lemma SleepRange(p: Policy, attempt: nat, hint: Option<nat>, remainingMs: nat, rand: nat)
    requires NextDelay(p, attempt, hint, remainingMs, rand).Sleep?
    ensures
      var ms := NextDelay(p, attempt, hint, remainingMs, rand).ms;
      var full := Min(p.backoff.baseMs * Pow(p.backoff.factor, attempt), p.backoff.maxMs);
      var least := if hint.Some? then hint.value else 0;
      Min(remainingMs, Max(least, Floor(p.jitter, full))) <= ms <= Min(remainingMs, Max(least, full))
  {
    DelayIsTruncatedExponential(p.backoff, attempt);
    var full := Delay(p.backoff, attempt).value;
    JitterOverflowsIff(p.jitter, full, rand);
    hide Apply, Delay, Pow;
    JitterWithin(p.jitter, full, rand);
  }

  lemma JitterWithin(j: Jitter, delayMs: nat, rand: nat)
    requires Apply(j, delayMs, rand).Some?
    ensures Floor(j, delayMs) <= Apply(j, delayMs, rand).value <= delayMs
  {
    if delayMs < U64_MAX {
      JitterRange(j, delayMs, rand, delayMs);
    }
  }

  // ---- The environment ------------------------------------------------------

  predicate RetryableStatus(status: nat) {
    status == 408 || status == 429 || 500 <= status < 600
  }

  datatype Outcome =
    | Response(status: nat, retryAfterMs: Option<nat>)
    | Transient
    | Terminal

  // How one attempt goes: its outcome, the time the call takes, and the time that
  // the sleep after it really takes on the clock, be it shorter than asked.
  datatype Attempt = Attempt(outcome: Outcome, callMs: nat, sleptMs: nat)

  predicate Final(o: Outcome) {
    o.Terminal? || (o.Response? && !RetryableStatus(o.status))
  }

  function HintOf(o: Outcome): Option<nat> {
    if o.Response? then o.retryAfterMs else None
  }

  function Sum(xs: seq<nat>): nat {
    if xs == [] then 0 else Sum(xs[..|xs| - 1]) + xs[|xs| - 1]
  }

  /** Time spent in calls. */
  function Called(attempts: seq<Attempt>): nat {
    if attempts == [] then 0 else Called(attempts[..|attempts| - 1]) + attempts[|attempts| - 1].callMs
  }

  /** Time that passed in sleeps. */
  function Slept(attempts: seq<Attempt>): nat {
    if attempts == [] then 0 else Slept(attempts[..|attempts| - 1]) + attempts[|attempts| - 1].sleptMs
  }

  /** The clock, relative to the start, when attempt `i` has been made. */
  function ElapsedAfter(environment: seq<Attempt>, i: nat): nat
    requires i < |environment|
  {
    Called(environment[..i + 1]) + Slept(environment[..i])
  }

  /** The random value drawn for retry `i`. */
  function RandAt(seed: Seed, i: nat): Seed {
    if i == 0 then NextRand(seed) else NextRand(RandAt(seed, i - 1))
  }

  /** The decision after attempt `i`. */
  function Decision(p: Policy, startMs: nat, environment: seq<Attempt>, i: nat): Next
    requires startMs <= U64_MAX && i < |environment|
  {
    var remaining := RemainingBudget(p, startMs, startMs + ElapsedAfter(environment, i));
    NextDelay(p, i, HintOf(environment[i].outcome), remaining, Draw(RandAt(StartSeed(startMs), i)))
  }

  datatype Finish =
    | Returned(outcome: Outcome)               // a response, or a terminal error
    | Exhausted(attempts: nat, elapsedMs: nat) // the budget spent on transient errors
    | Panicked                                 // arithmetic overflow
    | Unfinished                               // the environment says no more

  // ---- The loop -------------------------------------------------------------

  lemma SumAppend(xs: seq<nat>, x: nat)
    ensures Sum(xs + [x]) == Sum(xs) + x
  {
    assert (xs + [x])[..|xs|] == xs;
  }

  lemma PrefixTotals(attempts: seq<Attempt>, i: nat)
    requires i < |attempts|
    ensures Called(attempts[..i + 1]) == Called(attempts[..i]) + attempts[i].callMs
    ensures Slept(attempts[..i + 1]) == Slept(attempts[..i]) + attempts[i].sleptMs
  {
    assert attempts[..i + 1][..i] == attempts[..i];
  }

  /** Every attempt slept after asked for a retry, and slept as decided. */
  ghost predicate SleptAsDecided(p: Policy, startMs: nat, environment: seq<Attempt>, sleeps: seq<nat>)
    requires startMs <= U64_MAX && |sleeps| <= |environment|
  {
    forall i :: 0 <= i < |sleeps| ==>
      !Final(environment[i].outcome) && Decision(p, startMs, environment, i) == Sleep(sleeps[i])
  }

  /** The loop's own clock and seed give the decision. */
  lemma DecidedNow(p: Policy, startMs: nat, environment: seq<Attempt>, n: nat, now: nat, rand: Seed)
    requires startMs <= U64_MAX && n < |environment|
    requires now == startMs + Called(environment[..n + 1]) + Slept(environment[..n])
    requires rand == RandAt(StartSeed(startMs), n)
    ensures now - startMs == ElapsedAfter(environment, n)
    ensures Decision(p, startMs, environment, n) ==
            NextDelay(p, n, HintOf(environment[n].outcome), RemainingBudget(p, startMs, now), Draw(rand))
  {
  }

  predicate EachCallTakesTime(environment: seq<Attempt>) {
    forall i :: 0 <= i < |environment| ==> environment[i].callMs >= 1
  }

  /** No sleep is cut short. */
  predicate SleepsLast(environment: seq<Attempt>, sleeps: seq<nat>) {
    |sleeps| <= |environment| && forall i :: 0 <= i < |sleeps| ==> sleeps[i] <= environment[i].sleptMs
  }

  /** What holds while the loop goes on: the budget is not spent, the ceiling not
      passed, and every sleep so far was as decided. */
  ghost predicate Going(p: Policy, startMs: nat, environment: seq<Attempt>, sleeps: seq<nat>, now: nat, seed: Seed)
    requires startMs <= U64_MAX
  {
    var n := |sleeps|;
    && n <= |environment|
    && now == startMs + Called(environment[..n]) + Slept(environment[..n])
    && (SleepsLast(environment, sleeps) ==> Sum(sleeps) <= p.maxTotalMs && Sum(sleeps) <= Slept(environment[..n]))
    && (n > 0 ==> Called(environment[..n]) < p.maxTotalMs)
    && (p.backoff.maxRetries.Some? ==> n <= p.backoff.maxRetries.value)
    && (EachCallTakesTime(environment) ==> n <= Called(environment[..n]))
    && NextRand(seed) == RandAt(StartSeed(startMs), n)
    && SleptAsDecided(p, startMs, environment, sleeps)
  }

  ghost predicate WithinLimits(p: Policy, environment: seq<Attempt>, calls: nat, sleeps: seq<nat>) {
    // If no sleep is cut short, the sleeps requested fit the budget.
    && (SleepsLast(environment, sleeps) ==> Sum(sleeps) <= p.maxTotalMs)
    // A retry ceiling of m allows m + 1 calls.
    && (p.backoff.maxRetries.Some? ==> calls <= p.backoff.maxRetries.value + 1)
    // Calls that take time are bounded by the budget.
    && (EachCallTakesTime(environment) ==> calls <= Max(1, p.maxTotalMs))
  }

  /** Enough attempts to bring any run to its end. */
  ghost predicate Enough(p: Policy, environment: seq<Attempt>) {
    || (p.backoff.maxRetries.Some? && |environment| > p.backoff.maxRetries.value)
    || (EachCallTakesTime(environment) && |environment| >= Max(1, p.maxTotalMs))
  }

  lemma GoingIsBounded(p: Policy, startMs: nat, environment: seq<Attempt>, sleeps: seq<nat>, now: nat, seed: Seed)
    requires startMs <= U64_MAX && Going(p, startMs, environment, sleeps, now, seed)
    ensures WithinLimits(p, environment, |sleeps|, sleeps) && WithinLimits(p, environment, |sleeps| + 1, sleeps)
    ensures |sleeps| == |environment| ==> !Enough(p, environment)
  {
    hide Draw, NextRand, RandAt, StartSeed, Sum, Called, Slept, SleptAsDecided;
  }

  lemma StartsGoing(p: Policy, startMs: nat, environment: seq<Attempt>)
    requires startMs <= U64_MAX
    ensures Going(p, startMs, environment, [], startMs, StartSeed(startMs))
  {
  }

  lemma GoesOn(p: Policy, startMs: nat, environment: seq<Attempt>, sleeps: seq<nat>, now: nat, seed: Seed, ms: nat)
    requires startMs <= U64_MAX && |sleeps| < |environment|
    requires Going(p, startMs, environment, sleeps, now, seed)
    requires !Final(environment[|sleeps|].outcome) && Decision(p, startMs, environment, |sleeps|) == Sleep(ms)
    ensures var step := environment[|sleeps|];
            Going(p, startMs, environment, sleeps + [ms], now + step.callMs + step.sleptMs, NextRand(seed))
  {
    hide Draw, NextRand, NextDelay, StartSeed, Sum, Called, Slept, Decision, ElapsedAfter;
    var n, more := |sleeps|, sleeps + [ms];
    PrefixTotals(environment, n);
    DecidedNow(p, startMs, environment, n, now + environment[n].callMs, NextRand(seed));
    StopsIff(p, n, HintOf(environment[n].outcome), RemainingBudget(p, startMs, now + environment[n].callMs), Draw(NextRand(seed)));
    SumAppend(sleeps, ms);
    assert forall i :: 0 <= i < n ==> more[i] == sleeps[i];
    assert SleepsLast(environment, more) ==> SleepsLast(environment, sleeps) && more[n] <= environment[n].sleptMs;
  }

  lemma DecidesAs(p: Policy, startMs: nat, environment: seq<Attempt>, sleeps: seq<nat>, now: nat, seed: Seed)
    requires startMs <= U64_MAX && |sleeps| < |environment|
    requires Going(p, startMs, environment, sleeps, now, seed)
    ensures var n, step := |sleeps|, environment[|sleeps|];
      && now + step.callMs - startMs == ElapsedAfter(environment, n)
      && Decision(p, startMs, environment, n) ==
         NextDelay(p, n, HintOf(step.outcome), RemainingBudget(p, startMs, now + step.callMs), Draw(NextRand(seed)))
  {
    hide Draw, NextRand, RandAt, NextDelay, StartSeed, Sum, Called, Slept, Decision, SleptAsDecided, ElapsedAfter;
    PrefixTotals(environment, |sleeps|);
    DecidedNow(p, startMs, environment, |sleeps|, now + environment[|sleeps|].callMs, NextRand(seed));
  }

  /** How a run that is over came to its end. */
  ghost predicate Ended(p: Policy, startMs: nat, environment: seq<Attempt>, finish: Finish, calls: nat, sleeps: seq<nat>)
    requires startMs <= U64_MAX
  {
    && calls <= |environment|
    && match finish {
         case Unfinished => calls == |sleeps| == |environment| && !Enough(p, environment)
         case Panicked =>
           || (calls == |sleeps| + 1 && Decision(p, startMs, environment, calls - 1).Overflow?)
           || calls == U32_MAX + 1
         case Returned(o) =>
           && calls == |sleeps| + 1 && o == environment[calls - 1].outcome
           && (Final(o) || (o.Response? && Decision(p, startMs, environment, calls - 1).Stop?))
         case Exhausted(attempts, elapsedMs) =>
           // The count reported is the number of calls made.
           && attempts == calls == |sleeps| + 1 && environment[calls - 1].outcome.Transient?
           && elapsedMs == ElapsedAfter(environment, calls - 1)
           && Decision(p, startMs, environment, calls - 1).Stop?
       }
  }

  /** The end an attempt brings about when it is final or not slept after. */
  function Conclusion(o: Outcome, decision: Next, attempt: nat, elapsedMs: nat): Finish {
    if Final(o) then Returned(o)
    else if decision.Overflow? then Panicked
    else if o.Response? then Returned(o)
    else if attempt == U32_MAX then Panicked
    else Exhausted(attempt + 1, elapsedMs)
  }

  lemma Concludes(p: Policy, startMs: nat, environment: seq<Attempt>, sleeps: seq<nat>, now: nat, seed: Seed)
    requires startMs <= U64_MAX && |sleeps| < |environment|
    requires Going(p, startMs, environment, sleeps, now, seed)
    ensures
      var n, step := |sleeps|, environment[|sleeps|];
      var decision := NextDelay(p, n, HintOf(step.outcome), RemainingBudget(p, startMs, now + step.callMs), Draw(NextRand(seed)));
      && now >= startMs
      && (Final(step.outcome) || !decision.Sleep? ==>
            var finish := Conclusion(step.outcome, decision, n, now + step.callMs - startMs);
            Completed(p, startMs, environment, finish, n + 1, sleeps))
  {
    hide Draw, NextRand, RandAt, NextDelay, StartSeed, Sum, Called, Slept, Decision, ElapsedAfter;
    DecidesAs(p, startMs, environment, sleeps, now, seed);
    GoingIsBounded(p, startMs, environment, sleeps, now, seed);
  }

  lemma StillGoing(p: Policy, startMs: nat, environment: seq<Attempt>, sleeps: seq<nat>, now: nat, seed: Seed)
    requires startMs <= U64_MAX && Going(p, startMs, environment, sleeps, now, seed)
    ensures |sleeps| == |environment| ==> Completed(p, startMs, environment, Unfinished, |sleeps|, sleeps)
    ensures |sleeps| == U32_MAX + 1 ==> Completed(p, startMs, environment, Panicked, |sleeps|, sleeps)
  {
    hide Draw, NextRand, RandAt, StartSeed, Sum, Called, Slept;
    GoingIsBounded(p, startMs, environment, sleeps, now, seed);
  }

  ghost predicate Completed(p: Policy, startMs: nat, environment: seq<Attempt>, finish: Finish, calls: nat, sleeps: seq<nat>)
    requires startMs <= U64_MAX
  {
    && |sleeps| <= calls <= |environment|
    && SleptAsDecided(p, startMs, environment, sleeps)
    && WithinLimits(p, environment, calls, sleeps)
    && Ended(p, startMs, environment, finish, calls, sleeps)
  }

  /** The decision the loop draws after attempt |sleeps|. */
  function Drawn(p: Policy, startMs: nat, environment: seq<Attempt>, sleeps: seq<nat>, now: nat, seed: Seed): Next
    requires |sleeps| < |environment|
  {
    var step := environment[|sleeps|];
    NextDelay(p, |sleeps|, HintOf(step.outcome), RemainingBudget(p, startMs, now + step.callMs), Draw(NextRand(seed)))
  }

  /** One turn of the loop: the run concludes, or goes on after the sleep. */
  lemma Turn(p: Policy, startMs: nat, environment: seq<Attempt>, sleeps: seq<nat>, now: nat, seed: Seed)
    requires startMs <= U64_MAX && |sleeps| < |environment|
    requires Going(p, startMs, environment, sleeps, now, seed)
    ensures
      var step, decision := environment[|sleeps|], Drawn(p, startMs, environment, sleeps, now, seed);
      && now >= startMs
      && if !Final(step.outcome) && decision.Sleep?
         then Going(p, startMs, environment, sleeps + [decision.ms], now + step.callMs + step.sleptMs, NextRand(seed))
         else Completed(p, startMs, environment, Conclusion(step.outcome, decision, |sleeps|, now + step.callMs - startMs), |sleeps| + 1, sleeps)
  {
    hide Going, Completed, Draw, NextRand, NextDelay, Decision, RemainingBudget, Final, HintOf, ElapsedAfter, Conclusion;
    var step := environment[|sleeps|];
    Concludes(p, startMs, environment, sleeps, now, seed);
    DecidesAs(p, startMs, environment, sleeps, now, seed);
    var decision := Drawn(p, startMs, environment, sleeps, now, seed);
    if !Final(step.outcome) && decision.Sleep? {
      GoesOn(p, startMs, environment, sleeps, now, seed, decision.ms);
    }
  }

  /** Runs against the attempts the environment supplies, on a clock that advances
      by whatever the calls and the sleeps take. */
  method Run(p: Policy, startMs: nat, environment: seq<Attempt>) returns (finish: Finish, calls: nat, sleeps: seq<nat>)
    requires p.maxTotalMs <= U64_MAX && startMs <= U64_MAX
    ensures Completed(p, startMs, environment, finish, calls, sleeps)
  {
    hide Going, Completed, Draw, NextRand, NextDelay, StartSeed, RemainingBudget, Final, HintOf;
    StartsGoing(p, startMs, environment);
    var now: nat, seed, attempt := startMs, StartSeed(startMs), 0;
    calls, sleeps := 0, [];
    while calls < |environment|
      invariant attempt == calls == |sleeps| <= |environment| && attempt <= U32_MAX
      invariant Going(p, startMs, environment, sleeps, now, seed)
    {
      Turn(p, startMs, environment, sleeps, now, seed);
      var step := environment[calls];
      now := now + step.callMs;
      calls := calls + 1;
      if Final(step.outcome) {
        return Returned(step.outcome), calls, sleeps;
      }
      var remaining := RemainingBudget(p, startMs, now);
      seed := NextRand(seed);
      match NextDelay(p, attempt, HintOf(step.outcome), remaining, Draw(seed)) {
        case Overflow => return Panicked, calls, sleeps;
        case Stop =>
          if step.outcome.Response? {
            return Returned(step.outcome), calls, sleeps;
          }
          if attempt == U32_MAX {
            return Panicked, calls, sleeps;
          }
          return Exhausted(attempt + 1, now - startMs), calls, sleeps;
        case Sleep(ms) =>
          sleeps := sleeps + [ms];
          now := now + step.sleptMs;
      }
      if attempt == U32_MAX {
        StillGoing(p, startMs, environment, sleeps, now, seed);
        return Panicked, calls, sleeps;
      }
      attempt := attempt + 1;
    }
    StillGoing(p, startMs, environment, sleeps, now, seed);
    return Unfinished, calls, sleeps;
  }

  // ---- What is decided ------------------------------------------------------

  /** The decision after attempt `i`, from the policy and the time that has passed:
      no more once the budget is spent or the ceiling reached; else the longer of
      the server's hint and the jittered truncated exponential, cut to what is left. */
  lemma DecidesExactly(p: Policy, startMs: nat, environment: seq<Attempt>, i: nat)
    requires startMs <= U64_MAX && i < |environment|
    ensures
      var elapsed := Called(environment[..i + 1]) + Slept(environment[..i]);
      var full := Min(p.backoff.baseMs * Pow(p.backoff.factor, i), p.backoff.maxMs);
      var jittered := Apply(p.jitter, full, Draw(RandAt(StartSeed(startMs), i)));
      Decision(p, startMs, environment, i) ==
        if elapsed >= p.maxTotalMs || (p.backoff.maxRetries.Some? && i >= p.backoff.maxRetries.value) then Stop
        else if jittered.None? then Overflow
        else match environment[i].outcome {
          case Response(_, Some(hint)) => Sleep(Min(Max(hint, jittered.value), p.maxTotalMs - elapsed))
          case _ => Sleep(Min(jittered.value, p.maxTotalMs - elapsed))
        }
  {
    DelayIsTruncatedExponential(p.backoff, i);
  }

  /** Timeouts, too many requests and server errors are worth another attempt, with
      or without a hint; every other status is final, as are terminal errors. */
  lemma RetriesTheseOutcomes(o: Outcome)
    ensures !Final(o) <==> o.Transient? || (o.Response? && (o.status in {408, 429} || o.status / 100 == 5))
  {
  }

  /** One too-many-requests answer, with budget left and below the ceiling, is slept
      after for at least its hint, as far as the budget reaches. */
  lemma TooManyRequestsIsRetried(p: Policy, startMs: nat, environment: seq<Attempt>, i: nat, hint: nat)
    requires startMs <= U64_MAX && i < |environment| && environment[i].outcome == Response(429, Some(hint))
    requires ElapsedAfter(environment, i) < p.maxTotalMs
    requires p.backoff.maxRetries.Some? ==> i < p.backoff.maxRetries.value
    requires p.jitter != Full || p.backoff.maxMs < U64_MAX
    ensures !Final(environment[i].outcome)
    ensures Decision(p, startMs, environment, i).Sleep?
    ensures Min(hint, p.maxTotalMs - ElapsedAfter(environment, i)) <= Decision(p, startMs, environment, i).ms
            <= p.maxTotalMs - ElapsedAfter(environment, i)
  {
    hide Apply, Draw, RandAt, StartSeed, Pow, Called, Slept, Decision;
    DecidesExactly(p, startMs, environment, i);
    var full := Min(p.backoff.baseMs * Pow(p.backoff.factor, i), p.backoff.maxMs);
    JitterOverflowsIff(p.jitter, full, Draw(RandAt(StartSeed(startMs), i)));
  }

  /** The first two draws from state 1. */
  lemma KnownDraws()
    ensures XorShift(1) == 0x4082_2041
    ensures XorShift(XorShift(1)) == 0x1000_4106_0C01_1441
  {
  }

  // ---- When runs are bounded ------------------------------------------------

  /** Every attempt the environment supplies is asked for again. */
  ghost predicate AllRetried(p: Policy, startMs: nat, environment: seq<Attempt>) {
    startMs <= U64_MAX
    && forall i :: 0 <= i < |environment| ==>
         !Final(environment[i].outcome) && Decision(p, startMs, environment, i).Sleep?
  }

  /** Full jitter of a schedule that reaches the largest delay panics when it
      gets there. */
  predicate JitterPanics(p: Policy) {
    && p.jitter == Full && p.backoff.maxMs == U64_MAX
    && (p.backoff.baseMs == U64_MAX || (p.backoff.baseMs > 0 && p.backoff.factor >= 2))
  }

  lemma {:induction false} PowDoubles(b: nat, n: nat)
    requires b >= 2
    ensures Pow(b, n) >= Pow(2, n)
  {
    if n > 0 {
      PowDoubles(b, n - 1);
      MulMonotone(b, Pow(2, n - 1), Pow(b, n - 1));
      assert b * Pow(2, n - 1) >= 2 * Pow(2, n - 1);
    }
  }

  lemma TwoToThe64()
    ensures Pow(2, 64) == U64_MAX + 1
  {
    assert Pow(2, 4) == 16;
    hide Pow;
    PowAdds(2, 4, 4);
    PowAdds(2, 8, 8);
    PowAdds(2, 16, 16);
    PowAdds(2, 32, 32);
  }

  lemma {:induction false} PowAdds(b: nat, m: nat, n: nat)
    ensures Pow(b, m + n) == Pow(b, m) * Pow(b, n)
  {
    if n > 0 {
      PowAdds(b, m, n - 1);
      assert b * (Pow(b, m) * Pow(b, n - 1)) == Pow(b, m) * (b * Pow(b, n - 1));
    }
  }

  /** The attempt at which the largest delay is reached. */
  lemma PanicsAt(p: Policy) returns (n: nat)
    requires JitterPanics(p) && p.backoff.maxRetries.None?
    ensures Delay(p.backoff, n) == Some(U64_MAX)
  {
    n := if p.backoff.baseMs == U64_MAX then 0 else 64;
    DelayIsTruncatedExponential(p.backoff, n);
    if n > 0 {
      PowDoubles(p.backoff.factor, n);
      TwoToThe64();
      hide Pow;
      MulMonotone(Pow(p.backoff.factor, n), 1, p.backoff.baseMs);
    } else {
      assert Pow(p.backoff.factor, 0) == 1;
    }
  }

  lemma NeverPanics(p: Policy, n: nat)
    requires !JitterPanics(p) && p.jitter == Full && p.backoff.maxRetries.None?
    ensures Delay(p.backoff, n) != Some(U64_MAX)
  {
    DelayIsTruncatedExponential(p.backoff, n);
    if p.backoff.factor <= 1 {
      SmallPow(p.backoff.factor, n);
      assert p.backoff.baseMs * Pow(p.backoff.factor, n) <= p.backoff.baseMs;
    }
  }

  lemma {:induction false} SmallPow(b: nat, n: nat)
    requires b <= 1
    ensures Pow(b, n) <= 1
  {
    if n > 0 { SmallPow(b, n - 1); }
  }

  /** Every attempt fails at once and no time passes. */
  function StillClock(n: nat): (r: seq<Attempt>)
    ensures |r| == n && forall i :: 0 <= i < n ==> r[i] == Attempt(Transient, 0, 0)
  {
    seq(n, i => Attempt(Transient, 0, 0))
  }

  lemma {:induction false} NoTimePasses(attempts: seq<Attempt>)
    requires forall i :: 0 <= i < |attempts| ==> attempts[i] == Attempt(Transient, 0, 0)
    ensures Called(attempts) == 0 && Slept(attempts) == 0
  {
    if attempts != [] {
      NoTimePasses(attempts[..|attempts| - 1]);
    }
  }

  lemma RetriedOnStillClock(p: Policy, n: nat)
    requires p.backoff.maxRetries.None? && p.maxTotalMs > 0 && !JitterPanics(p)
    ensures AllRetried(p, 0, StillClock(n))
  {
    hide Draw, RandAt, StartSeed, Apply, Delay;
    var environment := StillClock(n);
    forall i | 0 <= i < n ensures Decision(p, 0, environment, i).Sleep? {
      NoTimePasses(environment[..i + 1]);
      NoTimePasses(environment[..i]);
      StopsIff(p, i, None, p.maxTotalMs, Draw(RandAt(StartSeed(0), i)));
      DelayIsTruncatedExponential(p.backoff, i);
      if p.jitter == Full { NeverPanics(p, i); }
      JitterOverflowsIff(p.jitter, Delay(p.backoff, i).value, Draw(RandAt(StartSeed(0), i)));
    }
  }

  /** No environment, whatever its clock does, is retried `n` times. */
  ghost predicate AttemptsBoundedBy(p: Policy, n: nat) {
    forall startMs: nat, environment | |environment| == n :: !AllRetried(p, startMs, environment)
  }

  /** A bound on the attempts that holds in every environment exists exactly when
      the policy has a ceiling, or no budget, or a jitter that must overflow. With
      none of these, on a clock that stands still, any number is retried. */
  lemma AttemptsBoundedIff(p: Policy)
    ensures (exists n: nat :: AttemptsBoundedBy(p, n)) <==>
            p.backoff.maxRetries.Some? || p.maxTotalMs == 0 || JitterPanics(p)
  {
    hide AllRetried, StillClock;
    if p.backoff.maxRetries.Some? || p.maxTotalMs == 0 || JitterPanics(p) {
      var last: nat := 0;
      if p.maxTotalMs > 0 && p.backoff.maxRetries.Some? {
        last := p.backoff.maxRetries.value;
      } else if p.maxTotalMs > 0 {
        last := PanicsAt(p);
      }
      forall startMs: nat, environment | |environment| == last + 1 ensures !AllRetried(p, startMs, environment) {
        NotRetriedAfter(p, startMs, environment, last);
      }
      assert AttemptsBoundedBy(p, last + 1);
    } else {
      forall n: nat ensures !AttemptsBoundedBy(p, n) {
        RetriedOnStillClock(p, n);
      }
    }
  }

  lemma NotRetriedAfter(p: Policy, startMs: nat, environment: seq<Attempt>, last: nat)
    requires |environment| == last + 1
    requires p.maxTotalMs == 0 || (p.backoff.maxRetries.Some? && last == p.backoff.maxRetries.value)
             || (p.jitter == Full && Delay(p.backoff, last) == Some(U64_MAX))
    ensures !AllRetried(p, startMs, environment)
  {
    if startMs <= U64_MAX {
      hide Draw, RandAt, StartSeed, Apply, Delay, ElapsedAfter;
      assert !Decision(p, startMs, environment, last).Sleep? by {
        var remaining := RemainingBudget(p, startMs, startMs + ElapsedAfter(environment, last));
        StopsIff(p, last, HintOf(environment[last].outcome), remaining, Draw(RandAt(StartSeed(startMs), last)));
        if Delay(p.backoff, last).Some? {
          DelayIsTruncatedExponential(p.backoff, last);
          JitterOverflowsIff(p.jitter, Delay(p.backoff, last).value, Draw(RandAt(StartSeed(startMs), last)));
        }
      }
    }
  }

  /** The loop does go on: whatever a run reports in an environment that is retried
      throughout, below the 32-bit attempt counter's limit, it has used all of it
      and asks for more. */
  lemma RetriedRunsGoOn(p: Policy, startMs: nat, environment: seq<Attempt>, finish: Finish, calls: nat, sleeps: seq<nat>)
    requires AllRetried(p, startMs, environment) && |environment| <= U32_MAX
    requires Completed(p, startMs, environment, finish, calls, sleeps)
    ensures finish == Unfinished && calls == |sleeps| == |environment|
  {
    hide Decision, WithinLimits;
  }
}
