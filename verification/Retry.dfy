/** The retry loop of the HTTP client: attempts, exponential backoff with jitter, and the deadline. */
module Retry {
  import opened Wrappers

  const DEFAULT_ATTEMPTS := 3
  const DEFAULT_BASE := 0.1
  const DEFAULT_MAX_DELAY := 1.0

  datatype RetryOpt = RetryOpt(maxDelay: real, baseDelay: real, attempts: int, idempotent: bool)

  /** How one attempt ends. */
  datatype Outcome = Success | Failure(retryable: bool)

  predicate CanRetryMethod(opt: RetryOpt, verb: string) {
    opt.idempotent || verb in {"GET", "HEAD", "OPTIONS"}
  }

  function Pow2(n: nat): real {
    if n == 0 then 1.0 else 2.0 * Pow2(n - 1)
  }

  function Cap(opt: RetryOpt): real {
    if opt.maxDelay == 0.0 then DEFAULT_MAX_DELAY else opt.maxDelay
  }

  function Base(opt: RetryOpt): real {
    if opt.baseDelay == 0.0 then DEFAULT_BASE else opt.baseDelay
  }

  /** The delay before jitter after attempt `attempt` (from 1). */
  function FullDelay(opt: RetryOpt, attempt: nat): real
    requires attempt >= 1
  {
    var grown := Base(opt) * Pow2(attempt - 1);
    if grown < Cap(opt) then grown else Cap(opt)
  }

  function Jittered(delay: real, random: real): real {
    delay / 2.0 + random * delay / 2.0
  }

  /** `random` is drawn from [0, 1). */
  function RetryDelay(opt: RetryOpt, attempt: nat, random: real): real
    requires attempt >= 1
  {
    Jittered(FullDelay(opt, attempt), random)
  }

  /**
    The outside world of one call: the outcome of every attempt, the clock when its
    failure is handled, and the random numbers. Attempts are counted from 1.
  */
  datatype World = World(outcome: nat -> Outcome, clock: nat -> real, random: nat -> real)

  /**
    After failed attempt `k` the loop sleeps and tries again: retries are asked for, the
    call is idempotent or its verb harmless, attempts are left (three of them if no number
    is given), the failure may go away, and the sleep ends before the deadline, if any.
  */
  ghost predicate GoesOn(retryOpt: Option<RetryOpt>, verb: string, deadline: real, w: World, k: nat)
    requires k >= 1
  {
    && retryOpt.Some?
    && (retryOpt.value.idempotent || verb == "GET" || verb == "HEAD" || verb == "OPTIONS")
    && k < (if retryOpt.value.attempts > 0 then retryOpt.value.attempts else 3)
    && w.outcome(k) == Failure(true)
    && (deadline != 0.0 ==> w.clock(k) + RetryDelay(retryOpt.value, k, w.random(k)) < deadline)
  }

  /**
    The loop makes the attempts up to the first one after which it does not go on, sleeps
    the delay after each of the others, and ends as its last attempt did.
  */
  method Do(retryOpt: Option<RetryOpt>, verb: string, deadline: real, w: World)
      returns (last: Outcome, tries: nat, sleeps: seq<real>)
    ensures 1 <= tries
    ensures forall k :: 1 <= k < tries ==> GoesOn(retryOpt, verb, deadline, w, k)
    ensures !GoesOn(retryOpt, verb, deadline, w, tries)
    ensures last == w.outcome(tries)
    ensures |sleeps| == tries - 1
    ensures forall k :: 1 <= k < tries ==> retryOpt.Some? && sleeps[k - 1] == RetryDelay(retryOpt.value, k, w.random(k))
  {
    if retryOpt.None? {
      return w.outcome(1), 1, [];
    }
    var opt := retryOpt.value;
    var attempts := if opt.attempts <= 0 then DEFAULT_ATTEMPTS else opt.attempts;
    if !CanRetryMethod(opt, verb) {
      attempts := 1;
    }
    tries, sleeps := 1, [];
    while true
      invariant 1 <= tries <= attempts
      invariant forall k :: 1 <= k < tries ==> GoesOn(retryOpt, verb, deadline, w, k)
      invariant |sleeps| == tries - 1
      invariant forall k :: 1 <= k < tries ==> sleeps[k - 1] == RetryDelay(opt, k, w.random(k))
      decreases attempts - tries
    {
      last := w.outcome(tries);
      if last.Success? {
        return;
      }
      if tries == attempts || !last.retryable {
        return;
      }
      var delay := RetryDelay(opt, tries, w.random(tries));
      if deadline != 0.0 && w.clock(tries) + delay >= deadline {
        return;
      }
      sleeps := sleeps + [delay];
      tries := tries + 1;
    }
  }

  // ---------- Bounds ----------

  ghost function Sum(xs: seq<real>): real {
    if xs == [] then 0.0 else Sum(xs[..|xs| - 1]) + xs[|xs| - 1]
  }

  lemma {:induction false} Pow2Positive(n: nat)
    ensures Pow2(n) > 0.0
  {
    if n > 0 {
      Pow2Positive(n - 1);
    }
  }

  /** Jitter takes away at most half of the delay and never adds to it. */
  lemma DelayBounds(opt: RetryOpt, attempt: nat, random: real)
    requires attempt >= 1 && 0.0 <= random < 1.0
    requires Cap(opt) > 0.0 && Base(opt) > 0.0
    ensures 0.0 < FullDelay(opt, attempt) / 2.0 <= RetryDelay(opt, attempt, random) < FullDelay(opt, attempt)
  {
    Pow2Positive(attempt - 1);
    Product(Base(opt), Pow2(attempt - 1));
    JitterBounds(FullDelay(opt, attempt), random);
  }

  lemma JitterBounds(d: real, r: real)
    requires 0.0 <= r < 1.0 && d > 0.0
    ensures d / 2.0 <= Jittered(d, r) < d
  {
    Scaled(r, d);
  }

  lemma Product(x: real, y: real)
    requires x > 0.0 && y > 0.0
    ensures x * y > 0.0
  {
  }

  lemma Scaled(r: real, d: real)
    requires 0.0 <= r < 1.0 && d > 0.0
    ensures 0.0 <= r * d < d
  {
  }

  /**
    The delays: the first is the base delay, and each is twice the one before, none above
    the maximal delay (0.1 and 1 second unless given), of which jitter leaves the half and
    a random part of the other half.
  */
  lemma DelayDoubles(opt: RetryOpt, attempt: nat, random: real) returns (delay: real)
    requires attempt >= 1 && opt.maxDelay >= 0.0
    ensures var most := if opt.maxDelay != 0.0 then opt.maxDelay else 1.0;
            var base := if opt.baseDelay != 0.0 then opt.baseDelay else 0.1;
            && RetryDelay(opt, attempt, random) == delay * (1.0 + random) / 2.0
            && (attempt == 1 ==> delay == if base < most then base else most)
            && RetryDelay(opt, attempt + 1, random) ==
               (if 2.0 * delay < most then 2.0 * delay else most) * (1.0 + random) / 2.0
  {
    hide Jittered;
    delay := FullDelay(opt, attempt);
    FullStep(opt, attempt);
    JitterIs(delay, random);
    JitterIs(FullDelay(opt, attempt + 1), random);
  }

  lemma FullStep(opt: RetryOpt, attempt: nat)
    requires attempt >= 1 && opt.maxDelay >= 0.0
    ensures FullDelay(opt, 1) == if Base(opt) < Cap(opt) then Base(opt) else Cap(opt)
    ensures var twice := 2.0 * FullDelay(opt, attempt);
            FullDelay(opt, attempt + 1) == if twice < Cap(opt) then twice else Cap(opt)
  {
    assert Base(opt) * Pow2(0) == Base(opt);
    Doubled(Base(opt), Pow2(attempt - 1));
  }

  lemma Doubled(b: real, p: real)
    ensures b * (2.0 * p) == 2.0 * (b * p)
  {
  }

  lemma JitterIs(d: real, r: real)
    ensures Jittered(d, r) == d * (1.0 + r) / 2.0
  {
    assert d * (1.0 + r) == d + r * d;
  }

  /** Each of the sleeps is a delay with jitter. */
  ghost predicate AreDelays(opt: RetryOpt, sleeps: seq<real>, randoms: nat -> real) {
    forall k :: 1 <= k <= |sleeps| ==> 0.0 <= randoms(k) < 1.0 && sleeps[k - 1] == RetryDelay(opt, k, randoms(k))
  }

  /**
    The sleeps of n attempts together take at most (n - 1) times the maximal delay, and
    at most the base delay times 2^(n - 1) - 1.
  */
  lemma {:induction false} SleepBudget(opt: RetryOpt, sleeps: seq<real>, randoms: nat -> real)
    requires Cap(opt) > 0.0 && Base(opt) > 0.0
    requires AreDelays(opt, sleeps, randoms)
    ensures 0.0 <= Sum(sleeps) <= |sleeps| as real * Cap(opt)
    ensures Sum(sleeps) <= Base(opt) * (Pow2(|sleeps|) - 1.0)
  {
    if sleeps != [] {
      var n := |sleeps| - 1;
      var before, last := sleeps[..n], sleeps[n];
      SleepBudget(opt, before, randoms);
      assert sleeps[n + 1 - 1] == RetryDelay(opt, n + 1, randoms(n + 1));
      DelayBounds(opt, n + 1, randoms(n + 1));
      Distribute(n, Cap(opt));
      DoubleStep(Base(opt), Pow2(n));
    }
  }

  /** And they take at least half of (n - 1) times the first delay. */
  lemma {:induction false} SleepAtLeast(opt: RetryOpt, sleeps: seq<real>, randoms: nat -> real)
    requires Cap(opt) > 0.0 && Base(opt) > 0.0
    requires AreDelays(opt, sleeps, randoms)
    ensures |sleeps| as real * (FullDelay(opt, 1) / 2.0) <= Sum(sleeps)
  {
    hide Cap, Base, FullDelay, RetryDelay;
    if sleeps != [] {
      var n := |sleeps| - 1;
      SleepAtLeast(opt, sleeps[..n], randoms);
      assert sleeps[n + 1 - 1] == RetryDelay(opt, n + 1, randoms(n + 1));
      DelayBounds(opt, n + 1, randoms(n + 1));
      NeverLess(opt, n + 1);
      Distribute(n, FullDelay(opt, 1) / 2.0);
    }
  }

  lemma {:induction false} NeverLess(opt: RetryOpt, attempt: nat)
    requires attempt >= 1 && Cap(opt) > 0.0 && Base(opt) > 0.0
    ensures FullDelay(opt, 1) <= FullDelay(opt, attempt)
    decreases attempt
  {
    if attempt > 1 {
      NeverLess(opt, attempt - 1);
      Doubled(Base(opt), Pow2(attempt - 2));
      Pow2Positive(attempt - 2);
      Product(Base(opt), Pow2(attempt - 2));
    }
  }

  lemma Distribute(n: nat, c: real)
    ensures (n + 1) as real * c == n as real * c + c
  {
  }

  lemma DoubleStep(b: real, p: real)
    ensures b * (2.0 * p - 1.0) == b * (p - 1.0) + b * p
  {
  }
}
