/** When a failed job is tried again, how long it waits, and when it is given up. */
module RetrySchedule {
  import opened Basics

  datatype RetryPolicy = RetryPolicy(maxAttempts: int, baseDelayMs: nat, maxDelayMs: nat)

  datatype RetryDecision =
    | Retry(nextAttempt: int, delayMs: nat)
    | DeadLetter(finalAttempt: int)

  function NextRetryDecision(policy: RetryPolicy, attempt: int): RetryDecision {
    if attempt >= policy.maxAttempts then DeadLetter(attempt)
    else
      var multiplier := Pow2(Max(attempt - 1, 0));
      Retry(attempt + 1, Min(policy.baseDelayMs * multiplier, policy.maxDelayMs))
  }

  /** A job that keeps failing: the delays it waits, and the attempt at which it is given up. */
  datatype Run = Run(delays: seq<nat>, finalAttempt: int)

  function RunFrom(policy: RetryPolicy, attempt: int): Run
    decreases policy.maxAttempts - attempt
  {
    match NextRetryDecision(policy, attempt)
    case DeadLetter(finalAttempt) => Run([], finalAttempt)
    case Retry(nextAttempt, delayMs) =>
      var rest := RunFrom(policy, nextAttempt);
      Run([delayMs] + rest.delays, rest.finalAttempt)
  }

  /** The reference: start from the base, double each time, and stop at the cap. */
  function DoublingDelays(delay: nat, cap: nat, n: nat): (r: seq<nat>)
    ensures |r| == n
    decreases n
  {
    if n == 0 then []
    else [Min(delay, cap)] + DoublingDelays(Min(2 * delay, cap), cap, n - 1)
  }

  function Total(delays: seq<nat>): nat {
    if delays == [] then 0 else delays[0] + Total(delays[1..])
  }

  // ----- The run is the doubling schedule

  lemma {:induction false} DoublingForgetsTheCap(delay: nat, cap: nat, n: nat)
    ensures DoublingDelays(Min(delay, cap), cap, n) == DoublingDelays(delay, cap, n)
    decreases n
  {
    if n > 0 {
      if delay > cap {
        DoublingForgetsTheCap(2 * cap, cap, n - 1);
        DoublingForgetsTheCap(2 * delay, cap, n - 1);
        assert Min(2 * cap, cap) == Min(2 * delay, cap) == cap;
      }
    }
  }

  lemma Doubled(base: nat, k: nat)
    ensures base * Pow2(k + 1) == 2 * (base * Pow2(k))
  {}

  lemma {:induction false} RunFromDoubles(policy: RetryPolicy, attempt: nat)
    requires 1 <= attempt
    ensures var n := Max(policy.maxAttempts - attempt, 0);
            var run := RunFrom(policy, attempt);
            && run.delays == DoublingDelays(policy.baseDelayMs * Pow2(attempt - 1), policy.maxDelayMs, n)
            && run.finalAttempt == attempt + n
    decreases policy.maxAttempts - attempt
  {
    hide Pow2;
    if attempt < policy.maxAttempts {
      RunFromDoubles(policy, attempt + 1);
      var base := policy.baseDelayMs;
      Doubled(base, attempt - 1);
      DoublingForgetsTheCap(base * Pow2(attempt), policy.maxDelayMs, policy.maxAttempts - attempt - 1);
    }
  }

  /** A failing job is given up after exactly `maxAttempts - 1` retries, which follow the doubling schedule. */
  lemma RunIsDoubling(policy: RetryPolicy)
    ensures var retries := Max(policy.maxAttempts - 1, 0);
            var run := RunFrom(policy, 1);
            && |run.delays| == retries
            && run.delays == DoublingDelays(policy.baseDelayMs, policy.maxDelayMs, retries)
            && run.finalAttempt == Max(policy.maxAttempts, 1)
  {
    RunFromDoubles(policy, 1);
    assert policy.baseDelayMs * Pow2(0) == policy.baseDelayMs;
  }

  lemma {:induction false} DoublingNeverShrinks(delay: nat, cap: nat, n: nat, k: nat)
    requires k < n
    ensures var d := DoublingDelays(delay, cap, n);
            d[k] <= cap && (k + 1 < n ==> d[k] <= d[k + 1])
    decreases n
  {
    if k == 0 {
      if n > 1 {
        var rest := DoublingDelays(Min(2 * delay, cap), cap, n - 1);
        assert rest[0] == Min(2 * delay, cap);
      }
    } else {
      DoublingNeverShrinks(Min(2 * delay, cap), cap, n - 1, k - 1);
    }
  }

  /** Delays never shrink and never pass the cap. */
  lemma DelaysAreBounded(policy: RetryPolicy, k: nat)
    requires k < |RunFrom(policy, 1).delays|
    ensures var d := RunFrom(policy, 1).delays;
            d[k] <= policy.maxDelayMs && (k + 1 < |d| ==> d[k] <= d[k + 1])
  {
    RunIsDoubling(policy);
    DoublingNeverShrinks(policy.baseDelayMs, policy.maxDelayMs, |RunFrom(policy, 1).delays|, k);
  }

  lemma {:induction false} DoublingTotal(delay: nat, cap: nat, n: nat)
    ensures Total(DoublingDelays(delay, cap, n)) <= delay * (Pow2(n) - 1)
    ensures Total(DoublingDelays(delay, cap, n)) <= n * cap
    ensures delay > 0 ==>
      (Total(DoublingDelays(delay, cap, n)) == delay * (Pow2(n) - 1) <==> n == 0 || delay * Pow2(n - 1) <= cap)
    decreases n
  {
    if n > 0 {
      DoublingForgetsTheCap(2 * delay, cap, n - 1);
      DoublingTotal(2 * delay, cap, n - 1);
      var all := DoublingDelays(delay, cap, n);
      assert all[1..] == DoublingDelays(Min(2 * delay, cap), cap, n - 1);
      Regroup(delay, Pow2(n - 1));
      Regroup(cap, n - 1);
      if n > 1 {
        assert Pow2(n - 1) == 2 * Pow2(n - 2);
        Regroup(delay, Pow2(n - 2));
        AtLeast(delay, Pow2(n - 1));
      } else {
        assert Pow2(1) == 2 * Pow2(0);
      }
    }
  }

  lemma Regroup(delay: nat, p: nat)
    ensures delay * (2 * p - 1) == delay + 2 * delay * (p - 1)
    ensures delay * (2 * p) == 2 * delay * p
    ensures (p + 1) * delay == p * delay + delay
  {}

  lemma AtLeast(delay: nat, p: nat)
    requires p >= 1
    ensures delay <= delay * p
  {}

  /**
   The total wait is at most the doubling sum and at most every delay at the cap. The doubling sum is
   reached exactly when the cap never cuts a delay.
   */
  lemma TotalWait(policy: RetryPolicy)
    ensures var retries := Max(policy.maxAttempts - 1, 0);
            var total := Total(RunFrom(policy, 1).delays);
            && total <= policy.baseDelayMs * (Pow2(retries) - 1)
            && total <= retries * policy.maxDelayMs
            && (policy.baseDelayMs > 0 ==>
                  (total == policy.baseDelayMs * (Pow2(retries) - 1)
                   <==> retries == 0 || policy.baseDelayMs * Pow2(retries - 1) <= policy.maxDelayMs))
  {
    RunIsDoubling(policy);
    DoublingTotal(policy.baseDelayMs, policy.maxDelayMs, Max(policy.maxAttempts - 1, 0));
  }

  /** `retryDelayMs`: what the queue asks for after each attempt is the delay of the same run. */
  function RetryDelayMs(policy: RetryPolicy, attemptsMade: int): nat {
    match NextRetryDecision(policy, attemptsMade)
    case Retry(_, delayMs) => delayMs
    case DeadLetter(_) => 0
  }

  lemma {:induction false} QueueDelaysFollowTheRun(policy: RetryPolicy, attempt: int, k: nat)
    requires k < |RunFrom(policy, attempt).delays|
    ensures RunFrom(policy, attempt).delays[k] == RetryDelayMs(policy, attempt + k)
    decreases k
  {
    if k > 0 { QueueDelaysFollowTheRun(policy, attempt + 1, k - 1); }
  }

  /** Outside the run: before the first attempt the base delay counts, and after the last one there is none. */
  lemma OutsideTheRun(policy: RetryPolicy, attempt: int)
    ensures attempt >= policy.maxAttempts ==>
              NextRetryDecision(policy, attempt) == DeadLetter(attempt) && RetryDelayMs(policy, attempt) == 0
    ensures attempt < policy.maxAttempts && attempt <= 1 ==>
              NextRetryDecision(policy, attempt) == Retry(attempt + 1, Min(policy.baseDelayMs, policy.maxDelayMs))
  {
    assert Pow2(0) == 1 && policy.baseDelayMs * Pow2(0) == policy.baseDelayMs;
  }
}
