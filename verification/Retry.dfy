/**
 Retrying a unary call: which calls are made, what is returned, how long is slept.
 The operation is a function of the number of calls already made, so it may
 answer differently each time.
 */
module Retry {
  import opened Backoff

  datatype ErrorCode =
    | Ok | Transient | Timeout | Throttling | Authentication | Authorization | Validation
    | NotFound | Fatal | Cancellation | Backpressure

  datatype Status = Status(code: ErrorCode, message: string)

  /** A value, or an error status; nothing prevents the error status from being OK. */
  datatype StatusOr<T> = Value(value: T) | Error(error: Status) {
    function ToStatus(): Status {
      match this
      case Value(_) => Status(Ok, "")
      case Error(s) => s
    }
  }

  function Statuses<T>(operation: nat -> StatusOr<T>): nat -> Status {
    (k: nat) => operation(k).ToStatus()
  }

  datatype RetryPolicy = RetryPolicy(maxRetries: int, delay: Policy)

  predicate IsRetryable(code: ErrorCode) {
    code == Transient || code == Timeout || code == Throttling
  }

  predicate ShouldRetry(code: ErrorCode, idempotent: bool) {
    IsRetryable(code) && (idempotent || code != Timeout)
  }

  function MaxCalls(policy: RetryPolicy): nat {
    if policy.maxRetries <= 0 then 1 else policy.maxRetries + 1
  }

  /**
   calls is the number of calls a retry makes: every call but the last failed in a
   way worth retrying, and the last succeeded, failed otherwise, or exhausted the
   policy.
   */
  ghost predicate Makes(policy: RetryPolicy, idempotent: bool, operation: nat -> Status, calls: nat) {
    && 1 <= calls <= MaxCalls(policy)
    && (forall i: nat :: i < calls - 1 ==> ShouldRetry(operation(i).code, idempotent))
    && (calls == MaxCalls(policy) || !ShouldRetry(operation(calls - 1).code, idempotent))
  }

  /** That number is determined. */
  lemma MakesUnique(policy: RetryPolicy, idempotent: bool, operation: nat -> Status, m: nat, n: nat)
    requires Makes(policy, idempotent, operation, m) && Makes(policy, idempotent, operation, n)
    ensures m == n
  {}

  /** The sleeps of a retry: one before each call but the first. */
  ghost predicate Sleeps(policy: RetryPolicy, draws: nat -> nat, calls: nat, slept: seq<int>) {
    && |slept| == calls - 1
    && forall i :: 0 <= i < |slept| ==> slept[i] == CalculateBackoff(policy.delay, i, draws(i))
  }

  method RetryUnary(policy: RetryPolicy, idempotent: bool, operation: nat -> Status, draws: nat -> nat)
    returns (result: Status, calls: nat, slept: seq<int>)
    ensures Makes(policy, idempotent, operation, calls)
    ensures result == operation(calls - 1)
    ensures 1 <= calls <= 1 + (if policy.maxRetries > 0 then policy.maxRetries else 0)
    ensures forall i: nat :: i < calls - 1 ==> SafeToRepeat(operation(i), idempotent)
    ensures calls < 1 + policy.maxRetries ==> !SafeToRepeat(result, idempotent)
    ensures Sleeps(policy, draws, calls, slept)
  {
    if policy.maxRetries <= 0 {
      return operation(0), 1, [];
    }
    calls, slept := 0, [];
    var attempt := 0;
    result := Status(Ok, "");
    while attempt <= policy.maxRetries
      invariant 0 <= attempt == calls == |slept| <= policy.maxRetries
      invariant forall i: nat :: i < calls ==> ShouldRetry(operation(i).code, idempotent)
      invariant forall i :: 0 <= i < |slept| ==> slept[i] == CalculateBackoff(policy.delay, i, draws(i))
      decreases policy.maxRetries - attempt
    {
      result := operation(calls);
      calls := calls + 1;
      if result.code == Ok {
        return;
      }
      if attempt < policy.maxRetries && ShouldRetry(result.code, idempotent) {
        slept := slept + [CalculateBackoff(policy.delay, attempt, draws(attempt))];
        attempt := attempt + 1;
        continue;
      }
      break;
    }
  }

  method RetryUnaryOr<T>(policy: RetryPolicy, idempotent: bool, operation: nat -> StatusOr<T>, draws: nat -> nat)
    returns (result: StatusOr<T>, calls: nat, slept: seq<int>)
    ensures Makes(policy, idempotent, Statuses(operation), calls)
    ensures result == operation(calls - 1)
    ensures 1 <= calls <= 1 + (if policy.maxRetries > 0 then policy.maxRetries else 0)
    ensures forall i: nat :: i < calls - 1 ==> SafeToRepeat(operation(i).ToStatus(), idempotent)
    ensures calls < 1 + policy.maxRetries ==> !SafeToRepeat(result.ToStatus(), idempotent)
    ensures Sleeps(policy, draws, calls, slept)
  {
    if policy.maxRetries <= 0 {
      return operation(0), 1, [];
    }
    calls, slept := 0, [];
    var attempt := 0;
    result := Error(Status(Fatal, "retry loop did not execute"));
    while attempt <= policy.maxRetries
      invariant 0 <= attempt == calls == |slept| <= policy.maxRetries
      invariant forall i: nat :: i < calls ==> ShouldRetry(operation(i).ToStatus().code, idempotent)
      invariant forall i :: 0 <= i < |slept| ==> slept[i] == CalculateBackoff(policy.delay, i, draws(i))
      decreases policy.maxRetries - attempt
    {
      result := operation(calls);
      calls := calls + 1;
      if result.Value? {
        return;
      }
      if attempt < policy.maxRetries && ShouldRetry(result.ToStatus().code, idempotent) {
        slept := slept + [CalculateBackoff(policy.delay, attempt, draws(attempt))];
        attempt := attempt + 1;
        continue;
      }
      break;
    }
  }

  /**
   The two retries agree: on the same answers, what their contracts say of them
   forces the same number of calls and the same status, even for an error result
   that carries OK.
   */
  lemma RetriesAgree<T>(policy: RetryPolicy, idempotent: bool, operation: nat -> StatusOr<T>,
                        a: Status, m: nat, b: StatusOr<T>, n: nat)
    requires Makes(policy, idempotent, Statuses(operation), m) && a == Statuses(operation)(m - 1)
    requires Makes(policy, idempotent, Statuses(operation), n) && b == operation(n - 1)
    ensures m == n && a == b.ToStatus()
  {
    MakesUnique(policy, idempotent, Statuses(operation), m, n);
  }

  /** After a transient error or throttling the operation may be called again, after a timeout if it is idempotent. */
  predicate SafeToRepeat(status: Status, idempotent: bool) {
    status.code == Transient || status.code == Throttling || (status.code == Timeout && idempotent)
  }

  // ------------------------------------------------------------ total sleep

  function Sum(s: seq<int>): int {
    if s == [] then 0 else Sum(s[..|s| - 1]) + s[|s| - 1]
  }

  /** A retry sleeps at most the cap between two calls, whatever the jitter. */
  lemma {:induction false} TotalSleepBounded(policy: RetryPolicy, draws: nat -> nat, calls: nat, slept: seq<int>)
    requires calls >= 1 && Sleeps(policy, draws, calls, slept)
    requires policy.delay.initial >= 0 && policy.delay.maximum >= 0 && policy.delay.multiplier >= 0.0
    ensures 0 <= Sum(slept) <= (calls - 1) * policy.delay.maximum
    decreases calls
  {
    hide CalculateBackoff;
    if calls > 1 {
      var n := calls - 2;
      TotalSleepBounded(policy, draws, calls - 1, slept[..n]);
      DelayWithinCap(policy.delay, n, draws(n));
      assert (calls - 1) * policy.delay.maximum == n * policy.delay.maximum + policy.delay.maximum;
    }
  }

  lemma {:induction false} PowersOfTwoGrow(k: nat)
    ensures 1 <= PowInt(2, k) <= PowInt(2, k + 1)
  {
    if k > 0 { PowersOfTwoGrow(k - 1); }
  }

  /** Below the cap, doubling without jitter sleeps exactly initial * (2^(calls-1) - 1). */
  lemma {:induction false} TotalSleepWhenDoubling(policy: RetryPolicy, draws: nat -> nat, calls: nat, slept: seq<int>)
    requires calls >= 1 && Sleeps(policy, draws, calls, slept)
    requires policy.delay.multiplier == 2.0 && policy.delay.jitter == NoJitter && policy.delay.initial >= 0
    requires calls >= 2 ==> policy.delay.initial * PowInt(2, calls - 2) <= policy.delay.maximum
    ensures Sum(slept) == policy.delay.initial * (PowInt(2, calls - 1) - 1)
    decreases calls
  {
    hide CalculateBackoff;
    var initial := policy.delay.initial;
    if calls > 1 {
      var n := calls - 2;
      if n > 0 {
        PowersOfTwoGrow(n - 1);
        ProductInt(initial, PowInt(2, n - 1), PowInt(2, n));
      }
      TotalSleepWhenDoubling(policy, draws, calls - 1, slept[..n]);
      WholeDelay(policy.delay, 2, n, draws(n));
      assert slept[n] == initial * PowInt(2, n);
      assert PowInt(2, calls - 1) == 2 * PowInt(2, n);
      assert initial * (2 * PowInt(2, n) - 1) == initial * (PowInt(2, n) - 1) + initial * PowInt(2, n);
    }
  }
}
