/** The retry policy the three mutation hooks hand to the query library:
    which failures are retried, and how long to wait before each retry.
    The library calls both with the number of failures already retried,
    starting at 0. */
module RetryPolicy {
  import opened Base

  /** The two error codes treated as transient: a unique-constraint
      conflict and a `single` request that did not see exactly one row. */
  predicate Transient(code: Option<string>) {
    code == Some(CONFLICT) || code == Some(NOT_SINGLE)
  }

  /** `retry(failureCount, error)`. An error without a code (such as the
      "User not authenticated" error) is never retried. */
  predicate ShouldRetry(failureCount: nat, code: Option<string>) {
    if Transient(code) then failureCount < 2 else false
  }

  function Pow2(n: nat): (r: nat)
    ensures r >= 1
  {
    if n == 0 then 1 else 2 * Pow2(n - 1)
  }

  /** `retryDelay(attemptIndex)`: `Math.min(1000 * 2 ** attemptIndex, 30000)`
      milliseconds. */
  function RetryDelay(attempt: nat): (d: nat)
    ensures 1000 <= d <= 30000
    ensures d == 30000 || d == 1000 * Pow2(attempt)
  {
    if 1000 * Pow2(attempt) <= 30000 then 1000 * Pow2(attempt) else 30000
  }

  lemma {:induction false} Pow2Monotone(a: nat, b: nat)
    requires a <= b
    ensures Pow2(a) <= Pow2(b)
    decreases b
  {
    if a < b {
      Pow2Monotone(a, b - 1);
    }
  }

  /** Later retries never wait less than earlier ones. */
  lemma RetryDelayMonotone(a: nat, b: nat)
    requires a <= b
    ensures RetryDelay(a) <= RetryDelay(b)
  {
    Pow2Monotone(a, b);
  }

  /** The delay doubles from one second and reaches the 30 second cap from
      the sixth attempt on. */
  lemma RetryDelayValues(attempt: nat)
    ensures attempt <= 4 ==> RetryDelay(attempt) == 1000 * Pow2(attempt)
    ensures attempt >= 5 ==> RetryDelay(attempt) == 30000
  {
    if attempt >= 5 {
      Pow2Monotone(5, attempt);
      assert Pow2(5) == 32;
    } else {
      Pow2Monotone(attempt, 4);
      assert Pow2(4) == 16;
    }
  }

  /** The waits the library goes through for a mutation that fails every
      time with the same code, from the `failureCount`-th failure on. */
  function RetrySchedule(code: Option<string>, failureCount: nat): (waits: seq<nat>)
    decreases if failureCount < 2 then 2 - failureCount else 0
  {
    if ShouldRetry(failureCount, code) then
      [RetryDelay(failureCount)] + RetrySchedule(code, failureCount + 1)
    else []
  }

  /** A transient failure is tried three times in all, waiting one and then
      two seconds; any other failure is not retried. */
  lemma RetryScheduleFromStart(code: Option<string>)
    ensures RetrySchedule(code, 0) == if Transient(code) then [1000, 2000] else []
  {
    if Transient(code) {
      assert RetrySchedule(code, 2) == [];
      assert RetrySchedule(code, 1) == [2000];
    }
  }
}
