/** Retry with growing delays (upload-function/src/storage/r2-replication-storage.ts). */
module Retry {

  /** What one attempt did: it returned, or threw an error that may carry an HTTP status. */
  datatype Attempt = Returned | Threw(status: StatusCode)
  datatype StatusCode = NoStatus | HttpStatus(code: int)

  /** `isRetryableR2Error`. */
  predicate Retryable(s: StatusCode) {
    s.NoStatus? || s.code == 408 || s.code == 429 || s.code >= 500
  }

  /** `retryDelayForAttempt`. */
  function RetryDelayForAttempt(attempt: nat): nat {
    if attempt == 0 then 100 else if attempt == 1 then 400 else 1600
  }

  /** The sleep before the first `n` retries, added up. */
  function TotalDelay(n: nat): nat {
    if n == 0 then 0 else TotalDelay(n - 1) + RetryDelayForAttempt(n - 1)
  }

  lemma {:induction false} TotalDelayClosedForm(n: nat)
    ensures TotalDelay(n) == if n == 0 then 0 else if n == 1 then 100 else 500 + 1600 * (n - 2)
  {
    if n > 0 { TotalDelayClosedForm(n - 1); }
  }

  /** The first `n` attempts all threw something worth retrying. */
  predicate AllRetryable(outcome: nat -> Attempt, n: nat) {
    forall i | 0 <= i < n :: outcome(i).Threw? && Retryable(outcome(i).status)
  }

  /** The last attempt that is made, counted from 0, from some attempt on: it returns, or nothing
      is to be tried after it. */
  function LastTryFrom(outcome: nat -> Attempt, maxRetries: int, attempt: nat): (last: nat)
    ensures attempt <= last && (attempt == last || last <= maxRetries)
    decreases maxRetries - attempt
  {
    match outcome(attempt)
    case Returned => attempt
    case Threw(status) =>
      if attempt >= maxRetries || !Retryable(status) then attempt else LastTryFrom(outcome, maxRetries, attempt + 1)
  }

  function LastTry(outcome: nat -> Attempt, maxRetries: int): nat { LastTryFrom(outcome, maxRetries, 0) }

  /** A retried operation succeeds exactly when an attempt in range returns after only failures
      worth retrying; then that is the last one. */
  lemma LastTryExact(outcome: nat -> Attempt, maxRetries: int)
    ensures var last := LastTry(outcome, maxRetries);
      && (last == 0 || last <= maxRetries) && AllRetryable(outcome, last)
      && (outcome(last).Threw? ==> last >= maxRetries || !Retryable(outcome(last).status))
      && forall i: nat | (i == 0 || i <= maxRetries) && outcome(i).Returned? && AllRetryable(outcome, i) :: i == last
  {
    LastTryFromExact(outcome, maxRetries, 0);
  }

  lemma {:induction false} LastTryFromExact(outcome: nat -> Attempt, maxRetries: int, attempt: nat)
    requires AllRetryable(outcome, attempt) && (attempt == 0 || attempt <= maxRetries)
    ensures var last := LastTryFrom(outcome, maxRetries, attempt);
      && AllRetryable(outcome, last)
      && (outcome(last).Threw? ==> last >= maxRetries || !Retryable(outcome(last).status))
      && forall i: nat | (i == 0 || i <= maxRetries) && outcome(i).Returned? && AllRetryable(outcome, i) :: i == last
    decreases maxRetries - attempt
  {
    if outcome(attempt).Threw? && attempt < maxRetries && Retryable(outcome(attempt).status) {
      LastTryFromExact(outcome, maxRetries, attempt + 1);
    } else {
      forall i: nat | (i == 0 || i <= maxRetries) && outcome(i).Returned? && AllRetryable(outcome, i)
        ensures i <= attempt
      {
      }
    }
  }

  /** `retryTransient` over an operation whose i-th attempt ends as `outcome(i)` says. */
  method RetryTransient(maxRetries: int, outcome: nat -> Attempt) returns (result: Attempt, attempts: nat, slept: nat)
    ensures 1 <= attempts && (attempts == 1 || attempts <= maxRetries + 1)
    ensures result == outcome(attempts - 1) && AllRetryable(outcome, attempts - 1)
    ensures result.Returned? <==>
      exists i: nat :: (i == 0 || i <= maxRetries) && outcome(i).Returned? && AllRetryable(outcome, i)
    ensures result.Threw? ==> !Retryable(result.status) || attempts >= maxRetries + 1
    ensures slept == TotalDelay(attempts - 1) && attempts == LastTry(outcome, maxRetries) + 1
  {
    var attempt: nat := 0;
    slept := 0;
    while true
      invariant attempt == 0 || attempt <= maxRetries
      invariant AllRetryable(outcome, attempt)
      invariant slept == TotalDelay(attempt)
      invariant LastTry(outcome, maxRetries) == LastTryFrom(outcome, maxRetries, attempt)
      decreases maxRetries - attempt
    {
      result := outcome(attempt);
      attempts := attempt + 1;
      match result {
        case Returned => return;
        case Threw(status) =>
          if attempt >= maxRetries || !Retryable(status) {
            assert forall i: nat | i > attempt && AllRetryable(outcome, i) ::
              outcome(attempt).Threw? && Retryable(status);
            return;
          }
      }
      slept := slept + RetryDelayForAttempt(attempt);
      attempt := attempt + 1;
    }
  }
}
