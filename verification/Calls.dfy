/** How a remote call with retries ends, given how each attempt ends. */
module RemoteCalls {
  import opened Retry
  import opened Worlds

  /** An attempt is acknowledged, or its answer is lost in an error, with or without effect. Not
      found is no such error: it follows from the state of the store. */
  datatype Call = Acknowledged | Lost(status: Fault, applied: bool)

  type Fault = s: StatusCode | s != HttpStatus(404) witness NoStatus

  /** The i-th attempt is made: all before it were lost to retryable errors. */
  predicate Made(calls: nat -> Call, maxRetries: nat, i: nat) {
    i <= maxRetries && forall j | 0 <= j < i :: calls(j).Lost? && Retryable(calls(j).status)
  }

  /** The outcome of an idempotent call, from some attempt on. */
  function OutcomeFrom(calls: nat -> Call, maxRetries: nat, attempt: nat, taken: bool): Outcome
    decreases maxRetries - attempt
  {
    match calls(attempt)
    case Acknowledged => Done
    case Lost(status, applied) =>
      if attempt >= maxRetries || !Retryable(status) then (if taken || applied then FailedAfter else FailedBefore)
      else OutcomeFrom(calls, maxRetries, attempt + 1, taken || applied)
  }

  function CallOutcome(calls: nat -> Call, maxRetries: nat): Outcome { OutcomeFrom(calls, maxRetries, 0, false) }

  /** The call succeeds exactly when an attempt that is made is acknowledged, and it took effect
      exactly when it succeeds or an attempt that is made was applied. */
  lemma CallOutcomeExact(calls: nat -> Call, maxRetries: nat)
    ensures CallOutcome(calls, maxRetries) == Done <==>
      exists i: nat :: Made(calls, maxRetries, i) && calls(i).Acknowledged?
    ensures Applied(CallOutcome(calls, maxRetries)) <==>
      exists i: nat :: Made(calls, maxRetries, i) && (calls(i).Acknowledged? || calls(i).applied)
  {
    OutcomeFromExact(calls, maxRetries, 0, false);
  }

  lemma {:induction false} OutcomeFromExact(calls: nat -> Call, maxRetries: nat, attempt: nat, taken: bool)
    requires Made(calls, maxRetries, attempt)
    requires taken <==> exists i: nat :: i < attempt && calls(i).applied
    ensures OutcomeFrom(calls, maxRetries, attempt, taken) == Done <==>
      exists i: nat :: Made(calls, maxRetries, i) && calls(i).Acknowledged?
    ensures Applied(OutcomeFrom(calls, maxRetries, attempt, taken)) <==>
      exists i: nat :: Made(calls, maxRetries, i) && (calls(i).Acknowledged? || calls(i).applied)
    decreases maxRetries - attempt
  {
    forall i: nat | i < attempt ensures Made(calls, maxRetries, i) && calls(i).Lost? {}
    match calls(attempt)
    case Acknowledged =>
    case Lost(status, applied) =>
      if attempt >= maxRetries || !Retryable(status) {
        forall i: nat | Made(calls, maxRetries, i) ensures i <= attempt {}
      } else {
        OutcomeFromExact(calls, maxRetries, attempt + 1, taken || applied);
      }
  }

  /** The outcome of removing an object, where a repeated attempt that finds nothing counts as a
      failure: once an attempt was applied and lost, no later one can succeed. */
  function RemovalFrom(calls: nat -> Call, maxRetries: nat, attempt: nat): Outcome
    decreases maxRetries - attempt
  {
    match calls(attempt)
    case Acknowledged => Done
    case Lost(status, applied) =>
      if applied then FailedAfter
      else if attempt >= maxRetries || !Retryable(status) then FailedBefore
      else RemovalFrom(calls, maxRetries, attempt + 1)
  }

  function RemovalOutcome(calls: nat -> Call, maxRetries: nat): Outcome { RemovalFrom(calls, maxRetries, 0) }

  /** It takes effect in just the cases in which the idempotent call does, but succeeds only if
      no attempt was applied before the acknowledged one. */
  lemma RemovalOutcomeExact(calls: nat -> Call, maxRetries: nat)
    ensures Applied(RemovalOutcome(calls, maxRetries)) <==> Applied(CallOutcome(calls, maxRetries))
    ensures RemovalOutcome(calls, maxRetries) == Done <==>
      exists i: nat :: Made(calls, maxRetries, i) && calls(i).Acknowledged?
        && forall j | 0 <= j < i :: !calls(j).applied
  {
    CallOutcomeExact(calls, maxRetries);
    RemovalFromExact(calls, maxRetries, 0);
  }

  lemma {:induction false} RemovalFromExact(calls: nat -> Call, maxRetries: nat, attempt: nat)
    requires Made(calls, maxRetries, attempt)
    requires forall i: nat | i < attempt :: !calls(i).applied
    ensures Applied(RemovalFrom(calls, maxRetries, attempt)) <==>
      exists i: nat :: Made(calls, maxRetries, i) && (calls(i).Acknowledged? || calls(i).applied)
    ensures RemovalFrom(calls, maxRetries, attempt) == Done <==>
      exists i: nat :: Made(calls, maxRetries, i) && calls(i).Acknowledged?
        && forall j | 0 <= j < i :: !calls(j).applied
    decreases maxRetries - attempt
  {
    forall i: nat | i < attempt ensures Made(calls, maxRetries, i) && calls(i).Lost? {}
    match calls(attempt)
    case Acknowledged =>
    case Lost(status, applied) =>
      if !applied && attempt < maxRetries && Retryable(status) {
        RemovalFromExact(calls, maxRetries, attempt + 1);
      } else {
        forall i: nat | Made(calls, maxRetries, i) && calls(i).Acknowledged? ensures i > attempt {}
        if !applied { forall i: nat | Made(calls, maxRetries, i) ensures i <= attempt {} }
      }
  }

  // ---------- how long it takes ----------

  /** The last attempt that is made, counted from 0, from some attempt on. */
  function LastFrom(calls: nat -> Call, maxRetries: nat, attempt: nat): (last: nat)
    ensures attempt <= last && (attempt <= maxRetries ==> last <= maxRetries)
    decreases maxRetries - attempt
  {
    match calls(attempt)
    case Acknowledged => attempt
    case Lost(status, _) =>
      if attempt >= maxRetries || !Retryable(status) then attempt else LastFrom(calls, maxRetries, attempt + 1)
  }

  function LastAttempt(calls: nat -> Call, maxRetries: nat): (last: nat)
    ensures last <= maxRetries
  {
    LastFrom(calls, maxRetries, 0)
  }

  /** What an attempt looks like to the retry loop. */
  function AttemptOf(c: Call): Attempt {
    match c
    case Acknowledged => Returned
    case Lost(status, _) => Threw(status)
  }

  function AttemptsOf(calls: nat -> Call): nat -> Attempt { (i: nat) => AttemptOf(calls(i)) }

  /** Every retried call makes the attempts, and so the sleeps, of `RetryTransient`: all up to
      the last one are made, no other is, and a loop that stops where `RetryTransient` stops has
      made just these. */
  lemma LastAttemptExact(calls: nat -> Call, maxRetries: nat, attempts: nat)
    ensures forall i: nat :: Made(calls, maxRetries, i) <==> i <= LastAttempt(calls, maxRetries)
    ensures attempts == LastAttempt(calls, maxRetries) + 1 <==>
      && 1 <= attempts <= maxRetries + 1
      && AllRetryable(AttemptsOf(calls), attempts - 1)
      && (attempts == maxRetries + 1 || calls(attempts - 1).Acknowledged? || !Retryable(calls(attempts - 1).status))
  {
    LastFromExact(calls, maxRetries, 0);
    var last := LastAttempt(calls, maxRetries);
    assert Made(calls, maxRetries, last);
    if 1 <= attempts <= maxRetries + 1 && AllRetryable(AttemptsOf(calls), attempts - 1) {
      forall j | 0 <= j < attempts - 1 ensures calls(j).Lost? && Retryable(calls(j).status) {
        assert AttemptsOf(calls)(j).Threw?;
      }
      assert Made(calls, maxRetries, attempts - 1);
      assert Made(calls, maxRetries, attempts) ==> calls(attempts - 1).Lost?;
    }
  }

  lemma {:induction false} LastFromExact(calls: nat -> Call, maxRetries: nat, attempt: nat)
    requires Made(calls, maxRetries, attempt)
    ensures var last := LastFrom(calls, maxRetries, attempt);
      && (forall i: nat :: Made(calls, maxRetries, i) <==> i <= last)
      && (last == maxRetries || calls(last).Acknowledged? || !Retryable(calls(last).status))
    decreases maxRetries - attempt
  {
    if calls(attempt).Lost? && attempt < maxRetries && Retryable(calls(attempt).status) {
      LastFromExact(calls, maxRetries, attempt + 1);
    }
  }
}
