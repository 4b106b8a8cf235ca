/**
 * `retry_request`: call the wrapped request up to five times, sleeping after
 * every failed attempt with a delay that starts at two seconds and doubles.
 */
module Retry {
  /** What one call of the wrapped function does. */
  datatype Outcome<T> =
    | Returned(value: T)
    | RequestError       // a `requests.RequestException`: retried
    | OtherError         // any other exception: propagates at once

  /** What the wrapper does. */
  datatype RetryResult<T> =
    | Value(value: T)
    | Propagated         // the other exception escapes the wrapper
    | MaxRetriesExceeded // `RuntimeError("Max retries exceeded")`

  const MaxAttempts: nat := 5
  const InitialDelay: nat := 2

  /** The delay slept after the failed attempt numbered `attempt` (from 0). */
  function Delay(attempt: nat): nat {
    if attempt == 0 then InitialDelay else 2 * Delay(attempt - 1)
  }

  /** The whole schedule when every attempt fails: 2, 4, 8, 16 and 32 seconds. */
  lemma DelaySchedule()
    ensures seq(MaxAttempts, i requires 0 <= i => Delay(i)) == [2, 4, 8, 16, 32]
  {
    assert Delay(1) == 4 && Delay(2) == 8 && Delay(3) == 16 && Delay(4) == 32;
  }

  /**
   * The wrapper, given what attempt `i` does as `call(i)` (the sleeps are
   * returned rather than slept). Every sleep follows a `RequestException`; the
   * wrapper returns the first value, propagates the first other exception, or
   * raises after the fifth `RequestException`, having slept after that one too.
   */
  method RetryRequest<T>(call: nat -> Outcome<T>) returns (r: RetryResult<T>, sleeps: seq<nat>)
    ensures |sleeps| <= MaxAttempts
    ensures forall i :: 0 <= i < |sleeps| ==> call(i).RequestError? && sleeps[i] == Delay(i)
    ensures r.MaxRetriesExceeded? <==> |sleeps| == MaxAttempts
    ensures r.Value? ==> call(|sleeps|) == Returned(r.value)
    ensures r.Propagated? ==> call(|sleeps|).OtherError?
  {
    var delay := InitialDelay;
    var attempt := 0;
    sleeps := [];
    while attempt < MaxAttempts
      invariant attempt <= MaxAttempts && |sleeps| == attempt
      invariant delay == Delay(attempt)
      invariant forall i :: 0 <= i < attempt ==> call(i).RequestError? && sleeps[i] == Delay(i)
    {
      match call(attempt)
      case Returned(v) =>
        return Value(v), sleeps;
      case OtherError =>
        return Propagated, sleeps;
      case RequestError =>
        sleeps := sleeps + [delay];
        delay := delay * 2;
        attempt := attempt + 1;
    }
    r := MaxRetriesExceeded;
  }
}
