/** `withRetry` of the content script: an action is attempted up to `maxRetries` times,
    sleeping between failed attempts, and the last error is rethrown when every attempt
    failed. The action is the function `fn` from the attempt number to what that
    attempt did; the backoff durations are not modelled, only how many sleeps happen. */
module Retry {
  import opened Opt

  /** What one call of the action did. */
  datatype Attempt<T> = Ok(value: T) | Err(error: string)

  /** What `withRetry` did: returned a value, or threw the last error (`None` stands for
      JavaScript's `undefined`, thrown when no attempt was made at all). */
  datatype Outcome<T> = Returned(value: T) | Threw(error: Option<string>)

  /** The outcome together with the number of calls and of sleeps. */
  datatype Trace<T> = Trace(outcome: Outcome<T>, calls: nat, sleeps: nat)

  /** The attempts from number `i` on, `last` being the error of the one before. */
  function Run<T>(fn: nat -> Attempt<T>, i: nat, maxRetries: int, last: Option<string>): Trace<T>
    decreases maxRetries - i
  {
    if i >= maxRetries then Trace(Threw(last), 0, 0)
    else match fn(i)
      case Ok(v) => Trace(Returned(v), 1, 0)
      case Err(e) =>
        var rest := Run(fn, i + 1, maxRetries, Some(e));
        Trace(rest.outcome, rest.calls + 1, rest.sleeps + if i < maxRetries - 1 then 1 else 0)
  }

  /** The attempt loop. */
  method WithRetry<T>(fn: nat -> Attempt<T>, maxRetries: int) returns (outcome: Outcome<T>, calls: nat, sleeps: nat)
    ensures Trace(outcome, calls, sleeps) == Run(fn, 0, maxRetries, None)
  {
    var lastError: Option<string> := None;
    calls, sleeps := 0, 0;
    var i: nat := 0;
    while i < maxRetries
      invariant var rest := Run(fn, i, maxRetries, lastError);
        Run(fn, 0, maxRetries, None) == Trace(rest.outcome, rest.calls + calls, rest.sleeps + sleeps)
      decreases maxRetries - i
    {
      var a := fn(i);
      calls := calls + 1;
      if a.Ok? {
        return Returned(a.value), calls, sleeps;
      }
      lastError := Some(a.error);
      if i < maxRetries - 1 {
        sleeps := sleeps + 1;
      }
      i := i + 1;
    }
    outcome := Threw(lastError);
  }

  /** The attempts from number `i` on: at most `maxRetries - i` calls; a returned value
      is that of the first successful attempt; a throw happens only when every attempt
      failed and carries the last attempt's error; one sleep separates consecutive
      calls and none follows the last. */
  lemma {:induction false} RunSpec<T>(fn: nat -> Attempt<T>, i: nat, maxRetries: int, last: Option<string>)
    ensures var t := Run(fn, i, maxRetries, last);
      t.calls <= (if maxRetries - i < 0 then 0 else maxRetries - i)
      && (t.outcome.Returned? ==>
            t.calls >= 1 && fn(i + t.calls - 1) == Ok(t.outcome.value)
            && forall k :: i <= k < i + t.calls - 1 ==> fn(k).Err?)
      && (t.outcome.Threw? ==>
            t.calls == (if maxRetries - i < 0 then 0 else maxRetries - i)
            && (forall k :: i <= k < maxRetries ==> fn(k).Err?)
            && t.outcome.error == (if i < maxRetries then Some(fn(maxRetries - 1).error) else last))
      && t.sleeps == (if t.calls == 0 then 0 else t.calls - 1)
    decreases maxRetries - i
  {
    if i < maxRetries && fn(i).Err? {
      RunSpec(fn, i + 1, maxRetries, Some(fn(i).error));
    }
  }

  /** `withRetry` from the first attempt: it returns exactly when some attempt within the
      bound succeeds, and then the first such attempt's value; otherwise it made
      `maxRetries` calls (none when that is not positive) and rethrows the error of the
      last one. */
  lemma WithRetrySpec<T>(fn: nat -> Attempt<T>, maxRetries: int)
    ensures var t := Run(fn, 0, maxRetries, None);
      (t.outcome.Returned? <==> exists k :: 0 <= k < maxRetries && fn(k).Ok?)
      && (t.outcome.Returned? ==>
            exists k :: 0 <= k < maxRetries && fn(k) == Ok(t.outcome.value)
                          && forall j :: 0 <= j < k ==> fn(j).Err?)
      && (t.outcome.Threw? && maxRetries >= 1 ==> t.calls == maxRetries && t.outcome.error == Some(fn(maxRetries - 1).error))
      && (maxRetries <= 0 ==> t == Trace(Threw(None), 0, 0))
      && t.sleeps + 1 == (if t.calls == 0 then 1 else t.calls)
  {
    var t := Run(fn, 0, maxRetries, None);
    RunSpec(fn, 0, maxRetries, None);
    if t.outcome.Returned? {
      var k := t.calls - 1;
      assert 0 <= k < maxRetries && fn(k) == Ok(t.outcome.value);
    }
  }
}
