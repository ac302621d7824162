/** The collector's bounded retry wrapper around one market-data call. The
    call is an oracle: `call(k)` is the outcome of attempt `k` (counting
    from 0), `None` when that attempt raised. Sleeping is modelled by the
    list of waits, in seconds, made between attempts. */
module Retrying {
  import opened Options
  import opened Config

  /** What one wrapped call produced: its result, how many attempts were
      made, and the waits between them. */
  datatype Attempts<T> = Attempts(result: T, calls: nat, waits: seq<real>)

  function Pow2(k: nat): (r: nat)
    ensures r >= 1
  {
    if k == 0 then 1 else 2 * Pow2(k - 1)
  }

  /** The wait after failed attempt `k` when another attempt follows. */
  function Backoff(k: nat): real {
    RetryBaseDelay * Pow2(k) as real
  }

  /** The retry loop from attempt `attempt` on. */
  function RetryFrom<T>(call: nat -> Option<T>, maxRetries: nat, attempt: nat, empty: T): (a: Attempts<T>)
    requires attempt <= maxRetries
    ensures attempt == maxRetries ==> a == Attempts(empty, attempt, [])
    ensures attempt < maxRetries ==> attempt < a.calls <= maxRetries
    ensures forall k :: attempt <= k < a.calls - 1 ==> call(k).None?
    ensures a.calls > attempt && call(a.calls - 1).Some? ==> a.result == call(a.calls - 1).value
    ensures a.calls > attempt && call(a.calls - 1).None? ==> a.calls == maxRetries && a.result == empty
    ensures a.calls > attempt ==> |a.waits| == a.calls - 1 - attempt
    ensures forall k :: 0 <= k < |a.waits| ==> a.waits[k] == Backoff(attempt + k)
    decreases maxRetries - attempt
  {
    if attempt == maxRetries then Attempts(empty, attempt, [])
    else
      match call(attempt)
      case Some(v) => Attempts(v, attempt + 1, [])
      case None =>
        if attempt == maxRetries - 1 then Attempts(empty, attempt + 1, [])
        else
          var rest := RetryFrom(call, maxRetries, attempt + 1, empty);
          Attempts(rest.result, rest.calls, [Backoff(attempt)] + rest.waits)
  }

  /** `_retry(func, max_retries=maxRetries)`. It never raises: it returns
      the result of the first attempt that succeeds, or `empty` once
      `maxRetries` attempts have failed (at once when `maxRetries` is 0).
      Attempt k+1 follows a wait of `RetryBaseDelay * 2^k`; nothing is
      waited after a success or after the last failure. */
  function Retry<T>(call: nat -> Option<T>, maxRetries: nat, empty: T): (a: Attempts<T>)
    ensures a.calls <= maxRetries
    ensures a.calls == 0 <==> maxRetries == 0
    ensures a.calls == 0 ==> a.result == empty && a.waits == []
    ensures forall k :: 0 <= k < a.calls - 1 ==> call(k).None?
    ensures a.calls > 0 && call(a.calls - 1).Some? ==> a.result == call(a.calls - 1).value
    ensures a.calls > 0 && call(a.calls - 1).None? ==> a.calls == maxRetries && a.result == empty
    ensures a.calls > 0 ==> |a.waits| == a.calls - 1
    ensures forall k :: 0 <= k < |a.waits| ==> a.waits[k] == Backoff(k)
  {
    RetryFrom(call, maxRetries, 0, empty)
  }

  /** A call that fails `n` times and then succeeds, with `n` below the
      bound, yields the success on attempt `n + 1` after `n` waits. */
  lemma RetrySucceedsAfterFailures<T>(call: nat -> Option<T>, maxRetries: nat, empty: T, n: nat)
    requires n < maxRetries
    requires forall k :: 0 <= k < n ==> call(k).None?
    requires call(n).Some?
    ensures Retry(call, maxRetries, empty).result == call(n).value
    ensures Retry(call, maxRetries, empty).calls == n + 1
    ensures |Retry(call, maxRetries, empty).waits| == n
  {
  }

  /** A call that always fails yields `empty` after exactly `maxRetries`
      attempts. */
  lemma RetryAllFail<T>(call: nat -> Option<T>, maxRetries: nat, empty: T)
    requires forall k :: 0 <= k < maxRetries ==> call(k).None?
    ensures Retry(call, maxRetries, empty).result == empty
    ensures Retry(call, maxRetries, empty).calls == maxRetries
  {
  }

  /** Each wait is twice the one before it. */
  lemma BackoffDoubles(k: nat)
    ensures Backoff(k + 1) == 2.0 * Backoff(k)
  {
  }
}
