/** Webhook delivery: bounded retries with a saturating Fibonacci backoff. */
module Webhook {
  import opened GoInt64

  const SECOND: int := 1_000_000_000
  const MAX_DURATION_SECONDS: int := MAX / SECOND
  const DEFAULT_MAX_RETRY: nat := 5

  function Fib(n: nat): nat {
    if n < 2 then 1 else Fib(n - 1) + Fib(n - 2)
  }

  function Min(a: int, b: int): int {
    if a < b then a else b
  }

  /** The wait after a failed attempt, in nanoseconds. */
  function Backoff(attempt: int): int {
    Min(Fib(if attempt < 0 then 0 else attempt), MAX_DURATION_SECONDS) * SECOND
  }

  lemma {:induction false} FibGrows(m: nat, n: nat)
    requires m <= n
    ensures 1 <= Fib(m) <= Fib(n)
    decreases n
  {
    if m < n {
      FibGrows(m, n - 1);
      if n > 1 {
        FibGrows(0, n - 2);
      }
    } else if n > 1 {
      FibGrows(m - 1, m - 1);
      FibGrows(m - 2, m - 2);
    }
  }

  /** The loop, in int64 arithmetic: the guard keeps every addition and the final
      multiplication in range, so the result is the capped Fibonacci number. */
  method FibonacciRetryBackoff(attempt: int) returns (d: int)
    ensures d == Backoff(attempt)
    ensures SECOND <= d <= MAX
  {
    if attempt <= 1 {
      return SECOND;
    }
    var prev, curr := 1, 1;
    var i := 2;
    while i <= attempt
      invariant 2 <= i <= attempt + 1
      invariant prev == Fib(i - 2) && curr == Fib(i - 1)
      invariant 1 <= prev <= curr <= MAX_DURATION_SECONDS
    {
      if curr > Wrap(MAX_DURATION_SECONDS - prev) {
        FibGrows(i, attempt);
        return Wrap(MAX_DURATION_SECONDS * SECOND);
      }
      prev, curr := curr, Wrap(prev + curr);
      i := i + 1;
    }
    return Wrap(curr * SECOND);
  }

  /** One second after the first attempt, and from then on the sum of the last two waits, as long
      as a duration in int64 nanoseconds can hold it in whole seconds. */
  lemma BackoffValues(attempt: int)
    ensures attempt <= 1 ==> Backoff(attempt) == 1_000_000_000
    ensures attempt == 2 ==> Backoff(attempt) == 2_000_000_000
    ensures attempt > 2 ==>
              var sum := Backoff(attempt - 1) + Backoff(attempt - 2);
              Backoff(attempt) == if sum <= 9_223_372_036_000_000_000 then sum else 9_223_372_036_000_000_000
  {
    if attempt > 2 {
      FibGrows(0, attempt - 1);
      FibGrows(0, attempt - 2);
    }
  }

  /** Waits never get shorter, and each is a whole number of seconds from one up to the cap. */
  lemma BackoffIsMonotone(a: int, b: int)
    requires a <= b
    ensures SECOND <= Backoff(a) <= Backoff(b) <= MAX
  {
    FibGrows(if a < 0 then 0 else a, if b < 0 then 0 else b);
  }

  // ---------------------------------------------------------------- the retry loop

  /** The waits after attempts 1 to n. */
  function TotalBackoff(n: nat): int {
    if n == 0 then 0 else TotalBackoff(n - 1) + Backoff(n)
  }

  /** While nothing saturates, the waits of n attempts add up to f(n + 1) - 2 seconds. */
  lemma {:induction false} TotalBackoffIsFibonacci(n: nat)
    requires n >= 1 && Fib(n - 1) <= MAX_DURATION_SECONDS
    ensures TotalBackoff(n - 1) == (Fib(n + 1) - 2) * SECOND
  {
    if n > 1 {
      FibGrows(n - 2, n - 1);
      TotalBackoffIsFibonacci(n - 1);
    }
  }

  datatype Config = Config(enabled: bool, url: string)

  datatype Delivery =
    | NotWanted
    | Delivered
    | Interrupted
    | GaveUp

  function MaxRetry(configured: int): nat {
    if configured <= 0 then DEFAULT_MAX_RETRY else configured
  }

  /** `sendOk(k)` and `waitOk(k)` say how the k-th send and the wait after it turn out. The loop
      stops at the first success; it gives up after exactly the configured number of failures, five
      unless that number is positive, having slept between them and not after the last. */
  method DispatchTransactionWebhookNow(cfg: Config, configuredMaxRetry: int, sendOk: nat -> bool, waitOk: nat -> bool)
    returns (result: Delivery, sends: nat, slept: int)
    ensures result.NotWanted? <==> !cfg.enabled || cfg.url == ""
    ensures result.NotWanted? ==> sends == 0 && slept == 0
    ensures !result.NotWanted? ==>
              && 1 <= sends <= (if configuredMaxRetry > 0 then configuredMaxRetry else 5)
              && (forall k :: 1 <= k < sends ==> !sendOk(k) && waitOk(k))
              && slept == TotalBackoff(sends - 1)
    ensures result.Delivered? ==> sendOk(sends)
    ensures result.Interrupted? ==>
              && !sendOk(sends) && !waitOk(sends)
              && sends < if configuredMaxRetry > 0 then configuredMaxRetry else 5
    ensures result.GaveUp? ==>
              !sendOk(sends) && sends == if configuredMaxRetry > 0 then configuredMaxRetry else 5
  {
    if !cfg.enabled || cfg.url == "" {
      return NotWanted, 0, 0;
    }
    var maxRetry := MaxRetry(configuredMaxRetry);
    sends, slept := 0, 0;
    var attempt := 1;
    while attempt <= maxRetry
      invariant 1 <= attempt <= maxRetry && sends == attempt - 1
      invariant forall k :: 1 <= k < attempt ==> !sendOk(k) && waitOk(k)
      invariant slept == TotalBackoff(attempt - 1)
      decreases maxRetry - attempt
    {
      sends := sends + 1;
      if sendOk(attempt) {
        return Delivered, sends, slept;
      }
      if attempt == maxRetry {
        break;
      }
      if !waitOk(attempt) {
        return Interrupted, sends, slept;
      }
      var wait := FibonacciRetryBackoff(attempt);
      slept := slept + wait;
      attempt := attempt + 1;
    }
    result := GaveUp;
  }
}
