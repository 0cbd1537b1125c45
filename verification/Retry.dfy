/** Retry decision and backoff of pkg/net/webhookout/retry.go. Durations are nanoseconds in Go's 64-bit integers, so
    that an overflow would be a verification error. */
module Retry {
  import opened Wrappers

  newtype int64 = x: int | -0x8000_0000_0000_0000 <= x < 0x8000_0000_0000_0000

  function Min(a: int, b: int): int {
    if a < b then a else b
  }

  /** Retried at most up to the limit, and then for transport errors, 5xx, 408 and, if asked for, 429. */
  predicate ShouldRetry(status: int, failed: bool, attempt: int, maxRetries: int, retryOn429: bool) {
    if attempt >= maxRetries then false
    else if failed then true
    else if 500 <= status <= 599 then true
    else if retryOn429 && status == 429 then true
    else status == 408
  }

  /** The exponential delay that the comment in retry.go promises. */
  function Exponential(base: nat, attempt: int, limit: nat): nat {
    Min(base * Pow2(if attempt < 1 then 0 else attempt - 1), limit)
  }

  /** What the loop delivers: one nanosecond more in the single case that the delay would be one short of the limit
      after a doubling, because the loop compares with the truncated half of the limit. */
  function Delay(base: nat, attempt: int, limit: nat): nat {
    if attempt > 1 && base * Pow2(attempt - 1) == limit - 1 then limit else Exponential(base, attempt, limit)
  }

  lemma {:induction false} Pow2Monotone(m: nat, n: nat)
    requires m <= n
    ensures Pow2(m) <= Pow2(n)
  {
    if m == n {
    } else {
      Pow2Monotone(m, n - 1);
    }
  }

  lemma TimesMonotone(base: nat, m: nat, n: nat)
    requires m <= n
    ensures base * m <= base * n
  {
  }

  /** Once a half of the limit is reached, no later doubling falls short of the limit by more than one. */
  lemma PastHalf(base: nat, i: nat, attempt: nat, limit: nat)
    requires 1 <= i < attempt && base * Pow2(i - 1) >= limit / 2
    ensures Delay(base, attempt, limit) == limit
  {
    var d := base * Pow2(i - 1);
    Pow2Monotone(i, attempt - 1);
    TimesMonotone(base, Pow2(i), Pow2(attempt - 1));
    assert base * Pow2(i) == 2 * d;
  }

  /** The delay before jitter. Every doubling stays below the limit, so 64 bits are enough. */
  method BackoffDelay(attempt: int, base: int64, limit: int64) returns (d: int64)
    requires base >= 0 && limit >= 0
    ensures d as int == Delay(base as int, attempt, limit as int)
    ensures var exp := Exponential(base as int, attempt, limit as int);
            var short := attempt > 1 && base as int * Pow2(attempt - 1) == limit as int - 1;
            d as int == exp + if short then 1 else 0
  {
    var n := if attempt < 1 then 1 else attempt;
    d := base;
    var i := 1;
    while i < n
      invariant 1 <= i <= n && 0 <= d
      invariant d as int == base as int * Pow2(i - 1)
      invariant i > 1 ==> d as int <= limit as int - 2
      decreases n - i
    {
      if d >= limit / 2 {
        PastHalf(base as int, i, n, limit as int);
        d := limit;
        return;
      }
      DoubleStep(base as int, i);
      d := d * 2;
      i := i + 1;
    }
    if d > limit {
      d := limit;
    }
  }

  lemma DoubleStep(base: nat, i: nat)
    requires i >= 1
    ensures base * Pow2(i) == 2 * (base * Pow2(i - 1))
  {
  }

  /** Exactly when the code delays longer than the exponential rule, and then by one nanosecond. */
  lemma DelayExactly(base: nat, attempt: int, limit: nat)
    ensures Delay(base, attempt, limit) == Exponential(base, attempt, limit) <==>
            !(attempt > 1 && base * Pow2(attempt - 1) == limit - 1)
    ensures Delay(base, attempt, limit) <= Exponential(base, attempt, limit) + 1
  {
  }

  /** A base of 1 ns and a limit of 3 ns: the second attempt waits 3 ns where the rule says 2. */
  lemma OneTooLong()
    ensures Delay(1, 2, 3) == 3 && Exponential(1, 2, 3) == 2
  {
    assert Pow2(1) == 2 * Pow2(0);
  }

  /** An even limit, such as any whole number of milliseconds, is always met exactly. */
  lemma EvenLimitIsExact(base: nat, attempt: int, limit: nat)
    requires limit % 2 == 0
    ensures Delay(base, attempt, limit) == Exponential(base, attempt, limit)
  {
    if attempt > 1 {
      DoubleStep(base, attempt - 1);
    }
  }

  /** Later attempts never wait less, and no attempt more than the limit. */
  lemma DelayMonotone(base: nat, attempt: int, attempt': int, limit: nat)
    requires attempt <= attempt'
    ensures Delay(base, attempt, limit) <= Delay(base, attempt', limit) <= limit
  {
    var m, n := if attempt < 1 then 0 else attempt - 1, if attempt' < 1 then 0 else attempt' - 1;
    Pow2Monotone(m, n);
    TimesMonotone(base, Pow2(m), Pow2(n));
  }

  /** `NextBackoff`: the delay scaled by a jitter in [0.5, 1.5) and truncated. */
  method NextBackoff(now: int, attempt: int, base: int64, limit: int64, jitter: real) returns (at: int)
    requires base >= 0 && limit >= 0 && 0.5 <= jitter < 1.5
    ensures var d := Delay(base as int, attempt, limit as int);
      now + d / 2 <= at <= now + d + d / 2
    ensures var d := Delay(base as int, attempt, limit as int);
      (at - now) as real <= d as real * jitter < (at - now + 1) as real
  {
    hide Delay, Exponential;
    var d := BackoffDelay(attempt, base, limit);
    JitterBounds(d as int, jitter);
    var wait := (d as real * jitter).Floor;
    at := now + wait;
    assert at - now == wait;
  }

  lemma Product(x: real, y: real)
    requires x >= 0.0 && y >= 0.0
    ensures x * y >= 0.0
  {
  }

  lemma JitterBounds(d: nat, jitter: real)
    requires 0.5 <= jitter < 1.5
    ensures var wait := (d as real * jitter).Floor;
            && d / 2 <= wait <= d + d / 2
            && wait as real <= d as real * jitter < (wait + 1) as real
  {
    var x := d as real;
    Product(x, jitter - 0.5);
    Product(x, 1.5 - jitter);
    assert x * (jitter - 0.5) == x * jitter - x * 0.5 && x * (1.5 - jitter) == x * 1.5 - x * jitter;
  }
}
