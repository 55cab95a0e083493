/** Bounded retries with exponential backoff. Durations are whole milliseconds. */
module Retry {
  import opened Types

  const MAX_U64 := U64 - 1
  const U32 := 0x1_0000_0000

  predicate IsRetryable(e: DownloadError) {
    match e
    case HttpStatus(code, _, _) => code == 429 || code == 503
    case Timeout => true
    case ConnectionFailed(_) => true
    case _ => false
  }

  function Pow2(n: nat): nat {
    if n == 0 then 1 else 2 * Pow2(n - 1)
  }

  function Min(a: nat, b: nat): nat {
    if a <= b then a else b
  }

  /** `1u64.checked_shl(attempt)`, with the maximum standing in for an overflowing shift. */
  function Multiplier(attempt: nat): nat {
    if attempt < 64 then Pow2(attempt) else MAX_U64
  }

  /** The configured base delay as the code uses it: cast from 128 to 64 bits. */
  function Truncated(base: nat): nat {
    base % U64
  }

  /** The delay before jitter. */
  function BaseMillis(attempt: nat, base: nat): nat {
    Min(Truncated(base) * Multiplier(attempt), MAX_U64)
  }

  /** Jitter derived from the clock's sub-second nanoseconds with wrapping arithmetic. */
  function Jitter(attempt: nat, baseMillis: nat, nanos: nat): nat {
    var range := baseMillis / 2;
    if range > 0 then ((nanos * 6364136223846793005) % U64 + attempt) % U64 % range else 0
  }

  function ComputeBackoff(attempt: nat, base: nat, retryAfter: Option<nat>, nanos: nat): nat {
    match retryAfter
    case Some(delay) => delay
    case None =>
      var baseMillis := BaseMillis(attempt, base);
      Min(baseMillis + Jitter(attempt, baseMillis, nanos), MAX_U64)
  }

  // ---------------------------------------------------------------- backoff arithmetic

  lemma {:induction false} Pow2Doubles(a: nat, b: nat)
    requires a <= b
    ensures Pow2(a) <= Pow2(b)
    decreases b - a
  {
    if a < b {
      Pow2Doubles(a, b - 1);
    }
  }

  lemma Pow2Of64()
    ensures Pow2(64) == U64
  {
    assert Pow2(4) == 16;
    Pow2Sum(4, 4);
    Pow2Sum(8, 8);
    Pow2Sum(16, 16);
    Pow2Sum(32, 32);
  }

  lemma {:induction false} Pow2Sum(a: nat, b: nat)
    ensures Pow2(a + b) == Pow2(a) * Pow2(b)
  {
    if b > 0 {
      Pow2Sum(a, b - 1);
    }
  }

  /** The nearest number that fits in 64 bits. */
  ghost function Saturated(n: nat): nat {
    if n < 0x1_0000_0000_0000_0000 then n else 0xFFFF_FFFF_FFFF_FFFF
  }

  /** Saturating the shift and then the product is saturating the exact product. */
  lemma SaturatedProduct(b: nat, attempt: nat)
    ensures Min(b * Multiplier(attempt), MAX_U64) == Min(b * Pow2(attempt), MAX_U64)
  {
    if attempt >= 64 && b > 0 {
      Pow2Of64();
      Pow2Doubles(64, attempt);
      MulMonotone(1, b, Pow2(attempt));
      MulMonotone(1, b, MAX_U64);
    }
  }

  /**
    Before jitter the delay is the truncated base times 2^attempt, saturated, for every attempt number.
    It is that of the configured base if and only if the cast loses nothing or the delay saturates anyway.
  */
  lemma BackoffSaturates(attempt: nat, base: nat)
    ensures BaseMillis(attempt, base) == Saturated(base % 0x1_0000_0000_0000_0000 * Pow2(attempt))
    ensures BaseMillis(attempt, base) == Saturated(base * Pow2(attempt))
            <==> base < 0x1_0000_0000_0000_0000
                 || base % 0x1_0000_0000_0000_0000 * Pow2(attempt) >= 0xFFFF_FFFF_FFFF_FFFF
  {
    hide Pow2, Multiplier;
    SaturatedProduct(Truncated(base), attempt);
    if base >= U64 {
      Pow2Positive(attempt);
      MulAtLeast(base, Pow2(attempt));
    }
  }

  lemma MulAtLeast(a: nat, b: nat)
    requires b >= 1
    ensures a * b >= a
  {
    MulMonotone(1, b, a);
  }

  lemma MulMonotone(a: nat, b: nat, c: nat)
    requires a <= b
    ensures a * c <= b * c
  {
  }

  lemma MulDistributes(a: int, b: int, c: int)
    ensures a * (b + c) == a * b + a * c
  {
  }

  /** Adding less than half of `base` to `base`. */
  lemma HalfMore(base: nat, exact: nat, jitter: nat)
    requires base == Saturated(exact) && (base >= 2 ==> jitter < base / 2) && (base < 2 ==> jitter == 0)
    ensures base <= base + jitter && 2 * (base + jitter) <= 3 * exact && (exact >= 1 ==> base + jitter < 2 * exact)
  {
  }

  /** With jitter, the delay is at least the base delay and, unsaturated, below 1.5 times it. */
  lemma JitterRange(attempt: nat, base: nat, nanos: nat)
    ensures var d := ComputeBackoff(attempt, base, None, nanos);
            var exact := base % 0x1_0000_0000_0000_0000 * Pow2(attempt);
            && Saturated(exact) <= d <= 0xFFFF_FFFF_FFFF_FFFF
            && 2 * d <= 3 * exact
            && (exact >= 1 ==> d < 2 * exact)
  {
    BackoffSaturates(attempt, base);
    var exact := base % 0x1_0000_0000_0000_0000 * Pow2(attempt);
    var baseMillis := BaseMillis(attempt, base);
    hide BaseMillis, Pow2;
    HalfMore(baseMillis, exact, Jitter(attempt, baseMillis, nanos));
    hide Jitter;
  }

  /** The same for the base as the code has it. */
  lemma JitterBounds(attempt: nat, base: nat, nanos: nat)
    ensures var d := ComputeBackoff(attempt, base, None, nanos);
            var exact := Truncated(base) * Pow2(attempt);
            && Saturated(exact) <= d <= MAX_U64
            && 2 * d <= 3 * exact
            && (exact >= 1 ==> d < 2 * exact)
  {
    hide ComputeBackoff, Pow2;
    JitterRange(attempt, base, nanos);
  }

  lemma ModAdd(a: nat, b: nat)
    ensures (a % U64 + b) % U64 == (a + b) % U64
  {
    assert a + b == U64 * (a / U64) + (a % U64 + b);
    ModShift(a % U64 + b, a / U64);
  }

  lemma ModShift(a: nat, k: nat)
    ensures (U64 * k + a) % U64 == a % U64
  {
  }

  /** The jitter before it is reduced to its range: the clock's nanoseconds scrambled modulo 2^64. */
  lemma JitterIs(attempt: nat, baseMillis: nat, nanos: nat)
    requires baseMillis >= 2
    ensures Jitter(attempt, baseMillis, nanos)
            == (nanos * 6364136223846793005 + attempt) % 0x1_0000_0000_0000_0000 % (baseMillis / 2)
  {
    ModAdd(nanos * 6364136223846793005, attempt);
  }

  /** A delay the server asks for is taken as it is; any other is the saturated base plus the jitter. */
  lemma BackoffIs(attempt: nat, base: nat, nanos: nat, delay: nat)
    ensures ComputeBackoff(attempt, base, Some(delay), nanos) == delay
    ensures var exact := Saturated(base % 0x1_0000_0000_0000_0000 * Pow2(attempt));
            var seed := (nanos * 6364136223846793005 + attempt) % 0x1_0000_0000_0000_0000;
            ComputeBackoff(attempt, base, None, nanos)
            == Saturated(if exact < 2 then exact else exact + seed % (exact / 2))
  {
    BackoffSaturates(attempt, base);
    var baseMillis := BaseMillis(attempt, base);
    hide BaseMillis, Pow2;
    if baseMillis >= 2 {
      JitterIs(attempt, baseMillis, nanos);
      hide Jitter;
    }
  }

  /**
    Whatever the jitter, without Retry-After the delays never decrease, and they strictly increase
    while the truncated base is positive and the next doubled base still fits in 64 bits.
  */
  lemma BackoffGrows(attempt: nat, base: nat, nanos: nat, nanos': nat)
    ensures ComputeBackoff(attempt, base, None, nanos) <= ComputeBackoff(attempt + 1, base, None, nanos')
    ensures Truncated(base) >= 1 && Truncated(base) * Pow2(attempt + 1) <= MAX_U64 ==>
              ComputeBackoff(attempt, base, None, nanos) < ComputeBackoff(attempt + 1, base, None, nanos')
  {
    hide ComputeBackoff, Truncated;
    var exact := Truncated(base) * Pow2(attempt);
    assert Truncated(base) * Pow2(attempt + 1) == 2 * exact;
    JitterBounds(attempt, base, nanos);
    JitterBounds(attempt + 1, base, nanos');
    if Truncated(base) >= 1 {
      Pow2Positive(attempt);
      MulMonotone(1, Truncated(base), Pow2(attempt));
    }
  }

  lemma {:induction false} Pow2Positive(n: nat)
    ensures Pow2(n) >= 1
  {
    if n > 0 {
      Pow2Positive(n - 1);
    }
  }

  function Sum(xs: seq<nat>): nat {
    if xs == [] then 0 else Sum(xs[..|xs| - 1]) + xs[|xs| - 1]
  }

  /** The delays of a run of `n` retries without Retry-After and without saturation. */
  ghost predicate PureBackoff(delays: seq<nat>, base: nat, nanos: nat -> nat) {
    forall i :: 0 <= i < |delays| ==> delays[i] == ComputeBackoff(i, base, None, nanos(i)) && Truncated(base) * Pow2(i) <= MAX_U64
  }

  /** Their sum lies between b * (2^n - 1) and one and a half times that, for the truncated base b. */
  lemma {:induction false} TotalBackoff(delays: seq<nat>, base: nat, nanos: nat -> nat)
    requires PureBackoff(delays, base, nanos)
    ensures Truncated(base) * (Pow2(|delays|) - 1) <= Sum(delays)
    ensures 2 * Sum(delays) <= 3 * (Truncated(base) * (Pow2(|delays|) - 1))
  {
    hide ComputeBackoff, Truncated;
    var n := |delays|;
    if n > 0 {
      var last, exact := delays[n - 1], Truncated(base) * Pow2(n - 1);
      assert exact <= last && 2 * last <= 3 * exact by {
        JitterBounds(n - 1, base, nanos(n - 1));
      }
      TotalBackoff(delays[..n - 1], base, nanos);
      BackoffStep(Truncated(base), Pow2(n - 1), Sum(delays[..n - 1]), last);
      hide Pow2;
    }
  }

  lemma BackoffStep(b: nat, p: nat, sum: nat, last: nat)
    requires b * (p - 1) <= sum && 2 * sum <= 3 * (b * (p - 1))
    requires b * p <= last && 2 * last <= 3 * (b * p)
    ensures b * (2 * p - 1) <= sum + last && 2 * (sum + last) <= 3 * (b * (2 * p - 1))
  {
    MulDistributes(b, p - 1, p);
  }

  // ---------------------------------------------------------------- the retry loop

  function RetryAfterOf(e: DownloadError): Option<nat> {
    if e.HttpStatus? then e.retryAfter else None
  }

  /** A failure worth another try: a timeout, a lost connection, or an HTTP status of 429 or 503. */
  ghost predicate Transient<T>(r: Result<T, DownloadError>) {
    && r.Err?
    && match r.error
       case Timeout => true
       case ConnectionFailed(_) => true
       case HttpStatus(code, _, _) => code == 429 || code == 503
       case TlsError(_) => false
       case WriteError(_) => false
       case ValidationFailed(_) => false
       case DnsResolutionFailed(_) => false
       case TooManyRedirects(_) => false
  }

  /** `n` is where the loop stops: every call before it failed transiently, and it had to stop there. */
  ghost predicate StopsAt<T(!new)>(op: nat -> Result<T, DownloadError>, maxRetries: nat, n: nat) {
    && n <= maxRetries
    && (forall i :: 0 <= i < n ==> Transient(op(i)))
    && (n == maxRetries || !Transient(op(n)))
  }

  /** There is only one such place, so the contract of the loop determines its result. */
  lemma StopsOnce<T(!new)>(op: nat -> Result<T, DownloadError>, maxRetries: nat, m: nat, n: nat)
    requires StopsAt(op, maxRetries, m) && StopsAt(op, maxRetries, n)
    ensures m == n
  {
    assert m < n ==> Transient(op(m));
    assert n < m ==> Transient(op(n));
  }

  /** After failure `i` the loop sleeps as long as the server asked for, or else the backoff. */
  ghost predicate SleepsAfter<T>(r: Result<T, DownloadError>, delay: nat, i: nat, base: nat, nanos: nat) {
    && r.Err?
    && match r.error
       case HttpStatus(_, _, Some(asked)) => delay == asked
       case _ => delay == ComputeBackoff(i, base, None, nanos)
  }

  /**
    `op(i)` is what the i-th call of the operation returns. The loop makes one call more than it
    reports retries, returns the last call's result, and sleeps between calls.
  */
  method WithRetry<T(!new)>(maxRetries: nat, base: nat, op: nat -> Result<T, DownloadError>, nanos: nat -> nat)
    returns (result: Result<T, DownloadError>, retries: nat, calls: nat, delays: seq<nat>)
    requires maxRetries < U32
    ensures StopsAt(op, maxRetries, retries) && result == op(retries) && calls == retries + 1
    ensures |delays| == retries
    ensures forall i :: 0 <= i < retries ==> SleepsAfter(op(i), delays[i], i, base, nanos(i))
  {
    var attempt := 0;
    calls, delays := 0, [];
    while true
      invariant attempt <= maxRetries && calls == attempt && |delays| == attempt
      invariant forall i :: 0 <= i < attempt ==> Transient(op(i))
      invariant forall i :: 0 <= i < attempt ==> SleepsAfter(op(i), delays[i], i, base, nanos(i))
      decreases maxRetries - attempt
    {
      result := op(calls);
      calls := calls + 1;
      match result
      case Ok(_) => return result, attempt, calls, delays;
      case Err(e) =>
        if !IsRetryable(e) || attempt >= maxRetries {
          return result, attempt, calls, delays;
        }
        delays := delays + [ComputeBackoff(attempt, base, RetryAfterOf(e), nanos(attempt))];
        attempt := attempt + 1;
    }
  }
}
