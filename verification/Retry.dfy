/** Retryer.Do and its exponential delay, computed in 64-bit arithmetic.  Durations are nanoseconds. */
module Retry {
  import opened Common

  /** RetryMaxDelay. */
  const MAX_DELAY := 60_000_000_000
  /** RetryDelay and RetryAttempts. */
  const DEFAULT_DELAY := 5_000_000_000
  const DEFAULT_ATTEMPTS := 100

  const TWO63: int := 0x8000_0000_0000_0000
  const TWO64: int := 0x1_0000_0000_0000_0000

  function Pow2(n: nat): (p: nat)
    ensures p >= 1
  {
    if n == 0 then 1 else 2 * Pow2(n - 1)
  }

  /** Two's complement wrap-around of a 64-bit integer. */
  function Wrap64(x: int): (r: int)
    ensures -TWO63 <= r < TWO63 && (-TWO63 <= x < TWO63 ==> r == x)
  {
    (x + TWO63) % TWO64 - TWO63
  }

  /** The conversion of the floating-point power 2^(errCount-1): exact below 2^63, the minimal integer above it
      (what amd64 gives), zero for the fractional powers. */
  function Factor(errCount: int): int {
    if errCount < 1 then 0 else if errCount - 1 < 63 then Pow2(errCount - 1) else -TWO63
  }

  /** backoff. */
  function Backoff(baseDelay: int, errCount: int): int {
    var delay := Wrap64(baseDelay * Factor(errCount));
    if delay > MAX_DELAY then MAX_DELAY else delay
  }

  /** The delay the exponential rule promises. */
  function Ideal(baseDelay: int, errCount: int): int
    requires errCount >= 1
  {
    var delay := baseDelay * Pow2(errCount - 1);
    if delay > MAX_DELAY then MAX_DELAY else delay
  }

  lemma {:induction false} Pow2Grows(m: nat, n: nat)
    requires m <= n
    ensures Pow2(m) <= Pow2(n)
    decreases n
  {
    if m == n {
    } else {
      Pow2Grows(m, n - 1);
    }
  }

  lemma Pow2Of63()
    ensures Pow2(63) == TWO63
  {
    assert Pow2(8) == 256;
    assert Pow2(16) == 65536;
    assert Pow2(24) == 0x100_0000;
    assert Pow2(32) == 0x1_0000_0000;
    assert Pow2(40) == 0x100_0000_0000;
    assert Pow2(48) == 0x1_0000_0000_0000;
    assert Pow2(56) == 0x100_0000_0000_0000;
  }

  lemma ProductBounds(d: int, p: nat, bound: int)
    requires d > 0 && d * p < bound
    ensures p < bound
  {
    assert p <= d * p;
  }

  /** Without overflow the 64-bit delay is the ideal one. */
  lemma BackoffIsIdeal(baseDelay: int, errCount: int)
    requires baseDelay > 0 && errCount >= 1 && baseDelay * Pow2(errCount - 1) < TWO63
    ensures Backoff(baseDelay, errCount) == Ideal(baseDelay, errCount)
  {
    var p := Pow2(errCount - 1);
    ProductBounds(baseDelay, p, TWO63);
    if errCount - 1 >= 63 {
      Pow2Of63();
      Pow2Grows(63, errCount - 1);
      assert false;
    }
    assert Factor(errCount) == p && baseDelay * p >= 0;
  }

  /** Exactly when a single 64-bit delay is the ideal one: no overflow, or the product, modulo 2^64, happens to lie
      between the maximum and 2^63. */
  lemma BackoffIsIdealIff(baseDelay: int, errCount: int)
    requires baseDelay > 0 && errCount >= 1
    ensures Backoff(baseDelay, errCount) == Ideal(baseDelay, errCount) <==>
      var product := baseDelay * Pow2(errCount - 1);
      product < TWO63 || (errCount <= 63 && MAX_DELAY <= product % TWO64 < TWO63)
  {
    var product := baseDelay * Pow2(errCount - 1);
    if product < TWO63 {
      BackoffIsIdeal(baseDelay, errCount);
    } else if errCount > 63 {
      HugeFactor(baseDelay);
    } else {
      WrappedResidue(product);
    }
  }

  lemma WrappedResidue(product: int)
    ensures Wrap64(product) == if product % TWO64 < TWO63 then product % TWO64 else product % TWO64 - TWO64
  {
    var q, r := product / TWO64, product % TWO64;
    if r < TWO63 {
      WrapMultiple(q, r + TWO63);
    } else {
      WrapMultiple(q + 1, r - TWO63);
    }
  }

  /** Beyond the 63rd attempt the product is a multiple of 2^63, and wraps to zero or to the least integer. */
  lemma HugeFactor(baseDelay: int)
    ensures Wrap64(baseDelay * -TWO63) == if baseDelay % 2 == 0 then 0 else -TWO63
  {
    var half := baseDelay / 2;
    if baseDelay % 2 == 0 {
      assert baseDelay * -TWO63 + TWO63 == -half * TWO64 + TWO63;
      WrapMultiple(-half, TWO63);
    } else {
      assert baseDelay * -TWO63 + TWO63 == -half * TWO64 + 0;
      WrapMultiple(-half, 0);
    }
  }

  lemma WrapMultiple(q: int, r: int)
    requires 0 <= r < TWO64
    ensures (q * TWO64 + r) % TWO64 == r
  {
  }

  // ------------------------------------------------------------------ a whole schedule of delays

  /** The first product that overflows is below 2^64, because the one before it is below 2^63. */
  lemma {:induction false} FirstOverflow(baseDelay: int, attempts: int) returns (k: int)
    requires 0 < baseDelay < TWO63 && attempts >= 1 && baseDelay * Pow2(attempts - 1) >= TWO63
    ensures 1 <= k <= attempts && TWO63 <= baseDelay * Pow2(k - 1) < TWO64
    decreases attempts
  {
    if attempts == 1 {
      assert false;
    } else if baseDelay * Pow2(attempts - 2) >= TWO63 {
      k := FirstOverflow(baseDelay, attempts - 1);
    } else {
      assert baseDelay * Pow2(attempts - 1) == 2 * (baseDelay * Pow2(attempts - 2));
      k := attempts;
    }
  }

  lemma FirstOverflowIsNegative(baseDelay: int, errCount: int)
    requires baseDelay > 0 && errCount >= 1 && TWO63 <= baseDelay * Pow2(errCount - 1) < TWO64
    ensures Backoff(baseDelay, errCount) < 0
  {
    if errCount - 1 >= 63 {
      Pow2Of63();
      Pow2Grows(63, errCount - 1);
      ProductGrows(baseDelay, TWO63, Pow2(errCount - 1));
      assert baseDelay == 1;
    }
  }

  lemma NoOverflowBefore(baseDelay: int, errCount: int, attempts: int)
    requires baseDelay > 0 && 1 <= errCount <= attempts && baseDelay * Pow2(attempts - 1) < TWO63
    ensures Backoff(baseDelay, errCount) == Ideal(baseDelay, errCount) > 0
  {
    BackoffGrows(baseDelay, errCount, attempts);
    Pow2Grows(errCount - 1, attempts - 1);
    ProductGrows(baseDelay, Pow2(errCount - 1), Pow2(attempts - 1));
    BackoffIsIdeal(baseDelay, errCount);
  }

  /** Every delay of a schedule is the ideal one exactly when the last product does not overflow, and exactly then
      every delay is positive: at the first overflow the retryer does not wait. */
  lemma ScheduleIsIdealIff(baseDelay: int, attempts: int)
    requires 0 < baseDelay < TWO63 && attempts >= 1
    ensures (forall k :: 1 <= k <= attempts ==> Backoff(baseDelay, k) == Ideal(baseDelay, k))
       <==> baseDelay * Pow2(attempts - 1) < TWO63
    ensures (forall k :: 1 <= k <= attempts ==> 0 < Backoff(baseDelay, k))
       <==> baseDelay * Pow2(attempts - 1) < TWO63
  {
    if baseDelay * Pow2(attempts - 1) < TWO63 {
      forall k | 1 <= k <= attempts ensures Backoff(baseDelay, k) == Ideal(baseDelay, k) > 0 {
        NoOverflowBefore(baseDelay, k, attempts);
      }
    } else {
      var k := FirstOverflow(baseDelay, attempts);
      FirstOverflowIsNegative(baseDelay, k);
      assert Ideal(baseDelay, k) == MAX_DELAY;
    }
  }

  lemma ProductGrows(d: int, p: int, q: int)
    requires d > 0 && p <= q
    ensures d * p <= d * q
  {
  }

  /** Delays never decrease as long as nothing overflows. */
  lemma BackoffGrows(baseDelay: int, errCount: int, later: int)
    requires baseDelay > 0 && 1 <= errCount <= later && baseDelay * Pow2(later - 1) < TWO63
    ensures 0 < Backoff(baseDelay, errCount) <= Backoff(baseDelay, later) <= MAX_DELAY
  {
    Pow2Grows(errCount - 1, later - 1);
    ProductGrows(baseDelay, Pow2(errCount - 1), Pow2(later - 1));
    ProductGrows(baseDelay, 1, Pow2(errCount - 1));
    BackoffIsIdeal(baseDelay, errCount);
    BackoffIsIdeal(baseDelay, later);
  }

  /** With the default delay the delay before the 33rd attempt is negative, so that attempt follows at once; the
      next delay is the maximum again. */
  lemma DefaultDelayOverflows()
    ensures 32 < DEFAULT_ATTEMPTS && Backoff(DEFAULT_DELAY, 31) == MAX_DELAY && Backoff(DEFAULT_DELAY, 32) < 0
    ensures Backoff(DEFAULT_DELAY, 33) == MAX_DELAY
  {
    assert Pow2(8) == 256;
    assert Pow2(16) == 65536;
    assert Pow2(24) == 0x100_0000;
    assert Pow2(30) == 0x4000_0000 && Pow2(31) == 0x8000_0000;
    assert DEFAULT_DELAY * 0x8000_0000 == 10_737_418_240_000_000_000;
  }

  /** The first default delays: 5, 10, 20 and 40 seconds, and then a minute. */
  lemma DefaultDelays()
    ensures Backoff(DEFAULT_DELAY, 1) == 5_000_000_000 && Backoff(DEFAULT_DELAY, 2) == 10_000_000_000
    ensures Backoff(DEFAULT_DELAY, 3) == 20_000_000_000 && Backoff(DEFAULT_DELAY, 4) == 40_000_000_000
    ensures Backoff(DEFAULT_DELAY, 5) == 60_000_000_000 && DEFAULT_ATTEMPTS == 100
  {
    assert Pow2(0) == 1 && Pow2(1) == 2 && Pow2(2) == 4 && Pow2(3) == 8 && Pow2(4) == 16;
  }

  // ------------------------------------------------------------------ the retry loop

  datatype Error = Plain(message: int) | Abort(inner: Option<Error>) | Continue(message: int) | ContextEnded

  /** What one attempt returns (None is nil), and whether the context ends during the sleep after it. */
  datatype Attempt = Attempt(err: Option<Error>, contextEnds: bool)

  predicate StopsHere(a: Attempt) {
    a.err.None? || a.err.value.Abort? || a.contextEnds
  }

  /** The number of attempts Do makes: it stops at the first success, abort or ended context. */
  function Calls(attempts: int, script: nat -> Attempt, from: nat): (n: nat)
    ensures n <= (if from < attempts then attempts - from else 0)
    ensures forall i :: from <= i < from + n - 1 ==> !StopsHere(script(i))
    ensures n > 0 && n < attempts - from ==> StopsHere(script(from + n - 1))
    ensures from < attempts ==> n > 0
    decreases attempts - from
  {
    if from >= attempts then 0
    else if StopsHere(script(from)) then 1
    else 1 + Calls(attempts, script, from + 1)
  }

  /** Whoever calls until it must stop, calls that often. */
  lemma {:induction false} CallsAre(attempts: int, script: nat -> Attempt, from: nat, n: nat)
    requires from < attempts && 1 <= n <= attempts - from
    requires forall i :: from <= i < from + n - 1 ==> !StopsHere(script(i))
    requires n < attempts - from ==> StopsHere(script(from + n - 1))
    ensures Calls(attempts, script, from) == n
    decreases n
  {
    if n > 1 {
      assert !StopsHere(script(from));
      CallsAre(attempts, script, from + 1, n - 1);
    } else if n < attempts - from {
      assert StopsHere(script(from));
    }
  }

  /** The time.After delay: a negative duration fires at once. */
  function Sleep(baseDelay: int, errCount: int): (s: int)
    ensures 0 <= s <= MAX_DELAY
  {
    if Backoff(baseDelay, errCount) < 0 then 0 else Backoff(baseDelay, errCount)
  }

  /** The delays set for the first n failed attempts. */
  function TotalDelay(baseDelay: int, n: nat): int {
    if n == 0 then 0 else TotalDelay(baseDelay, n - 1) + Sleep(baseDelay, n)
  }

  lemma {:induction false} TotalDelayIsBounded(baseDelay: int, n: nat)
    ensures 0 <= TotalDelay(baseDelay, n) <= n * MAX_DELAY
  {
    if n == 0 {
    } else {
      TotalDelayIsBounded(baseDelay, n - 1);
    }
  }

  lemma UncappedSleep(baseDelay: int, n: nat)
    requires baseDelay > 0 && n > 0 && baseDelay * Pow2(n - 1) <= MAX_DELAY
    ensures Sleep(baseDelay, n) == baseDelay * Pow2(n - 1)
  {
    BackoffIsIdeal(baseDelay, n);
    ProductGrows(baseDelay, 1, Pow2(n - 1));
  }

  lemma DoubledSum(d: int, p: int)
    ensures d * (p - 1) + d * p == d * (2 * p - 1)
  {
  }

  /** The delays double until they reach the maximum. */
  lemma {:induction false} DelaysDouble(baseDelay: int, n: nat)
    requires baseDelay > 0 && (n > 0 ==> baseDelay * Pow2(n - 1) <= MAX_DELAY)
    ensures TotalDelay(baseDelay, n) == baseDelay * (Pow2(n) - 1)
  {
    if n == 0 {
      assert baseDelay * 0 == 0;
    } else {
      if n > 1 {
        ProductGrows(baseDelay, Pow2(n - 2), Pow2(n - 1));
      }
      DelaysDouble(baseDelay, n - 1);
      UncappedSleep(baseDelay, n);
      DoubledSum(baseDelay, Pow2(n - 1));
    }
  }

  /** At the maximum the delays stay, up to the first overflow; there the loop does not wait. */
  lemma DelaysAtTheMaximum(baseDelay: int, n: nat)
    requires baseDelay > 0 && baseDelay * Pow2(n) >= MAX_DELAY
    ensures baseDelay * Pow2(n) < TWO63 ==> TotalDelay(baseDelay, n + 1) == TotalDelay(baseDelay, n) + MAX_DELAY
    ensures TWO63 <= baseDelay * Pow2(n) < TWO64 ==> TotalDelay(baseDelay, n + 1) == TotalDelay(baseDelay, n)
  {
    if baseDelay * Pow2(n) < TWO63 {
      BackoffIsIdeal(baseDelay, n + 1);
    } else if baseDelay * Pow2(n) < TWO64 {
      FirstOverflowIsNegative(baseDelay, n + 1);
    }
  }

  /** An error after which the loop goes on, if its context does. */
  predicate MayRetry(err: Option<Error>) {
    err.Some? && !err.value.Abort?
  }

  /** Do, against an arbitrary script of attempt outcomes.  `delays` is the sum of the delays its timer was set
      to, of which the last one is cut short when the context ends. */
  method Do(delay: int, attempts: int, contextLive: bool, script: nat -> Attempt)
    returns (err: Option<Error>, calls: nat, delays: int)
    ensures !contextLive ==> calls == 0 && err == Some(ContextEnded) && delays == 0
    ensures contextLive && attempts <= 0 ==> calls == 0 && err == None && delays == 0
    ensures contextLive ==> calls == Calls(attempts, script, 0)
    // every call but the last failed without an abort, in a live context
    ensures forall i :: 0 <= i < calls - 1 ==>
      script(i).err.Some? && !script(i).err.value.Abort? && !script(i).contextEnds
    ensures contextLive && attempts >= 1 ==> 1 <= calls <= attempts
    // the last one is the attempts' last, or succeeded, aborted or met the end of the context
    ensures contextLive && calls < attempts ==>
      var last := script(calls - 1);
      last.err.None? || last.err.value.Abort? || last.contextEnds
    // its error is returned, or what it aborted with
    ensures contextLive && attempts >= 1 ==>
      var last := script(calls - 1).err;
      && (last.None? ==> err == None)
      && (last.Some? && !last.value.Abort? ==> err == last)
      && (last.Some? && last.value.Abort? ==> err == last.value.inner)
    ensures contextLive && attempts >= 1 ==>
      (err == None <==> script(calls - 1).err == None || script(calls - 1).err == Some(Abort(None)))
    ensures contextLive && attempts >= 1 ==>
      delays == TotalDelay(delay, if MayRetry(script(calls - 1).err) then calls else calls - 1)
  {
    err, calls, delays := None, 0, 0;
    if !contextLive {
      return Some(ContextEnded), 0, 0;
    }
    assert attempts <= 0 ==> Calls(attempts, script, 0) == 0;
    var i := 1;
    while i <= attempts
      invariant 1 <= i && calls == i - 1
      invariant attempts >= 1 ==> i <= attempts + 1
      invariant forall j :: 0 <= j < calls ==> MayRetry(script(j).err) && !script(j).contextEnds
      invariant err == if calls == 0 then None else script(calls - 1).err
      invariant delays == TotalDelay(delay, calls)
      invariant i > attempts ==> Calls(attempts, script, 0) == calls
      decreases attempts - i
    {
      var attempt := script(calls);
      calls := calls + 1;
      err := attempt.err;
      if StopsHere(attempt) || calls == attempts {
        CallsAre(attempts, script, 0, calls);
      }
      if err.None? {
        return None, calls, delays;
      }
      if err.value.Abort? {
        return err.value.inner, calls, delays;
      }
      delays := delays + Sleep(delay, i);
      if attempt.contextEnds {
        return err, calls, delays;
      }
      i := i + 1;
    }
  }
}
