/** One event through a handler with retries (internal/route/route.go, process and callHandler). */
module Retry {
  import opened Int64
  import opened Durations

  const BACKOFF_LIMIT_NS := 5 * SECOND_NS

  /** How one handler call ends. A panic is recovered and becomes a permanent error. */
  datatype Outcome = Success | PermanentError | TransientError | Panic

  /** How an event ends. `Cancelled` is the shutdown during a backoff; no counter records it. */
  datatype Fate = Ok | Permanent | Exhausted | Cancelled

  // ----- backoff arithmetic -----

  /** Go's `1 << n` on a 64-bit signed duration. */
  function ShiftOne(n: nat): int64
    ensures n < 63 ==> ShiftOne(n) == Pow2(n)
  {
    if n < 63 then
      Pow2Bound(n, 62);
      Pow2(n)
    else if n == 63 then MIN
    else 0
  }

  lemma {:induction false} Pow2Monotone(a: nat, b: nat)
    requires a <= b
    ensures Pow2(a) <= Pow2(b)
  {
    if a < b {
      Pow2Monotone(a, b - 1);
    }
  }

  lemma Pow2Bound(n: nat, m: nat)
    requires n <= m <= 62
    ensures Pow2(n) <= 0x4000_0000_0000_0000
  {
    Pow2Monotone(n, 62);
    Pow2Sixtytwo();
  }

  lemma Pow2Sixtytwo()
    ensures Pow2(62) == 0x4000_0000_0000_0000
  {
    assert Pow2(10) == 0x400;
    assert Pow2(20) == 0x10_0000;
    assert Pow2(30) == 0x4000_0000;
    assert Pow2(40) == 0x100_0000_0000;
    assert Pow2(50) == 0x4_0000_0000_0000;
    assert Pow2(60) == 0x1000_0000_0000_0000;
  }

  /** The delay after attempt `attempt`, with the multiplication wrapping as the program's does. */
  function BackoffNS(base: int64, attempt: nat): int64
    requires attempt >= 1
  {
    var b := Wrap(base * ShiftOne(attempt - 1));
    if b > BACKOFF_LIMIT_NS then BACKOFF_LIMIT_NS else b
  }

  /** The delays of a full retry sequence start non-negative and never shrink. */
  ghost predicate BackoffsGrow(base: int64, maxAttempts: nat) {
    && (forall k :: 1 <= k < maxAttempts ==> BackoffNS(base, k) >= 0)
    && (forall k :: 1 <= k < maxAttempts - 1 ==> BackoffNS(base, k) <= BackoffNS(base, k + 1))
  }

  lemma Doubling(base: int, k: nat)
    ensures base * Pow2(k + 1) == 2 * (base * Pow2(k))
  {
  }

  lemma {:induction false} ProductMonotone(base: int, a: nat, b: nat)
    requires a <= b && 0 < base
    ensures base * Pow2(a) <= base * Pow2(b)
    ensures base * Pow2(a) > 0
  {
    if a < b {
      ProductMonotone(base, a, b - 1);
      Doubling(base, b - 1);
    }
  }

  lemma WrapSmall(x: int)
    requires MIN <= x <= MAX
    ensures Wrap(x) == x
  {
  }

  lemma WrapAbove(x: int)
    requires MAX < x < MODULUS
    ensures Wrap(x) < 0
  {
  }

  /** Within range the delay is the doubled base, capped. */
  lemma BackoffInRange(base: int64, k: nat)
    requires 0 < base && k >= 1 && base * Pow2(k - 1) <= MAX
    ensures k - 1 < 63
    ensures BackoffNS(base, k) == if base * Pow2(k - 1) > BACKOFF_LIMIT_NS then BACKOFF_LIMIT_NS else base * Pow2(k - 1)
    ensures 0 < BackoffNS(base, k) <= BACKOFF_LIMIT_NS
  {
    ProductMonotone(base, 0, k - 1);
    if k - 1 >= 63 {
      ProductMonotone(1, 63, k - 1);
      Pow2Sixtytwo();
      assert Pow2(63) == 2 * Pow2(62);
      AtLeast(base, Pow2(k - 1));
    }
    WrapSmall(base * Pow2(k - 1));
  }

  lemma AtLeast(base: int, x: nat)
    requires base >= 1
    ensures base * x >= x
  {
  }

  /** The first product that leaves the range wraps to a negative delay. */
  lemma BackoffOverflows(base: int64, k: nat)
    requires 0 < base && k >= 2 && base * Pow2(k - 2) <= MAX < base * Pow2(k - 1)
    ensures BackoffNS(base, k) < 0
  {
    Doubling(base, k - 2);
    BackoffInRange(base, k - 1);
    if k - 1 == 63 {
      Pow2Sixtytwo();
      assert Pow2(61 + 1) == Pow2(62);
      if base >= 2 {
        Grows(base, Pow2(62));
      }
      assert base == 1;
      WrapSmall(MIN);
    } else {
      WrapAbove(base * Pow2(k - 1));
    }
  }

  lemma Grows(base: int, x: nat)
    requires base >= 2
    ensures base * x >= 2 * x
  {
  }

  lemma {:induction false} FirstOverflow(base: int64, n: nat) returns (k: nat)
    requires 0 < base && base * Pow2(n) > MAX
    ensures 1 <= k <= n && base * Pow2(k - 1) <= MAX < base * Pow2(k)
  {
    assert Pow2(0) == 1;
    assert n > 0;
    if base * Pow2(n - 1) > MAX {
      k := FirstOverflow(base, n - 1);
    } else {
      k := n;
    }
  }

  /** The delays grow, as documented, exactly when the largest product fits 64 bits. */
  lemma BackoffsGrowExactly(base: int64, maxAttempts: nat)
    requires 0 < base
    ensures BackoffsGrow(base, maxAttempts) <==> (maxAttempts <= 2 || base * Pow2(maxAttempts - 2) <= MAX)
  {
    if maxAttempts <= 2 {
      if maxAttempts == 2 {
        assert base * Pow2(0) == base;
        BackoffInRange(base, 1);
      }
    } else if base * Pow2(maxAttempts - 2) <= MAX {
      forall k | 1 <= k < maxAttempts ensures BackoffNS(base, k) >= 0 {
        ProductMonotone(base, k - 1, maxAttempts - 2);
        BackoffInRange(base, k);
      }
      forall k | 1 <= k < maxAttempts - 1 ensures BackoffNS(base, k) <= BackoffNS(base, k + 1) {
        ProductMonotone(base, k, maxAttempts - 2);
        ProductMonotone(base, k - 1, k);
        BackoffInRange(base, k);
        BackoffInRange(base, k + 1);
      }
    } else {
      var k := FirstOverflow(base, maxAttempts - 2);
      BackoffOverflows(base, k + 1);
      assert 1 <= k + 1 < maxAttempts;
    }
  }

  /** With the default base of 100 ms the 38th delay is negative, that is, no delay at all. */
  lemma DefaultBaseCollapses()
    ensures BackoffNS(100_000_000, 38) < 0
  {
    assert Pow2(10) == 0x400;
    assert Pow2(20) == 0x10_0000;
    assert Pow2(30) == 0x4000_0000;
    assert Pow2(36) == 0x10_0000_0000;
    assert Pow2(37) == 0x20_0000_0000;
    BackoffOverflows(100_000_000, 38);
  }

  // ----- the loop -----

  /** What the recover boundary hands to the loop: a panic reads as a permanent error. */
  function Recovered(o: Outcome): Outcome {
    if o == Panic then PermanentError else o
  }

  /** The delays slept before call number `calls`, in order. */
  function Backoffs(base: int64, calls: nat): seq<int64> {
    seq(calls, i requires 0 <= i < calls => BackoffNS(base, i + 1))
  }

  /** The first delay slept is the base, and each further one doubles it, up to five seconds. */
  lemma DelaysDouble(base: int64, calls: nat, i: nat)
    requires 0 < base && i < calls && base * Pow2(i) <= MAX
    ensures Backoffs(base, calls)[i] == if base * Pow2(i) > BACKOFF_LIMIT_NS then BACKOFF_LIMIT_NS else base * Pow2(i)
  {
    BackoffInRange(base, i + 1);
  }

  /** The time asleep: a negative delay returns at once, so it takes none and gives none back. */
  function Asleep(delays: seq<int64>): int {
    if delays == [] then 0
    else
      var d := delays[|delays| - 1];
      Asleep(delays[..|delays| - 1]) + if d > 0 then d else 0
  }

  /** However the arithmetic goes, the delays after `calls` failed calls take at most five seconds each. */
  lemma {:induction false} TotalSleep(base: int64, calls: nat)
    ensures 0 <= Asleep(Backoffs(base, calls)) <= BACKOFF_LIMIT_NS * calls
  {
    hide BackoffNS;
    if calls > 0 {
      TotalSleep(base, calls - 1);
      DelayIsCapped(base, calls);
      var delays := Backoffs(base, calls);
      assert delays[..calls - 1] == Backoffs(base, calls - 1) && delays[calls - 1] == BackoffNS(base, calls);
    }
  }

  lemma DelayIsCapped(base: int64, attempt: nat)
    requires attempt >= 1
    ensures BackoffNS(base, attempt) <= BACKOFF_LIMIT_NS
  {
  }

  lemma SleepWithin(base: int64, n: nat, m: nat)
    requires n <= m
    ensures Asleep(Backoffs(base, n)) <= BACKOFF_LIMIT_NS * m
  {
    TotalSleep(base, n);
  }

  /** How the first `calls` calls end. */
  function Outcomes(handler: nat -> Outcome, calls: nat): seq<Outcome> {
    seq(calls, i requires 0 <= i < calls => handler(i + 1))
  }

  /** Calls that end like this lead to this fate: all but the last fail for the moment, and the last is decisive, or
      was the last allowed, or is followed by a backoff that shutdown cuts. */
  ghost predicate Leads(h: seq<Outcome>, maxAttempts: nat, fate: Fate) {
    && 1 <= |h| <= maxAttempts
    && (forall i :: 0 <= i < |h| - 1 ==> h[i] == TransientError)
    && var err := Recovered(h[|h| - 1]);
       match fate
       case Ok => err == Success
       case Permanent => err == PermanentError
       case Exhausted => err == TransientError && |h| == maxAttempts
       case Cancelled => err == TransientError && |h| < maxAttempts
  }

  /** Run one event. `handler(a)` is how call `a` ends, `cancelled(a)` whether shutdown cuts the
      backoff after it. The event stops at the first call that is decisive, and only there. */
  method Process(handler: nat -> Outcome, cancelled: nat -> bool, maxAttempts: nat, base: int64)
    returns (fate: Fate, calls: nat, slept: seq<int64>, panics: nat)
    requires maxAttempts >= 1
    ensures Leads(Outcomes(handler, calls), maxAttempts, fate)
    ensures (forall a :: 1 <= a < calls ==> !cancelled(a)) && (fate == Cancelled ==> cancelled(calls))
    ensures slept == Backoffs(base, if fate == Cancelled then calls else calls - 1)
    ensures Asleep(slept) <= BACKOFF_LIMIT_NS * (maxAttempts - 1)
    ensures panics == if handler(calls) == Panic then 1 else 0
  {
    hide BackoffNS, Asleep;
    calls, slept, panics := 1, [], 0;
    while true
      invariant 1 <= calls <= maxAttempts && panics == 0
      invariant forall a :: 1 <= a < calls ==> handler(a) == TransientError && !cancelled(a)
      invariant slept == Backoffs(base, calls - 1)
      decreases maxAttempts - calls
    {
      SleepWithin(base, calls - 1, maxAttempts - 1);
      if handler(calls) == Panic {
        panics := 1;
      }
      var err := Recovered(handler(calls));
      if err == Success {
        return Ok, calls, slept, panics;
      } else if err == PermanentError {
        return Permanent, calls, slept, panics;
      } else if calls >= maxAttempts {
        return Exhausted, calls, slept, panics;
      }
      slept := slept + [BackoffNS(base, calls)];
      assert slept == Backoffs(base, calls);
      SleepWithin(base, calls, maxAttempts - 1);
      if cancelled(calls) {
        return Cancelled, calls, slept, panics;
      }
      calls := calls + 1;
    }
  }
}
