/**
 * `RpcRetryHandler`: run an operation, and after each exception wait and run
 * it again, up to `maxRetries` retries, doubling the wait each time when
 * exponential backoff is on.
 */
module Retry {
  import opened Wrappers
  import opened JavaLang

  /** How one call of the operation ended. */
  datatype Outcome<T> = Returned(value: T) | Threw(error: Exception)

  /** A whole `execute`: how it ended, the retry counts the operation was called with, and the waits in between. */
  datatype Run<T> = Run(outcome: Outcome<T>, calls: seq<int>, waits: seq<Int64>)

  /** `calls` and `waits` in front of what a run does from then on. */
  function Then<T>(calls: seq<int>, waits: seq<Int64>, r: Run<T>): Run<T>
  {
    Run(r.outcome, calls + r.calls, waits + r.waits)
  }

  lemma ThenAppends<T>(calls: seq<int>, waits: seq<Int64>, o: Outcome<T>, k: int, ws: seq<Int64>)
    ensures Then(calls, waits, Run(o, [k], ws)) == Run(o, calls + [k], waits + ws)
  {
  }

  lemma ThenAssociates<T>(calls: seq<int>, waits: seq<Int64>, k: int, w: Int64, r: Run<T>)
    ensures Then(calls, waits, Then([k], [w], r)) == Then(calls + [k], waits + [w], r)
  {
    assert calls + ([k] + r.calls) == (calls + [k]) + r.calls;
    assert waits + ([w] + r.waits) == (waits + [w]) + r.waits;
  }

  function Pow2(e: nat): (p: nat)
    ensures p >= 1
  {
    if e == 0 then 1 else 2 * Pow2(e - 1)
  }

  /**
   * `(long) Math.pow(2, e)`: exact while 2^e fits in a `long`; from 2^63 on
   * the double is too large and the cast saturates at `Long.MAX_VALUE`.
   */
  function PowerOfTwoAsLong(e: nat): (r: Int64)
    ensures e <= 62 ==> r == Pow2(e)
    ensures e >= 63 ==> r == LONG_MAX
  {
    if e <= 62 then
      Pow2Bound(e);
      Pow2(e)
    else LONG_MAX
  }

  lemma Pow2Bound(e: nat)
    requires e <= 62
    ensures Pow2(e) <= 0x4000_0000_0000_0000
  {
    Pow2Monotone(e, 62);
    Pow2Value53();
    Pow2Add(53, 9);
  }

  lemma {:induction false} Pow2Monotone(a: nat, b: nat)
    requires a <= b
    ensures Pow2(a) <= Pow2(b)
    decreases b
  {
    if a < b {
      Pow2Monotone(a, b - 1);
    }
  }

  /** What the interrupted sleep throws: RuntimeException "重试被中断" caused by the InterruptedException. */
  const INTERRUPTED: Exception :=
    Exception(RuntimeException, Some("重试被中断"), Some(Exception(InterruptedException, Some("sleep interrupted"), None)))

  /** `throw lastException` while `lastException` is still null. */
  const THROWN_NULL: Exception := Exception(NullPointerException, None, None)

  class RpcRetryHandler {
    const maxRetries: Int32
    const retryInterval: Int64
    const useExponentialBackoff: bool

    /** `new RpcRetryHandler()`: three retries, one second apart, with backoff. */
    constructor Default()
      ensures maxRetries == 3 && retryInterval == 1000 && useExponentialBackoff
    {
      maxRetries := 3;
      retryInterval := 1000;
      useExponentialBackoff := true;
    }

    constructor (maxRetries: Int32, retryInterval: Int64, useExponentialBackoff: bool)
      ensures this.maxRetries == maxRetries && this.retryInterval == retryInterval
      ensures this.useExponentialBackoff == useExponentialBackoff
    {
      this.maxRetries := maxRetries;
      this.retryInterval := retryInterval;
      this.useExponentialBackoff := useExponentialBackoff;
    }

    /** The wait before retry number `retryCount` (1 for the first retry), in `long` arithmetic. */
    function Interval(retryCount: nat): (r: Int64)
      requires retryCount >= 1
      ensures !useExponentialBackoff || retryCount == 1 ==> r == retryInterval
      ensures retryInterval == 0 ==> r == 0
    {
      if useExponentialBackoff then WrapLong(retryInterval * PowerOfTwoAsLong(retryCount - 1))
      else retryInterval
    }

    /**
     * Whether the wait before retry `retryCount` throws InterruptedException:
     * `interrupted(retryCount)` says whether the thread is interrupted then,
     * but `TimeUnit.sleep` returns at once, without looking at the interrupt,
     * when the wait is zero or negative.
     */
    predicate SleepInterrupted(interrupted: int -> bool, retryCount: nat)
      requires retryCount >= 1
    {
      Interval(retryCount) > 0 && interrupted(retryCount)
    }

    /**
     * What `execute` does from the call with retry count `k` on:
     * `callback(k)` is the operation's outcome for that count and
     * `interrupted` is consulted for each wait, through `SleepInterrupted`.
     */
    function RunFrom<T>(callback: int -> Outcome<T>, interrupted: int -> bool, k: nat): (r: Run<T>)
      requires k <= maxRetries
      ensures |r.calls| >= 1 && r.calls[0] == k
      decreases maxRetries - k
    {
      match callback(k)
      case Returned(v) => Run(Returned(v), [k], [])
      case Threw(e) =>
        if k + 1 > maxRetries then Run(Threw(e), [k], [])
        else if SleepInterrupted(interrupted, k + 1) then Run(Threw(INTERRUPTED), [k], [Interval(k + 1)])
        else Then([k], [Interval(k + 1)], RunFrom(callback, interrupted, k + 1))
    }

    /** The whole of `execute(callback)`. */
    function Spec<T>(callback: int -> Outcome<T>, interrupted: int -> bool): (r: Run<T>)
      ensures r.calls == [] <==> maxRetries < 0
      ensures r.calls != [] ==> r.calls[0] == 0 && |r.calls| <= maxRetries + 1
    {
      if maxRetries < 0 then Run(Threw(THROWN_NULL), [], [])
      else
        RunFromShape(callback, interrupted, 0);
        RunFrom(callback, interrupted, 0)
    }

    /** `execute(retryCallback)`. */
    method Execute<T>(callback: int -> Outcome<T>, interrupted: int -> bool)
      returns (outcome: Outcome<T>, calls: seq<int>, waits: seq<Int64>)
      ensures Run(outcome, calls, waits) == Spec(callback, interrupted)
    {
      var retryCount: nat := 0;
      calls, waits := [], [];
      while retryCount <= maxRetries
        invariant retryCount == 0 || retryCount <= maxRetries
        invariant retryCount == 0 ==> calls == [] && waits == []
        invariant retryCount <= maxRetries ==>
          Spec(callback, interrupted) == Then(calls, waits, RunFrom(callback, interrupted, retryCount))
        decreases maxRetries - retryCount
      {
        ghost var k, before, waited := retryCount, calls, waits;
        var r := callback(retryCount);
        calls := calls + [retryCount];
        if r.Returned? {
          ThenAppends(before, waited, r, k, []);
          return r, calls, waits;
        }
        retryCount := retryCount + 1;
        if retryCount > maxRetries {
          ThenAppends<T>(before, waited, Threw(r.error), k, []);
          return Threw(r.error), calls, waits;
        }
        var interval := retryInterval;
        if useExponentialBackoff {
          interval := WrapLong(retryInterval * PowerOfTwoAsLong(retryCount - 1));
        }
        assert interval == Interval(retryCount);
        waits := waits + [interval];
        if interval > 0 && interrupted(retryCount) {
          ThenAppends<T>(before, waited, Threw(INTERRUPTED), k, [interval]);
          return Threw(INTERRUPTED), calls, waits;
        }
        ThenAssociates(before, waited, k, interval, RunFrom(callback, interrupted, retryCount));
      }
      // Only a negative maxRetries gets here, before any call: lastException is still null.
      outcome := Threw(THROWN_NULL);
    }

    /**
     * The shape of a run from count `k`: the operation is called with
     * `k, k + 1, ...` in turn, never past `maxRetries`, and before each retry
     * `j` the handler waits `Interval(j)`. Every call but the last threw.
     */
    lemma {:induction false} RunFromShape<T>(callback: int -> Outcome<T>, interrupted: int -> bool, k: nat)
      requires k <= maxRetries
      ensures k + |RunFrom(callback, interrupted, k).calls| <= maxRetries + 1
      ensures forall i :: 0 <= i < |RunFrom(callback, interrupted, k).calls| ==>
        RunFrom(callback, interrupted, k).calls[i] == k + i
      ensures forall j :: k <= j < k + |RunFrom(callback, interrupted, k).calls| - 1 ==> callback(j).Threw?
      ensures |RunFrom(callback, interrupted, k).calls| - 1 <= |RunFrom(callback, interrupted, k).waits|
      ensures |RunFrom(callback, interrupted, k).waits| <= |RunFrom(callback, interrupted, k).calls|
      ensures forall i :: 0 <= i < |RunFrom(callback, interrupted, k).waits| ==>
        RunFrom(callback, interrupted, k).waits[i] == Interval(k + i + 1)
      decreases maxRetries - k
    {
      if callback(k).Threw? && k + 1 <= maxRetries && !SleepInterrupted(interrupted, k + 1) {
        RunFromShape(callback, interrupted, k + 1);
      }
    }

    /**
     * How a run ends: with the value of the first call that returned, or
     * with the last call's exception once the retries are used up, or with
     * the interruption of a wait; nothing else.
     */
    lemma {:induction false} RunFromEnd<T>(callback: int -> Outcome<T>, interrupted: int -> bool, k: nat)
      requires k <= maxRetries
      ensures var r := RunFrom(callback, interrupted, k);
        var last := k + |r.calls| - 1;
        && (r.outcome.Returned? ==> callback(last) == r.outcome && |r.waits| == |r.calls| - 1)
        && (r.outcome.Threw? ==>
              || (last == maxRetries && callback(last) == r.outcome && |r.waits| == |r.calls| - 1)
              || (last < maxRetries && r.outcome == Threw(INTERRUPTED) && |r.waits| == |r.calls|
                  && callback(last).Threw? && Interval(last + 1) > 0 && interrupted(last + 1)))
      decreases maxRetries - k
    {
      if callback(k).Threw? && k + 1 <= maxRetries && !SleepInterrupted(interrupted, k + 1) {
        RunFromEnd(callback, interrupted, k + 1);
      }
    }

    /**
     * An operation that always throws, with no interruption, is called once
     * and retried `maxRetries` times, and `execute` rethrows the last
     * exception.
     */
    lemma {:induction false} AlwaysFailing<T>(callback: int -> Outcome<T>, interrupted: int -> bool, k: nat)
      requires k <= maxRetries
      requires forall j :: k <= j <= maxRetries ==> callback(j).Threw?
      requires forall j :: k < j <= maxRetries ==> !interrupted(j)
      ensures |RunFrom(callback, interrupted, k).calls| == maxRetries - k + 1
      ensures RunFrom(callback, interrupted, k).outcome == callback(maxRetries)
      decreases maxRetries - k
    {
      if k < maxRetries {
        AlwaysFailing(callback, interrupted, k + 1);
      }
    }

    /**
     * With a zero interval every wait is zero, with or without backoff, so
     * an interrupt never cuts a run short: the run is the one without any
     * interrupt.
     */
    lemma {:induction false} ZeroIntervalIgnoresInterrupts<T>(callback: int -> Outcome<T>, interrupted: int -> bool, k: nat)
      requires k <= maxRetries && retryInterval == 0
      ensures RunFrom(callback, interrupted, k) == RunFrom(callback, _ => false, k)
      decreases maxRetries - k
    {
      if callback(k).Threw? && k + 1 <= maxRetries {
        assert Interval(k + 1) == 0;
        ZeroIntervalIgnoresInterrupts(callback, interrupted, k + 1);
      }
    }

    /** A negative `maxRetries` never calls the operation, and `execute` ends in `throw null`. */
    lemma NegativeRetriesThrowNull<T>(callback: int -> Outcome<T>, interrupted: int -> bool)
      requires maxRetries < 0
      ensures Spec(callback, interrupted).calls == []
      ensures Spec(callback, interrupted).outcome == Threw(THROWN_NULL)
    {
    }

    /** With backoff, each wait is twice the one before, as long as the product fits in a `long`. */
    lemma BackoffDoubles(retryCount: nat)
      requires useExponentialBackoff && retryCount >= 1
      requires retryCount <= 62
      requires LONG_MIN <= retryInterval * Pow2(retryCount) <= LONG_MAX
      ensures LONG_MIN <= retryInterval * Pow2(retryCount - 1) <= LONG_MAX
      ensures Interval(retryCount + 1) == 2 * Interval(retryCount)
    {
      var p := Pow2(retryCount - 1);
      assert Pow2(retryCount) == 2 * p;
      assert retryInterval * Pow2(retryCount) == 2 * (retryInterval * p);
    }
  }

  /**
   * With the default settings and an operation that always throws, `execute`
   * calls it with retry counts 0, 1, 2 and 3, waits 1, 2 and 4 seconds in
   * between, and rethrows the fourth exception.
   */
  lemma DefaultSchedule<T>(h: RpcRetryHandler, callback: int -> Outcome<T>, interrupted: int -> bool)
    requires h.maxRetries == 3 && h.retryInterval == 1000 && h.useExponentialBackoff
    requires forall j :: 0 <= j <= 3 ==> callback(j).Threw?
    requires forall j :: 1 <= j <= 3 ==> !interrupted(j)
    ensures h.Spec(callback, interrupted) == Run(callback(3), [0, 1, 2, 3], [1000, 2000, 4000])
  {
    assert Pow2(1) == 2 && Pow2(2) == 4;
    assert h.Interval(1) == 1000 && h.Interval(2) == 2000 && h.Interval(3) == 4000;
    assert h.RunFrom(callback, interrupted, 3) == Run(callback(3), [3], []);
    assert h.RunFrom(callback, interrupted, 2) == Run(callback(3), [2, 3], [4000]);
    assert h.RunFrom(callback, interrupted, 1) == Run(callback(3), [1, 2, 3], [2000, 4000]);
    assert h.RunFrom(callback, interrupted, 0) == Run(callback(3), [0, 1, 2, 3], [1000, 2000, 4000]);
  }

  /**
   * The backoff is not capped: with the default one-second interval, the
   * wait before retry 55 no longer fits in a `long` and wraps round to a
   * negative number of milliseconds, so the sleep returns at once, even for
   * an interrupted thread.
   */
  lemma BackoffWrapsNegative(h: RpcRetryHandler, interrupted: int -> bool)
    requires h.retryInterval == 1000 && h.useExponentialBackoff
    ensures h.Interval(54) > 0
    ensures h.Interval(55) < 0
    ensures !h.SleepInterrupted(interrupted, 55)
  {
    assert Pow2(53) == 0x20_0000_0000_0000 by { Pow2Value53(); }
    assert Pow2(54) == 0x40_0000_0000_0000;
  }

  lemma Pow2Value53()
    ensures Pow2(53) == 0x20_0000_0000_0000
  {
    assert Pow2(10) == 1024;
    assert Pow2(20) == 1024 * 1024 by { Pow2Add(10, 10); }
    assert Pow2(40) == Pow2(20) * Pow2(20) by { Pow2Add(20, 20); }
    assert Pow2(50) == Pow2(40) * Pow2(10) by { Pow2Add(40, 10); }
    assert Pow2(53) == Pow2(50) * 8 by { Pow2Add(50, 3); }
  }

  lemma {:induction false} Pow2Add(a: nat, b: nat)
    ensures Pow2(a + b) == Pow2(a) * Pow2(b)
    decreases b
  {
    if b > 0 {
      Pow2Add(a, b - 1);
    }
  }
}
