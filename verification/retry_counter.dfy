/**
 The loop counter of the publish loop, `for i := 0; i <= retryCount; i++`,
 with Go's `int` taken as 64 bits wide: `i++` wraps from the largest value
 to the smallest. Counted here is how many iterations run, within `fuel`
 steps, when every publish fails.
 */
module RetryCounter {
  import opened OutputAmqp

  const MinInt: int := -0x8000_0000_0000_0000
  const MaxInt: int := 0x7fff_ffff_ffff_ffff

  predicate IsInt64(x: int)
  {
    MinInt <= x <= MaxInt
  }

  /** Go's `i++` on a 64-bit `int`. */
  function Inc(i: int): (r: int)
    requires IsInt64(i)
    ensures IsInt64(r)
    // two's complement: the result is `i + 1` modulo 2^64
    ensures (r - i - 1) % 0x1_0000_0000_0000_0000 == 0
  {
    if i == MaxInt then MinInt else i + 1
  }

  /** Iterations of the loop as written, from counter `i`, cut off after `fuel` steps. */
  function AsWrittenIterations(i: int, retryCount: int, fuel: nat): (n: nat)
    requires IsInt64(i) && IsInt64(retryCount)
    decreases fuel
    ensures n <= fuel
    ensures i > retryCount ==> n == 0
  {
    if fuel == 0 || !(i <= retryCount) then 0
    else 1 + AsWrittenIterations(Inc(i), retryCount, fuel - 1)
  }

  /** With `retryCount == MaxInt` the guard holds for every counter value: the loop only ends by a success. */
  lemma {:induction false} MaxRetryCountNeverExits(i: int, fuel: nat)
    requires IsInt64(i)
    decreases fuel
    ensures AsWrittenIterations(i, MaxInt, fuel) == fuel
  {
    if fuel > 0 {
      MaxRetryCountNeverExits(Inc(i), fuel - 1);
    }
  }

  /** So with every publish failing it makes more than `retryCount + 1` attempts. */
  lemma MaxRetryCountExceedsBudget()
    ensures AsWrittenIterations(0, MaxInt, AttemptBudget(MaxInt) + 1) > AttemptBudget(MaxInt)
  {
    MaxRetryCountNeverExits(0, AttemptBudget(MaxInt) + 1);
  }

  /**
   Below the largest value the loop as written runs `retryCount + 1 - i`
   more times from counter `i`, and not at all once `i` is past the count.
   */
  lemma {:induction false} AsWrittenBelowMaxMakesBudget(i: int, retryCount: int, fuel: nat)
    requires IsInt64(retryCount) && retryCount < MaxInt
    requires 0 <= i && IsInt64(i)
    requires fuel >= retryCount + 1 - i
    decreases fuel
    ensures AsWrittenIterations(i, retryCount, fuel) == (if i > retryCount then 0 else retryCount + 1 - i)
  {
    if i <= retryCount {
      AsWrittenBelowMaxMakesBudget(i + 1, retryCount, fuel - 1);
    }
  }

  /**
   The loop with the counter kept from wrapping: it leaves after the
   iteration where `i == retryCount` instead of incrementing past it.
   */
  function CorrectedIterations(i: int, retryCount: int, fuel: nat): (n: nat)
    requires IsInt64(i) && IsInt64(retryCount)
    decreases fuel
    ensures n <= fuel
    ensures i > retryCount ==> n == 0
    ensures fuel > 0 && i == retryCount ==> n == 1
  {
    if fuel == 0 || !(i <= retryCount) then 0
    else if i == retryCount then 1
    else 1 + CorrectedIterations(Inc(i), retryCount, fuel - 1)
  }

  /** From counter `i`, the corrected loop runs `retryCount + 1 - i` more times, and none once `i` is past the count. */
  lemma {:induction false} CorrectedCountsDown(i: int, retryCount: int, fuel: nat)
    requires IsInt64(retryCount) && 0 <= i && IsInt64(i)
    requires fuel >= retryCount + 1 - i
    decreases fuel
    ensures CorrectedIterations(i, retryCount, fuel) == (if i > retryCount then 0 else retryCount + 1 - i)
  {
    if i < retryCount {
      CorrectedCountsDown(i + 1, retryCount, fuel - 1);
    }
  }

  /** For every 64-bit retry count, the corrected loop makes exactly the attempt budget the publish model uses. */
  lemma CorrectedMakesBudget(retryCount: int, fuel: nat)
    requires IsInt64(retryCount)
    requires fuel >= AttemptBudget(retryCount)
    ensures CorrectedIterations(0, retryCount, fuel) == AttemptBudget(retryCount)
  {
    CorrectedCountsDown(0, retryCount, fuel);
  }
}
