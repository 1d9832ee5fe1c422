/** The retry delay as the Go code computes it: a shift and a product in a signed 64-bit
    count of nanoseconds. */
module Backoff {
  import opened Int64

  const SECOND: int := 1_000_000_000

  function Pow2(n: nat): (p: nat)
    ensures 1 <= p
  {
    if n == 0 then 1 else 2 * Pow2(n - 1)
  }

  function ShiftLeft64(x: int, bits: nat): int {
    if 64 <= bits then 0 else Wrap64(x * Pow2(bits))
  }

  /** The delay, in nanoseconds, requested before the given attempt. */
  function Delay(attempt: nat): int
    requires 0 < attempt
  {
    Wrap64(ShiftLeft64(1, attempt - 1) * SECOND)
  }

  lemma {:induction false} Pow2Grows(m: nat, n: nat)
    requires m <= n
    ensures Pow2(m) <= Pow2(n)
  {
    if m < n {
      Pow2Grows(m, n - 1);
    }
  }

  lemma Pow2Limits()
    ensures Pow2(33) == 0x2_0000_0000 && Pow2(34) == 0x4_0000_0000
  {
    assert Pow2(8) == 0x100;
    assert Pow2(16) == 0x1_0000;
    assert Pow2(24) == 0x100_0000;
    assert Pow2(32) == 0x1_0000_0000;
  }

  /** A delay is the intended 2^(attempt-1) seconds up to attempt 34 and for no later one. */
  lemma DelayExactly(attempt: nat)
    requires 0 < attempt
    ensures Delay(attempt) == Pow2(attempt - 1) * SECOND <==> attempt <= 34
  {
    Pow2Limits();
    if attempt <= 34 {
      Pow2Grows(attempt - 1, 33);
    } else {
      Pow2Grows(34, attempt - 1);
    }
  }

  /** Every delay a run can request is exact if and only if MaxRetries is at most 34. */
  lemma DelaysExactly(maxRetries: int)
    ensures (forall k: nat | 0 < k <= maxRetries :: Delay(k) == Pow2(k - 1) * SECOND) <==> maxRetries <= 34
  {
    forall k: nat | 0 < k ensures Delay(k) == Pow2(k - 1) * SECOND <==> k <= 34 {
      DelayExactly(k);
    }
    if 34 < maxRetries {
      DelayExactly(35);
    }
  }

  /** The first delay is a second long. The first that overflows is negative, so its timer
      fires at once. */
  lemma FirstOverflow()
    ensures Delay(1) == 1_000_000_000
    ensures Delay(34) == 8_589_934_592 * 1_000_000_000
    ensures Delay(35) == 17_179_869_184 * 1_000_000_000 - 0x1_0000_0000_0000_0000 < 0
  {
    Pow2Limits();
  }

  function Total(delays: seq<int>): int {
    if |delays| == 0 then 0 else Total(delays[..|delays| - 1]) + delays[|delays| - 1]
  }

  /** The delays before attempts 1 to k add up to 2^k - 1 seconds. */
  lemma {:induction false} TotalDelay(delays: seq<int>)
    requires |delays| <= 34
    requires forall j | 0 <= j < |delays| :: delays[j] == Delay(j + 1)
    ensures Total(delays) == (Pow2(|delays|) - 1) * SECOND
  {
    var k := |delays|;
    if k > 0 {
      TotalDelay(delays[..k - 1]);
      DelayExactly(k);
      assert delays[k - 1] == Pow2(k - 1) * SECOND;
    }
  }
}
