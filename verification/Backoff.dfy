/** Exponential backoff in 64-bit nanoseconds, and the delay that a republished message carries. */
module Backoff {
  import opened Base
  import opened GoStrings

  const SECOND: int := 1_000_000_000
  const SQS_MAX_DELAY: int := 900 * SECOND

  function Pow2(n: nat): (p: nat)
    ensures p >= 1
  {
    if n == 0 then 1 else 2 * Pow2(n - 1)
  }

  function Shift(n: int): nat {
    if n < 0 then 0 else if n > 16 then 16 else n
  }

  /** backoffDelay of the Kafka package; the product wraps like an int64. */
  function KafkaDelay(base: int, max: int, n: int): int {
    var d := Wrap64(base * Pow2(Shift(n)));
    if d <= 0 || d > max then max else d
  }

  /** backoffDelay of the SQS package. */
  function SqsDelay(base: int, max: int, n: int): int {
    KafkaDelay(base, Min(max, SQS_MAX_DELAY), n)
  }

  lemma {:induction false} Pow2Monotone(a: nat, b: nat)
    requires a <= b
    ensures Pow2(a) <= Pow2(b)
  {
    if a < b {
      Pow2Monotone(a, b - 1);
    }
  }

  lemma Pow2Of16()
    ensures Pow2(16) == 65536
  {
    assert Pow2(4) == 16;
    assert Pow2(8) == 256;
    assert Pow2(12) == 4096;
  }

  /** The base, doubled n times. */
  function Doubled(base: int, n: nat): int { if n == 0 then base else 2 * Doubled(base, n - 1) }

  lemma {:induction false} DoubledIs(base: int, n: nat)
    ensures Doubled(base, n) == base * Pow2(n)
  {
    if n > 0 {
      DoubledIs(base, n - 1);
      assert base * (2 * Pow2(n - 1)) == 2 * (base * Pow2(n - 1));
    }
  }

  lemma ShiftedIs(base: int, n: int)
    ensures base * Pow2(Shift(n)) == Doubled(base, if n <= 0 then 0 else if n < 16 then n else 16)
  {
    DoubledIs(base, Shift(n));
  }

  /**
   Below 2^47 ns nothing wraps: the delay is the base doubled as often as the count says, sixteen
   times at most, up to the cap, and on SQS up to 900 seconds.
   */
  lemma DelayExact(base: int, max: int, n: int)
    requires 0 < base < 0x8000_0000_0000 && 0 < max
    ensures var d := Doubled(base, if n <= 0 then 0 else if n < 16 then n else 16);
            && KafkaDelay(base, max, n) == Min(max, d)
            && SqsDelay(base, max, n) == Min(Min(max, 900_000_000_000), d)
  {
    DelayShape(base, max, n);
    ShiftedIs(base, n);
  }

  lemma DelayShape(base: int, max: int, n: int)
    requires 0 < base < 0x8000_0000_0000 && 0 < max
    ensures KafkaDelay(base, max, n) == Min(max, base * Pow2(Shift(n)))
    ensures SqsDelay(base, max, n) == Min(Min(max, SQS_MAX_DELAY), base * Pow2(Shift(n)))
  {
    Pow2Of16();
    Pow2Monotone(Shift(n), 16);
    var p := Pow2(Shift(n));
    assert 0 < base * p <= base * 65536;
  }

  lemma DelayAtOne(base: int, max: int)
    requires 0 < base < 0x8000_0000_0000 && 0 < max
    ensures KafkaDelay(base, max, 1) == Min(max, 2 * base)
  {
    DelayExact(base, max, 1);
    assert Doubled(base, 1) == 2 * Doubled(base, 0);
  }

  lemma DelayMonotone(base: int, max: int, n: int, m: int)
    requires 0 < base < 0x8000_0000_0000 && 0 < max && n <= m
    ensures KafkaDelay(base, max, n) <= KafkaDelay(base, max, m)
    ensures SqsDelay(base, max, n) <= SqsDelay(base, max, m)
  {
    DelayShape(base, max, n);
    DelayShape(base, max, m);
    CappedMonotone(base, max, n, m);
    CappedMonotone(base, Min(max, SQS_MAX_DELAY), n, m);
  }

  lemma CappedMonotone(base: nat, cap: int, n: int, m: int)
    requires n <= m
    ensures Min(cap, base * Pow2(Shift(n))) <= Min(cap, base * Pow2(Shift(m)))
  {
    Pow2Monotone(Shift(n), Shift(m));
    MulMonotone(base, Pow2(Shift(n)), Pow2(Shift(m)));
  }

  lemma MulMonotone(base: nat, p: nat, q: nat)
    requires p <= q
    ensures base * p <= base * q
  {
  }

  /**
   For every base the result is the capped exponential exactly when the product fits in int64,
   wraps to a non-positive value, or wraps to at least the cap.
   */
  lemma DelayExactIff(base: int, max: int, n: int)
    requires 0 < base <= MAX_INT64 && 0 < max <= MAX_INT64
    ensures var d := Doubled(base, if n <= 0 then 0 else if n < 16 then n else 16);
            KafkaDelay(base, max, n) == Min(max, d) <==>
            d <= MAX_INT64 || Wrap64(d) <= 0 || Wrap64(d) >= max
  {
    var p := Pow2(Shift(n));
    ShiftedIs(base, n);
    assert base * p >= base;
  }

  /** Beyond that the delay can wrap to less than the base: 2^48 + 1 ns at count 16 waits 65536 ns. */
  lemma WrappedDelay()
    ensures KafkaDelay(0x1_0000_0000_0001, 0x2_0000_0000_0000, 16) == 65536
  {
    Pow2Of16();
    assert 0x1_0000_0000_0001 * 65536 == TWO_64 + 65536;
  }

  /** DelaySeconds in a send request: WithDelay's value clamped, then whole seconds. */
  function DelaySeconds(delay: int): (s: nat)
    ensures s <= 900
    ensures delay <= 0 ==> s == 0
    ensures 0 < delay < 901_000_000_000 ==> s * 1_000_000_000 <= delay < (s + 1) * 1_000_000_000
    ensures delay > 900_000_000_000 ==> s == 900
  {
    if delay <= 0 then 0
    else Min(delay, SQS_MAX_DELAY) / SECOND
  }

  /**
   Through republish, WithDelay and Publish: the request waits the floor of the backoff in
   seconds, so between zero and 900, and the second clamp never changes the first.
   */
  lemma SentDelay(base: int, max: int, retryCount: nat)
    requires 0 < base < 0x8000_0000_0000 && 0 < max
    ensures var d := SqsDelay(base, max, retryCount);
            && 0 < d <= 900_000_000_000
            && DelaySeconds(d) * 1_000_000_000 <= d < (DelaySeconds(d) + 1) * 1_000_000_000
  {
    DelayShape(base, max, retryCount);
    var p := Pow2(Shift(retryCount));
    assert base * p >= base;
  }

  /** A sub-second backoff is sent as no delay at all. */
  lemma SubSecondDelayLost(base: int, max: int, retryCount: nat)
    requires 0 < base < 0x8000_0000_0000 && 0 < max
    ensures DelaySeconds(SqsDelay(base, max, retryCount)) == 0
       <==> Min(max, Doubled(base, if retryCount < 16 then retryCount else 16)) < 1_000_000_000
  {
    DelayExact(base, max, retryCount);
    SentDelay(base, max, retryCount);
  }
}
