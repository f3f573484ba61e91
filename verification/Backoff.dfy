/** The exponential backoff shared by the control plane's reconciler and the orchestrator's
    retry policy: 2^attempt seconds, capped at a minute. Times are nanoseconds. The product
    is taken in a 64-bit integer, so it wraps once the attempt is large enough. */
module Backoff {
  import opened Words

  const SECOND := 1_000_000_000
  const MAX_BACKOFF := 60 * SECOND

  function Pow2(n: nat): (p: nat)
    ensures p >= 1
  {
    if n == 0 then 1 else 2 * Pow2(n - 1)
  }

  /** 2^attempt as a float truncated to a 64-bit integer. Beyond the range the conversion
      yields the smallest integer, as it does on amd64. */
  function Pow2AsInt64(attempt: nat): int {
    if attempt <= 62 then Pow2(attempt) else INT64_MIN
  }

  function Delay(attempt: nat): int {
    var d := Wrap64(Pow2AsInt64(attempt) * SECOND);
    if d > MAX_BACKOFF then MAX_BACKOFF else d
  }

  /** What the documentation promises: 2^attempt seconds, at most sixty. */
  function Intended(attempt: nat): int {
    if attempt >= 6 then MAX_BACKOFF else Pow2(attempt) * SECOND
  }

  lemma {:induction false} Pow2Monotone(m: nat, n: nat)
    requires m <= n
    ensures Pow2(m) <= Pow2(n)
    decreases n
  {
    if m < n {
      Pow2Monotone(m, n - 1);
    }
  }

  lemma Pow2Landmarks()
    ensures Pow2(6) == 64 && Pow2(33) == 0x2_0000_0000
    ensures Pow2(43) == 0x800_0000_0000 && Pow2(53) == 0x20_0000_0000_0000
    ensures Pow2(55) == 0x80_0000_0000_0000
  {
    assert Pow2(13) == 8192;
    assert Pow2(23) == 0x80_0000;
  }

  /** The cap makes `Intended` the minimum of the uncapped power and a minute. */
  lemma IntendedIsCappedPower(attempt: nat)
    ensures Intended(attempt) == if Pow2(attempt) * SECOND > MAX_BACKOFF then MAX_BACKOFF else Pow2(attempt) * SECOND
  {
    Pow2Landmarks();
    if attempt >= 6 {
      Pow2Monotone(6, attempt);
    } else {
      Pow2Monotone(attempt, 5);
    }
  }

  /** The delays in nanoseconds: doubling from one second, and a minute from the sixth attempt on. */
  lemma DelayInNanoseconds(attempt: nat)
    requires attempt <= 33
    ensures Delay(attempt) == match attempt
                              case 0 => 1_000_000_000
                              case 1 => 2_000_000_000
                              case 2 => 4_000_000_000
                              case 3 => 8_000_000_000
                              case 4 => 16_000_000_000
                              case 5 => 32_000_000_000
                              case _ => 60_000_000_000
  {
    DelayWithinRange(attempt);
    assert Pow2(3) == 8 && Pow2(5) == 32;
  }

  /** Up to attempt 33 the product fits and the delay is the promised one. */
  lemma DelayWithinRange(attempt: nat)
    requires attempt <= 33
    ensures Delay(attempt) == Intended(attempt)
  {
    Pow2Landmarks();
    Pow2Monotone(attempt, 33);
    IntendedIsCappedPower(attempt);
    var x := Pow2(attempt) * SECOND;
    assert 0 <= x - INT64_MIN < INT64_RANGE;
    assert Wrap64(x) == x;
  }

  /** The wrapped product is a signed view of a multiple of 2^64's last bits: doubling the
      attempt's power doubles it again, modulo the range. */
  lemma WrapDoubles(x: int, y: int)
    requires y == Wrap64(x)
    ensures Wrap64(2 * x) == Wrap64(2 * y)
  {
    var k := (x - y) / INT64_RANGE;
    assert x - y == k * INT64_RANGE;
    assert 2 * x - INT64_MIN == (2 * y - INT64_MIN) + (2 * k) * INT64_RANGE;
    AddMultiple(2 * y - INT64_MIN, 2 * k);
  }

  /** Once the product wraps to zero it stays there. */
  lemma {:induction false} WrappedToZero(attempt: nat)
    requires 55 <= attempt
    ensures Wrap64(Pow2(attempt) * SECOND) == 0
  {
    if attempt == 55 {
      Pow2Landmarks();
    } else {
      WrappedToZero(attempt - 1);
      assert Pow2(attempt) * SECOND == 2 * (Pow2(attempt - 1) * SECOND);
      WrapDoubles(Pow2(attempt - 1) * SECOND, 0);
    }
  }

  /** The attempts past 33 at which the wrapped product happens to come out large and positive. */
  const LUCKY: set<int> := {37, 41, 42, 45, 47, 50, 51, 53}

  /** Twice a 64-bit value, wrapped: at most one range too far. */
  function Doubled(v: int): int {
    if 2 * v >= -INT64_MIN then 2 * v - INT64_RANGE
    else if 2 * v < INT64_MIN then 2 * v + INT64_RANGE
    else 2 * v
  }

  lemma DoubledIsWrapped(v: int)
    requires INT64_MIN <= v < -INT64_MIN
    ensures Doubled(v) == Wrap64(2 * v)
    ensures INT64_MIN <= Doubled(v) < -INT64_MIN
  {
    var d := Doubled(v);
    assert 0 <= d - INT64_MIN < INT64_RANGE;
    if 2 * v >= -INT64_MIN {
      AddMultiple(d - INT64_MIN, 1);
    } else if 2 * v < INT64_MIN {
      AddMultiple(d - INT64_MIN, -1);
    }
  }

  /** The wrapped product, attempt by attempt, from the last one that fits. */
  function Product(attempt: nat): int
    requires 33 <= attempt
  {
    if attempt == 33 then 0x2_0000_0000 * SECOND else Doubled(Product(attempt - 1))
  }

  lemma {:induction false} ProductIsWrapped(attempt: nat)
    requires 33 <= attempt
    ensures INT64_MIN <= Product(attempt) < -INT64_MIN
    ensures Wrap64(Pow2(attempt) * SECOND) == Product(attempt)
  {
    if attempt == 33 {
      Pow2Landmarks();
    } else {
      ProductIsWrapped(attempt - 1);
      DoubledIsWrapped(Product(attempt - 1));
      assert Pow2(attempt) * SECOND == 2 * (Pow2(attempt - 1) * SECOND);
      WrapDoubles(Pow2(attempt - 1) * SECOND, Product(attempt - 1));
    }
  }

  /** The wrapped products from attempt 33 to 54, written out. */
  function Table(attempt: nat): int {
    match attempt
    case 33 => 8589934592000000000
    case 34 => -1266874889709551616
    case 35 => -2533749779419103232
    case 36 => -5067499558838206464
    case 37 => 8311744956033138688
    case 38 => -1823254161643274240
    case 39 => -3646508323286548480
    case 40 => -7293016646573096960
    case 41 => 3860710780563357696
    case 42 => 7721421561126715392
    case 43 => -3003900951456120832
    case 44 => -6007801902912241664
    case 45 => 6431140267885068288
    case 46 => -5584463537939415040
    case 47 => 7277816997830721536
    case 48 => -3891110078048108544
    case 49 => -7782220156096217088
    case 50 => 2882303761517117440
    case 51 => 5764607523034234880
    case 52 => -6917529027641081856
    case 53 => 4611686018427387904
    case _ => -9223372036854775808
  }

  lemma TableDoublesTo43(attempt: nat)
    requires 34 <= attempt <= 43
    ensures Table(attempt) == Doubled(Table(attempt - 1))
  {
  }

  lemma TableDoublesTo54(attempt: nat)
    requires 44 <= attempt <= 54
    ensures Table(attempt) == Doubled(Table(attempt - 1))
  {
  }

  lemma {:induction false} TableIsProduct(attempt: nat)
    requires 33 <= attempt <= 54
    ensures Product(attempt) == Table(attempt)
  {
    if attempt > 33 {
      TableIsProduct(attempt - 1);
      if attempt <= 43 {
        TableDoublesTo43(attempt);
      } else {
        TableDoublesTo54(attempt);
      }
    }
  }

  lemma DelayFromProduct(attempt: nat)
    requires 33 <= attempt <= 62
    ensures Delay(attempt) == if Product(attempt) > MAX_BACKOFF then MAX_BACKOFF else Product(attempt)
  {
    ProductIsWrapped(attempt);
  }

  lemma SignOfTable(attempt: nat)
    requires 34 <= attempt <= 54
    ensures if attempt in LUCKY then Table(attempt) > MAX_BACKOFF else Table(attempt) < 0
  {
  }

  lemma DelayBetween34And54(attempt: nat)
    requires 34 <= attempt <= 54
    ensures attempt in LUCKY ==> Delay(attempt) == MAX_BACKOFF
    ensures attempt !in LUCKY ==> Delay(attempt) < 0
  {
    SignOfTable(attempt);
    TableIsProduct(attempt);
    DelayFromProduct(attempt);
  }

  /** The promised delay is what the code computes exactly for these attempts. */
  lemma DelayExact(attempt: nat)
    ensures Delay(attempt) == Intended(attempt) <==> attempt <= 33 || attempt in LUCKY
  {
    if attempt <= 33 {
      DelayWithinRange(attempt);
    } else if attempt <= 54 {
      DelayBetween34And54(attempt);
    } else if attempt <= 62 {
      WrappedToZero(attempt);
    } else {
      assert Wrap64(INT64_MIN * SECOND) == 0;
    }
  }

  /** A whole retry budget is spaced as promised exactly when it is at most 33. */
  lemma BudgetSpacedAsPromised(maxRetries: int)
    ensures (forall a: nat :: 1 <= a <= maxRetries ==> Delay(a) == Intended(a)) <==> maxRetries <= 33
  {
    if maxRetries <= 33 {
      forall a: nat | 1 <= a <= maxRetries
        ensures Delay(a) == Intended(a)
      {
        DelayExact(a);
      }
    } else {
      DelayExact(34);
      assert Delay(34) != Intended(34);
    }
  }

  /** Past the range a "delay" can lie years in the past, so the gate it sets is already open. */
  lemma NegativeDelay()
    ensures Delay(34) == -1_266_874_889_709_551_616
  {
    Pow2Landmarks();
    assert Pow2(34) == 2 * Pow2(33);
  }
}
