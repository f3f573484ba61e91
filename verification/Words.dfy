/** Signed 64-bit arithmetic. */
module Words {

  const INT64_RANGE := 0x1_0000_0000_0000_0000
  const INT64_MIN := -0x8000_0000_0000_0000

  /** The signed 64-bit value an integer wraps to. */
  function Wrap64(x: int): int {
    (x - INT64_MIN) % INT64_RANGE + INT64_MIN
  }

  lemma AddMultiple(a: int, k: int)
    ensures (a + k * INT64_RANGE) % INT64_RANGE == a % INT64_RANGE
  {
    var q, r := a / INT64_RANGE, a % INT64_RANGE;
    assert a + k * INT64_RANGE == (q + k) * INT64_RANGE + r;
  }

  /** Wrapping at every addition or only once comes to the same. */
  lemma WrapAdds(x: int, y: int)
    ensures Wrap64(Wrap64(x) + y) == Wrap64(x + y)
  {
    var k := (x - Wrap64(x)) / INT64_RANGE;
    assert x - Wrap64(x) == k * INT64_RANGE;
    AddMultiple(Wrap64(x) + y - INT64_MIN, k);
  }

  lemma WrapInRange(x: int)
    requires INT64_MIN <= x < -INT64_MIN
    ensures Wrap64(x) == x
  {
  }
}
