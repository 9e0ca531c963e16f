/**
 * The small arithmetic helpers of the engine header (engine.inl): min, max,
 * clamp, abs, the Kilobytes/Megabytes/Gigabytes size constructors and the
 * growth policy of the dynamic array.
 */
module Numerics {

  /** 2^64: size_t and u64 arithmetic wraps modulo this value. */
  const U64_MODULUS: int := 0x1_0000_0000_0000_0000

  /** `max(a, b)`: the larger operand. */
  function Max(a: int, b: int): (r: int)
    ensures r >= a && r >= b
    ensures r == a || r == b
  {
    if a > b then a else b
  }

  /** `min(a, b)`: the smaller operand. */
  function Min(a: int, b: int): (r: int)
    ensures r <= a && r <= b
    ensures r == a || r == b
  {
    if a < b then a else b
  }

  /** `clamp(x, lo, hi)`, defined in the source as `min(max(x, lo), hi)`. */
  function Clamp(x: int, lo: int, hi: int): (r: int)
    ensures lo <= hi ==> lo <= r <= hi
    ensures lo <= x <= hi ==> r == x
    ensures x < lo <= hi ==> r == lo
    ensures lo <= hi < x ==> r == hi
    // with an empty range the upper bound wins
    ensures hi < lo ==> r == hi
  {
    Min(Max(x, lo), hi)
  }

  /** `abs(x)` on unbounded integers (see README for the signed-minimum case). */
  function Abs(x: int): (r: int)
    ensures r >= 0
    ensures r == x || r == -x
  {
    if x < 0 then -x else x
  }

  /** `Kilobytes(n)`: 1024 * n in size_t arithmetic. */
  function Kilobytes(n: nat): (r: nat)
    requires n < U64_MODULUS
    ensures r < U64_MODULUS
    ensures n * 1024 < U64_MODULUS ==> r == n * 1024
    ensures r % 1024 == 0
  {
    (1024 * n) % U64_MODULUS
  }

  /** `Megabytes(n)`: 1024 * 1024 * n in size_t arithmetic. */
  function Megabytes(n: nat): (r: nat)
    requires n < U64_MODULUS
    ensures r < U64_MODULUS
    ensures n * 1048576 < U64_MODULUS ==> r == n * 1048576
    ensures r % 1048576 == 0
  {
    (1048576 * n) % U64_MODULUS
  }

  /** `Gigabytes(n)`: 1024 * 1024 * 1024 * n in size_t arithmetic. */
  function Gigabytes(n: nat): (r: nat)
    requires n < U64_MODULUS
    ensures r < U64_MODULUS
    ensures n * 1073741824 < U64_MODULUS ==> r == n * 1073741824
    ensures r % 1073741824 == 0
  {
    (1073741824 * n) % U64_MODULUS
  }

  /** The smallest capacity the dynamic array ever allocates. */
  const MIN_CAPACITY: bv64 := 16

  /** True of the non-zero powers of two. */
  predicate IsPowerOfTwo(r: bv64) {
    r != 0 && r & (r - 1) == 0
  }

  /**
   * `array_raw_next_capacity`: doubles the capacity, smears its highest set
   * bit downwards and adds one, giving the smallest power of two strictly
   * greater than twice the capacity, and never less than 16.  The doubling is
   * a `u64` shift, so the statement holds while `2 * capacity` does not lose
   * its top bit.
   */
  function NextCapacity(capacity: bv64): (r: bv64)
    ensures capacity < 0x4000_0000_0000_0000 ==>
      && IsPowerOfTwo(r)
      && r >= MIN_CAPACITY
      && r > capacity << 1
      // smallest such power: halving it no longer exceeds the doubled capacity
      && (r > MIN_CAPACITY ==> r >> 1 <= capacity << 1)
  {
    var doubled := capacity << 1;
    var s1 := doubled | (doubled >> 1);
    var s2 := s1 | (s1 >> 2);
    var s3 := s2 | (s2 >> 4);
    var s4 := s3 | (s3 >> 8);
    var s5 := s4 | (s4 >> 16);
    var s6 := s5 | (s5 >> 32);
    if MIN_CAPACITY > s6 + 1 then MIN_CAPACITY else s6 + 1
  }

  /** Powers of two as integers. */
  ghost predicate IsPowerOfTwoNat(p: nat)
    decreases p
  {
    p == 1 || (p >= 2 && p % 2 == 0 && IsPowerOfTwoNat(p / 2))
  }

  /** The smallest power of two strictly greater than `x`. */
  function PowerOfTwoAbove(x: nat): (p: nat)
    ensures IsPowerOfTwoNat(p)
    ensures p > x
    ensures p == 1 || p / 2 <= x
    decreases x
  {
    if x == 0 then 1 else 2 * PowerOfTwoAbove(x / 2)
  }

  /**
   * The capacity the growth policy yields, stated on integers: the smallest
   * power of two strictly greater than twice the capacity, floored at 16.
   * This is the value the bit-smear of `NextCapacity` computes; the dynamic
   * array uses this integer statement for its buffer length.
   */
  function GrowthCapacity(capacity: nat): (r: nat)
    ensures IsPowerOfTwoNat(r)
    ensures r >= MIN_CAPACITY as int && r > 2 * capacity
    ensures r > MIN_CAPACITY as int ==> r / 2 <= 2 * capacity
  {
    Max(16, PowerOfTwoAbove(2 * capacity))
  }

  /** The values quoted for the growth policy, on both statements: 0 grows to 16 and 16 to 64. */
  lemma NextCapacityExamples()
    ensures NextCapacity(0) == 16 && GrowthCapacity(0) == 16
    ensures NextCapacity(16) == 64 && GrowthCapacity(16) == 64
    ensures NextCapacity(64) == 256 && GrowthCapacity(64) == 256
  {
    // Each value comes from `SmearExamples` or `GrowthExamples`; neither
    // body is needed to combine them.
    hide NextCapacity, GrowthCapacity;
    SmearExamples();
    GrowthExamples();
  }

  /** The bit-smear on the quoted capacities. */
  lemma SmearExamples()
    ensures NextCapacity(0) == 16 && NextCapacity(16) == 64 && NextCapacity(64) == 256
  {
  }

  /** The integer statement on the quoted capacities. */
  lemma GrowthExamples()
    ensures GrowthCapacity(0) == 16 && GrowthCapacity(16) == 64 && GrowthCapacity(64) == 256
  {
    assert PowerOfTwoAbove(128) == 256 by {
      assert PowerOfTwoAbove(32) == 64 by {
        assert PowerOfTwoAbove(8) == 16;
      }
    }
  }

  // Arithmetic facts the solver needs spelled out for multiplication and division by a variable.

  lemma MulLe(a: nat, b: nat, c: nat)
    requires a <= b
    ensures a * c <= b * c
  {
  }

  lemma MulCancelLt(q: nat, h: nat, w: nat)
    requires w > 0 && q * w < h * w
    ensures q < h
  {
  }

  lemma SmallMultiple(k: int, w: int)
    requires w > 0 && -w < k * w < w
    ensures k == 0
  {
  }

  /** `q * w + r` with `r < w` divides back into quotient `q` and remainder `r`. */
  lemma DivModUnique(w: nat, q: nat, r: nat)
    requires r < w
    ensures (q * w + r) / w == q && (q * w + r) % w == r
  {
    var a := q * w + r;
    assert (a / w - q) * w == r - a % w;
    SmallMultiple(a / w - q, w);
  }

  /** Below `width * height` the quotient by `width` is a row below `height`. */
  lemma DivBelow(i: nat, width: nat, height: nat)
    requires i < width * height
    ensures width > 0 && i / width < height
  {
    assert width > 0;
    assert (i / width) * width <= i;
    MulCancelLt(i / width, height, width);
  }

  /** Row `y < height` ends no later than `width * height`. */
  lemma RowBound(width: nat, height: nat, y: nat)
    requires y < height
    ensures y * width + width <= width * height
  {
    MulLe(y + 1, height, width);
    assert (y + 1) * width == y * width + width;
  }
}
