/**
 * Java's fixed-width integers. Dafny's `int` is unbounded, so the 32-bit
 * wrap-around of `int` arithmetic (and of `AtomicInteger.addAndGet`) and the
 * narrowing cast `(int)` of a `long` are written out here.
 */
module JavaInt {

  const TwoTo31: int := 0x8000_0000
  const TwoTo32: int := 0x1_0000_0000

  /** A Java `int`. */
  type Int32 = x: int | -0x8000_0000 <= x < 0x8000_0000

  /** A Java `long`. */
  type Int64 = x: int | -0x8000_0000_0000_0000 <= x < 0x8000_0000_0000_0000

  /**
   * Two's-complement reduction to 32 bits: the result of a Java `int` addition
   * whose exact value is `x`, and equally the value of `(int) x` for a `long` x.
   */
  function Wrap32(x: int): (r: Int32)
    ensures (x - r) % TwoTo32 == 0
    ensures -TwoTo31 <= x < TwoTo31 ==> r == x
  {
    (x + TwoTo31) % TwoTo32 - TwoTo31
  }

  /** Wrapping after every addition gives the same value as wrapping once at the end. */
  lemma Wrap32Add(a: int, b: int)
    ensures Wrap32(Wrap32(a) + b) == Wrap32(a + b)
  {
    var q := (a + TwoTo31) / TwoTo32;
    assert Wrap32(a) == a - q * TwoTo32;
    assert Wrap32(a) + b + TwoTo31 == (a + b + TwoTo31) - q * TwoTo32;
  }

  /** A value wraps to zero exactly when it is a multiple of 2^32. */
  lemma Wrap32IsZero(x: int)
    ensures Wrap32(x) == 0 <==> x % TwoTo32 == 0
  {
    var q := (x + TwoTo31) / TwoTo32;
    assert x + TwoTo31 == q * TwoTo32 + (x + TwoTo31) % TwoTo32;
    if x % TwoTo32 == 0 {
      var k := x / TwoTo32;
      assert x == k * TwoTo32;
      assert x + TwoTo31 == k * TwoTo32 + TwoTo31;
      assert (x + TwoTo31) % TwoTo32 == TwoTo31;
    }
  }
}
