/** Java's 32-bit `int`: its range, the wrap-around of `+` and of `++`. */
module Int32 {

  const MinInt: int := -0x8000_0000
  const MaxInt: int := 0x7fff_ffff

  predicate InRange(n: int) {
    MinInt <= n <= MaxInt
  }

  /** `n++` on a Java `int`: the successor, except that the largest value wraps to the smallest. */
  function Succ(n: int): (r: int)
    requires InRange(n)
    ensures InRange(r)
    ensures n < MaxInt ==> r == n + 1
    ensures n == MaxInt ==> r == MinInt
    ensures (r - n - 1) % 0x1_0000_0000 == 0
  {
    if n == MaxInt then MinInt else n + 1
  }

  /** The result of `int` arithmetic whose exact value is `n`: the one
      value in range that agrees with `n` modulo 2^32. */
  function Wrap(n: int): (r: int)
    ensures InRange(r)
    ensures (r - n) % 0x1_0000_0000 == 0
    ensures InRange(n) ==> r == n
  {
    (n - MinInt) % 0x1_0000_0000 + MinInt
  }
}
