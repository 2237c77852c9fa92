/** Go's int64: two's-complement wrap-around and division that truncates toward zero. */
module Int64 {
  const TWO_63: int := 0x8000_0000_0000_0000
  const TWO_64: int := 0x1_0000_0000_0000_0000

  predicate IsInt64(x: int) {
    -TWO_63 <= x < TWO_63
  }

  function Wrap(x: int): (r: int)
    ensures IsInt64(r)
    ensures IsInt64(x) ==> r == x
    ensures x >= TWO_63 ==> r <= x - TWO_64
  {
    (x + TWO_63) % TWO_64 - TWO_63
  }

  /** Wrapping a running sum at every step is the same as wrapping it once. */
  lemma WrapStep(a: int, b: int)
    ensures Wrap(Wrap(a) + b) == Wrap(a + b)
  {
  }

  function Truncated(a: int, b: int): (q: int)
    requires b != 0
    ensures a >= 0 && b > 0 ==> q == a / b
  {
    if a >= 0 then (if b > 0 then a / b else -(a / -b))
    else if b > 0 then -(-a / b) else -a / -b
  }

  /** a * b / c as Go evaluates it on int64 operands. */
  function MulDiv(a: int, b: int, c: int): (r: int)
    requires c != 0
    ensures IsInt64(r)
  {
    Wrap(Truncated(Wrap(a * b), c))
  }
}
