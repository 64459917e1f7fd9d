/** Signed 64-bit wrap-around, as Go's int and time.Duration have it. */
module Int64 {

  const TWO64: int := 0x1_0000_0000_0000_0000
  const MAX64: int := 0x7FFF_FFFF_FFFF_FFFF

  function Wrap(n: int): (r: int)
    ensures -MAX64 - 1 <= r <= MAX64 && (r - n) % TWO64 == 0
  {
    (n + MAX64 + 1) % TWO64 - MAX64 - 1
  }

  lemma {:induction false} WrapUnique(a: int, b: int)
    requires -MAX64 - 1 <= a <= MAX64 && (a - b) % TWO64 == 0
    ensures Wrap(b) == a
  {
    var r := Wrap(b);
    assert (r - a) % TWO64 == ((r - b) - (a - b)) % TWO64 == 0;
    assert -TWO64 < r - a < TWO64;
  }

  /** Wrapping early or late makes no difference. */
  lemma {:induction false} WrapStep(factor: int, n: int, d: int)
    ensures Wrap(factor * Wrap(n) + d) == Wrap(factor * n + d)
  {
    var k := (Wrap(n) - n) / TWO64;
    assert Wrap(n) - n == k * TWO64;
    var r := Wrap(factor * Wrap(n) + d);
    var j := (r - (factor * Wrap(n) + d)) / TWO64;
    assert r - (factor * n + d) == (j + factor * k) * TWO64 by {
      assert factor * Wrap(n) == factor * n + factor * k * TWO64;
    }
    WrapMultiple(j + factor * k);
    WrapUnique(r, factor * n + d);
  }

  lemma {:induction false} WrapMultiple(k: int)
    ensures (k * TWO64) % TWO64 == 0
  {}
}
