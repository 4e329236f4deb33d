/** Arithmetic facts the components share. */
module Arith {

  lemma MulMonotone(p: int, q: int, a: nat)
    requires p <= q
    ensures p * a <= q * a
  {
  }

  /** Quotient and remainder are determined by the division equation. */
  lemma DivModUnique(z: int, q: int, r: int, a: int)
    requires 0 <= r < a
    requires z == q * a + r
    ensures z / a == q && z % a == r
  {
    var q', r' := z / a, z % a;
    assert z == q' * a + r';
    if q' < q {
      MulMonotone(q' + 1, q, a);
    } else if q < q' {
      MulMonotone(q + 1, q', a);
    }
  }

  lemma ModCombine(x: int, y: int, a: int)
    requires a > 0 && x % a == 0 && y % a == 0
    ensures (x + y) % a == 0 && (y - x) % a == 0
  {
    var p, q := x / a, y / a;
    DivModUnique(x + y, p + q, 0, a);
    DivModUnique(y - x, q - p, 0, a);
  }
}
