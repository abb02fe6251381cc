/** Division facts that the solver does not find on its own. */
module Arithmetic {
  lemma MulMonotone(g: int, x: int, y: int)
    requires g > 0 && x <= y
    ensures g * x <= g * y
  {
    assert 0 <= g * (y - x);
  }

  // q is the quotient exactly when the dividend lies in the q-th interval of length g.
  lemma QuotientIs(a: int, g: int, q: int)
    requires g > 0
    ensures a / g == q <==> g * q <= a < g * q + g
  {
    var k := a / g;
    assert a == g * k + a % g;
    if q < k {
      MulMonotone(g, q + 1, k);
      assert g * (q + 1) == g * q + g;
    } else if k < q {
      MulMonotone(g, k + 1, q);
      assert g * (k + 1) == g * k + g;
    }
  }

  lemma DivMonotone(a: int, b: int, g: int)
    requires g > 0 && a <= b
    ensures a / g <= b / g
  {
    var q, k := a / g, b / g;
    QuotientIs(a, g, q);
    QuotientIs(b, g, k);
    assert g * (k + 1) == g * k + g;
    if k < q {
      MulMonotone(g, k + 1, q);
    }
  }
}
