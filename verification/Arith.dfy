/** Division facts about positions and slots. */
module Arith {

  lemma Whole(p: nat, n: nat, den: nat)
    requires 0 < den
    ensures p / den < n <==> p < n * den
  {
    var q, r := p / den, p % den;
    assert p == q * den + r;
    if q < n {
      assert (q + 1) * den <= n * den;
    } else {
      assert n * den <= q * den;
    }
  }

  lemma DivShift(p: nat, m: nat, den: nat)
    requires 0 < den
    ensures (p + m * den) / den == p / den + m
    ensures (p + m * den) % den == p % den
  {
    var q, r := p / den, p % den;
    assert p + m * den == (q + m) * den + r;
    DivUnique(p + m * den, den, q + m, r);
  }

  lemma MulStep(q: nat, n: nat, den: nat)
    requires q < n
    ensures q * den + den <= n * den
  {
    var d := n - q;
    assert n * den == q * den + d * den;
    assert 0 <= (d - 1) * den == d * den - den;
  }

  lemma DivUnique(p: nat, den: nat, q: nat, r: nat)
    requires 0 < den && p == q * den + r && r < den
    ensures p / den == q && p % den == r
  {
    assert p == (p / den) * den + p % den;
    if p / den < q {
      MulStep(p / den, q, den);
    } else if q < p / den {
      MulStep(q, p / den, den);
    }
  }
}
