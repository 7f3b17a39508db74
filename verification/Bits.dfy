/** Two's-complement arithmetic behind the `& (size - 1)` idiom. */
module Bits {

  function Pow2(k: nat): (r: nat)
    ensures r > 0
  {
    if k == 0 then 1 else 2 * Pow2(k - 1)
  }

  ghost predicate IsPow2(n: int) {
    exists k: nat :: n == Pow2(k)
  }

  /** Bitwise AND of an integer, read as an infinite two's-complement bit string, with a non-negative mask.
      Dafny's `/` and `%` by 2 are an arithmetic shift and the lowest bit, also for negative `x`. */
  function And(x: int, y: nat): (r: nat)
    ensures r <= y
    decreases y
  {
    if y == 0 then 0 else (if x % 2 == 1 && y % 2 == 1 then 1 else 0) + 2 * And(x / 2, y / 2)
  }

  lemma HalveMod(x: int, m: nat)
    requires m > 0
    ensures x % (2 * m) == x % 2 + 2 * ((x / 2) % m)
  {
    var q := (x / 2) / m;
    var r := x % 2 + 2 * ((x / 2) % m);
    assert x / 2 == m * q + (x / 2) % m;
    calc {
      x;
      2 * (x / 2) + x % 2;
      2 * (m * q + (x / 2) % m) + x % 2;
      (2 * m) * q + r;
    }
    DivModUnique(x, 2 * m, q, r);
  }

  lemma DivModUnique(x: int, m: nat, q: int, r: int)
    requires m > 0 && 0 <= r < m && x == m * q + r
    ensures x % m == r && x / m == q
  {
    var q', r' := x / m, x % m;
    assert x == m * q' + r';
    assert m * (q - q') == r' - r;
    if q > q' {
      MulGe(m, q - q');
    } else if q < q' {
      MulGe(m, q' - q);
    }
  }

  lemma MulGe(m: nat, k: int)
    requires k >= 1
    ensures m * k >= m
  {
    assert m * k == m * (k - 1) + m;
    assert m * (k - 1) >= 0;
  }

  /** Masking with 2^k - 1 is reduction modulo 2^k, for every integer: in particular for the negative
      differences `wr_pointer - rd_pointer`. */
  lemma {:induction false} AndIsMod(x: int, k: nat)
    ensures And(x, Pow2(k) - 1) == x % Pow2(k)
    decreases k
  {
    if k == 0 {
    } else {
      var m := Pow2(k - 1);
      AndIsMod(x / 2, k - 1);
      HalveMod(x, m);
      assert (Pow2(k) - 1) / 2 == m - 1;
    }
  }
}
