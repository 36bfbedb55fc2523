/** Facts about natural-number multiplication and division used by the layout proofs. */
module Arithmetic {

  lemma MulLeft(c: nat, x: nat, y: nat)
    requires x <= y
    ensures x * c <= y * c
  {
    assert y * c - x * c == (y - x) * c;
  }

  /** `a < n * c` puts `a / n` below `c`. */
  lemma DivBelow(a: nat, n: nat, c: nat)
    requires 0 < n && a < n * c
    ensures a / n < c
  {
    var q := a / n;
    assert a == n * q + a % n;
    if q >= c {
      MulLeft(n, c, q);
    }
  }

  /** Integer division by a positive number is monotone. */
  lemma DivMonotone(a: nat, b: nat, d: nat)
    requires a <= b && 0 < d
    ensures a / d <= b / d
  {
    var qa, qb := a / d, b / d;
    assert a == d * qa + a % d;
    assert b == d * qb + b % d;
    if qa > qb {
      MulLeft(d, qb + 1, qa);
    }
  }

  /** `(n * q + r) / n == q` and `(n * q + r) % n == r` for a remainder `r < n`. */
  lemma DivSplit(n: nat, q: nat, r: nat)
    requires r < n
    ensures (n * q + r) / n == q
    ensures (n * q + r) % n == r
  {
    var a := n * q + r;
    var q' := a / n;
    assert a == n * q' + a % n;
    if q' < q {
      MulLeft(n, q' + 1, q);
    } else if q' > q {
      MulLeft(n, q + 1, q');
    }
  }

  /** Adding the modulus does not change the remainder. */
  lemma ModPeriod(n: nat, i: nat)
    requires 0 < n
    ensures (i + n) % n == i % n
  {
    DivSplit(n, i / n, i % n);
    DivSplit(n, i / n + 1, i % n);
    assert i == n * (i / n) + i % n;
    assert i + n == n * (i / n + 1) + i % n;
  }

  /** One more full row of `n`: `n * q + n == n * (q + 1)`. */
  lemma NextRow(n: nat, q: nat)
    ensures n * q + n == n * (q + 1)
  {
  }

  /** The last of `n` positions times `c` is `c - 1` full rows of `n` and `n - c` over. */
  lemma LastRow(n: nat, c: nat)
    requires 0 < c <= n
    ensures (n - 1) * c == n * (c - 1) + (n - c)
  {
    assert (n - 1) * c == n * c - c;
    assert n * (c - 1) == n * c - n;
  }
}
