/** Facts about products, quotients and remainders that index arithmetic needs. */
module Arith {

  lemma {:induction false} MulAtLeast(d: int, m: int)
    requires d >= 1 && m >= 0
    ensures d * m >= m
  {
    assert (d - 1) * m >= 0;
    assert d * m == (d - 1) * m + m;
  }

  lemma {:induction false} MulUnique(q: int, r: int, p: int, t: int, m: int)
    requires 0 <= r < m && 0 <= t < m && q * m + r == p * m + t
    ensures q == p && r == t
  {
    assert (q - p) * m == t - r;
    if q > p {
      MulAtLeast(q - p, m);
    } else if q < p {
      assert (p - q) * m == r - t;
      MulAtLeast(p - q, m);
    }
  }

  /** Division with remainder is unique. */
  lemma {:induction false} DivModUnique(q: int, r: int, m: int, x: int)
    requires 0 <= r < m && x == q * m + r
    ensures x / m == q && x % m == r
  {
    MulUnique(q, r, x / m, x % m, m);
  }

  lemma {:induction false} ModShift(a: int, m: int)
    requires m > 0
    ensures a % m == (a - m) % m && a / m == (a - m) / m + 1
  {
    var q, r := a / m, a % m;
    assert a - m == (q - 1) * m + r;
    DivModUnique(q - 1, r, m, a - m);
  }

  /** Thread i of a loop with stride step reaches index n exactly when i is n's residue. */
  lemma {:induction false} Residue(i: int, step: int, n: int)
    requires 0 <= i < step && n >= 0
    ensures i <= n && (n - i) % step == 0 <==> i == n % step
  {
    if i <= n && (n - i) % step == 0 {
      DivModUnique((n - i) / step, i, step, n);
    }
    if i == n % step {
      assert n >= i && n - i == (n / step) * step + 0;
      DivModUnique(n / step, 0, step, n - i);
    }
  }

  lemma {:induction false} Parity(c: int)
    ensures (2 * c) % 2 == 0 && (2 * c) / 2 == c && (2 * c + 1) % 2 == 1
  {}

  /** Element j of row i of a table with rows of m entries lies in the table. */
  lemma {:induction false} InTable(i: int, j: int, n: int, m: int)
    requires 0 <= i < n && 0 <= j < m
    ensures 0 <= i * m <= i * m + j < n * m
  {
    assert i * m >= 0;
    assert n * m == i * m + (n - i) * m;
    MulAtLeast(n - i, m);
  }

  /** Row i of a table of n rows of m entries lies in the table. */
  lemma {:induction false} RowInTable(i: nat, n: nat, m: nat)
    requires i < n
    ensures 0 <= i * m && i * m + m == (i + 1) * m <= n * m
  {
    MulAtLeast(n - i, m);
    assert n * m == i * m + (n - i) * m;
  }

  lemma {:induction false} MulSplit(a: int, b: int, p: int)
    ensures (a + b) * p == a * p + b * p
  {}

  lemma {:induction false} QuotientBelow(x: int, p: int, m: int)
    requires p > 0
    ensures x < m * p <==> x / p < m
  {
    var q, r := x / p, x % p;
    assert x == q * p + r;
    if m <= q {
      MulSplit(m, q - m, p);
      assert (q - m) * p >= 0;
    } else {
      MulSplit(q, 1, p);
      MulSplit(q + 1, m - q - 1, p);
      assert (m - q - 1) * p >= 0;
    }
  }

  // ---- Go's integer division

  function Abs(a: int): nat { if a < 0 then -a else a }

  /** Division and remainder as Go has them: towards zero, the remainder with the sign of a. */
  function Quo(a: int, b: int): int
    requires b != 0
  {
    if (a < 0) == (b < 0) then Abs(a) / Abs(b) else -(Abs(a) / Abs(b))
  }

  function Rem(a: int, b: int): int
    requires b != 0
  {
    if a < 0 then -(Abs(a) % Abs(b)) else a % Abs(b)
  }

  lemma {:induction false} QuoRem(a: int, b: int)
    requires b != 0
    ensures a == Quo(a, b) * b + Rem(a, b)
  {
    var q, r, m := Abs(a) / Abs(b), Abs(a) % Abs(b), Abs(b);
    assert Abs(a) == q * m + r;
    assert (-q) * m == -(q * m) && (-q) * (-m) == q * m && q * (-m) == -(q * m);
  }

  /** The remainder is smaller than b and has no other sign than a, which with QuoRem leaves no other quotient. */
  lemma {:induction false} RemIs(a: int, b: int)
    requires b != 0
    ensures Abs(Rem(a, b)) < Abs(b) && if a < 0 then Rem(a, b) <= 0 else Rem(a, b) >= 0
  {
    var r := Abs(a) % Abs(b);
    ModBelow(Abs(a), Abs(b));
    assert Rem(a, b) == if a < 0 then 0 - r else r;
    hide Rem;
  }

  lemma {:induction false} ModBelow(x: nat, m: nat)
    requires m > 0
    ensures 0 <= x % m < m
  {}

  lemma {:induction false} QuoPositive(a: nat, b: nat)
    requires b > 0
    ensures Quo(a, b) == a / b && a / b >= 0 && Rem(a, b) == a % b
  {}
}
