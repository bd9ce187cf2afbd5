/** Minima and rounded-up division, shared by the ledger, the calendar and the two cursors. */
module Arithmetic {
  function Min(a: int, b: int): int { if a < b then a else b }

  function CeilDiv(n: nat, d: nat): nat
    requires d > 0
  {
    (n + d - 1) / d
  }

  lemma Monotone(a: int, b: int, d: nat)
    requires a <= b
    ensures a * d <= b * d
    ensures a < b ==> a * d + d <= b * d
  {
    if a < b {
      assert (b - a - 1) * d >= 0;
      assert b * d == (b - a - 1) * d + a * d + d;
    }
  }

  /** k batches of d rows cover n rows exactly when k is at least the rounded-up quotient. */
  lemma CeilingDivision(n: nat, d: nat, k: nat)
    requires d > 0
    ensures k * d >= n <==> k >= CeilDiv(n, d)
  {
    var q := CeilDiv(n, d);
    assert q * d <= n + d - 1 < q * d + d;
    if k >= q {
      Monotone(q, k, d);
    } else {
      Monotone(k, q, d);
    }
  }

  lemma QuotientUnique(x: int, d: nat, q: int)
    requires d > 0 && q * d <= x < q * d + d
    ensures x / d == q
  {
    var p := x / d;
    assert p * d <= x < p * d + d;
    if p < q {
      Monotone(p, q, d);
    } else if p > q {
      Monotone(q, p, d);
    }
  }

  lemma OneMoreQuotient(x: int, d: nat)
    requires d > 0
    ensures (x + d) / d == x / d + 1
  {
    var q := x / d;
    assert q * d <= x < q * d + d;
    assert (q + 1) * d == q * d + d;
    QuotientUnique(x + d, d, q + 1);
  }

  // ----- batches

  /** How many batches of a given size it takes to work through n rows, when even no rows take one. */
  function Rounds(n: nat, size: nat): (k: nat)
    requires size > 0
    ensures k > 0
  {
    if n <= size then 1 else 1 + Rounds(n - size, size)
  }

  /** For one row or more the number of batches is the rounded-up quotient. */
  lemma {:induction false} RoundsIsCeiling(n: nat, size: nat)
    requires n > 0 && size > 0
    ensures Rounds(n, size) == CeilDiv(n, size)
  {
    if n > size {
      RoundsIsCeiling(n - size, size);
      OneMoreQuotient(n - 1, size);
    } else {
      QuotientUnique(n + size - 1, size, 1);
    }
  }

  lemma {:induction false} RoundsMonotone(m: nat, n: nat, size: nat)
    requires m <= n && size > 0
    ensures Rounds(m, size) <= Rounds(n, size)
  {
    if m > size {
      RoundsMonotone(m - size, n - size, size);
    }
  }

  /** Cutting a table in two costs at most one batch more. */
  lemma {:induction false} RoundsOfParts(m: nat, n: nat, size: nat)
    requires size > 0
    ensures Rounds(m, size) + Rounds(n, size) <= Rounds(m + n, size) + 1
  {
    if m > size {
      RoundsOfParts(m - size, n, size);
    } else {
      RoundsMonotone(n, m + n, size);
    }
  }
}
