/** Integer arithmetic shared by the audio and framing models. */
module Arith {

  /** Rounded-up quotient, as the source writes it: (a + b - 1) / b. */
  function CeilDiv(a: nat, b: nat): (q: nat)
    requires 0 < b
  {
    (a + b - 1) / b
  }

  /** The characterisation every rate argument uses: CeilDiv(a, b) counts the
      multiples k * b that lie strictly below a. */
  lemma CeilDivCounts(a: nat, b: nat, k: nat)
    requires 0 < b
    ensures k < CeilDiv(a, b) <==> k * b < a
  {
    var q := (a + b - 1) / b;
    assert a + b - 1 == q * b + (a + b - 1) % b;
    if k < q {
      MulMonotone(k, q - 1, b);
      assert (q - 1) * b == q * b - b;
    } else {
      MulMonotone(q, k, b);
    }
  }

  lemma CeilDivBounds(a: nat, b: nat)
    requires 0 < b
    ensures a <= CeilDiv(a, b) * b < a + b
  {
    var q := (a + b - 1) / b;
    assert a + b - 1 == q * b + (a + b - 1) % b;
  }

  /** CeilDiv is the only q with a <= q * b < a + b. */
  lemma CeilDivUnique(a: nat, b: nat, q: nat)
    requires 0 < b && a <= q * b < a + b
    ensures CeilDiv(a, b) == q
  {
    CeilDivCounts(a, b, q);
    if q > 0 {
      CeilDivCounts(a, b, q - 1);
      assert (q - 1) * b == q * b - b;
    }
  }

  lemma CeilDivMonotone(a: nat, c: nat, b: nat)
    requires 0 < b && a <= c
    ensures CeilDiv(a, b) <= CeilDiv(c, b)
  {
    var q := CeilDiv(a, b);
    if q > 0 {
      CeilDivCounts(a, b, q - 1);
      CeilDivCounts(c, b, q - 1);
    }
  }

  lemma MulMonotone(a: nat, c: nat, b: nat)
    requires a <= c
    ensures a * b <= c * b
  {
    assert (c - a) * b == c * b - a * b;
  }

  /** Row-major positions: (row, column) below (rows, columns) lands below
      rows * columns, and the position determines both. */
  lemma RowMajorBound(row: nat, column: nat, rows: nat, columns: nat)
    requires row < rows && column < columns
    ensures row * columns + column < rows * columns
    ensures (row * columns + column) / columns == row
    ensures (row * columns + column) % columns == column
  {
    MulMonotone(row + 1, rows, columns);
    assert (row + 1) * columns == row * columns + columns;
    DivModUnique(row * columns + column, columns, row, column);
  }

  lemma DivModUnique(n: nat, d: nat, q: nat, r: nat)
    requires 0 < d && n == q * d + r && r < d
    ensures n / d == q && n % d == r
  {
    var q' := n / d;
    assert n == q' * d + n % d;
    assert (q' + 1) * d == q' * d + d && (q + 1) * d == q * d + d;
    if q' < q {
      MulMonotone(q' + 1, q, d);
    } else if q < q' {
      MulMonotone(q + 1, q', d);
    }
  }

  /** The converse: every position below rows * columns is a (row, column). */
  lemma RowMajorSplit(n: nat, rows: nat, columns: nat)
    requires n < rows * columns
    ensures 0 < columns && n / columns < rows && n % columns < columns
    ensures n == (n / columns) * columns + n % columns
  {
    assert columns != 0;
    if rows <= n / columns {
      MulMonotone(rows, n / columns, columns);
    }
  }

  function Min(a: nat, b: nat): nat { if a < b then a else b }

  function Max(a: nat, b: nat): nat { if a < b then b else a }
}
