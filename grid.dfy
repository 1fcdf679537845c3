/** Index arithmetic on a square bitmap of side `n` stored row-major in a flat buffer:
    the cell in row `r`, column `c` sits at `r * n + c`. */
module Grid {

  /** Multiplication by a natural number is monotone. */
  lemma {:induction false} MulMonotone(a: nat, b: nat, n: nat)
    requires a <= b
    ensures a * n <= b * n
  {
    if a < b {
      MulMonotone(a, b - 1, n);
      assert (b - 1) * n + n == b * n;
    }
  }

  /** Every cell of the grid has its index inside the buffer. */
  lemma RowMajorInBounds(n: nat, r: nat, c: nat)
    requires r < n && c < n
    ensures 0 <= r * n + c < n * n
  {
    MulMonotone(r + 1, n, n);
    assert (r + 1) * n == r * n + n;
  }

  /** A cell in one of the first `rows` rows has its index among the first `rows * n`. */
  lemma RowMajorBelow(n: nat, r: nat, c: nat, rows: nat)
    requires r < rows && c < n
    ensures r * n + c < rows * n
  {
    MulMonotone(r + 1, rows, n);
    assert (r + 1) * n == r * n + n;
  }

  /** Appending row `rows` of `n` entries to the first `rows` rows: an earlier row keeps
      its entries, and the new row's entry `c` lands at `rows * n + c`. */
  lemma AppendRowAt<T>(prefix: seq<T>, row: seq<T>, n: nat, rows: nat, r: nat, c: nat)
    requires |prefix| == rows * n && |row| == n && r <= rows && c < n
    ensures r < rows ==> r * n + c < |prefix|
    ensures r * n + c < |prefix + row|
    ensures r < rows ==> (prefix + row)[r * n + c] == prefix[r * n + c]
    ensures r == rows ==> (prefix + row)[r * n + c] == row[c]
  {
    if r < rows {
      RowMajorBelow(n, r, c, rows);
    } else {
      assert r * n + c == |prefix| + c;
    }
  }

  /** The flat index determines its row and column: division and remainder by `n`
      recover them. */
  lemma {:induction false} RowMajorDivMod(n: nat, r: nat, c: nat)
    requires c < n
    ensures (r * n + c) / n == r && (r * n + c) % n == c
  {
    var k := r * n + c;
    var q, m := k / n, k % n;
    assert k == q * n + m;
    assert 0 <= m < n;
    if q < r {
      assert (q + 1) * n == q * n + n;
      MulMonotone(q + 1, r, n);
    } else if q > r {
      assert (r + 1) * n == r * n + n;
      MulMonotone(r + 1, q, n);
    }
    assert q == r;
  }

  /** The row of an index inside the buffer is a row of the grid. */
  lemma DivInRange(n: nat, k: nat)
    requires k < n * n
    ensures k / n < n && k % n < n
  {
    assert k == (k / n) * n + k % n;
    if k / n >= n {
      MulMonotone(n, k / n, n);
    }
  }

  /** The element of a list of `n * n` entries at position `i * n + j`. */
  function At<T>(s: seq<T>, n: nat, i: nat, j: nat): T
    requires |s| == n * n && i < n && j < n
  {
    RowMajorInBounds(n, i, j);
    s[i * n + j]
  }
}
