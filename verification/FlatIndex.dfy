/** Row-major indexing: a row number and a place in the row make one index, and
    division takes it apart again. */
module FlatIndex {

  function Flat(row: nat, width: nat, column: nat): nat { row * width + column }

  lemma MultipleAtLeast(a: int, n: nat)
    requires a >= 1
    ensures a * n >= n
  {
    assert a * n == (a - 1) * n + n;
    assert (a - 1) * n >= 0;
  }

  lemma Distribute(a: int, b: int, n: int)
    ensures (a - b) * n == a * n - b * n
  {
  }

  lemma QuotientUnique(q: int, r: int, p: int, s: int, n: nat)
    requires q * n + r == p * n + s && 0 <= r < n && 0 <= s < n
    ensures q == p && r == s
  {
    if q > p {
      Distribute(q, p, n);
      MultipleAtLeast(q - p, n);
    } else if q < p {
      Distribute(p, q, n);
      MultipleAtLeast(p - q, n);
    }
  }

  lemma FlatParts(row: nat, width: nat, column: nat)
    requires column < width
    ensures Flat(row, width, column) / width == row && Flat(row, width, column) % width == column
  {
    var i := Flat(row, width, column);
    assert i == (i / width) * width + i % width;
    QuotientUnique(i / width, i % width, row, column, width);
  }

  lemma FlatBound(row: nat, rows: nat, width: nat, column: nat)
    requires row < rows && column < width
    ensures Flat(row, width, column) < rows * width
  {
    Distribute(rows, row, width);
    MultipleAtLeast(rows - row, width);
  }
}
