/**
 * Row-major addressing of a width-by-height field. Every `(x, y)` accessor of
 * the layer classes reads or writes the node at flat index `x + y * width`;
 * the lemmas here say that on a field of `width * height` nodes this
 * addressing reaches every node exactly once. `DivModUnique`, the fact
 * about Euclidean division behind them, is also used on its own elsewhere.
 */
module Grid {
  /** The flat index an `(x, y)` accessor computes: column `x` of row `y`. */
  function FlatIndex(x: int, y: int, width: int): int {
    x + y * width
  }

  predicate InGrid(x: int, y: int, width: int, height: int) {
    0 <= x < width && 0 <= y < height
  }

  /** Products of non-negative factors grow with the first factor. */
  lemma MulMonotone(a: int, b: int, c: int)
    requires 0 <= a <= b && 0 <= c
    ensures a * c <= b * c
  {
  }

  /**
   * Euclidean division is unique: a number written as `r + q * d` with
   * `0 <= r < d` has quotient `q` and remainder `r`.
   */
  lemma DivModUnique(q: int, r: int, d: int)
    requires 0 <= r < d
    ensures (r + q * d) / d == q
    ensures (r + q * d) % d == r
  {
    var i := r + q * d;
    var q', r' := i / d, i % d;
    assert i == q' * d + r';
    assert (q - q') * d == r' - r;
    if q > q' {
      MulMonotone(1, q - q', d);
      assert false;
    } else if q < q' {
      MulMonotone(1, q' - q, d);
      assert false;
    }
  }

  /** Division by `width` recovers the row and the remainder the column. */
  lemma CoordinatesOfFlatIndex(x: int, y: int, width: int)
    requires 0 <= x < width && 0 <= y
    ensures FlatIndex(x, y, width) % width == x
    ensures FlatIndex(x, y, width) / width == y
  {
    DivModUnique(y, x, width);
  }

  /** A coordinate inside the grid addresses a node of the field. */
  lemma FlatIndexInField(x: int, y: int, width: int, height: int)
    requires InGrid(x, y, width, height)
    ensures 0 <= FlatIndex(x, y, width) < width * height
  {
    MulMonotone(y, height - 1, width);
    MulMonotone(0, y, width);
    assert (height - 1) * width + width == width * height;
  }

  /** Two coordinates inside the grid that address the same node are the same coordinate. */
  lemma FlatIndexInjective(x1: int, y1: int, x2: int, y2: int, width: int, height: int)
    requires InGrid(x1, y1, width, height) && InGrid(x2, y2, width, height)
    requires FlatIndex(x1, y1, width) == FlatIndex(x2, y2, width)
    ensures x1 == x2 && y1 == y2
  {
    CoordinatesOfFlatIndex(x1, y1, width);
    CoordinatesOfFlatIndex(x2, y2, width);
  }

  /** Every node of the field is addressed by some coordinate inside the grid. */
  lemma FlatIndexCovers(i: int, width: int, height: int)
    requires 0 < width && 0 <= i < width * height
    ensures InGrid(i % width, i / width, width, height)
    ensures FlatIndex(i % width, i / width, width) == i
  {
  }
}
