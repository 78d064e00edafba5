/** Facts about multiplication and Euclidean division that the row-major
    layouts rest on. Python's `//` and `%` by a positive divisor agree with
    Dafny's `/` and `%`. */
module Arith {

  lemma MulAtLeast(a: int, d: int)
    requires a >= 1 && d > 0
    ensures a * d >= d
  {
  }

  /** Quotient and remainder are unique. */
  lemma DivModUnique(k: int, d: int, q: int, r: int)
    requires d > 0 && 0 <= r < d && k == q * d + r
    ensures k / d == q && k % d == r
  {
    var q', r' := k / d, k % d;
    assert (q - q') * d == r' - r;
    if q > q' {
      MulAtLeast(q - q', d);
      assert false;
    } else if q < q' {
      MulAtLeast(q' - q, d);
      assert false;
    }
  }

  lemma DivModStep(k: int, d: int)
    requires d > 0
    ensures (k - d) % d == k % d && (k - d) / d == k / d - 1
  {
    var q := (k - d) / d;
    var r := (k - d) % d;
    assert k == (q + 1) * d + r;
    DivModUnique(k, d, q + 1, r);
  }

  /** A cell of a `width` x `height` grid has a row-major index below
      `width * height`. */
  lemma RowMajorBound(width: int, height: int, x: int, y: int)
    requires 0 <= x < width && 0 <= y < height
    ensures 0 <= x + y * width < width * height
  {
    MulAtLeast(height - y, width);
    assert (height - y) * width == height * width - y * width;
  }
}
