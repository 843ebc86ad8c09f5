/** Small facts about Euclidean division used by the row-major layouts. */
module Arith {

  /** Multiplication by a non-negative factor is monotone. */
  lemma MulLe(a: int, b: int, c: int)
    requires a <= b && 0 <= c
    ensures a * c <= b * c
  {
  }

  /** A quotient/remainder pair with the remainder in range is the one division computes. */
  lemma DivMod(q: int, r: int, w: int)
    requires 0 < w && 0 <= r < w
    ensures (w * q + r) / w == q
    ensures (w * q + r) % w == r
  {
    var n := w * q + r;
    var q' := n / w;
    var r' := n % w;
    assert n == w * q' + r';
    if q' < q {
      MulLe(q' + 1, q, w);
    } else if q' > q {
      MulLe(q + 1, q', w);
    }
  }

  /** The row-major offset of an in-range cell stays inside the grid. */
  lemma RowMajorBound(x: int, y: int, w: int, h: int)
    requires 0 <= x < w && 0 <= y < h
    ensures 0 <= x + w * y < w * h
  {
    MulLe(y, h - 1, w);
    MulLe(0, y, w);
  }

  /** A lower bound on the dividend bounds the quotient from below. */
  lemma DivLower(n: int, w: int, q: int)
    requires 0 < w && w * q <= n
    ensures q <= n / w
  {
    var q' := n / w;
    assert n == w * q' + n % w;
    if q' < q {
      MulLe(q' + 1, q, w);
    }
  }

  /** A strict upper bound on the dividend bounds the quotient from above. */
  lemma DivUpper(n: int, w: int, q: int)
    requires 0 < w && 0 <= n < w * q
    ensures 0 <= n / w < q
  {
    var q' := n / w;
    assert n == w * q' + n % w;
    if q' >= q {
      MulLe(q, q', w);
    }
    if q' < 0 {
      MulLe(q', -1, w);
    }
  }

  /** Dividing by a larger divisor gives no larger quotient. */
  lemma DivAntitone(n: int, w: int)
    requires 0 < w && 0 <= n
    ensures n / (w + 1) <= n / w
  {
    var q := n / (w + 1);
    assert n == (w + 1) * q + n % (w + 1);
    assert 0 <= q;
    MulLe(w, w + 1, q);
    DivLower(n, w, q);
  }

  /** With no more columns than rows, reading w + 1 characters per row as w per row finds an extra row. */
  lemma RowOvershoot(w: int, h: int)
    requires 1 <= w <= h
    ensures h < (w + 1) * h / w
  {
    assert (w + 1) * h == w * h + h;
    MulLe(w, h, 1);
    assert w * (h + 1) == w * h + w;
    DivLower((w + 1) * h, w, h + 1);
  }

  /** With fewer rows than columns, w + 1 characters per row read as w per row give back the row count. */
  lemma RowExact(w: int, h: int)
    requires 0 <= h < w
    ensures (w + 1) * h / w == h
  {
    assert (w + 1) * h == w * h + h;
    DivMod(h, h, w);
  }
}
