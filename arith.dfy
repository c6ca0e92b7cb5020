/** Facts about multiplication and division that the solver does not find unaided. */
module Arith {

  lemma MulMono(a: nat, b: nat, c: nat)
    requires a <= b
    ensures a * c <= b * c
  {
  }

  lemma MulSucc(a: nat, c: nat)
    ensures (a + 1) * c == a * c + c && a * c >= 0
  {
  }

  /** `n / d` stays below `c` when `n` is below `c * d`. */
  lemma DivBelow(n: nat, d: nat, c: nat)
    requires d > 0 && n < c * d
    ensures n / d < c
  {
    var q, m := n / d, n % d;
    assert n == q * d + m;
    if q >= c {
      MulMono(c, q, d);
    }
  }

  /** The quotient is the only `q` with `num == q * d + m` and `m < d`. */
  lemma DivUnique(num: nat, d: nat, q: nat, m: nat)
    requires d > 0 && m < d && num == q * d + m
    ensures num / d == q && num % d == m
  {
    var q', m' := num / d, num % d;
    assert num == q' * d + m';
    if q' > q {
      MulMono(1, q' - q, d);
    } else if q' < q {
      MulMono(1, q - q', d);
    }
  }

  /** Row-major indices: `y * w + x` with `x < w` has column `x` and row `y`. */
  lemma RowMajor(x: nat, y: nat, w: nat)
    requires x < w
    ensures (y * w + x) / w == y && (y * w + x) % w == x
  {
    DivUnique(y * w + x, w, y, x);
  }

  /** A row-major index stays below `w * h`. */
  lemma RowMajorBound(x: nat, y: nat, w: nat, h: nat)
    requires x < w && y < h
    ensures y * w + x < w * h
  {
    MulMono(y + 1, h, w);
  }

  lemma DivMod(p: nat, s: nat)
    requires s > 0
    ensures p == (p / s) * s + p % s && p % s < s
  {
  }

  /** A point below `w * s` by `h * s` lies in cell `(px / s, py / s)` of a `w` by `h` grid, at offset `(px % s, py % s)`. */
  lemma GridCell(px: nat, py: nat, s: nat, w: nat, h: nat)
    requires s > 0 && px < w * s && py < h * s
    ensures px / s < w && py / s < h && px % s < s && py % s < s
    ensures px == (px / s) * s + px % s && py == (py / s) * s + py % s
  {
    DivBelow(px, s, w);
    DivBelow(py, s, h);
  }

  /** `p` lies in cell `p / s`: between `(p / s) * s` and `(p / s + 1) * s`. */
  lemma CellBounds(p: nat, s: nat)
    requires s > 0
    ensures (p / s) * s <= p < (p / s + 1) * s
  {
    DivMod(p, s);
    assert (p / s + 1) * s == (p / s) * s + s;
  }

  /** Every coordinate lies in one cell of width `s`: `p / s`. */
  lemma CellOf(p: nat, s: nat, x: nat)
    requires s > 0 && x * s <= p < (x + 1) * s
    ensures p / s == x
  {
    DivUnique(p, s, x, p - x * s);
  }
}
