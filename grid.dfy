/**
 * Grid planning: how many rows of tiles a split export uses for an image, given
 * the number of columns. The window computes
 * `max(1, round(grid_w * (img_h / img_w)))` with Python's `round`, which
 * rounds a tie to the even neighbour; here the quotient is exact.
 */
module Grid {

  /**
   * `r` is `n / d` rounded to the nearest integer, a tie going to the even
   * neighbour: the error `n - r * d` is at most half of `d`, and exactly half
   * only when `r` is even.
   */
  predicate IsRoundedHalfEven(n: int, d: int, r: int)
    requires d > 0
  {
    var e := n - r * d;
    && -d <= 2 * e <= d
    && ((2 * e == d || 2 * e == -d) ==> r % 2 == 0)
  }

  /** Python's `round(n / d)` for an exact rational `n / d`. */
  function RoundHalfEven(n: int, d: int): (r: int)
    requires d > 0
    ensures IsRoundedHalfEven(n, d, r)
  {
    var q, m := n / d, n % d;
    assert n == q * d + m;
    if 2 * m < d then q
    else if 2 * m > d then
      assert n - (q + 1) * d == m - d;
      q + 1
    else if q % 2 == 0 then q
    else
      assert n - (q + 1) * d == m - d;
      q + 1
  }

  /** Round-half-to-even has exactly one answer. */
  lemma RoundedHalfEvenUnique(n: int, d: int, r1: int, r2: int)
    requires d > 0
    requires IsRoundedHalfEven(n, d, r1) && IsRoundedHalfEven(n, d, r2)
    ensures r1 == r2
  {
    RoundedNotBelow(n, d, r1, r2);
    RoundedNotBelow(n, d, r2, r1);
  }

  lemma RoundedNotBelow(n: int, d: int, r1: int, r2: int)
    requires d > 0
    requires IsRoundedHalfEven(n, d, r1) && IsRoundedHalfEven(n, d, r2)
    ensures r2 <= r1
  {
    if r1 < r2 {
      var k := r2 - r1;
      assert k * d == (n - r1 * d) - (n - r2 * d) by { assert k * d == r2 * d - r1 * d; }
      if k >= 2 {
        MulAtLeast(k - 1, d);
      }
    }
  }

  lemma MulAtLeast(k: int, d: int)
    requires k >= 1 && d > 0
    ensures k * d >= d
  {
  }

  /**
   * `calculate_grid(img_w, img_h, grid_w)`: the column count is returned
   * unchanged, and the row count is the aspect-preserving
   * `grid_w * img_h / img_w` rounded half to even, but never below one.
   */
  function CalculateGrid(imgW: int, imgH: int, gridW: int): (g: (int, int))
    requires imgW > 0
    ensures g.0 == gridW
    ensures g.1 >= 1
    ensures g.1 > 1 ==> IsRoundedHalfEven(gridW * imgH, imgW, g.1)
  {
    var rounded := RoundHalfEven(gridW * imgH, imgW);
    (gridW, if rounded > 1 then rounded else 1)
  }

  /**
   * The row count falls back to one exactly when the exact row count
   * `grid_w * img_h / img_w` is below one and a half (one and a half itself
   * rounds to two, its even neighbour).
   */
  lemma {:induction false} SingleRowExactly(imgW: int, imgH: int, gridW: int)
    requires imgW > 0
    ensures CalculateGrid(imgW, imgH, gridW).1 == 1 <==> 2 * (gridW * imgH) < 3 * imgW
  {
    var n := gridW * imgH;
    var r := RoundHalfEven(n, imgW);
    var e := n - r * imgW;
    if r >= 2 {
      assert r * imgW >= 2 * imgW by { MulAtLeast(r - 1, imgW); }
      assert 2 * n >= 3 * imgW;
      if 2 * n == 3 * imgW {
        assert r == 2 by {
          assert IsRoundedHalfEven(n, imgW, 2) by { assert 2 * (n - 2 * imgW) == -imgW; }
          RoundedHalfEvenUnique(n, imgW, r, 2);
        }
      }
    } else {
      assert r * imgW <= imgW by {
        if r <= 0 { assert r * imgW <= 0; } else { assert r == 1; }
      }
    }
  }

  /** A 512 by 256 image over four columns gets two rows. */
  lemma HalfHeightImage()
    ensures CalculateGrid(512, 256, 4) == (4, 2)
  {
  }

  /** Ties go to the even neighbour: 2.5 rows become two, 3.5 become four, 0.5 falls back to one. */
  lemma TiesToEven()
    ensures CalculateGrid(2, 5, 1) == (1, 2)
    ensures CalculateGrid(2, 7, 1) == (1, 4)
    ensures CalculateGrid(2, 1, 1) == (1, 1)
  {
  }
}
