/**
 * The tile boxes a split export cuts out of the working image: a grid of
 * `tile` by `tile` squares, visited row by row, numbered from one.
 */
module Tiles {
  import opened Arith
  import opened Raster

  /** The box of the tile in column `x` and row `y`. */
  function TileBox(x: int, y: int, tile: int): (b: Box)
    ensures b.right - b.left == tile && b.bottom - b.top == tile
  {
    Box(x * tile, y * tile, (x + 1) * tile, (y + 1) * tile)
  }

  /** The box of the tile at 0-based position `n` in row-major order (tile number `n + 1`). */
  function TileOf(n: nat, gridW: nat, tile: nat): (b: Box)
    requires gridW > 0
    ensures b.right - b.left == tile && b.bottom - b.top == tile
    ensures 0 <= b.left && b.right <= gridW * tile && 0 <= b.top
  {
    MulMono(n % gridW + 1, gridW, tile);
    MulSucc(n % gridW, tile);
    MulSucc(n / gridW, tile);
    TileBox(n % gridW, n / gridW, tile)
  }

  /** Tile boxes never have their right edge left of their left edge, so PIL accepts them. */
  lemma TileWellOrdered(x: nat, y: nat, tile: nat)
    ensures WellOrdered(TileBox(x, y, tile))
  {
    MulMono(x, x + 1, tile);
    MulMono(y, y + 1, tile);
  }

  predicate Inside(b: Box, px: int, py: int) {
    b.left <= px < b.right && b.top <= py < b.bottom
  }

  /** Row-major order: the tile in column `x` of row `y` is at position `y * grid_w + x`. */
  lemma TileOrder(x: nat, y: nat, gridW: nat, tile: nat)
    requires x < gridW
    ensures TileOf(y * gridW + x, gridW, tile) == TileBox(x, y, tile)
  {
    RowMajor(x, y, gridW);
  }

  /** Every tile is a `tile` by `tile` square inside the grid's rectangle. */
  lemma TileShape(n: nat, gridW: nat, gridH: nat, tile: nat)
    requires gridW > 0 && n < gridW * gridH
    ensures var b := TileOf(n, gridW, tile);
      && b.right - b.left == tile && b.bottom - b.top == tile
      && 0 <= b.left && b.right <= gridW * tile
      && 0 <= b.top && b.bottom <= gridH * tile
  {
    var x, y := n % gridW, n / gridW;
    DivBelow(n, gridW, gridH);
    MulMono(x + 1, gridW, tile);
    MulMono(y + 1, gridH, tile);
    MulSucc(x, tile);
    MulSucc(y, tile);
    assert TileOf(n, gridW, tile) == Box(x * tile, y * tile, (x + 1) * tile, (y + 1) * tile);
  }

  /** Two different tiles share no pixel. */
  lemma TilesDisjoint(n: nat, m: nat, gridW: nat, tile: nat, px: int, py: int)
    requires gridW > 0 && tile > 0 && n != m
    ensures !(Inside(TileOf(n, gridW, tile), px, py) && Inside(TileOf(m, gridW, tile), px, py))
  {
    var xn, yn, xm, ym := n % gridW, n / gridW, m % gridW, m / gridW;
    assert TileOf(n, gridW, tile) == TileBox(xn, yn, tile) && TileOf(m, gridW, tile) == TileBox(xm, ym, tile);
    if Inside(TileBox(xn, yn, tile), px, py) && Inside(TileBox(xm, ym, tile), px, py) {
      InsideCell(xn, yn, tile, px, py);
      InsideCell(xm, ym, tile, px, py);
      assert xn == xm && yn == ym;
      DivMod(n, gridW);
      DivMod(m, gridW);
    }
  }

  /** A pixel inside the tile in column `x` of row `y` has column `px / tile == x` and row `py / tile == y`. */
  lemma InsideCell(x: nat, y: nat, tile: nat, px: int, py: int)
    requires tile > 0 && Inside(TileBox(x, y, tile), px, py)
    ensures px >= 0 && py >= 0 && px / tile == x && py / tile == y
  {
    MulSucc(x, tile);
    MulSucc(y, tile);
    CellOf(px, tile, x);
    CellOf(py, tile, y);
  }

  /**
   * Every pixel of the grid's rectangle lies in a tile: the one in column
   * `px / tile` of row `py / tile`, which is tile number
   * `(py / tile) * grid_w + px / tile + 1` by `TileOrder`.
   */
  lemma TilesCover(px: nat, py: nat, gridW: nat, gridH: nat, tile: nat)
    requires gridW > 0 && tile > 0
    requires px < gridW * tile && py < gridH * tile
    ensures px / tile < gridW && py / tile < gridH
    ensures (py / tile) * gridW + px / tile < gridW * gridH
    ensures Inside(TileBox(px / tile, py / tile, tile), px, py)
  {
    var cx, cy := px / tile, py / tile;
    DivBelow(px, tile, gridW);
    DivBelow(py, tile, gridH);
    CellBounds(px, tile);
    CellBounds(py, tile);
    RowMajorBound(cx, cy, gridW, gridH);
    assert TileBox(cx, cy, tile) == Box(cx * tile, cy * tile, (cx + 1) * tile, (cy + 1) * tile);
  }

  /**
   * Slicing loses nothing: a tile's pixels are the working image's pixels of
   * its box (inside the image, so never padding), and every pixel of the
   * working image is found again in the one tile that covers it.
   */
  lemma TilePixels(work: Image, gridW: nat, gridH: nat, tile: nat, n: nat, i: nat, j: nat)
    requires gridW > 0 && tile > 0 && n < gridW * gridH
    requires work.width == gridW * tile && work.height == gridH * tile
    requires i < tile && j < tile
    ensures var b := TileOf(n, gridW, tile);
      && WellOrdered(b)
      && 0 <= b.left + i < work.width && 0 <= b.top + j < work.height
      && At(Crop(work, b), i, j) == At(work, b.left + i, b.top + j)
  {
    var b := TileOf(n, gridW, tile);
    TileShape(n, gridW, gridH, tile);
    CropInside(work, b, i, j);
  }

  lemma TileBoxPixels(work: Image, gridW: nat, gridH: nat, tile: nat, x: nat, y: nat, i: nat, j: nat)
    requires x < gridW && y < gridH && i < tile && j < tile
    requires work.width == gridW * tile && work.height == gridH * tile
    ensures WellOrdered(TileBox(x, y, tile))
    ensures At(Crop(work, TileBox(x, y, tile)), i, j) == At(work, x * tile + i, y * tile + j)
  {
    var b := TileBox(x, y, tile);
    assert b.right == b.left + tile && b.bottom == b.top + tile;
    CropAt(work, b, i, j);
  }

  lemma WorkPixelInItsTile(work: Image, gridW: nat, gridH: nat, tile: nat, px: nat, py: nat)
    requires gridW > 0 && tile > 0
    requires work.width == gridW * tile && work.height == gridH * tile
    requires px < work.width && py < work.height
    ensures WellOrdered(TileBox(px / tile, py / tile, tile))
    ensures At(Crop(work, TileBox(px / tile, py / tile, tile)), px % tile, py % tile) == At(work, px, py)
  {
    TilesCover(px, py, gridW, gridH, tile);
    DivMod(px, tile);
    DivMod(py, tile);
    TileBoxPixels(work, gridW, gridH, tile, px / tile, py / tile, px % tile, py % tile);
  }
}
