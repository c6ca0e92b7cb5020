/**
 * The converter calls an export makes, as values: which PNG the converter
 * reads, which `.paint` file it writes, under which title and author, for
 * which canvas type, and the pixels the PNG holds.
 */
module Plan {
  import opened Arith
  import opened Canvas
  import opened Raster
  import opened Tiles
  import opened Paths
  import opened Names

  /** One `importImage(png_path, out_path, title, author, canvas_type)` call, with the pixels of `png_path`. */
  datatype Call = Call(source: string, target: string, title: string, author: string, canvas: CanvasType, image: Image)

  /** The one call of a single-canvas export: the whole image resized to `w` by `h`. */
  function SingleCall(img: Image, w: nat, h: nat, title: string, author: string, outputDir: string): (c: Call)
    requires img.width > 0 && img.height > 0 && w > 0 && h > 0
    ensures c.image.width == w && c.image.height == h
    ensures c.source != c.target
    ensures c.title == title && c.author == author && c.canvas == GetCanvasType(w, h)
    ensures c.source == Join(outputDir, SingleTempName) && c.target == Join(outputDir, PaintFile(title))
  {
    SingleFilesDiffer(outputDir, title);
    Call(Join(outputDir, SingleTempName), Join(outputDir, PaintFile(title)), title, author,
         GetCanvasType(w, h), Resize(img, w, h))
  }

  /** The temporary PNG ends in `g` and the `.paint` file in `t`, so they are never the same file. */
  lemma SingleFilesDiffer(outputDir: string, title: string)
    ensures Join(outputDir, SingleTempName) != Join(outputDir, PaintFile(title))
  {
    var source, target := Join(outputDir, SingleTempName), Join(outputDir, PaintFile(title));
    assert source[|source| - 1] == 'g';
    assert target[|target| - 1] == 't';
  }

  /**
   * The single-canvas image is stretched, never cropped: pixel `(x, y)` is the
   * source pixel nearest to its centre, so every part of the image is sampled.
   */
  lemma SingleCallStretches(img: Image, w: nat, h: nat, title: string, author: string, outputDir: string, x: nat, y: nat)
    requires img.width > 0 && img.height > 0 && w > 0 && h > 0
    requires x < w && y < h
    ensures var sx, sy := NearestSource(x, w, img.width), NearestSource(y, h, img.height);
      && sx < img.width && sy < img.height
      && At(SingleCall(img, w, h, title, author, outputDir).image, x, y) == At(img, sx, sy)
  {
    ResizeCopiesSourcePixels(img, w, h, x, y);
  }

  /** The call for tile number `n + 1` of a split export. */
  function SplitCall(work: Image, gridW: nat, tile: nat, title: string, author: string,
                     outputDir: string, tempDir: string, n: nat): (c: Call)
    requires gridW > 0
    ensures c.image.width == tile && c.image.height == tile
    ensures c.title == NumberedTitle(title, n + 1) && c.author == author && c.canvas == GetCanvasType(tile, tile)
    ensures c.source == Join(tempDir, TileFileName(n + 1)) && c.target == Join(outputDir, PaintFile(c.title))
  {
    var k := n + 1;
    var t := NumberedTitle(title, k);
    TileWellOrdered(n % gridW, n / gridW, tile);
    Call(Join(tempDir, TileFileName(k)), Join(outputDir, PaintFile(t)), t, author,
         GetCanvasType(tile, tile), Crop(work, TileOf(n, gridW, tile)))
  }

  /** All calls of a split export of a `gridW` by `gridH` grid, in the order they are made. */
  function SplitCalls(work: Image, gridW: nat, gridH: nat, tile: nat, title: string, author: string,
                      outputDir: string, tempDir: string): (plan: seq<Call>)
    requires gridW > 0
    ensures |plan| == gridW * gridH
  {
    seq(gridW * gridH, n requires 0 <= n < gridW * gridH =>
      SplitCall(work, gridW, tile, title, author, outputDir, tempDir, n))
  }

  /**
   * The nested loop's order: the call for column `x` of row `y` comes at
   * position `y * grid_w + x`, is numbered `y * grid_w + x + 1`, and carries
   * the box of that column and row.
   */
  lemma SplitCallsOrder(work: Image, gridW: nat, gridH: nat, tile: nat, title: string, author: string,
                        outputDir: string, tempDir: string, x: nat, y: nat)
    requires x < gridW && y < gridH
    ensures var plan := SplitCalls(work, gridW, gridH, tile, title, author, outputDir, tempDir);
      var k := y * gridW + x;
      && WellOrdered(TileBox(x, y, tile))
      && k < |plan|
      && plan[k] == Call(Join(tempDir, TileFileName(k + 1)),
                         Join(outputDir, PaintFile(NumberedTitle(title, k + 1))),
                         NumberedTitle(title, k + 1), author, GetCanvasType(tile, tile),
                         Crop(work, TileBox(x, y, tile)))
  {
    RowMajorBound(x, y, gridW, gridH);
    TileOrder(x, y, gridW, tile);
    TileWellOrdered(x, y, tile);
    var plan := SplitCalls(work, gridW, gridH, tile, title, author, outputDir, tempDir);
    assert plan[y * gridW + x] == SplitCall(work, gridW, tile, title, author, outputDir, tempDir, y * gridW + x);
  }

  /** The call for column `x` of row `y` sends the crop of that tile's box. */
  lemma SplitCallImage(work: Image, gridW: nat, gridH: nat, tile: nat, title: string, author: string,
                       outputDir: string, tempDir: string, x: nat, y: nat)
    requires x < gridW && y < gridH
    ensures var plan := SplitCalls(work, gridW, gridH, tile, title, author, outputDir, tempDir);
      && WellOrdered(TileBox(x, y, tile))
      && y * gridW + x < |plan|
      && plan[y * gridW + x].image == Crop(work, TileBox(x, y, tile))
  {
    SplitCallsOrder(work, gridW, gridH, tile, title, author, outputDir, tempDir, x, y);
  }

  /**
   * Every call of a split export reads a PNG of its own inside the temporary
   * directory, writes a `.paint` file of its own, and is sent a
   * `tile` by `tile` image of the canvas type of a `tile` by `tile` square.
   */
  lemma SplitCallsShape(work: Image, gridW: nat, gridH: nat, tile: nat, title: string, author: string,
                        outputDir: string, tempDir: string, n: nat)
    requires gridW > 0 && n < gridW * gridH
    ensures var c := SplitCalls(work, gridW, gridH, tile, title, author, outputDir, tempDir)[n];
      && Under(c.source, tempDir)
      && c.image.width == tile && c.image.height == tile
      && c.canvas == GetCanvasType(tile, tile)
      && c.author == author
  {
    TempTileUnder(tempDir, n + 1);
    TileShape(n, gridW, gridH, tile);
  }

  /** The temporary PNG of tile `k` lies inside the temporary directory. */
  lemma TempTileUnder(tempDir: string, k: nat)
    ensures Under(Join(tempDir, TileFileName(k)), tempDir)
  {
    var name := TileFileName(k);
    assert name[0] == 't';
    JoinUnder(tempDir, name);
  }

  /** Different tile numbers give different temporary PNG paths and different output paths. */
  lemma NumberedPathsDistinct(title: string, outputDir: string, tempDir: string, k1: nat, k2: nat)
    requires k1 != k2
    ensures Join(tempDir, TileFileName(k1)) != Join(tempDir, TileFileName(k2))
    ensures Join(outputDir, PaintFile(NumberedTitle(title, k1))) != Join(outputDir, PaintFile(NumberedTitle(title, k2)))
    ensures NumberedTitle(title, k1) != NumberedTitle(title, k2)
  {
    NumberedNamesDistinct(title, k1, k2);
    var f1, f2 := TileFileName(k1), TileFileName(k2);
    assert f1[0] == 't' && f2[0] == 't';
    if Join(tempDir, f1) == Join(tempDir, f2) {
      JoinInjective(tempDir, f1, f2);
    }
    var p1, p2 := PaintFile(NumberedTitle(title, k1)), PaintFile(NumberedTitle(title, k2));
    assert p1[0] == p2[0] by {
      assert (title + "_")[0] == p1[0] && (title + "_")[0] == p2[0];
    }
    if Join(outputDir, p1) == Join(outputDir, p2) {
      JoinInjective(outputDir, p1, p2);
    }
  }

  /** No two calls of a split export share a temporary PNG, an output file or a title. */
  lemma SplitCallsDistinct(work: Image, gridW: nat, gridH: nat, tile: nat, title: string, author: string,
                           outputDir: string, tempDir: string, n: nat, m: nat)
    requires gridW > 0 && n < gridW * gridH && m < gridW * gridH && n != m
    ensures var plan := SplitCalls(work, gridW, gridH, tile, title, author, outputDir, tempDir);
      && plan[n].source != plan[m].source
      && plan[n].target != plan[m].target
      && plan[n].title != plan[m].title
  {
    var plan := SplitCalls(work, gridW, gridH, tile, title, author, outputDir, tempDir);
    assert plan[n] == SplitCall(work, gridW, tile, title, author, outputDir, tempDir, n);
    assert plan[m] == SplitCall(work, gridW, tile, title, author, outputDir, tempDir, m);
    NumberedPathsDistinct(title, outputDir, tempDir, n + 1, m + 1);
  }

  /** The call at position `n` of `plan` exists and sends pixel `p` at column `i`, row `j`. */
  predicate SendsPixel(plan: seq<Call>, n: int, i: int, j: int, p: Pixel) {
    0 <= n < |plan| && At(plan[n].image, i, j) == p
  }

  /**
   * Pixel `(i, j)` of the tile in column `x` of row `y` is pixel
   * `(px, py) == (x * tile + i, y * tile + j)` of the working image.
   */
  lemma SplitCallPixel(work: Image, gridW: nat, gridH: nat, tile: nat, title: string, author: string,
                       outputDir: string, tempDir: string, x: nat, y: nat, i: nat, j: nat, px: nat, py: nat)
    requires x < gridW && y < gridH && i < tile && j < tile
    requires px == x * tile + i && py == y * tile + j
    requires work.width == gridW * tile && work.height == gridH * tile
    ensures SendsPixel(SplitCalls(work, gridW, gridH, tile, title, author, outputDir, tempDir),
                       y * gridW + x, i, j, At(work, px, py))
  {
    SplitCallImage(work, gridW, gridH, tile, title, author, outputDir, tempDir, x, y);
    TileBoxPixels(work, gridW, gridH, tile, x, y, i, j);
  }

  /**
   * Together the tiles hold the whole working image: pixel `(px, py)` is
   * sent at `(px % tile, py % tile)` by the call of the tile that covers it,
   * the one in column `px / tile` of row `py / tile`.
   */
  lemma SplitCallsCover(work: Image, gridW: nat, gridH: nat, tile: nat, title: string, author: string,
                        outputDir: string, tempDir: string, px: nat, py: nat)
    requires gridW > 0 && tile > 0
    requires work.width == gridW * tile && work.height == gridH * tile
    requires px < work.width && py < work.height
    ensures var plan := SplitCalls(work, gridW, gridH, tile, title, author, outputDir, tempDir);
      SendsPixel(plan, (py / tile) * gridW + px / tile, px % tile, py % tile, At(work, px, py))
  {
    GridCell(px, py, tile, gridW, gridH);
    SplitCallPixel(work, gridW, gridH, tile, title, author, outputDir, tempDir,
                   px / tile, py / tile, px % tile, py % tile, px, py);
  }

  /** Tiles of 32 are sent as large canvases and tiles of 16 as small ones. */
  lemma SplitCanvasTypes(tile: nat)
    ensures tile == 32 ==> GetCanvasType(tile, tile) == Large
    ensures tile == 16 ==> GetCanvasType(tile, tile) == Small
  {
  }
}
