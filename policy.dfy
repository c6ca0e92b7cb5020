/**
 * The working image of a split export (and of the split preview): the image
 * brought to the pixel size of the whole tile grid, by stretching or by
 * cutting out the top-left box, depending on the resize mode.
 */
module Policy {
  import opened Arith
  import opened Grid
  import opened Raster

  /** Modes `"resize"` and `"auto"` stretch; every other mode crops. */
  predicate Stretches(mode: string) {
    mode == "resize" || mode == "auto"
  }

  /** The number of tile rows the grid of an image has. */
  function GridRows(img: Image, gridW: int): (rows: int)
    requires img.width > 0
    ensures rows >= 1
  {
    CalculateGrid(img.width, img.height, gridW).1
  }

  /**
   * The image a split export slices: its size is exactly the tile grid
   * (`grid_w * tile` by `grid_h * tile`).
   */
  function WorkingImage(img: Image, gridW: int, tile: int, mode: string): (r: Image)
    requires img.width > 0 && img.height > 0 && gridW > 0 && tile > 0
    ensures r.width == gridW * tile && r.height == GridRows(img, gridW) * tile
  {
    var tw, th := gridW * tile, GridRows(img, gridW) * tile;
    MulMono(1, gridW, tile);
    MulMono(1, GridRows(img, gridW), tile);
    if Stretches(mode) then Resize(img, tw, th) else Crop(img, Box(0, 0, tw, th))
  }

  /** In mode `"resize"` or `"auto"` every pixel is the nearest-neighbour sample of the image. */
  lemma StretchSamples(img: Image, gridW: int, tile: int, mode: string, x: nat, y: nat)
    requires img.width > 0 && img.height > 0 && gridW > 0 && tile > 0
    requires Stretches(mode)
    requires x < gridW * tile && y < GridRows(img, gridW) * tile
    ensures At(WorkingImage(img, gridW, tile, mode), x, y)
         == At(img, NearestSource(x, gridW * tile, img.width), NearestSource(y, GridRows(img, gridW) * tile, img.height))
  {
  }

  /** `"auto"` is only another name for `"resize"`. */
  lemma AutoIsResize(img: Image, gridW: int, tile: int)
    requires img.width > 0 && img.height > 0 && gridW > 0 && tile > 0
    ensures WorkingImage(img, gridW, tile, "auto") == WorkingImage(img, gridW, tile, "resize")
  {
  }

  /**
   * Every other mode keeps the image's own pixels in place, anchored at the
   * top-left corner; where the grid reaches past the image the pixels are
   * transparent.
   */
  lemma CropKeepsTopLeft(img: Image, gridW: int, tile: int, mode: string, x: nat, y: nat)
    requires img.width > 0 && img.height > 0 && gridW > 0 && tile > 0
    requires !Stretches(mode)
    requires x < gridW * tile && y < GridRows(img, gridW) * tile
    ensures At(WorkingImage(img, gridW, tile, mode), x, y) == At(img, x, y)
    ensures (x >= img.width || y >= img.height) ==> At(WorkingImage(img, gridW, tile, mode), x, y) == Transparent
  {
    MulMono(1, gridW, tile);
    MulMono(1, GridRows(img, gridW), tile);
    CropAt(img, Box(0, 0, gridW * tile, GridRows(img, gridW) * tile), x, y);
  }

  /** An image that already has the size of the grid is used unchanged in every mode. */
  lemma FittingImageUnchanged(img: Image, gridW: int, tile: int, mode: string)
    requires img.width > 0 && img.height > 0 && gridW > 0 && tile > 0
    requires img.width == gridW * tile && img.height == GridRows(img, gridW) * tile
    ensures WorkingImage(img, gridW, tile, mode) == img
  {
    if Stretches(mode) { ResizeSameSize(img); } else { CropWhole(img); }
  }
}
