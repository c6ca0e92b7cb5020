/**
 * RGBA images and the two image operations the pipeline uses: cropping a box
 * (pixels outside the source come out fully transparent) and nearest-neighbour
 * resizing.
 */
module Raster {
  import opened Arith

  newtype Byte = x: int | 0 <= x < 256

  datatype Pixel = Pixel(r: Byte, g: Byte, b: Byte, a: Byte)

  const Transparent := Pixel(0, 0, 0, 0)

  datatype Bitmap = Bitmap(width: nat, height: nat, rows: seq<seq<Pixel>>)

  /** An RGBA image: `height` rows of `width` pixels each. */
  type Image = i: Bitmap | |i.rows| == i.height && forall y :: 0 <= y < |i.rows| ==> |i.rows[y]| == i.width
    witness Bitmap(0, 0, [])

  /** The pixel at column `x`, row `y`; transparent outside the image. */
  function At(img: Image, x: int, y: int): Pixel {
    if 0 <= x < img.width && 0 <= y < img.height then img.rows[y][x] else Transparent
  }

  /** A box `(left, top, right, bottom)` as PIL takes it: right and bottom are exclusive. */
  datatype Box = Box(left: int, top: int, right: int, bottom: int)

  predicate WellOrdered(b: Box) {
    b.left <= b.right && b.top <= b.bottom
  }

  /** `Image.crop(box)`: pixel `(x, y)` of the result is pixel `(left + x, top + y)` of `img`. */
  function Crop(img: Image, box: Box): (r: Image)
    requires WellOrdered(box)
    ensures r.width == box.right - box.left && r.height == box.bottom - box.top
  {
    var w, h := box.right - box.left, box.bottom - box.top;
    var rows := seq(h, y requires 0 <= y < h => seq(w, x requires 0 <= x < w => At(img, box.left + x, box.top + y)));
    assert forall y :: 0 <= y < |rows| ==> |rows[y]| == w;
    Bitmap(w, h, rows)
  }

  /** Every pixel of a crop is the source pixel at the shifted position, or transparent off the source. */
  lemma CropAt(img: Image, box: Box, x: int, y: int)
    requires WellOrdered(box)
    requires 0 <= x < box.right - box.left && 0 <= y < box.bottom - box.top
    ensures At(Crop(img, box), x, y) == At(img, box.left + x, box.top + y)
    ensures !(0 <= box.left + x < img.width && 0 <= box.top + y < img.height) ==> At(Crop(img, box), x, y) == Transparent
  {
  }

  /** A box that lies inside the image is cut out without padding. */
  lemma CropInside(img: Image, box: Box, x: nat, y: nat)
    requires WellOrdered(box) && 0 <= box.left && 0 <= box.top
    requires box.right <= img.width && box.bottom <= img.height
    requires x < box.right - box.left && y < box.bottom - box.top
    ensures box.left + x < img.width && box.top + y < img.height
    ensures At(Crop(img, box), x, y) == img.rows[box.top + y][box.left + x]
  {
    var c := Crop(img, box);
    assert c.rows[y][x] == At(img, box.left + x, box.top + y);
  }

  /** Cropping the whole image gives the image back. */
  lemma CropWhole(img: Image)
    ensures Crop(img, Box(0, 0, img.width, img.height)) == img
  {
    var r := Crop(img, Box(0, 0, img.width, img.height));
    forall y | 0 <= y < img.height ensures r.rows[y] == img.rows[y] {
      forall x | 0 <= x < img.width ensures r.rows[y][x] == img.rows[y][x] {
        assert r.rows[y][x] == At(img, x, y);
      }
    }
  }

  /**
   * The source coordinate PIL's nearest-neighbour filter samples for
   * destination coordinate `i`: the centre `i + 0.5` scaled by `src / dst`,
   * rounded down.
   */
  function NearestSource(i: nat, dst: nat, src: nat): (k: nat)
    requires i < dst
    ensures src > 0 ==> k < src
  {
    NearestBound(i, dst, src);
    ((2 * i + 1) * src) / (2 * dst)
  }

  lemma NearestBound(i: nat, dst: nat, src: nat)
    requires i < dst
    ensures src > 0 ==> ((2 * i + 1) * src) / (2 * dst) < src
  {
    if src > 0 {
      MulMono(2 * i + 2, 2 * dst, src);
      DivBelow((2 * i + 1) * src, 2 * dst, src);
    }
  }

  /** Without scaling, the nearest source coordinate is the coordinate itself. */
  lemma NearestSameSize(i: nat, n: nat)
    requires i < n
    ensures NearestSource(i, n, n) == i
  {
    DivUnique((2 * i + 1) * n, 2 * n, i, n);
  }

  /**
   * `Image.resize((w, h), Image.NEAREST)`: PIL refuses an empty source or an
   * empty target; every result pixel is the source pixel nearest to its centre.
   */
  function Resize(img: Image, w: nat, h: nat): (r: Image)
    requires img.width > 0 && img.height > 0 && w > 0 && h > 0
    ensures r.width == w && r.height == h
  {
    Bitmap(w, h, seq(h, y requires 0 <= y < h =>
      seq(w, x requires 0 <= x < w => img.rows[NearestSource(y, h, img.height)][NearestSource(x, w, img.width)])))
  }

  /** Nearest-neighbour resizing only ever copies pixels of the source: it invents no colour. */
  lemma ResizeCopiesSourcePixels(img: Image, w: nat, h: nat, x: nat, y: nat)
    requires img.width > 0 && img.height > 0 && w > 0 && h > 0
    requires x < w && y < h
    ensures var sx, sy := NearestSource(x, w, img.width), NearestSource(y, h, img.height);
      sx < img.width && sy < img.height && At(Resize(img, w, h), x, y) == At(img, sx, sy)
  {
  }

  /** Resizing an image to its own size gives the image back. */
  lemma ResizeSameSize(img: Image)
    requires img.width > 0 && img.height > 0
    ensures Resize(img, img.width, img.height) == img
  {
    var r := Resize(img, img.width, img.height);
    forall y | 0 <= y < img.height ensures r.rows[y] == img.rows[y] {
      NearestSameSize(y, img.height);
      forall x | 0 <= x < img.width ensures r.rows[y][x] == img.rows[y][x] {
        NearestSameSize(x, img.width);
      }
    }
  }
}
