/**
 * The canvas type tag the converter is given with every image: a table from
 * pixel size to one of four tags, with a fallback.
 */
module Canvas {

  /** `JopCanvasType`: the four canvas kinds of the painting format. */
  datatype CanvasType = Small | Large | Tall | Long

  /** The pixel size each canvas kind stands for. */
  function CanvasSize(t: CanvasType): (int, int) {
    match t
    case Small => (16, 16)
    case Large => (32, 32)
    case Tall => (16, 32)
    case Long => (32, 16)
  }

  /**
   * `get_canvas_type(w, h)`: the kind whose size is exactly `(w, h)`, and
   * `Small` for every pair that is none of the four sizes. It never fails.
   */
  function GetCanvasType(w: int, h: int): (t: CanvasType)
    ensures CanvasSize(t) == (w, h) || (t == Small && (w, h) !in {(32, 32), (16, 32), (32, 16)})
  {
    if (w, h) == (16, 16) then Small
    else if (w, h) == (32, 32) then Large
    else if (w, h) == (16, 32) then Tall
    else if (w, h) == (32, 16) then Long
    else Small
  }

  /** Classifying the size of a kind gives that kind back. */
  lemma ClassifySize(t: CanvasType)
    ensures GetCanvasType(CanvasSize(t).0, CanvasSize(t).1) == t
  {
  }

  /** A size that is one of the four canvas sizes is classified as the kind of that size. */
  lemma ClassifyKnownSize(w: int, h: int, t: CanvasType)
    requires CanvasSize(t) == (w, h)
    ensures GetCanvasType(w, h) == t
  {
  }

  /** Every other size falls back to `Small`: for instance a split tile of 8 by 8. */
  lemma ClassifyFallback(w: int, h: int)
    requires forall t: CanvasType :: CanvasSize(t) != (w, h)
    ensures GetCanvasType(w, h) == Small
  {
    assert CanvasSize(Small) != (w, h);
  }
}
