/** Pixel/YOLO box conversions and the drag rule of the desktop labeler. */
module LabelGeometry {
  import opened Numbers

  /** A YOLO label line after its five numbers are read: class, centre and size, as fractions of the image. */
  datatype YoloLine = YoloLine(cls: real, cx: real, cy: real, bw: real, bh: real)

  /** A box in pixel corners with its class. */
  datatype LabelBox = LabelBox(x1: int, y1: int, x2: int, y2: int, cls: int)

  datatype Pixel = Pixel(x: int, y: int)

  /** The class the labeler writes for every box: the ball. */
  const BALL_CLASS: int := 0

  /** Smallest width and height a dragged box must have to be kept. */
  const MIN_BOX_SIDE: int := 3

  /** A YOLO box scaled to pixels: centre and size, not yet rounded. */
  datatype PixelBox = PixelBox(cx: real, cy: real, ww: real, hh: real)

  function ToPixels(l: YoloLine, w: int, h: int): PixelBox {
    PixelBox(l.cx * w as real, l.cy * h as real, l.bw * w as real, l.bh * h as real)
  }

  /**
   * Round each edge half-to-even, then clamp only the left and top edges at 0 and only the
   * right and bottom edges at the last pixel.
   */
  function Corners(p: PixelBox, w: int, h: int, cls: int): (b: LabelBox)
    ensures b.x1 >= 0 && b.y1 >= 0 && b.x2 <= w - 1 && b.y2 <= h - 1
    ensures b.cls == cls
  {
    var x1 := RoundHalfEven(p.cx - p.ww / 2.0);
    var y1 := RoundHalfEven(p.cy - p.hh / 2.0);
    var x2 := RoundHalfEven(p.cx + p.ww / 2.0);
    var y2 := RoundHalfEven(p.cy + p.hh / 2.0);
    LabelBox(Max(0, x1), Max(0, y1), Min(w - 1, x2), Min(h - 1, y2), cls)
  }

  /** `yolo_to_xyxy`: scale to pixels, round and clamp the edges, truncate the class. */
  function YoloToXyxy(l: YoloLine, w: int, h: int): (b: LabelBox)
    ensures b.x1 >= 0 && b.y1 >= 0 && b.x2 <= w - 1 && b.y2 <= h - 1
    ensures 0.0 <= l.cls ==> b.cls as real <= l.cls < b.cls as real + 1.0
  {
    Corners(ToPixels(l, w, h), w, h, Trunc(l.cls))
  }

  /** Each edge not clamped is within half a pixel of the exact edge. */
  lemma CornersNear(p: PixelBox, w: int, h: int, cls: int)
    ensures var b := Corners(p, w, h, cls);
      && (b.x1 == 0 || -0.5 <= b.x1 as real - (p.cx - p.ww / 2.0) <= 0.5)
      && (b.y1 == 0 || -0.5 <= b.y1 as real - (p.cy - p.hh / 2.0) <= 0.5)
      && (b.x2 == w - 1 || -0.5 <= b.x2 as real - (p.cx + p.ww / 2.0) <= 0.5)
      && (b.y2 == h - 1 || -0.5 <= b.y2 as real - (p.cy + p.hh / 2.0) <= 0.5)
  {
  }

  /** `xyxy_to_yolo` before formatting: centre and size as exact fractions of the image. */
  function XyxyToYolo(b: LabelBox, w: int, h: int, cls: int): (l: YoloLine)
    requires w >= 1 && h >= 1
    ensures l.cx * w as real == (b.x1 + b.x2) as real / 2.0 && l.bw * w as real == (b.x2 - b.x1) as real
    ensures l.cy * h as real == (b.y1 + b.y2) as real / 2.0 && l.bh * h as real == (b.y2 - b.y1) as real
    ensures l.cls == cls as real
  {
    YoloLine(cls as real,
             (b.x1 + b.x2) as real / 2.0 / w as real, (b.y1 + b.y2) as real / 2.0 / h as real,
             (b.x2 - b.x1) as real / w as real, (b.y2 - b.y1) as real / h as real)
  }

  /** A box is inside a w-by-h image. */
  predicate InImage(b: LabelBox, w: int, h: int) {
    0 <= b.x1 && 0 <= b.y1 && b.x2 <= w - 1 && b.y2 <= h - 1
  }

  /** In exact arithmetic, a box inside the image survives writing and reading back. */
  lemma YoloRoundTrip(b: LabelBox, w: int, h: int, cls: int)
    requires w >= 1 && h >= 1 && InImage(b, w, h)
    ensures YoloToXyxy(XyxyToYolo(b, w, h, cls), w, h) == LabelBox(b.x1, b.y1, b.x2, b.y2, cls)
  {
    var l := XyxyToYolo(b, w, h, cls);
    var p := PixelBox((b.x1 + b.x2) as real / 2.0, (b.y1 + b.y2) as real / 2.0, (b.x2 - b.x1) as real, (b.y2 - b.y1) as real);
    assert ToPixels(l, w, h) == p;
    ExactCorners(b, w, h, cls);
    TruncWhole(cls);
  }

  /** Rounding exact half-sums and differences of whole edges gives those edges back. */
  lemma ExactCorners(b: LabelBox, w: int, h: int, cls: int)
    requires InImage(b, w, h)
    ensures Corners(PixelBox((b.x1 + b.x2) as real / 2.0, (b.y1 + b.y2) as real / 2.0,
                             (b.x2 - b.x1) as real, (b.y2 - b.y1) as real), w, h, cls)
         == LabelBox(b.x1, b.y1, b.x2, b.y2, cls)
  {
    RoundNearest((b.x1 + b.x2) as real / 2.0 - (b.x2 - b.x1) as real / 2.0, b.x1);
    RoundNearest((b.x1 + b.x2) as real / 2.0 + (b.x2 - b.x1) as real / 2.0, b.x2);
    RoundNearest((b.y1 + b.y2) as real / 2.0 - (b.y2 - b.y1) as real / 2.0, b.y1);
    RoundNearest((b.y1 + b.y2) as real / 2.0 + (b.y2 - b.y1) as real / 2.0, b.y2);
  }

  lemma TruncWhole(n: int)
    ensures Trunc(n as real) == n
  {
  }

  /** `clamp_point`: into [0, w-1] x [0, h-1], leaving points already there unchanged. */
  function ClampPoint(x: int, y: int, w: int, h: int): (p: Pixel)
    ensures 0 <= p.x && (w >= 1 ==> p.x <= w - 1)
    ensures 0 <= p.y && (h >= 1 ==> p.y <= h - 1)
    ensures 0 <= x <= w - 1 ==> p.x == x
    ensures 0 <= y <= h - 1 ==> p.y == y
    ensures x < 0 ==> p.x == 0
    ensures w >= 1 && x > w - 1 ==> p.x == w - 1
    ensures y < 0 ==> p.y == 0
    ensures h >= 1 && y > h - 1 ==> p.y == h - 1
  {
    Pixel(Max(0, Min(w - 1, x)), Max(0, Min(h - 1, y)))
  }

  /** The box spanned by a drag: corners ordered, class 0. */
  function DragBox(start: Pixel, end: Pixel): (b: LabelBox)
    ensures b.x1 <= b.x2 && b.y1 <= b.y2
    ensures (b.x1 == start.x && b.x2 == end.x) || (b.x1 == end.x && b.x2 == start.x)
    ensures (b.y1 == start.y && b.y2 == end.y) || (b.y1 == end.y && b.y2 == start.y)
    ensures b.cls == BALL_CLASS
  {
    LabelBox(Min(start.x, end.x), Min(start.y, end.y), Max(start.x, end.x), Max(start.y, end.y), BALL_CLASS)
  }

  /** Boxes narrower or lower than three pixels are discarded. */
  predicate Keeps(b: LabelBox) {
    b.x2 - b.x1 >= MIN_BOX_SIDE && b.y2 - b.y1 >= MIN_BOX_SIDE
  }

  /** A drag between two points of the image stays inside the image. */
  lemma DragBoxInImage(start: Pixel, end: Pixel, w: int, h: int)
    requires 0 <= start.x <= w - 1 && 0 <= start.y <= h - 1
    requires 0 <= end.x <= w - 1 && 0 <= end.y <= h - 1
    ensures InImage(DragBox(start, end), w, h)
  {
  }
}
