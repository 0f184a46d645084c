/** Table-plane geometry of the bounce script: the homogeneous projection and the margin test. */
module TableGeometry {
  import opened Wrappers

  /** Official table size in metres. */
  const TABLE_W: real := 2.74
  const TABLE_H: real := 1.525

  /** Margin `inside_table` uses when its caller gives none. */
  const DEFAULT_MARGIN: real := 0.03

  /** Added to the homogeneous coordinate before dividing by it. */
  const EPS: real := 0.000000001

  datatype Point = Point(x: real, y: real)

  /** A 3x3 matrix, row by row; computing it from the four corners is a library call. */
  datatype Homography = Homography(
    h00: real, h01: real, h02: real,
    h10: real, h11: real, h12: real,
    h20: real, h21: real, h22: real)

  /** The third homogeneous coordinate of `h * [p.x, p.y, 1]`, with the epsilon added. */
  function Divisor(h: Homography, p: Point): real {
    h.h20 * p.x + h.h21 * p.y + h.h22 + EPS
  }

  /**
   * `project_to_table` for one point: multiply by `h` and divide the first two coordinates
   * by the third plus epsilon. A zero divisor makes numpy produce inf or nan, which no
   * comparison accepts; the model returns `None` for it.
   */
  function Project(h: Homography, p: Point): (r: Option<Point>)
    ensures r.Some? <==> Divisor(h, p) != 0.0
    ensures r.Some? ==> r.value.x * Divisor(h, p) == h.h00 * p.x + h.h01 * p.y + h.h02
    ensures r.Some? ==> r.value.y * Divisor(h, p) == h.h10 * p.x + h.h11 * p.y + h.h12
  {
    var w := Divisor(h, p);
    if w == 0.0 then None
    else Some(Point((h.h00 * p.x + h.h01 * p.y + h.h02) / w, (h.h10 * p.x + h.h11 * p.y + h.h12) / w))
  }

  /** A matrix whose last row is (0, 0, 1 - EPS) maps points affinely: the divide changes nothing. */
  lemma ProjectAffine(h: Homography, p: Point)
    requires h.h20 == 0.0 && h.h21 == 0.0 && h.h22 == 1.0 - EPS
    ensures Project(h, p) == Some(Point(h.h00 * p.x + h.h01 * p.y + h.h02, h.h10 * p.x + h.h11 * p.y + h.h12))
  {
    var w := Divisor(h, p);
    assert w == 1.0;
    var u := h.h00 * p.x + h.h01 * p.y + h.h02;
    var v := h.h10 * p.x + h.h11 * p.y + h.h12;
    assert Project(h, p).Some?;
    assert Project(h, p).value.x == u && Project(h, p).value.y == v;
  }

  /** `inside_table`: each coordinate within the table extended by `margin`, each bound checked on its own. */
  predicate InsideTable(p: Point, margin: real)
    ensures 0.0 <= margin && 0.0 <= p.x <= TABLE_W && 0.0 <= p.y <= TABLE_H ==> InsideTable(p, margin)
    ensures InsideTable(p, margin) ==> margin >= 0.0 - TABLE_W / 2.0
  {
    -margin <= p.x <= TABLE_W + margin && -margin <= p.y <= TABLE_H + margin
  }

  /** A wider margin accepts everything a narrower one does. */
  lemma InsideTableMonotone(p: Point, m1: real, m2: real)
    requires m1 <= m2 && InsideTable(p, m1)
    ensures InsideTable(p, m2)
  {
  }

  /**
   * Example: a point in the margin band passes the test but lies outside [0, TABLE_W] x [0, TABLE_H],
   * the range the heatmap histogram bins over.
   */
  lemma MarginBandOutsideTable()
    ensures InsideTable(Point(-0.04, 0.5), 0.05)
    ensures !(0.0 <= -0.04 <= TABLE_W)
  {
  }
}
