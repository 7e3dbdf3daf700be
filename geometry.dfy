/**
 * Cells and rectangles of the Karnaugh map (kmap.py:14-68).
 *
 * The source's naming is kept: in a `Point` or a `Coordinates`, `x` is the
 * index of a row of the map (reduced modulo `column_size`, the number of
 * rows) and `y` the position inside that row (reduced modulo `row_size`,
 * the length of a row).
 */
module Geometry {
  import opened Wrappers

  datatype Point = Point(x: int, y: int)

  /** A rectangle given by its inclusive corners; a corner may lie outside the grid. */
  datatype Coordinates = Coordinates(topX: int, topY: int, botX: int, botY: int)

  /** The error `to_points` raises when exactly one modulus is given (kmap.py:31-34). */
  datatype ValueError = ValueError

  /** Membership in the unreduced rectangle. */
  predicate InRect(c: Coordinates, p: Point) {
    c.topX <= p.x <= c.botX && c.topY <= p.y <= c.botY
  }

  /** The raw cells the rectangle spans, in unreduced coordinates. */
  function RawPoints(c: Coordinates): set<Point> {
    set x, y | c.topX <= x <= c.botX && c.topY <= y <= c.botY :: Point(x, y)
  }

  /** A cell reduced onto the torus: `x` modulo the number of rows, `y` modulo the row length. */
  function Wrap(p: Point, rowSize: int, columnSize: int): Point
    requires rowSize > 0 && columnSize > 0
  {
    Point(p.x % columnSize, p.y % rowSize)
  }

  /** The cells the rectangle covers on a torus of `columnSize` rows of `rowSize` cells. */
  function Points(c: Coordinates, rowSize: int, columnSize: int): (r: set<Point>)
    requires rowSize > 0 && columnSize > 0
    ensures forall p :: p in r ==> 0 <= p.x < columnSize && 0 <= p.y < rowSize
  {
    set p | p in RawPoints(c) :: Wrap(p, rowSize, columnSize)
  }

  /** `Coordinates.__add__`: corners are added component-wise (kmap.py:51-60). */
  function Add(a: Coordinates, b: Coordinates): (r: Coordinates)
    ensures r.botX - r.topX == (a.botX - a.topX) + (b.botX - b.topX)
    ensures r.botY - r.topY == (a.botY - a.topY) + (b.botY - b.topY)
  {
    Coordinates(a.topX + b.topX, a.topY + b.topY, a.botX + b.botX, a.botY + b.botY)
  }

  /**
   * The side lengths of every rectangle the group finder tries: 1, 2 or 4
   * rows by 1, 2 or 4 entries, counted before reduction.
   */
  predicate Shaped(c: Coordinates) {
    var sx, sy := c.botX - c.topX + 1, c.botY - c.topY + 1;
    (sx == 1 || sx == 2 || sx == 4) && (sy == 1 || sy == 2 || sy == 4)
  }

  /** The one-cell rectangle at a cell, as `simplify` builds it for an anchor. */
  function Anchor(x: int, y: int): Coordinates {
    Coordinates(x, y, x, y)
  }

  function Translate(pts: set<Point>, dx: int, dy: int): set<Point> {
    set p | p in pts :: Point(p.x + dx, p.y + dy)
  }

  lemma RawPointsMember(c: Coordinates, p: Point)
    ensures p in RawPoints(c) <==> InRect(c, p)
  {
    if InRect(c, p) {
      var x, y := p.x, p.y;
      assert Point(x, y) in RawPoints(c);
    }
  }

  /**
   * Adding a template to the one-cell rectangle of an anchor translates
   * the template's cells by the anchor: this is how every anchored
   * template of the group finder is placed.
   */
  lemma AnchoredTemplate(x: int, y: int, t: Coordinates)
    ensures RawPoints(Add(Anchor(x, y), t)) == Translate(RawPoints(t), x, y)
  {
    var a := Add(Anchor(x, y), t);
    forall p | p in RawPoints(a) ensures p in Translate(RawPoints(t), x, y) {
      RawPointsMember(a, p);
      var q := Point(p.x - x, p.y - y);
      RawPointsMember(t, q);
      assert p == Point(q.x + x, q.y + y);
    }
    forall p | p in Translate(RawPoints(t), x, y) ensures p in RawPoints(a) {
      var q :| q in RawPoints(t) && p == Point(q.x + x, q.y + y);
      RawPointsMember(t, q);
      RawPointsMember(a, p);
    }
  }

  /** A cell is covered exactly when some raw cell of the rectangle reduces to it. */
  lemma PointsMember(c: Coordinates, rowSize: int, columnSize: int, p: Point)
    requires rowSize > 0 && columnSize > 0
    ensures p in Points(c, rowSize, columnSize) <==>
            exists q :: InRect(c, q) && Wrap(q, rowSize, columnSize) == p
  {
    if q :| InRect(c, q) && Wrap(q, rowSize, columnSize) == p {
      RawPointsMember(c, q);
    }
  }

  /**
   * `Coordinates.to_points` (kmap.py:30-49): the raw cell set, or the cell
   * set reduced modulo the two extents; `ValueError` when exactly one of
   * the two moduli is given.
   */
  method ToPoints(c: Coordinates, rowSize: Option<int>, columnSize: Option<int>)
      returns (r: Result<set<Point>, ValueError>)
    requires rowSize.Some? ==> rowSize.value > 0
    requires columnSize.Some? ==> columnSize.value > 0
    ensures r.Err? <==> rowSize.None? != columnSize.None?
    ensures r.Ok? && rowSize.None? ==> forall p :: p in r.value <==> InRect(c, p)
    ensures r.Ok? && rowSize.Some? ==> r.value == Points(c, rowSize.value, columnSize.value)
  {
    if rowSize != columnSize && (rowSize.None? || columnSize.None?) {
      return Err(ValueError);
    }
    var points: set<Point> := {};
    var x := c.topX;
    while x < c.botX + 1
      invariant c.topX <= c.botX + 1 ==> c.topX <= x <= c.botX + 1
      invariant c.topX > c.botX + 1 ==> x == c.topX
      invariant forall p :: p in points <==> InRect(c, p) && p.x < x
    {
      var y := c.topY;
      while y < c.botY + 1
        invariant c.topY <= c.botY + 1 ==> c.topY <= y <= c.botY + 1
        invariant c.topY > c.botY + 1 ==> y == c.topY
        invariant forall p :: p in points <==> InRect(c, p) && (p.x < x || (p.x == x && p.y < y))
      {
        points := points + {Point(x, y)};
        y := y + 1;
      }
      x := x + 1;
    }
    if rowSize.None? {
      return Ok(points);
    }
    forall p ensures p in points <==> p in RawPoints(c) {
      RawPointsMember(c, p);
    }
    var rs, cs := rowSize.value, columnSize.value;
    var points' : set<Point> := {};
    var rest := points;
    while rest != {}
      invariant rest <= points
      invariant points' == set p | p in points - rest :: Wrap(p, rs, cs)
      decreases rest
    {
      var point :| point in rest;
      ghost var done := points - rest;
      points' := points' + {Point(point.x % cs, point.y % rs)};
      rest := rest - {point};
      assert points - rest == done + {point};
      assert points' == set p | p in done + {point} :: Wrap(p, rs, cs);
    }
    assert points - rest == RawPoints(c);
    return Ok(points');
  }
}
