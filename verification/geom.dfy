/** Points and axis-aligned boxes of src/geom.ts, over exact reals. */
module Geom {

  /** An immutable point. */
  datatype Point = Point(x: real, y: real)
  {
    /** The point moved by (dx, dy). */
    function Translate(dx: real, dy: real): (r: Point)
      ensures r.x - x == dx && r.y - y == dy
    {
      Point(x + dx, y + dy)
    }
  }

  /** Moving back by the same offset returns to the start. */
  lemma TranslateInverse(p: Point, dx: real, dy: real)
    ensures p.Translate(dx, dy).Translate(-dx, -dy) == p
  {
  }

  /** Two moves are one move by the summed offsets. */
  lemma TranslateCompose(p: Point, dx1: real, dy1: real, dx2: real, dy2: real)
    ensures p.Translate(dx1, dy1).Translate(dx2, dy2) == p.Translate(dx1 + dx2, dy1 + dy2)
  {
  }

  function Min(a: real, b: real): real
  {
    if a < b then a else b
  }

  function Max(a: real, b: real): real
  {
    if a > b then a else b
  }

  /** An immutable box: its top-left corner and its size. */
  datatype Box = Box(x: real, y: real, width: real, height: real)
  {
    /** The left edge: the box's own x, so it lies left of the right edge
        exactly when the width is not negative. */
    function X1(): (r: real)
      ensures r <= x + width <==> width >= 0.0
    {
      x
    }

    function X2(): (r: real)
      ensures r - X1() == width
    {
      x + width
    }

    /** The top edge: the box's own y, so it lies above the bottom edge
        exactly when the height is not negative. */
    function Y1(): (r: real)
      ensures r <= y + height <==> height >= 0.0
    {
      y
    }

    function Y2(): (r: real)
      ensures r - Y1() == height
    {
      y + height
    }

    /** The point lies strictly inside the box; points on an edge are out. */
    predicate Encloses(p: Point)
      ensures Encloses(p) ==> width > 0.0 && height > 0.0
    {
      p.x > X1() && p.x < X2() && p.y > Y1() && p.y < Y2()
    }

    /** The box spanned by two opposite corners, given in any order. */
    static function Create(p1: Point, p2: Point): (r: Box)
      ensures r.X1() == Min(p1.x, p2.x) && r.X2() == Max(p1.x, p2.x)
      ensures r.Y1() == Min(p1.y, p2.y) && r.Y2() == Max(p1.y, p2.y)
      ensures r.width >= 0.0 && r.height >= 0.0
    {
      var tl := Point(Min(p1.x, p2.x), Min(p1.y, p2.y));
      var br := Point(Max(p1.x, p2.x), Max(p1.y, p2.y));
      Box(tl.x, tl.y, br.x - tl.x, br.y - tl.y)
    }
  }

  /** The order of the two corners does not matter. */
  lemma CreateSymmetric(p1: Point, p2: Point)
    ensures Box.Create(p1, p2) == Box.Create(p2, p1)
  {
  }

  /** A point is strictly between a and b, in whichever order they come. */
  predicate Between(a: real, v: real, b: real)
  {
    (a < v && v < b) || (b < v && v < a)
  }

  /** The box spanned by two corners encloses exactly the points strictly
      between the corners on both axes. */
  lemma CreateEncloses(p1: Point, p2: Point, q: Point)
    ensures Box.Create(p1, p2).Encloses(q) <==> Between(p1.x, q.x, p2.x) && Between(p1.y, q.y, p2.y)
  {
  }

  /** A box encloses nothing on its edges, in particular not its corners, and
      a box without area encloses nothing. */
  lemma EnclosesStrict(b: Box, q: Point)
    requires q.x == b.X1() || q.x == b.X2() || q.y == b.Y1() || q.y == b.Y2() || b.width <= 0.0 || b.height <= 0.0
    ensures !b.Encloses(q)
  {
  }

  /** Moving a box and a point by the same offset keeps the point inside or
      outside. */
  lemma EnclosesTranslate(b: Box, q: Point, dx: real, dy: real)
    ensures Box(b.x + dx, b.y + dy, b.width, b.height).Encloses(q.Translate(dx, dy)) <==> b.Encloses(q)
  {
  }
}
