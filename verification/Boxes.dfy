/** Axis-aligned boxes (x, y, width, height) and points, shared by every stage.
    Coordinates are real numbers: floating-point rounding is not modelled. */
module Boxes {
  datatype Point = Point(x: real, y: real)

  datatype Box = Box(x: real, y: real, w: real, h: real)

  function Max(a: real, b: real): real {
    if a >= b then a else b
  }

  function Min(a: real, b: real): real {
    if a <= b then a else b
  }

  function Abs(a: real): real {
    if a < 0.0 then -a else a
  }

  function Center(b: Box): Point {
    Point(b.x + b.w / 2.0, b.y + b.h / 2.0)
  }

  /** The point is as far from one side of the box as from the opposite one. */
  ghost predicate IsMidpoint(c: Point, b: Box) {
    c.x - b.x == b.x + b.w - c.x && c.y - b.y == b.y + b.h - c.y
  }

  lemma CenterIsMidpoint(b: Box, c: Point)
    ensures IsMidpoint(c, b) <==> c == Center(b)
  {
  }

  /** Area shared by two boxes. */
  function Intersection(a: Box, b: Box): real {
    var ix := Max(0.0, Min(a.x + a.w, b.x + b.w) - Max(a.x, b.x));
    var iy := Max(0.0, Min(a.y + a.h, b.y + b.h) - Max(a.y, b.y));
    ix * iy
  }

  /** Intersection over union, 0 when the union is not positive. */
  function Iou(a: Box, b: Box): real {
    var inter := Intersection(a, b);
    var union := a.w * a.h + b.w * b.h - inter;
    if union > 0.0 then inter / union else 0.0
  }

  lemma IntersectionSymmetric(a: Box, b: Box)
    ensures Intersection(a, b) == Intersection(b, a)
  {
    assert Min(a.x + a.w, b.x + b.w) == Min(b.x + b.w, a.x + a.w);
    assert Max(a.x, b.x) == Max(b.x, a.x);
  }

  lemma IouSymmetric(a: Box, b: Box)
    ensures Iou(a, b) == Iou(b, a)
  {
    IntersectionSymmetric(a, b);
  }
}
