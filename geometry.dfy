/** Plane geometry shared by the player and the enemies: points, axis-aligned
    boxes, the `coerceIn` clamp and the strict box-overlap test. */
module Geometry {

  /** A point or a velocity (Compose's `Offset`), in exact arithmetic. */
  datatype Vec = Vec(x: real, y: real)

  /** An axis-aligned box: top-left corner and extents. */
  datatype Box = Box(origin: Vec, width: real, height: real)

  function Abs(r: real): (a: real)
    ensures a >= 0.0 && (a == r || a == -r)
  {
    if r < 0.0 then -r else r
  }

  /** Kotlin's `coerceIn(lo, hi)`; it throws when the range is empty, so the
      range must not be. */
  function Clamp(v: real, lo: real, hi: real): (r: real)
    requires lo <= hi
    ensures lo <= r <= hi
    ensures lo <= v <= hi ==> r == v
    ensures v < lo ==> r == lo
    ensures v > hi ==> r == hi
  {
    if v < lo then lo else if v > hi then hi else v
  }

  /** The clamped value is the point of [lo, hi] nearest to `v`. */
  lemma ClampIsNearest(v: real, lo: real, hi: real, other: real)
    requires lo <= hi && lo <= other <= hi
    ensures Abs(Clamp(v, lo, hi) - v) <= Abs(other - v)
  {
  }

  /** Strict axis-aligned bounding-box overlap, as the collision test and the
      spawn exclusion test write it. */
  predicate Overlaps(a: Box, b: Box)
  {
    && a.origin.x < b.origin.x + b.width
    && a.origin.x + a.width > b.origin.x
    && a.origin.y < b.origin.y + b.height
    && a.origin.y + a.height > b.origin.y
  }

  /** `p` lies strictly inside `b` (not on its edge). */
  predicate InInterior(p: Vec, b: Box)
  {
    b.origin.x < p.x < b.origin.x + b.width && b.origin.y < p.y < b.origin.y + b.height
  }

  /** Independent reading of the overlap test: two non-degenerate boxes overlap
      exactly when some point lies strictly inside both. */
  lemma OverlapsIffCommonInteriorPoint(a: Box, b: Box)
    requires a.width > 0.0 && a.height > 0.0 && b.width > 0.0 && b.height > 0.0
    ensures Overlaps(a, b) <==> exists p :: InInterior(p, a) && InInterior(p, b)
  {
    if Overlaps(a, b) {
      var lx := if a.origin.x < b.origin.x then b.origin.x else a.origin.x;
      var hx := if a.origin.x + a.width < b.origin.x + b.width then a.origin.x + a.width else b.origin.x + b.width;
      var ly := if a.origin.y < b.origin.y then b.origin.y else a.origin.y;
      var hy := if a.origin.y + a.height < b.origin.y + b.height then a.origin.y + a.height else b.origin.y + b.height;
      var p := Vec((lx + hx) / 2.0, (ly + hy) / 2.0);
      assert InInterior(p, a) && InInterior(p, b);
    } else {
      forall p | InInterior(p, a)
        ensures !InInterior(p, b)
      {
      }
    }
  }

  lemma OverlapsIsSymmetric(a: Box, b: Box)
    ensures Overlaps(a, b) == Overlaps(b, a)
  {
  }

  /** Boxes that only share an edge do not collide. */
  lemma TouchingBoxesDoNotOverlap(a: Box, b: Box)
    requires a.origin.x + a.width == b.origin.x || a.origin.y + a.height == b.origin.y
    ensures !Overlaps(a, b)
  {
  }
}
