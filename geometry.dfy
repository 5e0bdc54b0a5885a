/** Axis-aligned integer rectangles and the overlap test the game uses for
    collisions (the behaviour of java.awt.Rectangle.intersects on boxes whose
    corners do not overflow a 32-bit int). */
module Geometry {

  /** A box whose top-left corner is (x, y); it covers the pixels
      x <= px < x + width and y <= py < y + height. */
  datatype Rect = Rect(x: int, y: int, width: int, height: int)

  /** A box with no width or no height covers nothing and meets nothing. */
  predicate NonEmpty(r: Rect) {
    r.width > 0 && r.height > 0
  }

  /** Strict overlap on both axes; boxes that only share an edge do not
      intersect, and an empty box intersects nothing. */
  predicate Intersects(a: Rect, b: Rect) {
    NonEmpty(a) && NonEmpty(b) &&
    a.x < b.x + b.width && b.x < a.x + a.width &&
    a.y < b.y + b.height && b.y < a.y + a.height
  }

  /** What the collision test decides: an empty box meets nothing, boxes that
      are apart or only touch on either axis do not intersect, and the test
      does not depend on which box asks. */
  lemma IntersectsMeaning(a: Rect, b: Rect)
    ensures Intersects(a, b) ==> NonEmpty(a) && NonEmpty(b)
    ensures (a.x + a.width <= b.x || b.x + b.width <= a.x ||
             a.y + a.height <= b.y || b.y + b.height <= a.y) ==> !Intersects(a, b)
    ensures Intersects(a, b) == Intersects(b, a)
  {
  }

  /** The pixel (px, py) lies inside the box. */
  predicate Covers(r: Rect, px: int, py: int) {
    r.x <= px < r.x + r.width && r.y <= py < r.y + r.height
  }

  /** Two boxes intersect exactly when some pixel lies inside both; the top-left
      corner of the overlap is such a pixel. */
  lemma IntersectsIffSharedPixel(a: Rect, b: Rect)
    ensures Intersects(a, b) <==> exists px, py :: Covers(a, px, py) && Covers(b, px, py)
  {
    if Intersects(a, b) {
      var px := if a.x < b.x then b.x else a.x;
      var py := if a.y < b.y then b.y else a.y;
      assert Covers(a, px, py) && Covers(b, px, py);
    }
    if exists px, py :: Covers(a, px, py) && Covers(b, px, py) {
      var px, py :| Covers(a, px, py) && Covers(b, px, py);
      assert NonEmpty(a) && NonEmpty(b);
    }
  }
}
