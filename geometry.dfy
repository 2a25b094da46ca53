/** Axis-aligned rectangles, in the shape of pygame's `Rect`: a top-left corner
    and a size. Coordinates are exact (pygame rounds them to whole pixels; this
    model does not). */
module Geometry {

  datatype Rect = Rect(left: real, top: real, width: nat, height: nat) {

    function Right(): real { left + width as real }

    function Bottom(): real { top + height as real }

    /** pygame's `centerx`: the left edge plus half the width, rounded down. */
    function CenterX(): real { left + (width / 2) as real }

    function CenterY(): real { top + (height / 2) as real }

    /** The rectangle after `centerx -= dx`: only the horizontal position moves. */
    function ShiftedLeft(dx: real): (r: Rect)
      ensures r.CenterX() == CenterX() - dx
      ensures r.top == top && r.width == width && r.height == height
    {
      Rect(left - dx, top, width, height)
    }
  }

  /** `get_rect(center = (cx, cy))` for a surface of size w x h. */
  function AtCenter(cx: real, cy: real, w: nat, h: nat): (r: Rect)
    ensures r.CenterX() == cx && r.CenterY() == cy
    ensures r.width == w && r.height == h
  {
    Rect(cx - (w / 2) as real, cy - (h / 2) as real, w, h)
  }

  /** `get_rect(midtop = (cx, y))`. */
  function AtMidTop(cx: real, y: real, w: nat, h: nat): (r: Rect)
    ensures r.CenterX() == cx && r.top == y
    ensures r.width == w && r.height == h
  {
    Rect(cx - (w / 2) as real, y, w, h)
  }

  /** `get_rect(midbottom = (cx, y))`. */
  function AtMidBottom(cx: real, y: real, w: nat, h: nat): (r: Rect)
    ensures r.CenterX() == cx && r.Bottom() == y
    ensures r.width == w && r.height == h
  {
    Rect(cx - (w / 2) as real, y - h as real, w, h)
  }

  /** pygame's `colliderect`: an empty rectangle collides with nothing, and the
      interiors must overlap on both axes (edges that only touch do not count).
      Equivalently, some point lies strictly inside both rectangles. */
  predicate Collide(a: Rect, b: Rect): (r: bool)
    ensures r <==> exists x, y :: Inside(a, x, y) && Inside(b, x, y)
  {
    OverlapIffSharedPoint(a, b);
    Overlap(a, b)
  }

  /** The comparisons `colliderect` makes. */
  predicate Overlap(a: Rect, b: Rect)
  {
    && a.width != 0 && a.height != 0 && b.width != 0 && b.height != 0
    && a.left < b.Right() && a.top < b.Bottom()
    && a.Right() > b.left && a.Bottom() > b.top
  }

  /** The point (x, y) lies strictly inside r. */
  predicate Inside(r: Rect, x: real, y: real)
  {
    r.left < x < r.Right() && r.top < y < r.Bottom()
  }

  /** The interiors overlap exactly when some point lies strictly inside
      both rectangles: the centre of the overlap is such a point. */
  lemma OverlapIffSharedPoint(a: Rect, b: Rect)
    ensures Overlap(a, b) <==> exists x, y :: Inside(a, x, y) && Inside(b, x, y)
  {
    if Overlap(a, b) {
      var lo := if a.left < b.left then b.left else a.left;
      var hi := if a.Right() < b.Right() then a.Right() else b.Right();
      var top := if a.top < b.top then b.top else a.top;
      var bottom := if a.Bottom() < b.Bottom() then a.Bottom() else b.Bottom();
      assert Inside(a, (lo + hi) / 2.0, (top + bottom) / 2.0);
      assert Inside(b, (lo + hi) / 2.0, (top + bottom) / 2.0);
    }
  }

  /** Collision is symmetric, and two rectangles that share a vertical or a
      horizontal edge and nothing more do not collide. */
  lemma CollideProperties(a: Rect, b: Rect)
    ensures Collide(a, b) <==> Collide(b, a)
    ensures a.Right() == b.left || a.Bottom() == b.top ==> !Collide(a, b)
    ensures (a.width > 0 && a.height > 0 && b.width > 0 && b.height > 0 &&
             a.left == b.left && a.top == b.top) ==> Collide(a, b)
  {
  }
}
