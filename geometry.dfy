/**
 * Layout arithmetic of the evasive No button: clamping a position into the
 * container, the inclusive rectangle-overlap test against the Yes button's
 * expanded bounds, the initial placement and the proximity triggers.
 * Coordinates are exact reals (CSS pixels).
 */
module Geometry {

  datatype Point = Point(x: real, y: real)

  datatype Size = Size(width: real, height: real)

  /** A bounding box in client coordinates, as `getBoundingClientRect` reports it. */
  datatype Rect = Rect(left: real, top: real, width: real, height: real) {
    function Right(): real { left + width }
    function Bottom(): real { top + height }
    function Extent(): Size { Size(width, height) }
  }

  /** An axis-aligned region given by its four edges. */
  datatype Bounds = Bounds(left: real, right: real, top: real, bottom: real)

  /** Live geometry of the container and both buttons at the moment of a query. */
  datatype Layout = Layout(container: Rect, no: Rect, yes: Rect)

  /** Extra margin kept around the Yes button, in pixels. */
  const YesMargin: real := 20.0

  /** Padding kept from the container edges by the initial placement. */
  const PlacePadding: real := 10.0

  /** Padding kept from the container edges by a flee. */
  const FleePadding: real := 12.0

  /** Proximity radius for the mouse, in pixels. */
  const MouseRadius: real := 140.0

  /** Proximity radius for a touch, in pixels. */
  const TouchRadius: real := 160.0

  function Max(a: real, b: real): real { if a >= b then a else b }

  function Min(a: real, b: real): real { if a <= b then a else b }

  /** `Math.min(Math.max(v, lo), hi)`: the point of `[lo, hi]` nearest to `v`. */
  function Clamp(v: real, lo: real, hi: real): (r: real)
    ensures r <= hi
    ensures lo <= hi ==> lo <= r
    ensures lo <= v <= hi ==> r == v
    ensures v < lo <= hi ==> r == lo
    ensures hi < v ==> r == hi
  {
    Min(Max(v, lo), hi)
  }

  /** Largest allowed coordinate on one axis: `Math.max(extent - button - padding, padding)`. */
  function UpperLimit(extent: real, button: real, padding: real): (hi: real)
    ensures padding <= hi
    ensures extent - button - padding <= hi
    ensures hi == padding || hi == extent - button - padding
  {
    Max(extent - button - padding, padding)
  }

  /** The box every placement must end in, for a button of `btn` in a container of `cont`. */
  predicate Inside(p: Point, cont: Size, btn: Size, padding: real)
  {
    && padding <= p.x <= UpperLimit(cont.width, btn.width, padding)
    && padding <= p.y <= UpperLimit(cont.height, btn.height, padding)
  }

  /** Clamps both coordinates into the placement box. */
  function ClampInto(p: Point, cont: Size, btn: Size, padding: real): (r: Point)
    ensures Inside(r, cont, btn, padding)
    ensures Inside(p, cont, btn, padding) ==> r == p
  {
    Point(Clamp(p.x, padding, UpperLimit(cont.width, btn.width, padding)),
          Clamp(p.y, padding, UpperLimit(cont.height, btn.height, padding)))
  }

  /** Clamping a clamped position changes nothing. */
  lemma ClampIntoIdempotent(p: Point, cont: Size, btn: Size, padding: real)
    ensures ClampInto(ClampInto(p, cont, btn, padding), cont, btn, padding) == ClampInto(p, cont, btn, padding)
  {
  }

  /**
   * In a container large enough for the button plus both paddings, a position
   * inside the placement box keeps the whole button `padding` away from every edge.
   */
  lemma InsideKeepsButtonInContainer(p: Point, cont: Size, btn: Size, padding: real)
    requires Inside(p, cont, btn, padding)
    requires btn.width + 2.0 * padding <= cont.width && btn.height + 2.0 * padding <= cont.height
    ensures padding <= p.x && p.x + btn.width <= cont.width - padding
    ensures padding <= p.y && p.y + btn.height <= cont.height - padding
  {
  }

  /** `placeNoButton`: the position written for a requested `(left, top)`. */
  function PlaceNoButton(p: Point, layout: Layout): (r: Point)
    ensures Inside(r, layout.container.Extent(), layout.no.Extent(), PlacePadding)
    ensures Inside(p, layout.container.Extent(), layout.no.Extent(), PlacePadding) ==> r == p
  {
    ClampInto(p, layout.container.Extent(), layout.no.Extent(), PlacePadding)
  }

  /** The Yes button's box in container coordinates, widened by the margin on every side. */
  function YesBounds(layout: Layout): (b: Bounds)
    ensures b.right - b.left == layout.yes.width + 2.0 * YesMargin
    ensures b.bottom - b.top == layout.yes.height + 2.0 * YesMargin
    ensures layout.container.left + b.left + YesMargin == layout.yes.left
    ensures layout.container.top + b.top + YesMargin == layout.yes.top
  {
    var yes := layout.yes;
    var cont := layout.container;
    Bounds(yes.left - cont.left - YesMargin, yes.Right() - cont.left + YesMargin,
           yes.top - cont.top - YesMargin, yes.Bottom() - cont.top + YesMargin)
  }

  /** Inclusive test: a button of size `btn` at `p` touches or crosses `b`. */
  predicate Overlaps(p: Point, btn: Size, b: Bounds)
    // The positions that overlap form the closed box `b` extended by the button size up and to the left.
    ensures Overlaps(p, btn, b) <==>
              b.left - btn.width <= p.x <= b.right && b.top - btn.height <= p.y <= b.bottom
  {
    && p.x + btn.width >= b.left
    && p.x <= b.right
    && p.y + btn.height >= b.top
    && p.y <= b.bottom
  }

  /** A point shared by the closed button rectangle and the closed region `b`. */
  ghost predicate SharedPoint(p: Point, btn: Size, b: Bounds, q: Point)
  {
    && p.x <= q.x <= p.x + btn.width && b.left <= q.x <= b.right
    && p.y <= q.y <= p.y + btn.height && b.top <= q.y <= b.bottom
  }

  /**
   * For a button of non-negative size and a non-empty region, the edge test is
   * exactly "the two closed rectangles have a point in common".
   */
  lemma OverlapsIffSharedPoint(p: Point, btn: Size, b: Bounds)
    requires btn.width >= 0.0 && btn.height >= 0.0
    requires b.left <= b.right && b.top <= b.bottom
    ensures Overlaps(p, btn, b) <==> exists q :: SharedPoint(p, btn, b, q)
  {
    if Overlaps(p, btn, b) {
      var q := Point(Max(p.x, b.left), Max(p.y, b.top));
      assert SharedPoint(p, btn, b, q);
    }
  }

  /**
   * A position that does not overlap the expanded bounds keeps the No button
   * more than the margin away from the Yes button on at least one axis.
   */
  lemma ClearOfYesKeepsMargin(p: Point, layout: Layout)
    requires !Overlaps(p, layout.no.Extent(), YesBounds(layout))
    ensures var cont := layout.container; var yes := layout.yes; var w := layout.no.width; var h := layout.no.height;
            || cont.left + p.x + w < yes.left - YesMargin
            || cont.left + p.x > yes.Right() + YesMargin
            || cont.top + p.y + h < yes.top - YesMargin
            || cont.top + p.y > yes.Bottom() + YesMargin
  {
  }

  /** The preferred starting position: 70% across, 30% down. */
  function PreferredStart(cont: Rect): (r: Point)
    ensures 0.0 <= cont.width ==> 0.0 <= r.x <= cont.width
    ensures 0.0 <= cont.height ==> 0.0 <= r.y <= cont.height
  {
    Point(cont.width * 0.7, cont.height * 0.3)
  }

  /** The fallback starting position: 15% across, 60% down, so left of and below the preferred one. */
  function FallbackStart(cont: Rect): (r: Point)
    ensures 0.0 <= cont.width ==> 0.0 <= r.x <= PreferredStart(cont).x
    ensures 0.0 <= cont.height ==> PreferredStart(cont).y <= r.y <= cont.height
  {
    Point(cont.width * 0.15, cont.height * 0.6)
  }

  /**
   * The initial placement: the preferred position unless it would overlap the
   * Yes bounds, then clamped as `placeNoButton` does.
   */
  function InitialPosition(layout: Layout): (r: Point)
    ensures Inside(r, layout.container.Extent(), layout.no.Extent(), PlacePadding)
    ensures !Overlaps(PreferredStart(layout.container), layout.no.Extent(), YesBounds(layout)) ==>
              r == PlaceNoButton(PreferredStart(layout.container), layout)
    ensures Overlaps(PreferredStart(layout.container), layout.no.Extent(), YesBounds(layout)) ==>
              r == PlaceNoButton(FallbackStart(layout.container), layout)
  {
    var preferred := PreferredStart(layout.container);
    var start := if Overlaps(preferred, layout.no.Extent(), YesBounds(layout)) then FallbackStart(layout.container) else preferred;
    PlaceNoButton(start, layout)
  }

  /**
   * When the preferred position is clear of the Yes button and already inside
   * the placement box, the button starts exactly there, clear of the Yes button.
   */
  lemma PreferredStartKept(layout: Layout)
    requires !Overlaps(PreferredStart(layout.container), layout.no.Extent(), YesBounds(layout))
    requires Inside(PreferredStart(layout.container), layout.container.Extent(), layout.no.Extent(), PlacePadding)
    ensures InitialPosition(layout) == PreferredStart(layout.container)
    ensures !Overlaps(InitialPosition(layout), layout.no.Extent(), YesBounds(layout))
  {
  }

  /**
   * The overlap is checked only before clamping, and only two spots are tried,
   * so the first placement can overlap the Yes bounds: here both spots overlap,
   * yet a spot inside the box and clear of the Yes bounds exists.
   */
  lemma InitialPositionCanOverlapYes()
    ensures var layout := Layout(Rect(0.0, 0.0, 400.0, 400.0), Rect(0.0, 0.0, 80.0, 40.0), Rect(100.0, 100.0, 200.0, 200.0));
            && Overlaps(PreferredStart(layout.container), layout.no.Extent(), YesBounds(layout))
            && Overlaps(InitialPosition(layout), layout.no.Extent(), YesBounds(layout))
            && Inside(Point(10.0, 330.0), layout.container.Extent(), layout.no.Extent(), PlacePadding)
            && !Overlaps(Point(10.0, 330.0), layout.no.Extent(), YesBounds(layout))
  {
  }

  /** A preferred spot clear of the Yes bounds can be clamped onto them. */
  lemma ClampCanMovePreferredOntoYes()
    ensures var layout := Layout(Rect(0.0, 0.0, 200.0, 400.0), Rect(0.0, 0.0, 80.0, 40.0), Rect(50.0, 100.0, 40.0, 40.0));
            && !Overlaps(PreferredStart(layout.container), layout.no.Extent(), YesBounds(layout))
            && Overlaps(InitialPosition(layout), layout.no.Extent(), YesBounds(layout))
  {
  }

  /** Squared distance from the centre of `r` to `(px, py)`. */
  function CenterDistanceSquared(r: Rect, px: real, py: real): (d: real)
    ensures d >= 0.0
    ensures var cx := r.left + r.width / 2.0; var cy := r.top + r.height / 2.0;
            d == (cx - px) * (cx - px) + (cy - py) * (cy - py)
  {
    var cx := r.left + r.width / 2.0;
    var cy := r.top + r.height / 2.0;
    (cx - px) * (cx - px) + (cy - py) * (cy - py)
  }

  /** The proximity test, compared on squares. */
  predicate Near(r: Rect, px: real, py: real, radius: real)
    ensures var cx := r.left + r.width / 2.0; var cy := r.top + r.height / 2.0;
            Near(r, px, py, radius) <==>
              0.0 <= radius && (cx - px) * (cx - px) + (cy - py) * (cy - py) < radius * radius
  {
    0.0 <= radius && CenterDistanceSquared(r, px, py) < radius * radius
  }

  /** Squaring preserves strict order on non-negative reals. */
  lemma SquareLt(a: real, b: real)
    requires 0.0 <= a < b
    ensures a * a < b * b
  {
    var aa, ab, bb := a * a, a * b, b * b;
    assert aa <= ab;
    assert ab < bb;
  }

  /** Squaring preserves order on non-negative reals. */
  lemma SquareLe(a: real, b: real)
    requires 0.0 <= a <= b
    ensures a * a <= b * b
  {
    var aa, ab, bb := a * a, a * b, b * b;
    assert aa <= ab;
    assert ab <= bb;
  }

  /**
   * With `dist` the distance `Math.hypot(cx - px, cy - py)` from the centre,
   * the squared test is exactly `dist < radius`.
   */
  lemma NearIsHypot(r: Rect, px: real, py: real, radius: real, dist: real)
    requires 0.0 <= dist && dist * dist == CenterDistanceSquared(r, px, py)
    ensures Near(r, px, py, radius) <==> dist < radius
  {
    if dist < radius {
      SquareLt(dist, radius);
    } else if 0.0 <= radius {
      SquareLe(radius, dist);
    }
  }
}
