/**
 * Selection geometry of the capture overlay: pointer positions and the
 * rectangle that two of them span (ScreenCaptureView.currentSelectionRect).
 * Positions are whole view points; the overlay's own coordinate system has
 * its origin at the bottom-left corner of the screen.
 */
module Selection {
  import opened Wrappers

  datatype Point = Point(x: int, y: int)

  /** A rectangle given by its lower-left corner and its (non-negative) extent. */
  datatype Rect = Rect(x: int, y: int, w: nat, h: nat) {
    function MaxX(): int { x + w }
    function MaxY(): int { y + h }

    predicate Contains(p: Point) {
      x <= p.x <= MaxX() && y <= p.y <= MaxY()
    }

    predicate Encloses(r: Rect) {
      x <= r.x && r.MaxX() <= MaxX() && y <= r.y && r.MaxY() <= MaxY()
    }
  }

  /** Extents below this, on either axis, count as "no selection". */
  const MinExtent: nat := 2

  function Min(a: int, b: int): int { if a <= b then a else b }

  function Abs(a: int): nat { if a < 0 then -a else a }

  /** p and q sit on opposite corners of r (either diagonal, either order). */
  predicate OppositeCorners(r: Rect, p: Point, q: Point) {
    || (p == Point(r.x, r.y) && q == Point(r.MaxX(), r.MaxY()))
    || (q == Point(r.x, r.y) && p == Point(r.MaxX(), r.MaxY()))
    || (p == Point(r.x, r.MaxY()) && q == Point(r.MaxX(), r.y))
    || (q == Point(r.x, r.MaxY()) && p == Point(r.MaxX(), r.y))
  }

  /**
   * The live selection between the press point and the current point.
   * There is none while either point is unknown, none outside a drag unless
   * the caller asks for the rectangle of a drag that just ended, and none
   * when the two points are closer than MinExtent on either axis.
   */
  function SelectionRect(start: Option<Point>, current: Option<Point>, dragging: bool, allowEnded: bool): (r: Option<Rect>)
    ensures r.Some? ==> start.Some? && current.Some? && (dragging || allowEnded)
    ensures r.Some? ==> r.value.w >= MinExtent && r.value.h >= MinExtent
    ensures r.Some? ==> OppositeCorners(r.value, start.value, current.value)
  {
    if start.None? || current.None? then None
    else if !dragging && !allowEnded then None
    else
      var s, c := start.value, current.value;
      var w, h := Abs(s.x - c.x), Abs(s.y - c.y);
      if w < MinExtent || h < MinExtent then None
      else Some(Rect(Min(s.x, c.x), Min(s.y, c.y), w, h))
  }

  /** Exactly when a selection exists: both points known, a drag live or just ended, and both extents at least MinExtent. */
  lemma SelectionLiveIff(start: Option<Point>, current: Option<Point>, dragging: bool, allowEnded: bool)
    ensures SelectionRect(start, current, dragging, allowEnded).Some? <==>
      && start.Some? && current.Some? && (dragging || allowEnded)
      && Abs(start.value.x - current.value.x) >= MinExtent
      && Abs(start.value.y - current.value.y) >= MinExtent
  {
  }

  /** A press and release at the same place (a click) never selects anything. */
  lemma ClickSelectsNothing(p: Point, dragging: bool, allowEnded: bool)
    ensures SelectionRect(Some(p), Some(p), dragging, allowEnded) == None
  {
  }

  /** The selection does not depend on which corner the drag started from. */
  lemma SelectionSymmetric(p: Point, q: Point, dragging: bool, allowEnded: bool)
    ensures SelectionRect(Some(p), Some(q), dragging, allowEnded) == SelectionRect(Some(q), Some(p), dragging, allowEnded)
  {
  }

  /**
   * The selection is the bounding box of the two points: it contains both,
   * and every rectangle containing both encloses it.
   */
  lemma {:induction false} SelectionIsBoundingBox(p: Point, q: Point, dragging: bool, allowEnded: bool, other: Rect)
    requires SelectionRect(Some(p), Some(q), dragging, allowEnded).Some?
    ensures SelectionRect(Some(p), Some(q), dragging, allowEnded).value.Contains(p)
    ensures SelectionRect(Some(p), Some(q), dragging, allowEnded).value.Contains(q)
    ensures other.Contains(p) && other.Contains(q) ==> other.Encloses(SelectionRect(Some(p), Some(q), dragging, allowEnded).value)
  {
    var r := SelectionRect(Some(p), Some(q), dragging, allowEnded).value;
    assert OppositeCorners(r, p, q);
  }
}
