/**
 * The full-screen selection overlay (ScreenCaptureView): the pointer state
 * machine driven by mouse and key events, the frame it draws, the
 * coordinate label beside the cursor, and the crop it hands to its
 * completion handler. Every call of the completion handler is recorded, in
 * order, in `completions`; the handler's own effect belongs to its owner.
 */
module Overlay {
  import opened Wrappers
  import opened Selection
  import opened Imaging

  /** The virtual key code of Escape. */
  const EscapeKeyCode := 53

  /** The measured extent of a piece of text, as the font reports it. */
  datatype Size = Size(w: nat, h: nat)

  // ---------------------------------------------------------------------
  // Coordinate label

  function DigitChar(d: nat): (c: char)
    requires d < 10
    ensures '0' <= c <= '9'
  {
    "0123456789"[d]
  }

  predicate AllDigits(s: string) {
    forall k :: 0 <= k < |s| ==> '0' <= s[k] <= '9'
  }

  /** Decimal digits of n, most significant first. */
  function Digits(n: nat): (s: string)
    ensures |s| >= 1 && AllDigits(s)
    ensures n > 0 ==> s[0] != '0'
  {
    if n < 10 then [DigitChar(n)] else Digits(n / 10) + [DigitChar(n % 10)]
  }

  /** The number a string of decimal digits spells. */
  function DigitsValue(s: string): nat
    requires AllDigits(s)
  {
    if s == [] then 0 else DigitsValue(s[..|s| - 1]) * 10 + (s[|s| - 1] as int - '0' as int)
  }

  /** Reading the printed digits back gives the number printed. */
  lemma {:induction false} DigitsRoundTrip(n: nat)
    ensures DigitsValue(Digits(n)) == n
  {
    if n >= 10 {
      var s := Digits(n);
      assert s[..|s| - 1] == Digits(n / 10);
      DigitsRoundTrip(n / 10);
    }
  }

  /** An integer the way string interpolation prints it: optional minus sign, then digits. */
  function IntText(i: int): (s: string)
    ensures |s| >= 1 && (s[0] == '-' <==> i < 0) && ',' !in s
    ensures AllDigits(if i < 0 then s[1..] else s)
    ensures DigitsValue(if i < 0 then s[1..] else s) == Abs(i)
  {
    DigitsRoundTrip(Abs(i));
    assert i < 0 ==> ("-" + Digits(-i))[1..] == Digits(-i);
    if i < 0 then "-" + Digits(-i) else Digits(i)
  }

  /** Different integers print differently. */
  lemma IntTextInjective(i: int, j: int)
    requires IntText(i) == IntText(j)
    ensures i == j
  {
  }

  /** The text of the coordinate label: the raw pointer position, "(x, y)", each coordinate printed in full. */
  function LabelText(p: Point): (s: string)
    ensures s == "(" + IntText(p.x) + ", " + IntText(p.y) + ")"
    ensures s[0] == '(' && s[|s| - 1] == ')'
  {
    "(" + IntText(p.x) + ", " + IntText(p.y) + ")"
  }

  /** In x == "(" + a + ", " + b + ")" with no comma in a, the first comma follows a. */
  lemma {:induction false} CommaFollowsFirst(x: string, a: string, b: string)
    requires ',' !in a && x == "(" + a + ", " + b + ")"
    ensures forall k :: 1 <= k <= |a| + 1 ==> (x[k] == ',' <==> k == |a| + 1)
  {
    forall k | 1 <= k <= |a| + 1
      ensures x[k] == ',' <==> k == |a| + 1
    {
      if k <= |a| {
        assert x[k] == a[k - 1];
      }
    }
  }

  /** Both parts of a label can be read back: the first comma separates them. */
  lemma {:induction false} LabelPartsDetermined(a1: string, b1: string, a2: string, b2: string)
    requires ',' !in a1 && ',' !in a2
    requires "(" + a1 + ", " + b1 + ")" == "(" + a2 + ", " + b2 + ")"
    ensures a1 == a2 && b1 == b2
  {
    var x := "(" + a1 + ", " + b1 + ")";
    CommaFollowsFirst(x, a1, b1);
    CommaFollowsFirst(x, a2, b2);
    assert x[|a1| + 1] == ',' && x[|a2| + 1] == ',';
    assert |a1| == |a2|;
    assert a1 == x[1..1 + |a1|] == a2;
    assert b1 == x[3 + |a1|..|x| - 1] == b2;
  }

  /** The label identifies the point: two positions with the same label are the same position. */
  lemma {:induction false} LabelTextInjective(p: Point, q: Point)
    requires LabelText(p) == LabelText(q)
    ensures p == q
  {
    LabelPartsDetermined(IntText(p.x), IntText(p.y), IntText(q.x), IntText(q.y));
    IntTextInjective(p.x, q.x);
    IntTextInjective(p.y, q.y);
  }

  /**
   * Where the coordinate label is drawn: 10 points right of and 25 points
   * below the cursor, moved to the cursor's left when it would pass the
   * right edge of the bounds, and moved above the cursor when it would
   * start below the bottom edge. Nothing else is clamped.
   */
  function LabelOrigin(p: Point, size: Size, bounds: Rect): (o: Point)
    ensures o.x == p.x + 10 || o.x == p.x - size.w - 5
    ensures o.y == p.y - 25 || o.y == p.y + 10
    ensures p.x <= bounds.MaxX() ==> o.x + size.w <= bounds.MaxX()
    ensures p.y >= bounds.y ==> o.y >= bounds.y
    ensures o.x > p.x || o.x + size.w < p.x
    ensures p.x + 10 + size.w <= bounds.MaxX() ==> o.x == p.x + 10
    ensures p.y - 25 >= bounds.y ==> o.y == p.y - 25
  {
    var x := if p.x + 10 + size.w > bounds.MaxX() then p.x - size.w - 5 else p.x + 10;
    var y := if p.y - 25 < bounds.y then p.y + 10 else p.y - 25;
    Point(x, y)
  }

  /** Nothing keeps the label from leaving the left edge when it is wider than the room beside the cursor. */
  lemma LabelIsNotClampedLeft()
    ensures LabelOrigin(Point(20, 50), Size(80, 16), Rect(0, 0, 100, 100)).x < 0
  {
  }

  // ---------------------------------------------------------------------
  // Drawing

  datatype Segment = Segment(from: Point, to: Point)

  /** One drawing operation of a frame, in the order the frame issues them. */
  datatype DrawCommand =
    | DrawSnapshot(clip: Option<Rect>)      // the reference image over the full bounds, clipped when a rect is given
    | FillMask(area: Rect)                  // translucent black over the area
    | StrokeBorder(rect: Rect)              // the accent-coloured outline of the selection
    | StrokeCrosshair(lines: seq<Segment>)  // one vertical and one horizontal line through the cursor
    | DrawLabel(text: string, origin: Point)

  /** Whether q lies on the horizontal or vertical segment l. */
  predicate OnAxisSegment(l: Segment, q: Point) {
    || (l.from.x == l.to.x == q.x && l.from.y <= q.y <= l.to.y)
    || (l.from.y == l.to.y == q.y && l.from.x <= q.x <= l.to.x)
  }

  /**
   * The crosshair: a vertical line at the cursor's x spanning the full
   * height of the bounds and a horizontal line at its y spanning the full
   * width; inside the bounds both pass through the cursor.
   */
  function Crosshair(p: Point, bounds: Rect): (lines: seq<Segment>)
    ensures |lines| == 2
    ensures lines[0].from == Point(p.x, bounds.y) && lines[0].to == Point(p.x, bounds.MaxY())
    ensures lines[1].from == Point(bounds.x, p.y) && lines[1].to == Point(bounds.MaxX(), p.y)
    ensures bounds.Contains(p) ==> OnAxisSegment(lines[0], p) && OnAxisSegment(lines[1], p)
  {
    [Segment(Point(p.x, bounds.y), Point(p.x, bounds.MaxY())),
     Segment(Point(bounds.x, p.y), Point(bounds.MaxX(), p.y))]
  }

  /**
   * One frame over `bounds`: snapshot, mask, then the unmasked selection
   * and its border while a drag shows a live rectangle `sel`, then
   * crosshair and label while the cursor position is known.
   */
  function Scene(sel: Option<Rect>, cursor: Option<Point>, bounds: Rect, measure: string -> Size): (cmds: seq<DrawCommand>)
    ensures |cmds| == 2 + (if sel.Some? then 2 else 0) + (if cursor.Some? then 2 else 0)
    ensures cmds[0] == DrawSnapshot(None) && cmds[1] == FillMask(bounds)
    ensures sel.Some? ==> cmds[2] == DrawSnapshot(sel) && cmds[3] == StrokeBorder(sel.value)
    ensures cursor.Some? ==>
      var p := cursor.value;
      cmds[|cmds| - 2] == StrokeCrosshair(Crosshair(p, bounds))
      && cmds[|cmds| - 1] == DrawLabel(LabelText(p), LabelOrigin(p, measure(LabelText(p)), bounds))
  {
    var base := [DrawSnapshot(None), FillMask(bounds)];
    match (sel, cursor)
    case (None, None) => base
    case (Some(r), None) => base + [DrawSnapshot(sel), StrokeBorder(r)]
    case (None, Some(p)) => base + Pointer(p, bounds, measure)
    case (Some(r), Some(p)) => base + [DrawSnapshot(sel), StrokeBorder(r)] + Pointer(p, bounds, measure)
  }

  /** Crosshair and coordinate label for the cursor at p. */
  function Pointer(p: Point, bounds: Rect, measure: string -> Size): seq<DrawCommand>
  {
    var text := LabelText(p);
    [StrokeCrosshair(Crosshair(p, bounds)), DrawLabel(text, LabelOrigin(p, measure(text), bounds))]
  }

  class ScreenCaptureView {
    const bounds: Rect
    const screenshot: Image

    var startPoint: Option<Point>
    var currentPoint: Option<Point>
    var isDragging: bool
    var needsDisplay: bool

    /** Every call of the completion handler, in order: Some(crop) to finish, None to cancel. */
    var completions: seq<Option<Image>>

    /** The view's own coordinates start at the origin and span the frame it is created with. */
    constructor (frame: Rect, screenshot: Image)
      ensures this.bounds == Rect(0, 0, frame.w, frame.h) && this.screenshot == screenshot
      ensures startPoint == None && currentPoint == None && !isDragging
      ensures completions == []
    {
      this.bounds := Rect(0, 0, frame.w, frame.h);
      this.screenshot := screenshot;
      startPoint, currentPoint, isDragging := None, None, false;
      needsDisplay := false;
      completions := [];
    }

    /** The rectangle between press point and current point, while dragging (or, with allowEnded, after it). */
    function CurrentSelectionRect(allowEnded: bool): (r: Option<Rect>)
      reads this
      ensures r.Some? ==> startPoint.Some? && currentPoint.Some? && (isDragging || allowEnded)
      ensures r.Some? ==> OppositeCorners(r.value, startPoint.value, currentPoint.value)
      ensures r.Some? ==> r.value.w >= MinExtent && r.value.h >= MinExtent
    {
      SelectionRect(startPoint, currentPoint, isDragging, allowEnded)
    }

    /** What draw issues: the scene for the live selection and the cursor. `measure` is the font's measurement. */
    function Frame(measure: string -> Size): (cmds: seq<DrawCommand>)
      reads this
      ensures |cmds| == 2 + (if CurrentSelectionRect(false).Some? then 2 else 0) + (if currentPoint.Some? then 2 else 0)
      ensures cmds[0] == DrawSnapshot(None) && cmds[1] == FillMask(bounds)
      ensures !isDragging ==> |cmds| == 2 + (if currentPoint.Some? then 2 else 0)
    {
      Scene(CurrentSelectionRect(false), currentPoint, bounds, measure)
    }

    /** Pressing starts a drag at p. */
    method MouseDown(p: Point)
      modifies this
      ensures startPoint == Some(p) && currentPoint == Some(p) && isDragging
      ensures needsDisplay && completions == old(completions)
    {
      startPoint := Some(p);
      currentPoint := Some(p);
      isDragging := true;
      needsDisplay := true;
    }

    /** Dragging moves the current point; the press point stays. */
    method MouseDragged(p: Point)
      modifies this
      ensures currentPoint == Some(p) && needsDisplay
      ensures startPoint == old(startPoint) && isDragging == old(isDragging) && completions == old(completions)
    {
      currentPoint := Some(p);
      needsDisplay := true;
    }

    /** Hovering moves the cursor only outside a drag, and never sets the press point. */
    method MouseMoved(p: Point)
      modifies this
      ensures currentPoint == if old(isDragging) then old(currentPoint) else Some(p)
      ensures needsDisplay == (old(needsDisplay) || !old(isDragging))
      ensures startPoint == old(startPoint) && isDragging == old(isDragging) && completions == old(completions)
    {
      if !isDragging {
        currentPoint := Some(p);
        needsDisplay := true;
      }
    }

    /**
     * Releasing ends the drag at p. A live rectangle between the press
     * point and p is cropped from the snapshot and handed to the completion
     * handler, once; otherwise no handler is called and the overlay stays up.
     */
    method MouseUp(p: Point)
      modifies this
      ensures currentPoint == Some(p) && !isDragging && needsDisplay && startPoint == old(startPoint)
      ensures completions == old(completions) +
        match SelectionRect(old(startPoint), Some(p), false, true)
        case Some(r) => [Some(Cropped(screenshot, r))]
        case None => []
    {
      currentPoint := Some(p);
      isDragging := false;
      needsDisplay := true;
      var rect := CurrentSelectionRect(true);
      if rect.None? {
        return;
      }
      var cropped := Crop(screenshot, rect.value);
      completions := completions + [Some(cropped)];
    }

    /** Escape cancels, whatever the pointer state; other keys go up the responder chain. */
    method KeyDown(keyCode: int)
      modifies this
      ensures completions == old(completions) + if keyCode == EscapeKeyCode then [None] else []
      ensures startPoint == old(startPoint) && currentPoint == old(currentPoint) && isDragging == old(isDragging)
      ensures needsDisplay == old(needsDisplay)
    {
      if keyCode == EscapeKeyCode {
        completions := completions + [None];
      }
    }
  }

  /** A press, a drag and a release 40 by 30 points apart hand over one crop of that size; a click hands over nothing; Escape cancels mid-drag. */
  method SessionScenario(snapshot: Image)
  {
    var view := new ScreenCaptureView(Rect(0, 0, 200, 100), snapshot);
    view.MouseMoved(Point(5, 5));
    view.MouseDown(Point(10, 10));
    view.MouseMoved(Point(90, 90));
    assert view.currentPoint == Some(Point(10, 10));
    view.MouseDragged(Point(50, 40));
    view.MouseUp(Point(50, 40));
    assert |view.completions| == 1 && view.completions[0].Some?;
    assert view.completions[0].value.width == 40 && view.completions[0].value.height == 30;

    view.MouseDown(Point(70, 70));
    view.MouseUp(Point(71, 90));
    assert |view.completions| == 1;

    view.MouseDown(Point(20, 20));
    view.MouseDragged(Point(60, 60));
    view.KeyDown(EscapeKeyCode);
    assert view.completions == [view.completions[0], None];
  }
}
