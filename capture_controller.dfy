/**
 * The capture-session lifecycle (ScreenCaptureController): a stored
 * completion handler and an overlay-window slot. Screen lookup, the
 * one-shot snapshot and window creation are platform calls, so their
 * results arrive as parameters; handlers and windows are opaque tokens and
 * every handler invocation is recorded, in order, in `calls`.
 */
module CaptureController {
  import opened Wrappers
  import opened Selection
  import opened Imaging
  import opened Overlay

  datatype Handler = Handler(id: nat)
  datatype Window = Window(id: nat)
  datatype Screen = Screen(frame: Rect)

  /** One invocation of a completion handler with the image it received (None: cancelled or failed). */
  datatype Call = Call(handler: Handler, image: Option<Image>)

  /** How many times handler h has been invoked. */
  function CallsTo(calls: seq<Call>, h: Handler): (n: nat)
    ensures n <= |calls|
  {
    if calls == [] then 0
    else CallsTo(calls[..|calls| - 1], h) + (if calls[|calls| - 1].handler == h then 1 else 0)
  }

  lemma {:induction false} CallsToAppend(calls: seq<Call>, more: seq<Call>, h: Handler)
    ensures CallsTo(calls + more, h) == CallsTo(calls, h) + CallsTo(more, h)
  {
    if more != [] {
      var last := more[|more| - 1];
      assert (calls + more)[..|calls + more| - 1] == calls + more[..|more| - 1];
      CallsToAppend(calls, more[..|more| - 1], h);
    } else {
      assert calls + more == calls;
    }
  }

  /** One more call adds one to its handler's count and nothing to any other's. */
  lemma CallsToOne(calls: seq<Call>, c: Call)
    ensures forall h :: CallsTo(calls + [c], h) == CallsTo(calls, h) + (if c.handler == h then 1 else 0)
  {
    assert (calls + [c])[..|calls|] == calls;
  }

  class ScreenCaptureController {
    var overlayWindow: Option<Window>
    var completion: Option<Handler>
    /** Every handler invocation, in order. */
    var calls: seq<Call>
    /** Every window taken off screen, in order. */
    var closed: seq<Window>

    constructor ()
      ensures overlayWindow == None && completion == None && calls == [] && closed == []
    {
      overlayWindow, completion := None, None;
      calls, closed := [], [];
    }

    /**
     * Start a session for `handler`. The handler is stored first, replacing
     * any earlier one, with no guard against a session already running.
     * Without a main screen, or when the snapshot fails, the handler is
     * called at once with nothing and stays stored; no window is kept.
     * Otherwise an overlay over the screen frame, showing the snapshot,
     * goes into `window` and becomes the stored overlay window.
     */
    method BeginCapture(handler: Handler, screen: Option<Screen>, snapshot: Option<Image>, window: Window)
      returns (view: Option<ScreenCaptureView>)
      modifies this
      ensures completion == Some(handler) && closed == old(closed)
      ensures screen.None? || snapshot.None? ==>
        && view.None?
        && calls == old(calls) + [Call(handler, None)]
        && overlayWindow == old(overlayWindow)
      ensures screen.Some? && snapshot.Some? ==>
        && calls == old(calls)
        && overlayWindow == Some(window)
        && view.Some? && fresh(view.value)
        && view.value.bounds == Rect(0, 0, screen.value.frame.w, screen.value.frame.h) && view.value.screenshot == snapshot.value
        && view.value.startPoint == None && view.value.currentPoint == None && !view.value.isDragging
        && view.value.completions == []
    {
      completion := Some(handler);
      if screen.None? {
        calls := calls + [Call(handler, None)];
        return None;
      }
      if snapshot.None? {
        calls := calls + [Call(handler, None)];
        return None;
      }
      var v := new ScreenCaptureView(screen.value.frame, snapshot.value);
      view := Some(v);
      overlayWindow := Some(window);
    }

    /**
     * End the session with `image`: take the overlay off screen, empty
     * both slots, then call the handler that was stored, if any.
     */
    method Finish(image: Option<Image>)
      modifies this
      ensures overlayWindow == None && completion == None
      ensures closed == old(closed) + if old(overlayWindow).Some? then [old(overlayWindow).value] else []
      ensures calls == old(calls) + if old(completion).Some? then [Call(old(completion).value, image)] else []
      ensures forall h :: CallsTo(calls, h) == CallsTo(old(calls), h) + (if old(completion) == Some(h) then 1 else 0)
    {
      if overlayWindow.Some? {
        closed := closed + [overlayWindow.value];
      }
      overlayWindow := None;
      var handler := completion;
      completion := None;
      if handler.Some? {
        CallsToOne(calls, Call(handler.value, image));
        calls := calls + [Call(handler.value, image)];
      }
    }

    /**
     * The overlay's completion closure: every report the view made from
     * position `from` on is forwarded to Finish, in order. Only the first
     * reaches the stored handler; the rest find the slot empty.
     */
    method Relay(view: ScreenCaptureView, from: nat)
      requires from <= |view.completions|
      modifies this
      ensures from < |view.completions| ==> overlayWindow == None && completion == None
      ensures from == |view.completions| ==> overlayWindow == old(overlayWindow) && completion == old(completion)
      ensures calls == old(calls) +
        if old(completion).Some? && from < |view.completions| then [Call(old(completion).value, view.completions[from])] else []
      ensures closed == old(closed) +
        if old(overlayWindow).Some? && from < |view.completions| then [old(overlayWindow).value] else []
    {
      var i := from;
      while i < |view.completions|
        invariant from <= i <= |view.completions|
        invariant i > from ==> overlayWindow == None && completion == None
        invariant i == from ==> overlayWindow == old(overlayWindow) && completion == old(completion)
        invariant calls == old(calls) +
          if old(completion).Some? && i > from then [Call(old(completion).value, view.completions[from])] else []
        invariant closed == old(closed) +
          if old(overlayWindow).Some? && i > from then [old(overlayWindow).value] else []
      {
        Finish(view.completions[i]);
        i := i + 1;
      }
    }
  }

  /**
   * On the success path the handler runs exactly once, however often the
   * overlay reports back (a crop, then Escape); after a failed start it has
   * already run once and a later finish runs it a second time.
   */
  method FinishRunsHandlerOnce(screen: Screen, snapshot: Image)
    requires screen.frame.w >= 60 && screen.frame.h >= 60
  {
    var h := Handler(1);
    var c := new ScreenCaptureController();
    var view := c.BeginCapture(h, Some(screen), Some(snapshot), Window(7));
    assert c.overlayWindow == Some(Window(7));
    var v := view.value;
    v.MouseDown(Point(10, 10));
    v.MouseDragged(Point(50, 40));
    v.MouseUp(Point(50, 40));
    v.KeyDown(EscapeKeyCode);
    assert |v.completions| == 2 && v.completions[0].Some? && v.completions[1] == None;
    c.Relay(v, 0);
    assert c.calls == [Call(h, v.completions[0])];
    assert CallsTo(c.calls, h) == 1;
    assert c.closed == [Window(7)];

    var g := Handler(2);
    view := c.BeginCapture(g, None, Some(snapshot), Window(8));
    assert c.completion == Some(g);
    c.Finish(None);
    assert c.calls == [Call(h, v.completions[0]), Call(g, None), Call(g, None)];
    CallsToAppend([Call(h, v.completions[0])], [Call(g, None), Call(g, None)], g);
    assert CallsTo(c.calls, g) == 2;
  }

  /** However many times a session is finished, each stored handler runs at most once more. */
  method FinishTwice(c: ScreenCaptureController, first: Option<Image>, second: Option<Image>)
    modifies c
    ensures forall h :: CallsTo(c.calls, h) <= CallsTo(old(c.calls), h) + 1
    ensures |c.calls| <= |old(c.calls)| + 1
  {
    c.Finish(first);
    c.Finish(second);
  }
}
