/**
 * The pure geometry decisions of the command surface: whether
 * `update_window_rect` has to move the window, given what the window
 * manager reported, and the hover test of `is_cursor_in_client_area`.
 */
module Geometry {
  import opened Common
  import opened Win32

  /** Where a window currently sits in its parent's client area, and its size. */
  datatype Placement = Placement(topLeft: Point, width: int, height: int)

  /**
   * What `update_window_rect` learns before deciding: whether the handle is a
   * window, and its placement when both `GetWindowRect` and `GetParent`
   * succeeded (None when either failed).
   */
  datatype Probe = Probe(valid: bool, current: Option<Placement>)

  /** The command's reply and the `SetWindowPos` it issues, if any. */
  datatype Plan = Plan(result: bool, move: Option<Placement>)

  /** Two placements agree to within one pixel on each of the four components. */
  predicate Near(a: Placement, b: Placement) {
    WithinOne(a.topLeft.x, b.topLeft.x) && WithinOne(a.topLeft.y, b.topLeft.y)
    && WithinOne(a.width, b.width) && WithinOne(a.height, b.height)
  }

  /** `update_window_rect`'s decision for a request of `(x, y, width, height)`. */
  function PlanUpdate(probe: Probe, x: int, y: int, width: int, height: int): (p: Plan)
    ensures !probe.valid ==> p == Plan(false, None)
    ensures probe.valid ==> p.result
    ensures p.move.None? <==>
              !probe.valid || (probe.current.Some? && Near(probe.current.value, Placement(Point(x, y), width, height)))
    ensures p.move.Some? ==> p.move.value == Placement(Point(x, y), width, height)
  {
    var wanted := Placement(Point(x, y), width, height);
    if !probe.valid then Plan(false, None)
    else if probe.current.Some? && Near(probe.current.value, wanted) then Plan(true, None)
    else Plan(true, Some(wanted))
  }

  /** A window whose rectangle or parent could not be read is always moved. */
  lemma UnreadableGeometryAlwaysMoves(x: int, y: int, width: int, height: int)
    ensures PlanUpdate(Probe(true, None), x, y, width, height).move == Some(Placement(Point(x, y), width, height))
  {
  }

  /** Asking for the placement the window already has never moves it. */
  lemma {:induction false} SamePlacementNeverMoves(at: Placement)
    ensures PlanUpdate(Probe(true, Some(at)), at.topLeft.x, at.topLeft.y, at.width, at.height) == Plan(true, None)
  {
  }

  /** The host frame's client area as the hover test reads it. */
  datatype ClientArea = ClientArea(origin: Point, width: int, height: int)

  /** Inclusive rectangle membership: all four edges belong to the rectangle. */
  predicate InsideInclusive(p: Point, r: Rect) {
    r.left <= p.x <= r.right && r.top <= p.y <= r.bottom
  }

  /**
   * `is_cursor_in_client_area`: false when the host frame is unavailable,
   * otherwise whether the cursor lies in the client area with its top edge
   * pushed down by `topOffset`, edges included.
   */
  function CursorInClientArea(host: Option<ClientArea>, cursor: Point, topOffset: int): (r: bool)
    ensures host.None? ==> !r
    ensures host.Some? ==>
              (r <==> InsideInclusive(cursor, Rect(host.value.origin.x, host.value.origin.y + topOffset,
                                                   host.value.origin.x + host.value.width,
                                                   host.value.origin.y + host.value.height)))
  {
    match host
    case None => false
    case Some(area) =>
      var screenLeft := area.origin.x;
      var screenTop := area.origin.y;
      var screenRight := screenLeft + area.width;
      var screenBottom := screenTop + area.height;
      var effectiveTop := screenTop + topOffset;
      cursor.x >= screenLeft && cursor.x <= screenRight && cursor.y >= effectiveTop && cursor.y <= screenBottom
  }

  /** A larger top offset only shrinks the hover region. */
  lemma HoverShrinksWithOffset(host: Option<ClientArea>, cursor: Point, small: int, large: int)
    requires small <= large
    ensures CursorInClientArea(host, cursor, large) ==> CursorInClientArea(host, cursor, small)
  {
  }
}
