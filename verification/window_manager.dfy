/**
 * An abstract window manager standing in for the operating system.
 *
 * Every live window is a record in a map keyed by handle; a handle absent
 * from the map is not a window (`IsWindow` is false). Every primitive the
 * host invokes is a `Call`, and has a function here that both changes the
 * windows as the OS would and appends the call to a log, so that contracts
 * can speak about which primitives were issued and in what order. A call on
 * a handle that is not a window is logged and changes nothing, which is how
 * the Win32 functions fail.
 *
 * Visibility is the `WS_VISIBLE` style bit, which is what `IsWindowVisible`
 * reads for a top-level window. Positions given to `SetWindowPos` are relative to the client area
 * of the window's parent when it has a live parent, and are screen
 * coordinates otherwise; rectangles are always stored in screen coordinates.
 * `SetParent` keeps a window's offset from that origin, so its screen
 * rectangle follows the change of origin.
 */
module WindowManager {
  import opened Common
  import opened Win32

  /** A descendant as `EnumChildWindows` reports it: its handle and class name. */
  datatype Child = Child(handle: Handle, className: string)

  /**
   * One live window. `inset` is the offset of the client area's origin from
   * the top-left corner of the window rectangle (its frame thickness);
   * `descendants` lists its child windows in `EnumChildWindows` order.
   */
  datatype Window = Window(
    style: Flags,
    exstyle: Flags,
    rect: Rect,
    inset: Point,
    parent: Option<Handle>,
    pid: nat,
    tid: nat,
    className: string,
    title: string,
    descendants: seq<Child>)

  /**
   * A style that is neither maximized nor minimized. The model keeps no
   * restore placement, so `SW_RESTORE` is faithful only for such a window.
   */
  predicate NormalPlacement(style: Flags) {
    !HasAll(style, WS_MAXIMIZE) && !HasAll(style, WS_MINIMIZE)
  }

  /** Which long value `SetWindowLongW` writes. */
  datatype LongIndex = GwlStyle | GwlExStyle

  /** The primitives the host issues. */
  datatype Call =
    | SetWindowLongW(hwnd: Handle, index: LongIndex, value: Flags)
    | SetParent(hwnd: Handle, newParent: Handle)
    | SetWindowPos(hwnd: Handle, insertAfter: Handle, x: int, y: int, cx: int, cy: int, flags: Flags)
    | ShowWindow(hwnd: Handle, cmd: int)
    | SetForegroundWindow(hwnd: Handle)
    | AttachThreadInput(from: nat, to: nat, attach: bool)
    | SetActiveWindow(hwnd: Handle)
    | SetFocus(hwnd: Handle)
    | PostClose(hwnd: Handle)
      /** The short-lived thread that sleeps 100 ms and then detaches `from` from `to`. */
    | SpawnDelayedDetach(from: nat, to: nat)

  datatype State = State(windows: map<Handle, Window>, log: seq<Call>)

  // ---------------------------------------------------------------------
  // Queries, with the value each Win32 query yields for a dead handle.
  // ---------------------------------------------------------------------

  predicate IsWindow(st: State, h: Handle) {
    h in st.windows
  }

  /**
   * `IsWindowVisible` of a top-level window: a live window with `WS_VISIBLE`
   * in its style. For a child window the ancestors' bits are not consulted.
   */
  predicate IsVisible(st: State, h: Handle) {
    h in st.windows && HasAll(st.windows[h].style, WS_VISIBLE)
  }

  /** `GetWindowLongW(h, GWL_STYLE)`; 0 when `h` is not a window. */
  function StyleOf(st: State, h: Handle): Flags {
    if h in st.windows then st.windows[h].style else {}
  }

  /** `GetWindowLongW(h, GWL_EXSTYLE)`; 0 when `h` is not a window. */
  function ExStyleOf(st: State, h: Handle): Flags {
    if h in st.windows then st.windows[h].exstyle else {}
  }

  /** `GetWindowRect`; fails when `h` is not a window. */
  function WindowRect(st: State, h: Handle): Option<Rect> {
    if h in st.windows then Some(st.windows[h].rect) else None
  }

  /** `GetWindowThreadProcessId(h, Some(&mut pid))`: the process id, 0 when `h` is not a window. */
  function ProcessOf(st: State, h: Handle): nat {
    if h in st.windows then st.windows[h].pid else 0
  }

  /** `GetWindowThreadProcessId(h, None)`: the thread id, 0 when `h` is not a window. */
  function ThreadOf(st: State, h: Handle): nat {
    if h in st.windows then st.windows[h].tid else 0
  }

  /** `GetClassNameW`: empty when `h` is not a window. */
  function ClassOf(st: State, h: Handle): string {
    if h in st.windows then st.windows[h].className else ""
  }

  /** `GetWindowTextW`: empty when `h` is not a window. */
  function TitleOf(st: State, h: Handle): string {
    if h in st.windows then st.windows[h].title else ""
  }

  /** `GetParent`: an error (None) for a top-level window or a dead handle. */
  function ParentOf(st: State, h: Handle): Option<Handle> {
    if h in st.windows then st.windows[h].parent else None
  }

  /** Screen position of a window's client-area origin (`ClientToScreen` of (0, 0)). */
  function ClientOrigin(w: Window): Point {
    Point(w.rect.left + w.inset.x, w.rect.top + w.inset.y)
  }

  /** `ScreenToClient(p, pt)`; the point is left untouched when `p` is not a window. */
  function ScreenToClient(st: State, p: Handle, pt: Point): Point {
    if p in st.windows then
      var o := ClientOrigin(st.windows[p]);
      Point(pt.x - o.x, pt.y - o.y)
    else pt
  }

  /** The origin that `SetWindowPos` coordinates of `w` are relative to. */
  function PlacementOrigin(st: State, w: Window): Point {
    if w.parent.Some? && w.parent.value in st.windows then ClientOrigin(st.windows[w.parent.value])
    else Point(0, 0)
  }

  // ---------------------------------------------------------------------
  // Effects of the primitives.
  // ---------------------------------------------------------------------

  /** The rectangle `SetWindowPos` gives `w`, honouring `SWP_NOMOVE` and `SWP_NOSIZE`. */
  function Placed(st: State, w: Window, x: int, y: int, cx: int, cy: int, flags: Flags): Rect {
    var o := PlacementOrigin(st, w);
    var left := if HasAll(flags, SWP_NOMOVE) then w.rect.left else o.x + x;
    var top := if HasAll(flags, SWP_NOMOVE) then w.rect.top else o.y + y;
    var width := if HasAll(flags, SWP_NOSIZE) then w.rect.Width() else cx;
    var height := if HasAll(flags, SWP_NOSIZE) then w.rect.Height() else cy;
    Rect(left, top, left + width, top + height)
  }

  /** The calls that act on a window; the others only leave a trace in the log. */
  predicate ActsOnWindow(c: Call) {
    c.SetWindowLongW? || c.SetParent? || c.SetWindowPos? || c.ShowWindow?
  }

  /** `SetWindowLongW(h, index, v)`: overwrites the style or the extended style. */
  function WriteLong(st: State, h: Handle, index: LongIndex, v: Flags): (r: State)
    ensures r.log == st.log + [SetWindowLongW(h, index, v)]
    ensures h !in st.windows ==> r.windows == st.windows
    ensures h in st.windows && index == GwlStyle ==> r.windows == st.windows[h := st.windows[h].(style := v)]
    ensures h in st.windows && index == GwlExStyle ==> r.windows == st.windows[h := st.windows[h].(exstyle := v)]
  {
    var c := SetWindowLongW(h, index, v);
    if h !in st.windows then State(st.windows, st.log + [c])
    else if index == GwlStyle then State(st.windows[h := st.windows[h].(style := v)], st.log + [c])
    else State(st.windows[h := st.windows[h].(exstyle := v)], st.log + [c])
  }

  /**
   * `w` under the new parent `p` (None for top-level). `SetParent` keeps the
   * window's offset from the origin its coordinates are relative to, so its
   * screen rectangle moves with the change of origin.
   */
  function ReparentedWindow(st: State, w: Window, p: Option<Handle>): Window
    requires p.Some? ==> p.value in st.windows
  {
    var o := PlacementOrigin(st, w);
    var n := if p.Some? then ClientOrigin(st.windows[p.value]) else Point(0, 0);
    var dx := n.x - o.x;
    var dy := n.y - o.y;
    w.(parent := p, rect := Rect(w.rect.left + dx, w.rect.top + dy, w.rect.right + dx, w.rect.bottom + dy))
  }

  /** Two states whose windows sit at the same places: same handles, rectangles and client insets. */
  ghost predicate SameGeometry(a: State, b: State) {
    && a.windows.Keys == b.windows.Keys
    && forall k :: k in a.windows ==> a.windows[k].rect == b.windows[k].rect && a.windows[k].inset == b.windows[k].inset
  }

  /** Reparenting reads only where windows sit. */
  lemma SameGeometryReparents(a: State, b: State, w: Window, p: Option<Handle>)
    requires SameGeometry(a, b) && (p.Some? ==> p.value in a.windows)
    ensures ReparentedWindow(a, w, p) == ReparentedWindow(b, w, p)
  {
    if w.parent.Some? {
      var q := w.parent.value;
      assert q in a.windows.Keys <==> q in b.windows.Keys;
      if q in a.windows {
        assert ClientOrigin(a.windows[q]) == ClientOrigin(b.windows[q]);
      }
    }
    assert PlacementOrigin(a, w) == PlacementOrigin(b, w);
    if p.Some? {
      var n := p.value;
      assert n in a.windows && n in b.windows.Keys;
      assert a.windows[n].rect == b.windows[n].rect && a.windows[n].inset == b.windows[n].inset;
      assert ClientOrigin(a.windows[p.value]) == ClientOrigin(b.windows[p.value]);
    }
  }

  /** `SetParent(h, p)`: null makes `h` top-level; a dead new parent makes the call fail. */
  function Reparent(st: State, h: Handle, p: Handle): (r: State)
    ensures r.log == st.log + [SetParent(h, p)]
    ensures h !in st.windows || (p != NULL && p !in st.windows) ==> r.windows == st.windows
    ensures h in st.windows && p == NULL ==> r.windows == st.windows[h := ReparentedWindow(st, st.windows[h], None)]
    ensures h in st.windows && p != NULL && p in st.windows ==>
              r.windows == st.windows[h := ReparentedWindow(st, st.windows[h], Some(p))]
  {
    var c := SetParent(h, p);
    if h !in st.windows then State(st.windows, st.log + [c])
    else if p == NULL then State(st.windows[h := ReparentedWindow(st, st.windows[h], None)], st.log + [c])
    else if p in st.windows then State(st.windows[h := ReparentedWindow(st, st.windows[h], Some(p))], st.log + [c])
    else State(st.windows, st.log + [c])
  }

  /**
   * A successful `SetParent` changes which window `h` belongs to but not
   * where it sits relative to the origin of its coordinates, nor its size:
   * what was at (x, y) on the screen is at (x, y) in the new parent's client
   * area, and the other way round when it becomes top-level.
   */
  lemma ReparentKeepsOffset(st: State, h: Handle, p: Handle)
    requires h in st.windows && p != h && (p == NULL || p in st.windows)
    ensures var r := Reparent(st, h, p);
            var before := st.windows[h];
            var after := r.windows[h];
            && after.parent == (if p == NULL then None else Some(p))
            && after.rect.left - PlacementOrigin(r, after).x == before.rect.left - PlacementOrigin(st, before).x
            && after.rect.top - PlacementOrigin(r, after).y == before.rect.top - PlacementOrigin(st, before).y
            && after.rect.Width() == before.rect.Width() && after.rect.Height() == before.rect.Height()
            && (forall k :: k in st.windows && k != h ==> r.windows[k] == st.windows[k])
  {
    var r := Reparent(st, h, p);
    if p != NULL {
      assert r.windows[p] == st.windows[p];
    }
  }

  /**
   * `SetWindowPos(h, after, x, y, cx, cy, flags)`: moves and sizes `h` exactly
   * as asked (no clamping by the OS), and shows it under `SWP_SHOWWINDOW`.
   * The Z-order is not modelled.
   */
  function Position(st: State, h: Handle, after: Handle, x: int, y: int, cx: int, cy: int, flags: Flags): (r: State)
    ensures r.log == st.log + [SetWindowPos(h, after, x, y, cx, cy, flags)]
    ensures h !in st.windows ==> r.windows == st.windows
    ensures h in st.windows ==> r.windows == st.windows[h := st.windows[h].(
              rect := Placed(st, st.windows[h], x, y, cx, cy, flags),
              style := if HasAll(flags, SWP_SHOWWINDOW) then st.windows[h].style + WS_VISIBLE else st.windows[h].style)]
  {
    var c := SetWindowPos(h, after, x, y, cx, cy, flags);
    if h !in st.windows then State(st.windows, st.log + [c])
    else
      var w := st.windows[h];
      var style := if HasAll(flags, SWP_SHOWWINDOW) then w.style + WS_VISIBLE else w.style;
      State(st.windows[h := w.(rect := Placed(st, w, x, y, cx, cy, flags), style := style)], st.log + [c])
  }

  /** `ShowWindow(h, cmd)`: `SW_HIDE` clears `WS_VISIBLE`, `SW_SHOW` and `SW_RESTORE` set it. */
  function ShowCmd(st: State, h: Handle, cmd: int): (r: State)
    ensures r.log == st.log + [ShowWindow(h, cmd)]
    ensures h !in st.windows || (cmd != SW_HIDE && cmd != SW_SHOW && cmd != SW_RESTORE) ==> r.windows == st.windows
    ensures h in st.windows && cmd == SW_HIDE ==> r.windows == st.windows[h := st.windows[h].(style := st.windows[h].style - WS_VISIBLE)]
    ensures h in st.windows && (cmd == SW_SHOW || cmd == SW_RESTORE) ==>
              r.windows == st.windows[h := st.windows[h].(style := st.windows[h].style + WS_VISIBLE)]
  {
    var c := ShowWindow(h, cmd);
    if h !in st.windows then State(st.windows, st.log + [c])
    else if cmd == SW_HIDE then State(st.windows[h := st.windows[h].(style := st.windows[h].style - WS_VISIBLE)], st.log + [c])
    else if cmd == SW_SHOW || cmd == SW_RESTORE then
      State(st.windows[h := st.windows[h].(style := st.windows[h].style + WS_VISIBLE)], st.log + [c])
    else State(st.windows, st.log + [c])
  }

  /** A call that changes no window: focus, foreground, input attachment, posted close. */
  function Emit(st: State, c: Call): (r: State)
    requires !ActsOnWindow(c)
    ensures r.log == st.log + [c] && r.windows == st.windows
  {
    State(st.windows, st.log + [c])
  }
}
