/**
 * The remaining window commands of lib.rs that act on a target window:
 * `hide_window`, `show_window` and `update_window_rect`.
 */
module Commands {
  import opened Common
  import opened Win32
  import opened WindowManager
  import opened Geometry
  import opened Engine

  // ---------------------------------------------------------------------
  // Visibility.
  // ---------------------------------------------------------------------

  /** `h` with its `WS_VISIBLE` bit set (`shown`) or cleared, and nothing else changed. */
  function WithVisibility(windows: map<Handle, Window>, h: Handle, shown: bool): map<Handle, Window>
    requires h in windows
  {
    var s := windows[h].style;
    windows[h := windows[h].(style := if shown then s + WS_VISIBLE else s - WS_VISIBLE)]
  }

  /**
   * `hide_window`: always answers true; a live window ends up invisible with
   * only its `WS_VISIBLE` bit changed, a dead handle changes nothing.
   */
  function Hide(st: State, h: Handle): (out: Outcome<bool>)
    ensures out.result && !IsVisible(out.state, h)
    ensures h in st.windows ==> out.state.windows == WithVisibility(st.windows, h, false)
    ensures h !in st.windows ==> out.state.windows == st.windows
    ensures out.state.log == st.log + [ShowWindow(h, SW_HIDE)]
  {
    Outcome(true, ShowCmd(st, h, SW_HIDE))
  }

  /**
   * `show_window`: always answers true; a live window ends up visible with
   * only its `WS_VISIBLE` bit changed, a dead handle changes nothing.
   */
  function Show(st: State, h: Handle): (out: Outcome<bool>)
    ensures out.result && (IsVisible(out.state, h) <==> h in st.windows)
    ensures h in st.windows ==> out.state.windows == WithVisibility(st.windows, h, true)
    ensures h !in st.windows ==> out.state.windows == st.windows
    ensures out.state.log == st.log + [ShowWindow(h, SW_SHOW)]
  {
    Outcome(true, ShowCmd(st, h, SW_SHOW))
  }

  /** Showing a hidden window gives back exactly the windows before, if and only if it was visible. */
  lemma ShowAfterHide(st: State, h: Handle)
    ensures Show(Hide(st, h).state, h).state.windows == st.windows <==> h !in st.windows || IsVisible(st, h)
  {
    if h in st.windows {
      var w := st.windows[h];
      var after := Show(Hide(st, h).state, h).state.windows;
      assert after[h].style == (w.style - WS_VISIBLE) + WS_VISIBLE;
      if IsVisible(st, h) {
        assert (w.style - WS_VISIBLE) + WS_VISIBLE == w.style;
        assert after[h] == w;
      } else {
        assert 28 in after[h].style && 28 !in w.style;
      }
    }
  }

  /** Hiding a shown window gives back exactly the windows before, if and only if it was hidden. */
  lemma HideAfterShow(st: State, h: Handle)
    ensures Hide(Show(st, h).state, h).state.windows == st.windows <==> h !in st.windows || !IsVisible(st, h)
  {
    if h in st.windows {
      var w := st.windows[h];
      var after := Hide(Show(st, h).state, h).state.windows;
      assert after[h].style == (w.style + WS_VISIBLE) - WS_VISIBLE;
      if !IsVisible(st, h) {
        assert (w.style + WS_VISIBLE) - WS_VISIBLE == w.style;
        assert after[h] == w;
      } else {
        assert 28 in w.style && 28 !in after[h].style;
      }
    }
  }

  // ---------------------------------------------------------------------
  // Geometry updates.
  // ---------------------------------------------------------------------

  /**
   * Where `update_window_rect` finds `h`: the top-left corner of its window
   * rectangle converted into the client coordinates of what `GetParent`
   * returns, and its size; None when `GetWindowRect` or `GetParent` fails.
   */
  function CurrentPlacement(st: State, h: Handle): Option<Placement> {
    match WindowRect(st, h)
    case None => None
    case Some(r) =>
      match ParentOf(st, h)
      case None => None
      case Some(p) => Some(Placement(ScreenToClient(st, p, Point(r.left, r.top)), r.Width(), r.Height()))
  }

  /** `SWP_NOZORDER | SWP_NOACTIVATE | SWP_SHOWWINDOW`. */
  const MoveFlags: Flags := SWP_NOZORDER + SWP_NOACTIVATE + SWP_SHOWWINDOW

  /** The placement a request of `(x, y, width, height)` asks for. */
  function Requested(x: int, y: int, width: int, height: int): Placement {
    Placement(Point(x, y), width, height)
  }

  /**
   * `update_window_rect`: a dead handle is answered false with no call; a
   * window already within one pixel of the request on all four components
   * is answered true with no call; anything else, including a window whose
   * rectangle or parent cannot be read, is moved there by exactly one
   * `SetWindowPos` and answered true.
   */
  function UpdateRect(st: State, h: Handle, x: int, y: int, width: int, height: int): (out: Outcome<bool>)
    ensures h !in st.windows ==> out == Outcome(false, st)
    ensures h in st.windows && CurrentPlacement(st, h).Some? && Near(CurrentPlacement(st, h).value, Requested(x, y, width, height))
            ==> out == Outcome(true, st)
    ensures h in st.windows && !(CurrentPlacement(st, h).Some? && Near(CurrentPlacement(st, h).value, Requested(x, y, width, height)))
            ==> out == Outcome(true, Position(st, h, NULL, x, y, width, height, MoveFlags))
  {
    var plan := PlanUpdate(Probe(IsWindow(st, h), CurrentPlacement(st, h)), x, y, width, height);
    match plan.move
    case None => Outcome(plan.result, st)
    case Some(to) => Outcome(plan.result, Position(st, h, NULL, to.topLeft.x, to.topLeft.y, to.width, to.height, MoveFlags))
  }

  /**
   * After a move under a live parent other than itself, the window sits
   * exactly where it was asked to be, in its parent's client coordinates.
   */
  lemma MoveLandsOnRequest(st: State, h: Handle, x: int, y: int, width: int, height: int)
    requires h in st.windows
    requires st.windows[h].parent.Some? && st.windows[h].parent.value in st.windows && st.windows[h].parent.value != h
    ensures CurrentPlacement(Position(st, h, NULL, x, y, width, height, MoveFlags), h) == Some(Requested(x, y, width, height))
  {
    var p := st.windows[h].parent.value;
    var st' := Position(st, h, NULL, x, y, width, height, MoveFlags);
    assert st'.windows[p] == st.windows[p];
    assert st'.windows[h].rect == Rect(ClientOrigin(st.windows[p]).x + x, ClientOrigin(st.windows[p]).y + y,
                                       ClientOrigin(st.windows[p]).x + x + width, ClientOrigin(st.windows[p]).y + y + height);
  }

  /**
   * An embedded window (live parent other than itself) asked twice for the
   * same placement is moved at most once: the second request is answered
   * true and changes nothing.
   */
  lemma UpdateRectSettles(st: State, h: Handle, x: int, y: int, width: int, height: int)
    requires h in st.windows
    requires st.windows[h].parent.Some? && st.windows[h].parent.value in st.windows && st.windows[h].parent.value != h
    ensures var once := UpdateRect(st, h, x, y, width, height);
            UpdateRect(once.state, h, x, y, width, height) == Outcome(true, once.state)
  {
    var once := UpdateRect(st, h, x, y, width, height);
    if once.state != st {
      MoveLandsOnRequest(st, h, x, y, width, height);
    }
  }

  /**
   * An unowned top-level window has no parent for `GetParent` to return, so
   * every request moves it again, even one for the place it already occupies.
   */
  lemma TopLevelAlwaysMoves(st: State, h: Handle, x: int, y: int, width: int, height: int)
    requires h in st.windows && st.windows[h].parent.None?
    ensures UpdateRect(st, h, x, y, width, height) == Outcome(true, Position(st, h, NULL, x, y, width, height, MoveFlags))
  {
  }
}
