/**
 * `embed_window`, `release_window` and `close_target_window` as transitions
 * of the window manager and the embed registry.
 */
module Embedding {
  import opened Common
  import opened Win32
  import opened WindowManager
  import opened Registry
  import opened Classifier
  import opened Engine

  // ---------------------------------------------------------------------
  // Embedding.
  // ---------------------------------------------------------------------

  /**
   * The record `embed_window` captures for `h`: a live window's own style,
   * extended style and screen rectangle; for a handle that is not a window,
   * the zero styles and `RECT::default()` the failed reads leave behind.
   */
  function Capture(st: State, h: Handle): (s: Saved)
    ensures s.handle == h
    ensures h in st.windows ==> s.style == st.windows[h].style && s.exstyle == st.windows[h].exstyle && s.rect == st.windows[h].rect
    ensures h !in st.windows ==> s.style == {} && s.exstyle == {} && s.rect == Rect(0, 0, 0, 0)
  {
    Saved(h, StyleOf(st, h), ExStyleOf(st, h), match WindowRect(st, h) case Some(r) => r case None => EmptyRect)
  }

  /**
   * A live window `w` once embedded under `host`: restyled as a visible child,
   * and adopted by `host` when `SetParent` succeeds (null would make it
   * top-level; a dead host leaves its parent alone). Adoption keeps its
   * offset, so a top-level window lands at its old screen position measured
   * from the host's client origin.
   */
  function EmbeddedWindow(st: State, w: Window, host: Handle): Window {
    var restyled := w.(style := EmbeddedStyle(w.style));
    if host == NULL then ReparentedWindow(st, restyled, None)
    else if host in st.windows then ReparentedWindow(st, restyled, Some(host))
    else restyled
  }

  /** Restyle `h` for embedding, reparent it under `host`, and raise it. */
  function Adopt(st: State, h: Handle, host: Handle): (r: State)
    ensures h in st.windows ==> r.windows == st.windows[h := EmbeddedWindow(st, st.windows[h], host)]
    ensures h !in st.windows ==> r.windows == st.windows
    ensures r.log == st.log + [SetWindowLongW(h, GwlStyle, EmbeddedStyle(StyleOf(st, h))), SetParent(h, host), RaiseCall(h)]
  {
    var s1 := WriteLong(st, h, GwlStyle, EmbeddedStyle(StyleOf(st, h)));
    var s2 := Reparent(s1, h, host);
    assert h in st.windows ==> EmbeddedStyle(st.windows[h].style) + WS_VISIBLE == EmbeddedStyle(st.windows[h].style);
    assert h in st.windows ==> s2.windows == st.windows[h := EmbeddedWindow(s1, st.windows[h], host)];
    assert h in st.windows ==> EmbeddedWindow(s1, st.windows[h], host) == EmbeddedWindow(st, st.windows[h], host) by {
      if h in st.windows {
        EmbeddedSameGeometry(s1, st, st.windows[h], host);
      }
    }
    Raise(s2, h)
  }

  /**
   * `embed_window`. The host's own windows are refused first, then the
   * denylisted classes, exactly as `can_embed_window` decides; then a missing
   * main window. A refusal changes nothing at all. Otherwise the reply is
   * `Ok(true)`, whether or not `h` is a window, and the registry gains at
   * most one record at its end.
   */
  function Embed(st: State, reg: Registry, env: Env, h: Handle): (r: Step<Result<bool, Refusal>>)
    ensures CanEmbed(st, env.selfPid, h).Err? ==> r == Step(Err(CanEmbed(st, env.selfPid, h).error), st, reg)
    ensures CanEmbed(st, env.selfPid, h).Ok? && env.host.None? ==> r == Step(Err(NoHostFrame), st, reg)
    ensures r.result.Ok? <==> CanEmbed(st, env.selfPid, h).Ok? && env.host.Some?
    ensures r.result.Ok? ==> r.result.value && reg <= r.registry && |r.registry| <= |reg| + 1
  {
    match CanEmbed(st, env.selfPid, h)
    case Err(e) => Step(Err(e), st, reg)
    case Ok(_) =>
      match env.host
      case None => Step(Err(NoHostFrame), st, reg)
      case Some(host) =>
        var s1 := ClipChildren(st, host);
        var saved := Capture(s1, h);
        var s2 := Adopt(s1, h, host);
        Step(Ok(true), Activate(s2, env, h).state, Remember(reg, saved))
  }

  /** The conditions under which `embed_window` goes ahead with the host frame `host`. */
  predicate Proceeds(st: State, env: Env, h: Handle, host: Handle) {
    CanEmbed(st, env.selfPid, h).Ok? && env.host == Some(host)
  }

  /**
   * The host frame, when the host has one, is a live window of the host's
   * own process and not the null handle, as the webview's main window is.
   */
  predicate HostIsOwn(st: State, env: Env) {
    env.host.Some? ==>
      env.host.value != NULL && env.host.value in st.windows && st.windows[env.host.value].pid == env.selfPid
  }

  /**
   * Embedding the host frame itself is refused as one of the host's own
   * windows and changes nothing, so every embed that goes ahead targets a
   * window other than the host frame.
   */
  lemma EmbedHostRefused(st: State, reg: Registry, env: Env, h: Handle, host: Handle)
    requires HostIsOwn(st, env) && env.host == Some(host)
    ensures Embed(st, reg, env, host) == Step(Err(SelfProcess), st, reg)
    ensures Proceeds(st, env, h, host) ==> h != host
  {
    assert IsSelfWindow(st, env.selfPid, host);
  }

  /**
   * The registry after an embed: the first capture wins. A handle already
   * recorded keeps its record and the registry is unchanged; a new one gets
   * the style, extended style and rectangle it had before the embed; no
   * other handle's record changes, and records stay unique.
   */
  lemma EmbedRecordsFirstCapture(st: State, reg: Registry, env: Env, h: Handle, host: Handle)
    requires Proceeds(st, env, h, host) && h != host
    ensures var r := Embed(st, reg, env, h);
            && (Has(reg, h) ==> r.registry == reg)
            && Lookup(r.registry, h) == (if Has(reg, h) then Lookup(reg, h) else Some(Capture(st, h)))
            && (forall k :: k != h ==> Lookup(r.registry, k) == Lookup(reg, k))
            && (Unique(reg) ==> Unique(r.registry))
  {
    var s1 := ClipChildren(st, host);
    assert Capture(s1, h) == Capture(st, h);
    RememberFirstWins(reg, Capture(st, h), h);
    forall k | k != h
      ensures Lookup(Remember(reg, Capture(st, h)), k) == Lookup(reg, k)
    {
      RememberFirstWins(reg, Capture(st, h), k);
    }
    if Unique(reg) {
      RememberKeepsUnique(reg, Capture(st, h));
    }
  }

  /** Embedding reads only where windows sit. */
  lemma EmbeddedSameGeometry(a: State, b: State, w: Window, host: Handle)
    requires SameGeometry(a, b)
    ensures EmbeddedWindow(a, w, host) == EmbeddedWindow(b, w, host)
  {
    var restyled := w.(style := EmbeddedStyle(w.style));
    if host == NULL {
      SameGeometryReparents(a, b, restyled, None);
    } else if host in a.windows {
      SameGeometryReparents(a, b, restyled, Some(host));
    }
  }

  /** Clipping the host frame changes neither origin that adoption measures from. */
  lemma EmbeddedAfterClip(st: State, w: Window, host: Handle)
    ensures EmbeddedWindow(ClipChildren(st, host), w, host) == EmbeddedWindow(st, w, host)
  {
    EmbeddedSameGeometry(ClipChildren(st, host), st, w, host);
  }

  /**
   * The windows after an embed: the host frame has `WS_CLIPCHILDREN`, `h` is
   * an embedded child of the host, and no other window changes.
   */
  lemma EmbedWindows(st: State, reg: Registry, env: Env, h: Handle, host: Handle)
    requires Proceeds(st, env, h, host) && h != host
    ensures var r := Embed(st, reg, env, h);
            && (h in st.windows ==>
                  r.state.windows == HostClipped(st.windows, host)[h := EmbeddedWindow(st, st.windows[h], host)])
            && (h !in st.windows ==> r.state.windows == HostClipped(st.windows, host))
  {
    var s1 := ClipChildren(st, host);
    var s2 := Adopt(s1, h, host);
    if h in st.windows {
      assert s1.windows[h] == st.windows[h];
      EmbeddedAfterClip(st, st.windows[h], host);
      var e := EmbeddedWindow(st, st.windows[h], host);
      assert e.style + WS_VISIBLE == e.style;
      assert Shown(s2, h) == s2.windows;
    }
  }

  /**
   * The primitives an embed issues, in order: the host's style write when it
   * lacked `WS_CLIPCHILDREN`, the restyle, the reparenting and the raise of
   * `h`, and then, for a live window, the calls of its activation.
   */
  lemma EmbedIssues(st: State, reg: Registry, env: Env, h: Handle, host: Handle)
    requires Proceeds(st, env, h, host) && h != host
    ensures var r := Embed(st, reg, env, h);
            var clip := if HasAll(StyleOf(st, host), WS_CLIPCHILDREN) then []
                        else [SetWindowLongW(host, GwlStyle, StyleOf(st, host) + WS_CLIPCHILDREN)];
            var adopt := [SetWindowLongW(h, GwlStyle, EmbeddedStyle(StyleOf(st, h))), SetParent(h, host), RaiseCall(h)];
            r.state.log == st.log + clip + adopt
                           + (if h in st.windows then ActivationCalls(env, ThreadOf(st, h), h, FocusTarget(st, h)) else [])
  {
    var s1 := ClipChildren(st, host);
    var s2 := Adopt(s1, h, host);
    var clip := if HasAll(StyleOf(st, host), WS_CLIPCHILDREN) then []
                else [SetWindowLongW(host, GwlStyle, StyleOf(st, host) + WS_CLIPCHILDREN)];
    var adopt := [SetWindowLongW(h, GwlStyle, EmbeddedStyle(StyleOf(st, h))), SetParent(h, host), RaiseCall(h)];
    assert s1.log == st.log + clip;
    assert s2.log == st.log + clip + adopt by {
      assert StyleOf(s1, h) == StyleOf(st, h);
    }
    ActivateAfterAdopt(st, s1, s2, env, h, host);
  }

  /** Adoption keeps the thread and the descendants the activation of `h` reads. */
  lemma ActivateAfterAdopt(st: State, s1: State, s2: State, env: Env, h: Handle, host: Handle)
    requires h != host && s1 == ClipChildren(st, host) && s2 == Adopt(s1, h, host)
    ensures Activate(s2, env, h).state.log
            == s2.log + (if h in st.windows then ActivationCalls(env, ThreadOf(st, h), h, FocusTarget(st, h)) else [])
  {
    if h in st.windows {
      assert s1.windows[h] == st.windows[h];
      assert s2.windows[h].tid == st.windows[h].tid && s2.windows[h].descendants == st.windows[h].descendants;
      assert FocusTarget(s2, h) == FocusTarget(st, h);
    }
  }

  // ---------------------------------------------------------------------
  // Releasing.
  // ---------------------------------------------------------------------

  /** Where a window without a record is put: (100, 100), 800 by 600. */
  const DefaultRect: Rect := Rect(100, 100, 900, 700)

  /** The flags of the `SetWindowPos` that puts a released window back. */
  const RestoreFlags: Flags := SWP_FRAMECHANGED + SWP_SHOWWINDOW

  /**
   * What `release_window` leaves of a live window `w`, given the record it
   * finds: top-level and visible, with the recorded style, extended style
   * and rectangle; without a record, an overlapped window at the default
   * place, its extended style untouched.
   */
  function ReleasedWindow(w: Window, saved: Option<Saved>): Window {
    match saved
    case Some(r) => w.(parent := None, style := r.style + WS_VISIBLE, exstyle := r.exstyle, rect := r.rect)
    case None => w.(parent := None, style := WS_OVERLAPPEDWINDOW + WS_VISIBLE, rect := DefaultRect)
  }

  /** The style writes and the move with which `release_window` puts `h` back. */
  function PutBackCalls(h: Handle, saved: Option<Saved>): seq<Call> {
    match saved
    case Some(r) =>
      [SetWindowLongW(h, GwlStyle, r.style), SetWindowLongW(h, GwlExStyle, r.exstyle),
       SetWindowPos(h, HWND_TOP, r.rect.left, r.rect.top, r.rect.Width(), r.rect.Height(), RestoreFlags)]
    case None =>
      [SetWindowLongW(h, GwlStyle, WS_OVERLAPPEDWINDOW + WS_VISIBLE),
       SetWindowPos(h, HWND_TOP, 100, 100, 800, 600, RestoreFlags)]
  }

  /**
   * The primitives `release_window` issues on a handle whose thread is
   * `target`: an inline detach when the threads differ, the reparenting to
   * null, the style writes and the move, the restore and the foreground.
   */
  function ReleaseCalls(env: Env, target: nat, h: Handle, saved: Option<Saved>): seq<Call> {
    DetachCalls(env, target) + [SetParent(h, NULL)] + PutBackCalls(h, saved) + [ShowWindow(h, SW_RESTORE), SetForegroundWindow(h)]
  }

  /** The style writes and the move of `release_window`, on a window already made top-level. */
  function PutBack(st: State, h: Handle, saved: Option<Saved>): (r: State)
    requires h in st.windows ==> st.windows[h].parent.None?
    ensures h in st.windows ==> r.windows == st.windows[h := ReleasedWindow(st.windows[h], saved)]
    ensures h !in st.windows ==> r.windows == st.windows
    ensures r.log == st.log + PutBackCalls(h, saved)
  {
    match saved
    case Some(rec) =>
      var s1 := WriteLong(st, h, GwlStyle, rec.style);
      var s2 := WriteLong(s1, h, GwlExStyle, rec.exstyle);
      Position(s2, h, HWND_TOP, rec.rect.left, rec.rect.top, rec.rect.Width(), rec.rect.Height(), RestoreFlags)
    case None =>
      var s1 := WriteLong(st, h, GwlStyle, WS_OVERLAPPEDWINDOW + WS_VISIBLE);
      Position(s1, h, HWND_TOP, 100, 100, 800, 600, RestoreFlags)
  }

  /** The detach `release_window` issues inline when `h` belongs to another thread. */
  function DetachCalls(env: Env, target: nat): seq<Call> {
    if env.selfTid != target then [AttachThreadInput(env.selfTid, target, false)] else []
  }

  /** The first half of `release_window`: detach input if needed, and make `h` top-level. */
  function Unparent(st: State, env: Env, h: Handle): (r: State)
    ensures h in st.windows ==> r.windows == st.windows[h := ReparentedWindow(st, st.windows[h], None)]
    ensures h !in st.windows ==> r.windows == st.windows
    ensures r.log == st.log + DetachCalls(env, ThreadOf(st, h)) + [SetParent(h, NULL)]
  {
    var target := ThreadOf(st, h);
    var s1 := if env.selfTid != target then Emit(st, AttachThreadInput(env.selfTid, target, false)) else st;
    Reparent(s1, h, NULL)
  }

  /** The last two calls of `release_window`: restore, then bring to the foreground. */
  function Restore(st: State, h: Handle): (r: State)
    requires h in st.windows ==> HasAll(st.windows[h].style, WS_VISIBLE)
    ensures r.windows == st.windows
    ensures r.log == st.log + [ShowWindow(h, SW_RESTORE), SetForegroundWindow(h)]
  {
    var s1 := ShowCmd(st, h, SW_RESTORE);
    assert h in st.windows ==> st.windows[h].style + WS_VISIBLE == st.windows[h].style;
    Emit(s1, SetForegroundWindow(h))
  }

  /**
   * `release_window`. The reply is always true and the registry is only
   * read: its first record for `h` decides how the window is put back, as
   * `ReleasedWindow` describes, and no other window changes.
   */
  function Release(st: State, reg: Registry, env: Env, h: Handle): (out: Outcome<bool>)
    ensures out.result
    ensures h in st.windows ==> out.state.windows == st.windows[h := ReleasedWindow(st.windows[h], Lookup(reg, h))]
    ensures h !in st.windows ==> out.state.windows == st.windows
    ensures out.state.log == st.log + ReleaseCalls(env, ThreadOf(st, h), h, Lookup(reg, h))
  {
    var s1 := Unparent(st, env, h);
    var s2 := PutBack(s1, h, Lookup(reg, h));
    assert h in st.windows ==>
             ReleasedWindow(s1.windows[h], Lookup(reg, h)) == ReleasedWindow(st.windows[h], Lookup(reg, h)) by {
      if h in st.windows {
        ReleasedIgnoresPlace(st.windows[h], s1.windows[h].parent, s1.windows[h].rect, Lookup(reg, h));
        assert s1.windows[h] == st.windows[h].(parent := s1.windows[h].parent, rect := s1.windows[h].rect);
      }
    }
    assert s2.log == st.log + (DetachCalls(env, ThreadOf(st, h)) + [SetParent(h, NULL)] + PutBackCalls(h, Lookup(reg, h)));
    Outcome(true, Restore(s2, h))
  }

  /** `close_target_window`: release, then post `WM_CLOSE`; the reply is always true. */
  function Close(st: State, reg: Registry, env: Env, h: Handle): (out: Outcome<bool>)
    ensures out.result
    ensures out.state.windows == Release(st, reg, env, h).state.windows
    ensures out.state.log == Release(st, reg, env, h).state.log + [PostClose(h)]
  {
    var released := Release(st, reg, env, h);
    Outcome(true, Emit(released.state, PostClose(h)))
  }

  // ---------------------------------------------------------------------
  // Round trips.
  // ---------------------------------------------------------------------

  /** Release sets the parent and the rectangle whatever they were. */
  lemma ReleasedIgnoresPlace(w: Window, p: Option<Handle>, rect: Rect, saved: Option<Saved>)
    ensures ReleasedWindow(w.(parent := p, rect := rect), saved) == ReleasedWindow(w, saved)
  {
  }

  /** Releasing never looks at what embedding did to the window's style or parent. */
  lemma ReleasedIgnoresEmbedding(st: State, w: Window, host: Handle, saved: Option<Saved>)
    ensures ReleasedWindow(EmbeddedWindow(st, w, host), saved) == ReleasedWindow(w, saved)
  {
  }

  /**
   * Embedding then releasing a live window leaves the host frame clipped and
   * puts the window back as the first record for it says: the one captured
   * now if it had none, the earlier one if it was embedded before. Nothing
   * else changes.
   */
  lemma EmbedThenRelease(st: State, reg: Registry, env: Env, h: Handle, host: Handle)
    requires Proceeds(st, env, h, host) && h != host && h in st.windows
    ensures var e := Embed(st, reg, env, h);
            var r := Release(e.state, e.registry, env, h);
            r.state.windows == HostClipped(st.windows, host)[h := ReleasedWindow(st.windows[h],
                                 if Has(reg, h) then Lookup(reg, h) else Some(Capture(st, h)))]
  {
    var e := Embed(st, reg, env, h);
    var saved := if Has(reg, h) then Lookup(reg, h) else Some(Capture(st, h));
    var clipped := HostClipped(st.windows, host);
    var embedded := EmbeddedWindow(st, st.windows[h], host);
    EmbedWindows(st, reg, env, h, host);
    assert e.state.windows == clipped[h := embedded];
    EmbedRecordsFirstCapture(st, reg, env, h, host);
    assert Lookup(e.registry, h) == saved;
    ReleasedIgnoresEmbedding(st, st.windows[h], host, saved);
    var r := Release(e.state, e.registry, env, h);
    assert r.state.windows == clipped[h := embedded][h := ReleasedWindow(embedded, saved)];
    UpdateTwice(clipped, h, embedded, ReleasedWindow(st.windows[h], saved));
  }

  /** What a release with a fresh capture does to a window, in terms of its own fields. */
  lemma ReleaseWithCapture(st: State, h: Handle, host: Handle)
    requires h != host && h in st.windows
    ensures var w := st.windows[h];
            && HostClipped(st.windows, host)[h := ReleasedWindow(w, Some(Capture(st, h)))]
               == HostClipped(st.windows, host)[h := w.(style := w.style + WS_VISIBLE, parent := None)]
            && (w.parent.None? && IsVisible(st, h) ==>
                  HostClipped(st.windows, host)[h := ReleasedWindow(w, Some(Capture(st, h)))] == HostClipped(st.windows, host))
  {
    var w := st.windows[h];
    assert ReleasedWindow(w, Some(Capture(st, h))) == w.(style := w.style + WS_VISIBLE, parent := None);
    if w.parent.None? && IsVisible(st, h) {
      assert w.style + WS_VISIBLE == w.style;
      assert HostClipped(st.windows, host)[h] == w;
    }
  }

  /**
   * The first embed-and-release of a window that is neither maximized nor
   * minimized gives it back its extended style, rectangle and style, now
   * top-level and visible; a window that was top-level and visible before
   * comes back exactly as it was, so that only the host frame differs from
   * the state before the embed.
   */
  lemma FirstEmbedThenReleaseRestores(st: State, reg: Registry, env: Env, h: Handle, host: Handle)
    requires Proceeds(st, env, h, host) && h != host && h in st.windows && !Has(reg, h)
    requires NormalPlacement(st.windows[h].style)
    ensures var e := Embed(st, reg, env, h);
            var r := Release(e.state, e.registry, env, h);
            && r.state.windows == HostClipped(st.windows, host)[h := st.windows[h].(style := st.windows[h].style + WS_VISIBLE, parent := None)]
            && (st.windows[h].parent.None? && IsVisible(st, h) ==> r.state.windows == HostClipped(st.windows, host))
  {
    EmbedThenRelease(st, reg, env, h, host);
    ReleaseWithCapture(st, h, host);
  }

  /** Releasing twice leaves the windows as releasing once. */
  lemma ReleaseTwice(st: State, reg: Registry, env: Env, h: Handle)
    ensures var once := Release(st, reg, env, h);
            Release(once.state, reg, env, h).state.windows == once.state.windows
  {
    var once := Release(st, reg, env, h);
    if h in st.windows {
      var w := ReleasedWindow(st.windows[h], Lookup(reg, h));
      assert ReleasedWindow(w, Lookup(reg, h)) == w;
    }
  }

  /**
   * Embedding a window that is already recorded changes nothing in the
   * registry, yet restyles and reparents the window all the same.
   */
  lemma ReembedKeepsRecord(st: State, reg: Registry, env: Env, h: Handle, host: Handle)
    requires Proceeds(st, env, h, host) && h != host && h in st.windows && Has(reg, h)
    ensures var e := Embed(st, reg, env, h);
            && e.registry == reg
            && e.state.windows[h] == EmbeddedWindow(st, st.windows[h], host)
  {
    EmbedRecordsFirstCapture(st, reg, env, h, host);
    EmbedWindows(st, reg, env, h, host);
  }

  /** Embedding an embedded window again under the same live host leaves it as it is. */
  lemma EmbeddedTwice(st: State, s: State, w: Window, host: Handle)
    requires host != NULL && host in st.windows && host in s.windows
    requires s.windows[host].rect == st.windows[host].rect && s.windows[host].inset == st.windows[host].inset
    ensures EmbeddedWindow(s, EmbeddedWindow(st, w, host), host) == EmbeddedWindow(st, w, host)
  {
    var e := EmbeddedWindow(st, w, host);
    EmbeddedStyleIdempotent(w.style);
    assert e.parent == Some(host) && e.style == EmbeddedStyle(w.style);
    assert PlacementOrigin(s, e) == ClientOrigin(st.windows[host]);
  }

  /** Clipping a host that is already clipped changes nothing, whatever happened to another window. */
  lemma HostClippedTwice(windows: map<Handle, Window>, host: Handle, h: Handle, e: Window)
    requires h != host
    ensures HostClipped(HostClipped(windows, host)[h := e], host) == HostClipped(windows, host)[h := e]
  {
    if host in windows {
      var c := windows[host].style + WS_CLIPCHILDREN;
      assert c + WS_CLIPCHILDREN == c;
    }
  }

  /**
   * Embedding a live window a second time leaves the windows and the
   * registry as the first embed left them: the restyle, the reparenting
   * under the same host and the clipping of the host are fixed points, and
   * the record is already there.
   */
  lemma EmbedTwiceSameWindows(st: State, reg: Registry, env: Env, h: Handle, host: Handle)
    requires HostIsOwn(st, env) && Proceeds(st, env, h, host) && h in st.windows
    ensures var once := Embed(st, reg, env, h);
            var twice := Embed(once.state, once.registry, env, h);
            twice.state.windows == once.state.windows && twice.registry == once.registry
  {
    EmbedHostRefused(st, reg, env, h, host);
    var once := Embed(st, reg, env, h);
    var s := once.state;
    var w := st.windows[h];
    var e := EmbeddedWindow(st, w, host);
    EmbedWindows(st, reg, env, h, host);
    assert s.windows == HostClipped(st.windows, host)[h := e];
    assert s.windows[h].pid == w.pid && s.windows[h].className == w.className;
    assert Proceeds(s, env, h, host);
    EmbedRecordsFirstCapture(st, reg, env, h, host);
    assert Has(once.registry, h);
    ReembedKeepsRecord(s, once.registry, env, h, host);
    EmbedWindows(s, once.registry, env, h, host);
    EmbeddedTwice(st, s, w, host);
    HostClippedTwice(st.windows, host, h, e);
  }
}
