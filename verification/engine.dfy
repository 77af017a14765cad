/**
 * The embedding engine: the window commands of lib.rs as transitions of the
 * abstract window manager. Each command takes the current state (and the
 * embed registry where it reads or writes it) and returns its reply together
 * with the new state, whose log ends with the primitives the command issued.
 */
module Engine {
  import opened Common
  import opened Win32
  import opened WindowManager
  import opened Registry

  /**
   * What the host knows about itself: its process id, the id of the thread
   * running the command, its main window (None when the webview window or its
   * handle cannot be obtained), and whether `AttachThreadInput` succeeds.
   */
  datatype Env = Env(selfPid: nat, selfTid: nat, host: Option<Handle>, attachOk: bool)

  /** A command's reply and the state it leaves. */
  datatype Outcome<R> = Outcome(result: R, state: State)

  /** A command's reply, the state it leaves, and the registry it leaves. */
  datatype Step<R> = Step(result: R, state: State, registry: Registry)

  // ---------------------------------------------------------------------
  // Styles.
  // ---------------------------------------------------------------------

  /** The decoration and popup bits `embed_window` strips. */
  const StripMask: Flags :=
    WS_CAPTION + WS_THICKFRAME + WS_MINIMIZEBOX + WS_MAXIMIZEBOX + WS_SYSMENU + WS_POPUP + WS_BORDER + WS_DLGFRAME

  /** The bits `embed_window` adds. */
  const ChildBits: Flags := WS_CHILD + WS_VISIBLE

  /**
   * The style an embedded window gets from its original style: a visible
   * child with none of the stripped bits, every other bit as it was.
   */
  function EmbeddedStyle(orig: Flags): (s: Flags)
    ensures HasAll(s, WS_CHILD) && HasAll(s, WS_VISIBLE)
    ensures s !! StripMask
    ensures forall b :: b !in StripMask && b !in ChildBits ==> (b in s <==> b in orig)
  {
    (orig - StripMask) + ChildBits
  }

  /** Restyling an already embedded window changes nothing. */
  lemma EmbeddedStyleIdempotent(orig: Flags)
    ensures EmbeddedStyle(EmbeddedStyle(orig)) == EmbeddedStyle(orig)
  {
  }

  /** The windows with `WS_CLIPCHILDREN` added to `host`'s style, if `host` is a window. */
  function HostClipped(windows: map<Handle, Window>, host: Handle): map<Handle, Window> {
    if host in windows then windows[host := windows[host].(style := windows[host].style + WS_CLIPCHILDREN)]
    else windows
  }

  /**
   * The host frame with `WS_CLIPCHILDREN` ensured: whatever the branch, a live
   * host ends up with exactly that bit added to its style and nothing else
   * about any window changes; the style is written only when the bit was
   * missing.
   */
  function ClipChildren(st: State, host: Handle): (r: State)
    ensures r.windows == HostClipped(st.windows, host)
    ensures HasAll(StyleOf(st, host), WS_CLIPCHILDREN) ==> r.log == st.log
    ensures !HasAll(StyleOf(st, host), WS_CLIPCHILDREN) ==>
              r.log == st.log + [SetWindowLongW(host, GwlStyle, StyleOf(st, host) + WS_CLIPCHILDREN)]
  {
    var style := StyleOf(st, host);
    if !HasAll(style, WS_CLIPCHILDREN) then WriteLong(st, host, GwlStyle, style + WS_CLIPCHILDREN)
    else
      assert host in st.windows ==> st.windows[host].style + WS_CLIPCHILDREN == st.windows[host].style;
      st
  }

  // ---------------------------------------------------------------------
  // Activation.
  // ---------------------------------------------------------------------

  const RenderWidgetClass: string := "Chrome_RenderWidgetHostHWND"

  /** The focus target inside `h`: the first descendant of class `Chrome_RenderWidgetHostHWND`. */
  function FindRenderWidget(descendants: seq<Child>): (r: Option<Handle>)
    ensures r.None? <==> forall i :: 0 <= i < |descendants| ==> descendants[i].className != RenderWidgetClass
    ensures r.Some? ==> exists i :: 0 <= i < |descendants| && descendants[i].handle == r.value
                                    && descendants[i].className == RenderWidgetClass
                                    && forall j :: 0 <= j < i ==> descendants[j].className != RenderWidgetClass
  {
    if |descendants| == 0 then None
    else if descendants[0].className == RenderWidgetClass then Some(descendants[0].handle)
    else
      var r := FindRenderWidget(descendants[1..]);
      assert forall i :: 0 < i < |descendants| ==> descendants[i] == descendants[1..][i - 1];
      r
  }

  /** The window `activate_window` focuses: the render widget when there is one, else `h` itself. */
  function FocusTarget(st: State, h: Handle): Handle
    requires h in st.windows
  {
    match FindRenderWidget(st.windows[h].descendants)
    case Some(r) => r
    case None => h
  }

  /** `h` with `WS_VISIBLE` set and everything else as it was. */
  function Shown(st: State, h: Handle): map<Handle, Window>
    requires h in st.windows
  {
    st.windows[h := st.windows[h].(style := st.windows[h].style + WS_VISIBLE)]
  }

  /** `SetWindowPos(h, HWND_TOP, 0, 0, 0, 0, SWP_NOMOVE | SWP_NOSIZE | SWP_SHOWWINDOW)`. */
  function RaiseCall(h: Handle): Call {
    SetWindowPos(h, HWND_TOP, 0, 0, 0, 0, SWP_NOMOVE + SWP_NOSIZE + SWP_SHOWWINDOW)
  }

  /** Raising a window to the top of its siblings shows it and neither moves nor resizes it. */
  function Raise(st: State, h: Handle): (r: State)
    ensures r.log == st.log + [RaiseCall(h)]
    ensures h in st.windows ==> r.windows == Shown(st, h)
    ensures h !in st.windows ==> r.windows == st.windows
  {
    Position(st, h, HWND_TOP, 0, 0, 0, 0, SWP_NOMOVE + SWP_NOSIZE + SWP_SHOWWINDOW)
  }

  /**
   * The primitives `activate_window` issues on a live window whose thread is
   * `target`, focusing `focus`: attach when the threads differ, raise,
   * activate, focus, and schedule the delayed detach when the attach succeeded.
   */
  function ActivationCalls(env: Env, target: nat, h: Handle, focus: Handle): seq<Call> {
    var attached := env.selfTid != target && env.attachOk;
    (if env.selfTid != target then [AttachThreadInput(env.selfTid, target, true)] else [])
    + [RaiseCall(h), SetActiveWindow(focus), SetFocus(focus)]
    + (if attached then [SpawnDelayedDetach(env.selfTid, target)] else [])
  }

  /**
   * `activate_window`. A dead handle is answered false with no call at all;
   * a live one is raised and shown, nothing else about any window changes,
   * and the primitives issued are `ActivationCalls`.
   */
  function Activate(st: State, env: Env, h: Handle): (out: Outcome<bool>)
    ensures h !in st.windows ==> out == Outcome(false, st)
    ensures h in st.windows ==> out.result && out.state.windows == Shown(st, h)
    ensures h in st.windows ==> out.state.log == st.log + ActivationCalls(env, ThreadOf(st, h), h, FocusTarget(st, h))
  {
    if h !in st.windows then Outcome(false, st)
    else
      var target := ThreadOf(st, h);
      var s1 := if env.selfTid != target then Emit(st, AttachThreadInput(env.selfTid, target, true)) else st;
      var attached := env.selfTid != target && env.attachOk;
      var s2 := Raise(s1, h);
      var focus := FocusTarget(st, h);
      var s3 := Emit(Emit(s2, SetActiveWindow(focus)), SetFocus(focus));
      var s4 := if attached then Emit(s3, SpawnDelayedDetach(env.selfTid, target)) else s3;
      Outcome(true, s4)
  }

  /**
   * The input-attachment discipline of one activation: input is attached only
   * across different threads, never a thread to itself, and never detached
   * inline; a delayed detach of that very pair is scheduled exactly when the
   * attach succeeded; activation and keyboard focus both go to `focus` and
   * nowhere else.
   */
  lemma ActivationCallsDiscipline(env: Env, target: nat, h: Handle, focus: Handle)
    ensures var calls := ActivationCalls(env, target, h, focus);
            && (forall c :: c in calls && c.AttachThreadInput? ==>
                  c.attach && c.from != c.to && c.from == env.selfTid && c.to == target)
            && (AttachThreadInput(env.selfTid, target, true) in calls <==> env.selfTid != target)
            && (forall c :: c in calls && c.SpawnDelayedDetach? ==> c == SpawnDelayedDetach(env.selfTid, target))
            && (SpawnDelayedDetach(env.selfTid, target) in calls <==> env.selfTid != target && env.attachOk)
            && SetFocus(focus) in calls && SetActiveWindow(focus) in calls
            && (forall c :: c in calls && (c.SetFocus? || c.SetActiveWindow?) ==> c.hwnd == focus)
  {
    var attach: seq<Call> := if env.selfTid != target then [AttachThreadInput(env.selfTid, target, true)] else [];
    var middle := [RaiseCall(h), SetActiveWindow(focus), SetFocus(focus)];
    var detach: seq<Call> := if env.selfTid != target && env.attachOk then [SpawnDelayedDetach(env.selfTid, target)] else [];
    var calls := ActivationCalls(env, target, h, focus);
    assert calls == attach + middle + detach;
    assert forall c :: c in calls <==> c in attach || c in middle || c in detach;
  }

  /**
   * `activate_window` keeps that discipline with the target's own thread and
   * its first render widget (or itself) as the focus, and issues nothing at
   * all for a dead handle.
   */
  lemma ActivateDiscipline(st: State, env: Env, h: Handle)
    ensures var out := Activate(st, env, h);
            var calls := out.state.log[|st.log|..];
            && st.log <= out.state.log
            && (h !in st.windows ==> calls == [])
            && (forall c :: c in calls && c.AttachThreadInput? ==>
                  c.attach && c.from != c.to && c.from == env.selfTid && c.to == ThreadOf(st, h))
            && (AttachThreadInput(env.selfTid, ThreadOf(st, h), true) in calls <==>
                  h in st.windows && env.selfTid != ThreadOf(st, h))
            && (SpawnDelayedDetach(env.selfTid, ThreadOf(st, h)) in calls <==>
                  h in st.windows && env.selfTid != ThreadOf(st, h) && env.attachOk)
            && (forall c :: c in calls && c.SpawnDelayedDetach? ==> c == SpawnDelayedDetach(env.selfTid, ThreadOf(st, h)))
            && (h in st.windows ==> SetFocus(FocusTarget(st, h)) in calls && SetActiveWindow(FocusTarget(st, h)) in calls)
            && (forall c :: c in calls && (c.SetFocus? || c.SetActiveWindow?) ==>
                  h in st.windows && c.hwnd == FocusTarget(st, h))
  {
    var out := Activate(st, env, h);
    if h in st.windows {
      var target := ThreadOf(st, h);
      var focus := FocusTarget(st, h);
      ActivationCallsDiscipline(env, target, h, focus);
      assert out.state.log[|st.log|..] == ActivationCalls(env, target, h, focus);
    } else {
      assert out.state.log[|st.log|..] == [];
    }
  }
}
