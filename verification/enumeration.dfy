/**
 * `enumerate_windows` and its callback: the windows offered for embedding,
 * as an order-preserving filter over the top-level windows in the order
 * `EnumWindows` visits them.
 */
module Enumeration {
  import opened Common
  import opened Strings
  import opened Win32
  import opened WindowManager
  import opened Classifier

  /** What the command reports of one window (`WindowInfo`). */
  datatype WindowInfo = WindowInfo(hwnd: Handle, title: string, className: string, width: int, height: int)

  /** Class names the enumeration skips, compared for equality, in the order lib.rs lists them. */
  const Excluded: seq<string> := [
    "Progman",
    "Shell_TrayWnd",
    "Shell_SecondaryTrayWnd",
    "Windows.UI.Core.CoreWindow",
    "ApplicationFrameWindow",
    "WorkerW",
    "TaskManagerWindow"
  ]

  /** The host's own title, which marks its windows. */
  const HostTitle: string := "WindowHub"

  /** Windows this small in either dimension are not offered. */
  const MinSide: int := 100

  /**
   * The windows the enumeration offers: visible, of another process, with a
   * non-empty title that does not mention the host, of a class that is not
   * exactly one of `Excluded`, and with a readable rectangle larger than
   * `MinSide` in both directions.
   */
  predicate Listed(st: State, selfPid: nat, h: Handle) {
    && IsVisible(st, h)
    && !IsSelfWindow(st, selfPid, h)
    && TitleOf(st, h) != ""
    && !Contains(TitleOf(st, h), HostTitle)
    && ClassOf(st, h) !in Excluded
    && WindowRect(st, h).Some?
    && WindowRect(st, h).value.Width() > MinSide
    && WindowRect(st, h).value.Height() > MinSide
  }

  /** `enum_window_callback` on one window: the record it pushes, if any. */
  function Visit(st: State, selfPid: nat, h: Handle): (r: Option<WindowInfo>)
    ensures r.Some? <==> Listed(st, selfPid, h)
    ensures r.Some? ==> r.value.hwnd == h && r.value.title == TitleOf(st, h) && r.value.className == ClassOf(st, h)
    ensures r.Some? ==> r.value.width == WindowRect(st, h).value.Width() && r.value.height == WindowRect(st, h).value.Height()
  {
    if !IsVisible(st, h) then None
    else if IsSelfWindow(st, selfPid, h) then None
    else
      var title := TitleOf(st, h);
      if |title| == 0 || Contains(title, HostTitle) then None
      else
        var className := ClassOf(st, h);
        if className in Excluded then None
        else
          match WindowRect(st, h)
          case None => None
          case Some(rect) =>
            var width := rect.right - rect.left;
            var height := rect.bottom - rect.top;
            if width > MinSide && height > MinSide then Some(WindowInfo(h, title, className, width, height))
            else None
  }

  /** The records of `order`, one per listed window, in visiting order (reference definition). */
  function Collect(st: State, selfPid: nat, order: seq<Handle>): seq<WindowInfo>
    decreases |order|
  {
    if |order| == 0 then []
    else
      (match Visit(st, selfPid, order[0]) case Some(info) => [info] case None => [])
      + Collect(st, selfPid, order[1..])
  }

  /** Visiting more windows only adds records at the end: the filter preserves order. */
  lemma {:induction false} CollectAppend(st: State, selfPid: nat, a: seq<Handle>, b: seq<Handle>)
    ensures Collect(st, selfPid, a + b) == Collect(st, selfPid, a) + Collect(st, selfPid, b)
    decreases |a|
  {
    if |a| > 0 {
      assert (a + b)[1..] == a[1..] + b;
      CollectAppend(st, selfPid, a[1..], b);
    } else {
      assert a + b == b;
    }
  }

  /**
   * A window is reported exactly when it is visited and listed, and every
   * report carries the handle it describes.
   */
  lemma {:induction false} CollectExactly(st: State, selfPid: nat, order: seq<Handle>, h: Handle)
    ensures (exists k :: 0 <= k < |Collect(st, selfPid, order)| && Collect(st, selfPid, order)[k].hwnd == h)
            <==> h in order && Listed(st, selfPid, h)
    decreases |order|
  {
    if |order| > 0 {
      CollectExactly(st, selfPid, order[1..], h);
      var out := Collect(st, selfPid, order);
      var head := match Visit(st, selfPid, order[0]) case Some(info) => [info] case None => [];
      var rest := Collect(st, selfPid, order[1..]);
      assert out == head + rest;
      assert h in order <==> h == order[0] || h in order[1..];
      if h in order && Listed(st, selfPid, h) {
        if h == order[0] {
          assert out[0].hwnd == h;
        } else {
          var k :| 0 <= k < |rest| && rest[k].hwnd == h;
          assert out[|head| + k].hwnd == h;
        }
      }
      if exists k :: 0 <= k < |out| && out[k].hwnd == h {
        var k :| 0 <= k < |out| && out[k].hwnd == h;
        if k >= |head| {
          var k' := k - |head|;
          assert 0 <= k' < |Collect(st, selfPid, order[1..])| && Collect(st, selfPid, order[1..])[k'].hwnd == h;
          assert h in order[1..] && Listed(st, selfPid, h);
        } else {
          assert Visit(st, selfPid, order[0]).Some? && out[k] == Visit(st, selfPid, order[0]).value;
        }
      }
    }
  }

  /** `enumerate_windows`: visit every top-level window in `order` and keep the listed ones. */
  method EnumerateWindows(st: State, selfPid: nat, order: seq<Handle>) returns (windows: seq<WindowInfo>)
    ensures windows == Collect(st, selfPid, order)
    ensures forall k :: 0 <= k < |windows| ==> windows[k].hwnd in order && Listed(st, selfPid, windows[k].hwnd)
  {
    windows := [];
    for i := 0 to |order|
      invariant windows == Collect(st, selfPid, order[..i])
    {
      assert order[..i + 1] == order[..i] + [order[i]];
      CollectAppend(st, selfPid, order[..i], [order[i]]);
      assert Collect(st, selfPid, [order[i]]) == match Visit(st, selfPid, order[i]) case Some(info) => [info] case None => [];
      match Visit(st, selfPid, order[i]) {
        case Some(info) => windows := windows + [info];
        case None =>
      }
    }
    assert order[..|order|] == order;
    forall k | 0 <= k < |windows|
      ensures windows[k].hwnd in order && Listed(st, selfPid, windows[k].hwnd)
    {
      CollectExactly(st, selfPid, order, windows[k].hwnd);
    }
  }

  /**
   * The enumeration and the embed guard disagree: a file-explorer window
   * (class `CabinetWClass`, not in `Excluded`) can be offered and is then
   * refused, while an `ApplicationFrameWindow` is never offered although the
   * guard would accept it.
   */
  lemma ListedButRefused(st: State, selfPid: nat, h: Handle)
    requires Listed(st, selfPid, h) && ClassOf(st, h) == "CabinetWClass"
    ensures CanEmbed(st, selfPid, h) == Err(ForbiddenClass("CabinetWClass"))
  {
    ExplorerRefused(st, selfPid, h);
  }

  /** A class name lacking a character of each denylisted name is not dangerous. */
  lemma NotDangerousWhenLacking(name: string)
    requires forall i :: 0 <= i < |name| ==> name[i] != 'C' && name[i] != 'P' && name[i] != 'k' && name[i] != 'T'
    ensures !IsDangerous(name)
  {
    MissingCharNotContained(name, Denylist[0], 'C');
    MissingCharNotContained(name, Denylist[1], 'C');
    MissingCharNotContained(name, Denylist[2], 'P');
    MissingCharNotContained(name, Denylist[3], 'k');
    MissingCharNotContained(name, Denylist[4], 'T');
    MissingCharNotContained(name, Denylist[5], 'T');
    MissingCharNotContained(name, Denylist[6], 'T');
    MissingCharNotContained(name, Denylist[7], 'C');
  }

  /** An `ApplicationFrameWindow` of another process is accepted by the guard yet never listed. */
  lemma AcceptedButNeverListed(st: State, selfPid: nat, h: Handle)
    requires h in st.windows && st.windows[h].pid != selfPid
    requires st.windows[h].className == "ApplicationFrameWindow"
    ensures !Listed(st, selfPid, h)
    ensures CanEmbed(st, selfPid, h) == Ok(true)
  {
    assert Excluded[4] == "ApplicationFrameWindow";
    NotDangerousWhenLacking(st.windows[h].className);
  }
}
