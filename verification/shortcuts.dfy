/**
 * The global-shortcut handler: the shortcut's text, lower-cased, selects at
 * most one event for the front end, and Alt+Space toggles the main window.
 */
module Shortcuts {
  import opened Common
  import opened Strings

  /** The state of the key event the handler receives. */
  datatype KeyState = Pressed | Released

  /** What a pressed shortcut asks for. */
  datatype Event =
    | SwitchTab(digit: nat)
    | CloseCurrentTab
    | NextTab
    | PrevTab
    | OpenSearch
    | ToggleMainWindow

  /** The prefix of the tab-switching shortcuts, in lower case. */
  const SwitchPrefix: string := "alt+digit"

  /** `char::to_digit(10)` succeeds. */
  predicate IsDigit(c: char) {
    '0' <= c <= '9'
  }

  /** `char::to_digit(10)` of a decimal digit. */
  function DigitValue(c: char): (d: nat)
    requires IsDigit(c)
    ensures d <= 9 && c == ('0' as int + d) as char
  {
    c as int - '0' as int
  }

  /** A lower-cased shortcut that asks for a tab switch: the prefix, ending in a decimal digit. */
  predicate AsksForSwitch(l: string) {
    IsPrefix(SwitchPrefix, l) && IsDigit(l[|l| - 1])
  }

  /**
   * The shortcuts matched as a whole, in lower case, with their events, in
   * the order the handler tests them.
   */
  const Named: seq<(string, Event)> := [
    ("control+keyw", CloseCurrentTab),
    ("control+tab", NextTab),
    ("shift+control+tab", PrevTab),
    ("control+shift+tab", PrevTab),
    ("control+keyk", OpenSearch),
    ("alt+space", ToggleMainWindow)
  ]

  /**
   * The handler's decision for a shortcut event whose text is `s`: a release
   * asks for nothing, so a shortcut acts once per key press.
   */
  function Dispatch(state: KeyState, s: string): (r: Option<Event>)
    ensures state == Released ==> r == None
    ensures r.Some? && r.value.SwitchTab? ==> r.value.digit <= 9
  {
    var l := Lower(s);
    if state != Pressed then None
    else if AsksForSwitch(l) then Some(SwitchTab(DigitValue(l[|l| - 1])))
    else if l == "control+keyw" then Some(CloseCurrentTab)
    else if l == "control+tab" then Some(NextTab)
    else if l == "shift+control+tab" || l == "control+shift+tab" then Some(PrevTab)
    else if l == "control+keyk" then Some(OpenSearch)
    else if l == "alt+space" then Some(ToggleMainWindow)
    else None
  }

  /** The handler does not see the difference between upper and lower case. */
  lemma DispatchIgnoresCase(state: KeyState, s: string)
    ensures Dispatch(state, Lower(s)) == Dispatch(state, s)
  {
    LowerIdempotent(s);
  }

  /**
   * On a key press, a tab switch is emitted exactly for a shortcut that,
   * lower-cased, starts with the prefix and ends in a decimal digit, and its
   * number is that digit.
   */
  lemma SwitchTabIff(s: string, d: nat)
    ensures Dispatch(Pressed, s) == Some(SwitchTab(d)) <==>
              IsPrefix(SwitchPrefix, Lower(s)) && d <= 9 && s[|s| - 1] == ('0' as int + d) as char
  {
    var l := Lower(s);
    if IsPrefix(SwitchPrefix, l) {
      assert |s| == |l| >= 9;
      assert l[|l| - 1] == LowerChar(s[|s| - 1]);
      assert IsDigit(l[|l| - 1]) <==> IsDigit(s[|s| - 1]);
    }
  }

  /** The table, entry by entry. */
  lemma NamedEntries()
    ensures Named[0] == ("control+keyw", CloseCurrentTab)
    ensures Named[1] == ("control+tab", NextTab)
    ensures Named[2] == ("shift+control+tab", PrevTab)
    ensures Named[3] == ("control+shift+tab", PrevTab)
    ensures Named[4] == ("control+keyk", OpenSearch)
    ensures Named[5] == ("alt+space", ToggleMainWindow)
  {
  }

  /** No shortcut matched as a whole asks for a tab switch. */
  lemma NamedAreNotSwitches(i: nat)
    requires i < |Named|
    ensures !AsksForSwitch(Named[i].0)
  {
  }

  /**
   * On a key press, every other event is the one the table pairs with the
   * lower-cased shortcut, and a shortcut that neither switches tabs nor
   * appears in the table emits nothing.
   */
  lemma DispatchFollowsTable(s: string, e: Event)
    ensures !AsksForSwitch(Lower(s)) ==>
              (Dispatch(Pressed, s) == Some(e) <==> exists i :: 0 <= i < |Named| && Named[i] == (Lower(s), e))
    ensures Dispatch(Pressed, s) == None <==> !AsksForSwitch(Lower(s)) && forall i :: 0 <= i < |Named| ==> Named[i].0 != Lower(s)
  {
    var l := Lower(s);
    NamedEntries();
    if !AsksForSwitch(l) {
      if Dispatch(Pressed, s) == Some(e) {
        if l == "control+keyw" { assert Named[0] == (l, e); }
        else if l == "control+tab" { assert Named[1] == (l, e); }
        else if l == "shift+control+tab" { assert Named[2] == (l, e); }
        else if l == "control+shift+tab" { assert Named[3] == (l, e); }
        else if l == "control+keyk" { assert Named[4] == (l, e); }
        else { assert Named[5] == (l, e); }
      }
      if exists i :: 0 <= i < |Named| && Named[i] == (l, e) {
        var i :| 0 <= i < |Named| && Named[i] == (l, e);
        assert i in {0, 1, 2, 3, 4, 5};
      }
    }
    if Dispatch(Pressed, s) == None {
      forall i | 0 <= i < |Named|
        ensures Named[i].0 != l
      {
        assert i in {0, 1, 2, 3, 4, 5};
      }
    } else if !AsksForSwitch(l) {
      if l == "control+keyw" { assert Named[0].0 == l; }
      else if l == "control+tab" { assert Named[1].0 == l; }
      else if l == "shift+control+tab" { assert Named[2].0 == l; }
      else if l == "control+shift+tab" { assert Named[3].0 == l; }
      else if l == "control+keyk" { assert Named[4].0 == l; }
      else { assert Named[5].0 == l; }
    }
  }

  /** Alt+1 to Alt+9, in the text the handler receives, switch to that tab. */
  lemma RegisteredSwitchDispatch(c: char)
    requires '1' <= c <= '9'
    ensures Dispatch(Pressed, "alt+Digit" + [c]) == Some(SwitchTab(c as int - '0' as int))
  {
    var s := "alt+Digit" + [c];
    assert Lower(s) == "alt+digit" + [c];
  }

  /** Ctrl+W, Ctrl+Tab, Ctrl+Shift+Tab, Ctrl+K and Alt+Space, in the text the handler receives, reach their events. */
  lemma RegisteredNamedDispatch()
    ensures Dispatch(Pressed, "control+KeyW") == Some(CloseCurrentTab)
    ensures Dispatch(Pressed, "control+Tab") == Some(NextTab)
    ensures Dispatch(Pressed, "shift+control+Tab") == Some(PrevTab)
    ensures Dispatch(Pressed, "control+KeyK") == Some(OpenSearch)
    ensures Dispatch(Pressed, "alt+Space") == Some(ToggleMainWindow)
  {
    assert Lower("control+KeyW") == "control+keyw";
    assert Lower("control+Tab") == "control+tab";
    assert Lower("shift+control+Tab") == "shift+control+tab";
    assert Lower("control+KeyK") == "control+keyk";
    assert Lower("alt+Space") == "alt+space";
  }

  // ---------------------------------------------------------------------
  // Alt+Space on the main window.
  // ---------------------------------------------------------------------

  /** What the toggle does to the main window. */
  datatype MainCall = HideMain | ShowMain | FocusMain

  /**
   * The toggle: nothing without a main window; otherwise hide it when it is
   * visible, and show and focus it when it is not or its visibility cannot be
   * read.
   */
  function ToggleMain(hasMain: bool, visible: Option<bool>): (calls: seq<MainCall>)
    ensures !hasMain ==> calls == []
    ensures hasMain ==> (HideMain in calls <==> visible == Some(true))
    ensures hasMain ==> (ShowMain in calls <==> visible != Some(true))
    ensures ShowMain in calls ==> calls[|calls| - 1] == FocusMain
    ensures hasMain ==> |calls| == (if visible == Some(true) then 1 else 2)
    ensures ShowMain in calls ==> calls[0] == ShowMain
  {
    if !hasMain then []
    else if visible.Some? && visible.value then [HideMain]
    else [ShowMain, FocusMain]
  }

  /** Whether the main window is visible after `calls`, from `visible`. */
  function VisibleAfter(visible: bool, calls: seq<MainCall>): bool
    decreases |calls|
  {
    if |calls| == 0 then visible
    else VisibleAfter(if calls[0] == HideMain then false else if calls[0] == ShowMain then true else visible, calls[1..])
  }

  /** With a readable visibility the toggle flips it, so two toggles restore it. */
  lemma ToggleFlips(v: bool)
    ensures VisibleAfter(v, ToggleMain(true, Some(v))) == !v
    ensures VisibleAfter(!v, ToggleMain(true, Some(!v))) == v
  {
    var hidden: seq<MainCall> := [HideMain];
    var shown: seq<MainCall> := [ShowMain, FocusMain];
    assert hidden[1..] == [] && shown[1..] == [FocusMain] && shown[1..][1..] == [];
    assert VisibleAfter(true, hidden) == false;
    assert VisibleAfter(false, shown) == VisibleAfter(true, [FocusMain]) == true;
  }
}
