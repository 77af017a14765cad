# WindowHub embedding core, modelled in Dafny

WindowHub is a Tauri desktop application. It takes the top-level windows of
other programs and re-parents them into its own frame, where they appear as
tabs. Its Rust back end (`src-tauri/src/lib.rs`) exposes a set of window
commands to the front end:

- enumerate the windows that can be embedded;
- check whether a window may be embedded;
- embed a window: restyle it as a child and re-parent it under the host frame;
- release it back to the desktop, or close it;
- keep an embedded window's rectangle in step with the tab area;
- activate, hide and show it;
- the hover test for the tab area.

Around these commands sit a global-shortcut dispatcher and a small
application launcher. The launcher scans the Start-menu folders and waits
for the launched program's window.

This project models that decision layer as pure functions over an abstract
window manager, and proves what the commands promise. The files:

- `common.dfy`: `Option`, `Result`, the one-pixel tolerance.
- `win32.dfy`: handles, rectangles, and the numeric style, `SetWindowPos` and
  `ShowWindow` constants.
- `window_manager.dfy`: the abstract operating system.
  - Live windows are a map from handle to record: style, extended style,
    rectangle, client inset, parent, process, thread, class, title, and the
    descendants in `EnumChildWindows` order.
  - Every primitive the host issues is appended to a call log.
  - `SetParent` keeps a window's offset from the origin of its coordinates.
    So right after `embed_window`, a top-level window sits at its old screen
    offset measured from the host's client origin, until the next
    `update_window_rect` moves it.
  - A handle absent from the map is not a window. A call on it is logged and
    changes nothing. A query on it returns what Win32 returns: 0, an empty
    string, or a failure.
- `registry.dfy`: `ORIGINAL_STYLES`, the list of records captured at first
  embed.
- `classifier.dfy`: the self-process check and the class denylist, shared by
  `embed_window` and `can_embed_window`.
- `geometry.dfy`: the move-or-not decision of `update_window_rect`, and the
  hover test of `is_cursor_in_client_area`.
- `engine.dfy`: the style transform, the host's `WS_CLIPCHILDREN`, the
  render-widget search, and `activate_window`.
- `embedding.dfy`: `embed_window`, `release_window` and
  `close_target_window` as state transitions, and their round trips.
- `commands.dfy`: `hide_window`, `show_window` and `update_window_rect` on the
  abstract state.
- `enumeration.dfy`: the filter of `enum_window_callback`, and
  `enumerate_windows` as a loop over the windows in Z-order.
- `shortcuts.dfy`: the global-shortcut handler in `run`, and its Alt+Space
  toggle of the main window.
- `apps.dfy`: the file filter of `scan_shortcuts`, the sort-and-dedup of
  `enumerate_installed_apps`, and the new-window detection of `launch_app`.

Each command takes the current state, plus the registry where it reads or
writes it. It returns its reply and the new state. The log of the new state
ends with exactly the primitives the command issued, in order.

What the host knows about itself is an explicit `Env`:

- its process id;
- the current thread id;
- its main window, absent when the webview window or its handle cannot be
  obtained;
- whether `AttachThreadInput` succeeds.

**Flag words.** A 32-bit style or flag word is the set of positions of its
1 bits (`set<Bit>`, with `Bit` ranging over 0..31). The correspondence is
exact:

- `a | b` is `a + b`;
- `a & !b` is `a - b`;
- `a & m == m` is `m <= a`;
- 0 is `{}`.

Each constant in `win32.dfy` carries its hexadecimal value in a comment. So
`WS_CHILD` (0x4000_0000) is `{30}`, and `WS_CAPTION` (0x00C0_0000) is
`{22, 23}`. The signed `i32` round trip of `GetWindowLongW` and
`SetWindowLongW` does not change any bit, so it is not represented.

**Where the behaviour differs from the obvious design, the model follows
the code:**

- `release_window` only reads the registry. The record of a window stays
  after release, so a later embed of the same handle keeps the first
  capture (`Embedding.ReembedKeepsRecord`). A second embed leaves the
  windows and the registry as the first one did
  (`Embedding.EmbedTwiceSameWindows`).
- `embed_window` on a handle that is not a window passes both checks. Its
  process id reads as 0 and its class as empty. It then records a zero
  record (empty styles, `RECT::default()`) and answers `Ok(true)`.
- `enum_window_callback` excludes classes by exact equality.
  `is_dangerous_window` refuses by substring. So an `ApplicationFrameWindow`
  is never listed, yet can be embedded (`Enumeration.AcceptedButNeverListed`).
  An Explorer window can be listed, yet is refused
  (`Enumeration.ListedButRefused`).
- In `update_window_rect`, a failed `GetWindowRect`, or a failed `GetParent`,
  falls through to an unconditional move. `GetParent` fails for an unowned
  top-level window, so such a window is moved on every request
  (`Commands.TopLevelAlwaysMoves`).
- The extension test of `scan_shortcuts` is case-sensitive: `.LNK` is not
  accepted. The walk does not check that an entry is a file.
- `embed_window` and `can_embed_window` word their refusal differently. Both
  are the single refusal `ForbiddenClass(className)`.

## Model

| member | source | states |
|---|---|---|
| Strings.ContainsIff | src-tauri/src/lib.rs:72 | `str::contains` as modelled holds exactly when the needle occurs at some index of the haystack |
| Strings.Lower | src-tauri/src/lib.rs:583 | lower-casing keeps the length and maps each character on its own |
| Strings.LowerIdempotent | src-tauri/src/lib.rs:583 | lower-casing twice is lower-casing once |
| Strings.LessTotal | src-tauri/src/lib.rs:494 | the string order used for sorting is total on distinct strings |
| Strings.NotLessAntisymmetric | src-tauri/src/lib.rs:494-495 | two strings neither of which is below the other are equal, so the sort brings equal names together |
| WindowManager.WriteLong | src-tauri/src/lib.rs:164 | `SetWindowLongW` overwrites exactly the style or extended style of a live window, and is logged |
| WindowManager.Reparent | src-tauri/src/lib.rs:191 | `SetParent` to null makes a live window top-level; to a live parent adopts it; to a dead parent fails; it is always logged |
| WindowManager.ReparentKeepsOffset | src-tauri/src/lib.rs:165 | a successful `SetParent` keeps the window's size and its offset from the origin its coordinates are measured from, so its screen position follows the new parent's client origin; no other window changes |
| WindowManager.Position | src-tauri/src/lib.rs:242 | `SetWindowPos` places the window relative to its parent's client area, honours `SWP_NOMOVE` and `SWP_NOSIZE`, and shows it under `SWP_SHOWWINDOW` |
| WindowManager.ShowCmd | src-tauri/src/lib.rs:441 | `SW_HIDE` clears visibility; `SW_SHOW` and `SW_RESTORE` set it; nothing else changes (maximized and minimized placement is not modelled) |
| Registry.Lookup | src-tauri/src/lib.rs:194 | the record found for a handle is the first one carrying that handle, and there is none exactly when no record has it |
| Registry.Remember | src-tauri/src/lib.rs:153-158 | a record is appended only when its handle has none yet |
| Registry.RememberKeepsUnique | src-tauri/src/lib.rs:153-158 | appending only absent handles keeps at most one record per handle |
| Registry.RememberFirstWins | src-tauri/src/lib.rs:153-158 | after remembering, a handle's record is its earlier one if it had one, the new one otherwise; other handles are unaffected and the list only grows |
| Registry.LookupAppend | src-tauri/src/lib.rs:194 | looking up in an extended list finds the old record first |
| Classifier.IsDangerous | src-tauri/src/lib.rs:60-73 | a class is dangerous exactly when one of the eight denylisted names occurs in it at some index |
| Classifier.IsSelfWindow | src-tauri/src/lib.rs:42-48 | a live window is the host's exactly when its process is the host's; a handle that is not a window counts as the host's only when the host's process id is 0 |
| Classifier.ContainsAny | src-tauri/src/lib.rs:72 | true exactly when the class contains some listed name |
| Classifier.CanEmbed | src-tauri/src/lib.rs:418-433 | a window of the host process is refused first; otherwise it is refused, with its class, exactly when the class contains a denylisted name; the answer is `Ok(true)` exactly when the window is foreign and not dangerous |
| Classifier.DenylistedVariantsRefused | src-tauri/src/lib.rs:60-73 | any class with text added before or after a denylisted name is dangerous |
| Classifier.SelfCheckComesFirst | src-tauri/src/lib.rs:131-137 | a window of the host process is refused whatever its class is |
| Classifier.ExplorerRefused | src-tauri/src/lib.rs:62 | a foreign `CabinetWClass` window is refused with that class name |
| Geometry.PlanUpdate | src-tauri/src/lib.rs:221-243 | a dead window gives false and no move; a placement within one pixel on all four components gives true and no move; anything else gives true and exactly one move to the request |
| Geometry.UnreadableGeometryAlwaysMoves | src-tauri/src/lib.rs:225-242 | when the rectangle or the parent cannot be read, the window is always moved |
| Geometry.SamePlacementNeverMoves | src-tauri/src/lib.rs:233-238 | asking for the current placement never moves the window |
| Geometry.CursorInClientArea | src-tauri/src/lib.rs:338-368 | false without a host frame; otherwise the cursor lies in the client rectangle with its top pushed down by the offset, all edges included |
| Geometry.HoverShrinksWithOffset | src-tauri/src/lib.rs:362-367 | a larger top offset can only shrink the hover region |
| Engine.EmbeddedStyle | src-tauri/src/lib.rs:160-162 | the new style has `WS_CHILD` and `WS_VISIBLE`, none of the eight stripped bits, and every other bit as in the original |
| Engine.EmbeddedStyleIdempotent | src-tauri/src/lib.rs:160-162 | restyling an embedded window's style again changes nothing |
| Engine.ClipChildren | src-tauri/src/lib.rs:143-146 | a live host ends with `WS_CLIPCHILDREN` added and nothing else changed; the style is written only when the bit was missing |
| Engine.FindRenderWidget | src-tauri/src/lib.rs:251-266 | the result is the first descendant of class `Chrome_RenderWidgetHostHWND`, and there is none exactly when no descendant has that class |
| Engine.Raise | src-tauri/src/lib.rs:289 | raising neither moves nor resizes a window and makes it visible |
| Engine.Activate | src-tauri/src/lib.rs:269-311 | a dead handle is answered false with no call; a live one is answered true, becomes visible, nothing else changes, and the issued calls are attach, raise, activate, focus and delayed detach |
| Engine.ActivationCallsDiscipline | src-tauri/src/lib.rs:275-305 | attach happens only across different threads and is never a detach; a delayed detach of the same pair is scheduled exactly when the attach succeeded; activation and focus go only to the focus target |
| Engine.ActivateDiscipline | src-tauri/src/lib.rs:269-311 | the same discipline for a full activation, with the target's own thread, focus on the first render widget or else the window, and no calls at all for a dead handle |
| Embedding.Capture | src-tauri/src/lib.rs:148-151 | the record holds a live window's own style, extended style and screen rectangle, and zero styles with `RECT::default()` for a handle that is not a window |
| Embedding.Adopt | src-tauri/src/lib.rs:160-167 | the window gets the embedded style and the host as parent, and is raised; the three calls are logged in order |
| Embedding.Embed | src-tauri/src/lib.rs:127-176 | a refusal or a missing host frame changes nothing; otherwise the reply is `Ok(true)` and the registry grows by at most one record at its end |
| Embedding.EmbedHostRefused | src-tauri/src/lib.rs:127-131 | when the host frame is a live, non-null window of the host's process, embedding it is refused as a self window and changes nothing, so every embed that goes ahead targets another window |
| Embedding.EmbedRecordsFirstCapture | src-tauri/src/lib.rs:148-158 | an already recorded handle keeps its record; a new one gets the style, extended style and rectangle it had before the embed; other records and uniqueness are kept |
| Embedding.EmbedIssues | src-tauri/src/lib.rs:143-169 | an embed issues, in order: the host style write only when the host lacked `WS_CLIPCHILDREN`, the restyle, the reparenting and the raise of the window, then the activation calls of a live window |
| Embedding.EmbedWindows | src-tauri/src/lib.rs:143-169 | after an embed the host frame is clipped, the window is an embedded child of the host, and no other window changes |
| Embedding.PutBack | src-tauri/src/lib.rs:193-204 | with a record, the saved style, extended style and rectangle come back; without one, an overlapped visible window at (100, 100), 800 by 600, with its extended style untouched |
| Embedding.Unparent | src-tauri/src/lib.rs:183-191 | input is detached inline only across threads, and the window becomes top-level |
| Embedding.Restore | src-tauri/src/lib.rs:206-207 | restoring and bringing a visible window to the foreground changes no window in the model, which keeps no maximized or minimized placement |
| Embedding.Release | src-tauri/src/lib.rs:179-212 | the reply is always true; the first record decides how the window is put back; no other window changes and the registry is not touched |
| Embedding.Close | src-tauri/src/lib.rs:314-324 | closing is releasing followed by one posted `WM_CLOSE`, answered true |
| Embedding.ReleasedIgnoresEmbedding | src-tauri/src/lib.rs:193-204 | release overwrites every field that embedding changed |
| Embedding.EmbedThenRelease | src-tauri/src/lib.rs:127-212 | embed then release leaves the host clipped and the window put back from its first record, nothing else changed |
| Embedding.ReleaseWithCapture | src-tauri/src/lib.rs:193-204 | putting a window back from a fresh capture, before the final restore, gives it back its own fields, only made visible and top-level |
| Embedding.FirstEmbedThenReleaseRestores | src-tauri/src/lib.rs:148-207 | the first embed and release of a visible top-level window that is neither maximized nor minimized restores it exactly; only the host frame differs |
| Embedding.ReleaseTwice | src-tauri/src/lib.rs:179-212 | releasing twice leaves the windows as releasing once |
| Embedding.ReembedKeepsRecord | src-tauri/src/lib.rs:153-169 | re-embedding keeps the registry as it was, yet restyles and reparents the window again |
| Embedding.EmbedTwiceSameWindows | src-tauri/src/lib.rs:127-169 | with the host frame its own live window, embedding a live window twice leaves the windows and the registry exactly as one embed does |
| Commands.Hide | src-tauri/src/lib.rs:437-446 | the reply is true, the window is not visible afterwards, and only its visibility changes |
| Commands.Show | src-tauri/src/lib.rs:449-459 | the reply is true, the window is visible afterwards exactly when it is live, and only its visibility changes |
| Commands.ShowAfterHide | src-tauri/src/lib.rs:437-459 | show after hide restores the windows exactly when the window was visible or dead |
| Commands.HideAfterShow | src-tauri/src/lib.rs:437-459 | hide after show restores the windows exactly when the window was hidden or dead |
| Commands.UpdateRect | src-tauri/src/lib.rs:215-247 | a dead handle gives false and no call; within one pixel of the parent-relative placement gives true and no call; otherwise exactly one move to the request |
| Commands.MoveLandsOnRequest | src-tauri/src/lib.rs:228-242 | after the move, a window with a live parent reads back exactly the requested placement |
| Commands.UpdateRectSettles | src-tauri/src/lib.rs:215-247 | a second identical request to an embedded window changes nothing |
| Commands.TopLevelAlwaysMoves | src-tauri/src/lib.rs:226-242 | a top-level window is moved on every request |
| Enumeration.Visit | src-tauri/src/lib.rs:93-115 | a window is reported exactly when it is visible, foreign, titled without `WindowHub`, of no excluded class, and larger than 100 by 100; the report carries its handle, title, class and size |
| Enumeration.CollectAppend | src-tauri/src/lib.rs:76-90 | the enumeration is an order-preserving filter: more windows only add reports at the end |
| Enumeration.CollectExactly | src-tauri/src/lib.rs:93-115 | a handle is reported exactly when it was visited and passes the filter |
| Enumeration.EnumerateWindows | src-tauri/src/lib.rs:76-90 | the loop returns the filter of the visited windows, each report for a visited, listed window |
| Enumeration.ListedButRefused | src-tauri/src/lib.rs:101-104 | an Explorer window can be listed yet is refused for embedding |
| Enumeration.NotDangerousWhenLacking | src-tauri/src/lib.rs:60-73 | a class without any of the letters `C`, `P`, `k`, `T` is never dangerous |
| Enumeration.AcceptedButNeverListed | src-tauri/src/lib.rs:101-104 | a foreign `ApplicationFrameWindow` is never listed yet is accepted for embedding |
| Shortcuts.DigitValue | src-tauri/src/lib.rs:588 | the value of a decimal digit is at most 9 and names that digit |
| Shortcuts.Dispatch | src-tauri/src/lib.rs:577-637 | a key release asks for nothing, so a shortcut acts once per press; a tab switch always carries a digit from 0 to 9 |
| Shortcuts.DispatchIgnoresCase | src-tauri/src/lib.rs:583 | the handler does not see case |
| Shortcuts.SwitchTabIff | src-tauri/src/lib.rs:586-594 | on a key press, a switch to tab d is emitted exactly for text starting with `alt+digit` in any case and ending in the digit d |
| Shortcuts.NamedAreNotSwitches | src-tauri/src/lib.rs:597-625 | no whole-text shortcut starts a tab switch |
| Shortcuts.DispatchFollowsTable | src-tauri/src/lib.rs:596-637 | on a key press, every other event is the one paired with the lower-cased text, and text matching nothing emits nothing |
| Shortcuts.RegisteredSwitchDispatch | src-tauri/src/lib.rs:674-681 | Alt+1 to Alt+9, as the handler receives them, switch to that tab |
| Shortcuts.RegisteredNamedDispatch | src-tauri/src/lib.rs:683-711 | Ctrl+W, Ctrl+Tab, Ctrl+Shift+Tab, Ctrl+K and Alt+Space, as the handler receives them, reach their events |
| Shortcuts.ToggleMain | src-tauri/src/lib.rs:625-635 | nothing happens without a main window; a window known to be visible gets exactly one hide; any other gets exactly one show followed by one focus |
| Shortcuts.ToggleFlips | src-tauri/src/lib.rs:625-635 | with readable visibility the toggle flips it, so two toggles restore it |
| Apps.LastDot | src-tauri/src/lib.rs:509 | the index found is a dot with no dot after it, and there is none exactly when the name has no dot |
| Apps.SplitExtension | src-tauri/src/lib.rs:509-512 | stem, dot and extension put back together give the file name; the extension has no dot; without an extension the name has no dot past its first character |
| Apps.SplitJoin | src-tauri/src/lib.rs:509-512 | splitting a non-empty stem joined to a dot-free extension gives them back |
| Apps.Candidate | src-tauri/src/lib.rs:509-519 | an accepted entry keeps its path, its name is the non-empty stem of a `.lnk` or `.exe` file, and the name has no uninstall marker |
| Apps.CandidateAccepts | src-tauri/src/lib.rs:509-519 | every `.lnk` or `.exe` file with a non-empty stem and no uninstall marker is accepted |
| Apps.UninstallerSkipped | src-tauri/src/lib.rs:515 | a stem containing `Uninstall` or the Chinese word for uninstall is never accepted |
| Apps.Scan | src-tauri/src/lib.rs:504-523 | the scan yields only accepted entries, never more than it walked |
| Apps.ScanAppend | src-tauri/src/lib.rs:504-523 | the scan is an order-preserving filter over the walk |
| Apps.ScanComplete | src-tauri/src/lib.rs:504-523 | every accepted entry of the walk is in the scan |
| Apps.Insert | src-tauri/src/lib.rs:494 | insertion adds exactly the one element |
| Apps.InsertSorted | src-tauri/src/lib.rs:494 | insertion keeps a list sorted by key |
| Apps.InsertStable | src-tauri/src/lib.rs:494 | insertion puts the new element after the others with its key |
| Apps.SortBy | src-tauri/src/lib.rs:494 | the sort is a permutation ordered by lower-cased name |
| Apps.SortStable | src-tauri/src/lib.rs:494 | the sort is stable: elements with equal keys keep their order |
| Apps.DedupBy | src-tauri/src/lib.rs:495 | no two adjacent results share a key, and the last key survives |
| Apps.DedupKeepsFirst | src-tauri/src/lib.rs:495 | on a list grouped by key, each kept element is the first of its key |
| Apps.DedupIncreasing | src-tauri/src/lib.rs:494-495 | on a sorted list the result's keys strictly increase |
| Apps.DedupCovers | src-tauri/src/lib.rs:495 | every key of the input is kept |
| Apps.DedupSorted | src-tauri/src/lib.rs:494-495 | sort-then-dedup gives strictly increasing keys, covers every key and keeps the first of each |
| Apps.InstalledApps | src-tauri/src/lib.rs:473-500 | the list is never longer than what was scanned, and its lower-cased names strictly increase |
| Apps.InstalledAppsOnePerName | src-tauri/src/lib.rs:473-500 | one application per lower-cased name, in increasing name order; every scanned name is present; the per-user folder's entry wins over the all-users one |
| Apps.FirstNewWindow | src-tauri/src/lib.rs:558-563 | the window chosen is the first listed one not seen before the launch, and there is none exactly when all were seen |
| Apps.OldWindowsIgnored | src-tauri/src/lib.rs:534-537 | a window listed before the launch is never taken for the new one |
| Apps.WaitForNewWindow | src-tauri/src/lib.rs:553-566 | the first poll that shows a new window decides the answer; it fails exactly when no poll shows one |
| Apps.LaunchRoute | src-tauri/src/lib.rs:540-547 | an application the scan yields, from an entry whose path ends in its file name, is opened through the shell exactly when its file is a `.lnk`, and run directly exactly when it is an `.exe` |
| Apps.Launch | src-tauri/src/lib.rs:527-570 | a failed spawn fails at once; otherwise the answer is the first new window of the first poll that shows one, a window absent before the launch, or a failure exactly when no poll found one |

## Left out

- The Win32 and Tauri calls themselves are left out. The window manager is
  abstract:
  - `SetWindowPos` places a window exactly as asked, with no clamping;
  - the Z-order is not modelled;
  - owner windows are not modelled. `GetParent` of an owned top-level window
    (a dialog, say) returns its owner, and `update_window_rect` then compares
    against the placement relative to the owner. In the model a top-level
    window has no owner, so `GetParent` always fails for it;
- The `ORIGINAL_STYLES` mutex is left out. The registry is a value threaded
  through the commands one at a time, and the lock held across OS calls in
  `release_window` is not modelled.
- The 100 ms detach thread of `activate_window` is concurrency. It is a
  logged `SpawnDelayedDetach` of the thread pair.
- Whether `AttachThreadInput` succeeds is the `Env.attachOk` parameter.
- UTF-16 decoding of titles and class names is left out. Strings are given.
- `str::to_lowercase` is modelled on ASCII letters only. Other characters are
  unchanged.
- Strings sort by code point, as Rust's `String` ordering does on the
  characters modelled.
- `i32` arithmetic is unbounded `int`. The subtractions in
  `update_window_rect` and `release_window` would overflow only for
  rectangles far outside any screen.
- Commands with no decision in them are left out: `is_window_valid`,
  `get_foreground_window`, `get_window_title`, `is_mouse_left_down` and
  `get_main_window_hwnd`. Each only forwards one Win32 query.
- Of `is_cursor_in_client_area`, only the arithmetic is modelled. The cursor
  position and client rectangle are parameters.
- Of `scan_shortcuts`, the directory walk (`walkdir` with depth 3), the
  environment variables and the existence check are left out. The entries of
  each folder, or its absence, are parameters.
- Of `launch_app`, the process spawn and the 100 ms sleeps are left out.
  Whether the spawn succeeded, and the window list each poll sees, are
  parameters.
- Registering the global shortcuts, the tray menu, the close-to-hide window
  handler, `emit`, the `println!` logging of the shortcut handler and of the
  registration code, and the non-Windows stubs are left out. They are Tauri
  plumbing and console output.
- The wording of error messages is left out. Errors are the `Refusal` and
  `LaunchError` variants.
- Shortcuts.Dispatch: its contract states only that a release emits nothing
  and the digit bound. The behaviour on a key press is stated by
  `SwitchTabIff` and `DispatchFollowsTable`.
- WindowManager.ShowCmd: `SW_RESTORE` only sets `WS_VISIBLE`. On a window
  whose style has `WS_MAXIMIZE` (0x0100_0000) or `WS_MINIMIZE` (0x2000_0000),
  Windows also clears that bit and moves the window back to its restore
  rectangle. The model keeps no restore rectangle, so it leaves both the bit
  and the rectangle as they were.
- Embedding.Restore: for the same reason, "changes no window" holds in the
  model only. A maximized or minimized window released by `release_window`
  ends up restored, with a different style and rectangle.
- Embedding.FirstEmbedThenReleaseRestores: it requires a window that is
  neither maximized nor minimized (`NormalPlacement`), because for the
  others `SW_RESTORE` changes the rectangle the round trip gives back.
- Apps.DedupBy: its contract does not say which element of a run survives.
  `DedupKeepsFirst` proves the first one does on grouped input.
