/**
 * The Win32 vocabulary the embedding core speaks: window handles, points and
 * rectangles in integer pixels, and the numeric values of the window-style,
 * SetWindowPos and ShowWindow constants it uses.
 */
module Win32 {

  /** A window handle (`HWND`, carried as `isize` across the command surface); 0 is null. */
  type Handle = int

  const NULL: Handle := 0
  /** `HWND_TOP`: insert at the top of the Z-order. */
  const HWND_TOP: Handle := 0

  /** A bit position in a 32-bit word. */
  newtype Bit = b: int | 0 <= b < 32

  /**
   * A 32-bit flag word (`u32` style, extended style, or `SetWindowPos` flags),
   * represented by the set of positions of its 1 bits. The correspondence is
   * exact: `a | b` is `a + b`, `a & !b` is `a - b`, `a & m == m` is `m <= a`,
   * and 0 is `{}`.
   */
  type Flags = set<Bit>

  // Window styles (GWL_STYLE bits); the hexadecimal value is the word's.
  const WS_POPUP: Flags := {31}                           // 0x8000_0000
  const WS_CHILD: Flags := {30}                           // 0x4000_0000
  const WS_MINIMIZE: Flags := {29}                        // 0x2000_0000
  const WS_VISIBLE: Flags := {28}                         // 0x1000_0000
  const WS_CLIPSIBLINGS: Flags := {26}                    // 0x0400_0000
  const WS_CLIPCHILDREN: Flags := {25}                    // 0x0200_0000
  const WS_MAXIMIZE: Flags := {24}                        // 0x0100_0000
  const WS_BORDER: Flags := {23}                          // 0x0080_0000
  const WS_DLGFRAME: Flags := {22}                        // 0x0040_0000
  const WS_CAPTION: Flags := WS_BORDER + WS_DLGFRAME      // 0x00C0_0000
  const WS_SYSMENU: Flags := {19}                         // 0x0008_0000
  const WS_THICKFRAME: Flags := {18}                      // 0x0004_0000
  const WS_MINIMIZEBOX: Flags := {17}                     // 0x0002_0000
  const WS_MAXIMIZEBOX: Flags := {16}                     // 0x0001_0000
  /** 0x00CF_0000: caption, system menu, sizing frame, minimize and maximize boxes. */
  const WS_OVERLAPPEDWINDOW: Flags :=
    WS_CAPTION + WS_SYSMENU + WS_THICKFRAME + WS_MINIMIZEBOX + WS_MAXIMIZEBOX

  // SetWindowPos flags.
  const SWP_NOSIZE: Flags := {0}                          // 0x0001
  const SWP_NOMOVE: Flags := {1}                          // 0x0002
  const SWP_NOZORDER: Flags := {2}                        // 0x0004
  const SWP_NOACTIVATE: Flags := {4}                      // 0x0010
  const SWP_FRAMECHANGED: Flags := {5}                    // 0x0020
  const SWP_SHOWWINDOW: Flags := {6}                      // 0x0040

  // ShowWindow commands.
  const SW_HIDE: int := 0
  const SW_SHOW: int := 5
  const SW_RESTORE: int := 9

  datatype Point = Point(x: int, y: int)

  /** A `RECT`: left/top inclusive corner and right/bottom corner, in pixels. */
  datatype Rect = Rect(left: int, top: int, right: int, bottom: int) {
    function Width(): int { right - left }
    function Height(): int { bottom - top }
  }

  /** `RECT::default()`, what a failed `GetWindowRect` leaves behind. */
  const EmptyRect: Rect := Rect(0, 0, 0, 0)

  /** Is every bit of mask `m` set in `s`? (`s & m == m`) */
  predicate HasAll(s: Flags, m: Flags) {
    m <= s
  }
}
