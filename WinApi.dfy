/** The Win32 mouse-message codes that the low-level hook callback looks at,
    with the values the window's interop declarations give them. */
module WinApi {

  const WM_MOUSEMOVE: int := 0x0200
  const WM_LBUTTONDOWN: int := 0x0201
  const WM_LBUTTONUP: int := 0x0202
  const WM_RBUTTONDOWN: int := 0x0204
  const WM_RBUTTONUP: int := 0x0205
  const WM_MOUSEWHEEL: int := 0x020A

  /** The four messages that change a button flag. */
  predicate IsButtonMessage(code: int)
  {
    code == WM_LBUTTONDOWN || code == WM_LBUTTONUP || code == WM_RBUTTONDOWN || code == WM_RBUTTONUP
  }
}
