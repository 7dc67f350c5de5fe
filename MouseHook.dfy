/** The low-level mouse hook callback's effect on the two button flags.

    The callback receives `nCode` and the message identifier `wParam` (a
    native-size integer).  When `nCode` is non-negative it converts `wParam`
    to a 32-bit `int` and switches on it: a left-button down or up message
    sets or clears the left flag, a right-button down or up message sets or
    clears the right flag, and every other message is ignored.  A negative
    `nCode` is ignored too.  Passing the message on to the next hook is a call
    into the operating system and is not part of this model. */
module MouseHook {
  import opened WinApi

  /** The two flags the callback maintains. */
  datatype Buttons = Buttons(left: bool, right: bool)

  const TWO_TO_32: int := 0x1_0000_0000
  const TWO_TO_31: int := 0x8000_0000

  /** The unchecked `(int)` cast of a native integer: the low 32 bits read as
      a two's-complement number.  The result is the one value in 32-bit range
      that agrees with the input modulo 2^32. */
  function ToInt32(w: int): (r: int)
    ensures -TWO_TO_31 <= r < TWO_TO_31
    ensures (w - r) % TWO_TO_32 == 0
  {
    var low := w % TWO_TO_32;
    if low < TWO_TO_31 then low else low - TWO_TO_32
  }

  /** Two values in 32-bit range that agree modulo 2^32 are equal, so the
      cast is the identity on values that already fit. */
  lemma ToInt32Identity(w: int)
    requires -TWO_TO_31 <= w < TWO_TO_31
    ensures ToInt32(w) == w
  {
  }

  /** The flags after the callback has seen one message.  Only a message the
      cast maps to a button code can change a flag, and only the flag of its
      own button; a negative `nCode` changes nothing. */
  function HookFlags(nCode: int, wParam: int, b: Buttons): (r: Buttons)
    ensures nCode < 0 ==> r == b
    ensures r.left != b.left ==> nCode >= 0 && (ToInt32(wParam) == WM_LBUTTONDOWN || ToInt32(wParam) == WM_LBUTTONUP)
    ensures r.right != b.right ==> nCode >= 0 && (ToInt32(wParam) == WM_RBUTTONDOWN || ToInt32(wParam) == WM_RBUTTONUP)
  {
    if nCode < 0 then b
    else
      var code := ToInt32(wParam);
      if code == WM_LBUTTONDOWN then b.(left := true)
      else if code == WM_LBUTTONUP then b.(left := false)
      else if code == WM_RBUTTONDOWN then b.(right := true)
      else if code == WM_RBUTTONUP then b.(right := false)
      else b
  }

  /** Each button message drives its flag to a fixed value, whatever the flags
      were before, and leaves the other button's flag alone. */
  lemma ButtonMessages(nCode: int, b: Buttons)
    requires nCode >= 0
    ensures HookFlags(nCode, WM_LBUTTONDOWN, b) == Buttons(true, b.right)
    ensures HookFlags(nCode, WM_LBUTTONUP, b) == Buttons(false, b.right)
    ensures HookFlags(nCode, WM_RBUTTONDOWN, b) == Buttons(b.left, true)
    ensures HookFlags(nCode, WM_RBUTTONUP, b) == Buttons(b.left, false)
  {
    ToInt32Identity(WM_LBUTTONDOWN);
    ToInt32Identity(WM_LBUTTONUP);
    ToInt32Identity(WM_RBUTTONDOWN);
    ToInt32Identity(WM_RBUTTONUP);
  }

  /** A message is ignored exactly when `nCode` is negative or the cast code
      is not one of the four button messages; moves and wheel turns are
      ignored. */
  lemma IgnoredMessages(nCode: int, wParam: int, b: Buttons)
    ensures (nCode < 0 || !IsButtonMessage(ToInt32(wParam))) ==> HookFlags(nCode, wParam, b) == b
    ensures HookFlags(nCode, WM_MOUSEMOVE, b) == b
    ensures HookFlags(nCode, WM_MOUSEWHEEL, b) == b
  {
    ToInt32Identity(WM_MOUSEMOVE);
    ToInt32Identity(WM_MOUSEWHEEL);
  }

  /** Delivering the same message twice has the effect of delivering it once. */
  lemma HookIdempotent(nCode: int, wParam: int, b: Buttons)
    ensures HookFlags(nCode, wParam, HookFlags(nCode, wParam, b)) == HookFlags(nCode, wParam, b)
  {
  }

  /** Because of the 32-bit cast, a native `wParam` whose low 32 bits spell a
      button code acts as that button message: the high bits are dropped. */
  lemma HighBitsIgnored(nCode: int, wParam: int, k: int, b: Buttons)
    ensures HookFlags(nCode, wParam + k * TWO_TO_32, b) == HookFlags(nCode, wParam, b)
  {
    assert ToInt32(wParam + k * TWO_TO_32) == ToInt32(wParam) by {
      assert (wParam + k * TWO_TO_32) % TWO_TO_32 == wParam % TWO_TO_32;
    }
  }
}
