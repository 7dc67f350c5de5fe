# CursorMeter sampling core in Dafny

CursorMeter is a small Windows desktop tool. It polls the mouse cursor on a
timer and shows the cursor's speed and direction, with rolling charts and
statistics. This project models the discrete part of that tool, all of which
sits in the main window's code-behind:

- **The bounded sample buffers.** Speed and direction samples are kept in two
  collections. Each recorded sample removes the element at index 0 while the
  collection holds at least the record limit, and then appends the new value.
  The limit is a number the user can change at any time.
- **The timer tick.** A tick is gated off when hold-to-measure is on and
  neither mouse button is held; then it only resets the speed and direction
  readout. Otherwise the first tick only remembers the cursor position. Every
  later tick records one speed and one direction sample, computed from the
  previous and the current position, and then remembers the current position.
- **The low-level mouse hook callback.** It keeps two flags, left button held
  and right button held. It sets or clears them on the four button-down and
  button-up messages. It ignores every other message and every call with a
  negative `nCode`.

Modules:

- `Wrappers`: the `Option` type.
- `WinApi`: the message codes, with the values the interop declarations give.
- `SampleBuffer`: the evict-then-append rule as functions, with its
  properties. These are the length bound, keeping the newest samples in
  order, growth by one, cutting to the limit, lockstep lengths and the
  sliding-window characterisation over many samples.
- `MouseHook`: the flag transition, including the unchecked `(int)` cast of
  the native-size `wParam`, which keeps only its low 32 bits.
- `Meter`: the window's whole modelled state as a value (`Window`), one tick
  (`TickStep`, whose properties are in `TickStepProperties`), one hook message (`HookStep`), and a run over a sequence of
  events (`RunEvents`), with lemmas about each.
- `Gui`: the class `MainWindow` with the same fields the source updates. Its
  methods `Tick`, `MouseHookCallback`, `SetMaxRecordCount` and
  `SetHoldToMeasure` are proved to change the fields exactly as the `Meter`
  functions say. `Tick` contains the two eviction loops.

Samples have a type parameter `T`. The speed and the direction of a move are
given to `Tick` as functions `speedOf(prev, cur)` and `directionOf(prev, cur)`.
They stand for the floating-point distance/interval and `atan2` computations,
which are not modelled. Cursor positions are integer pairs, as the cursor
query returns them.

A limit below one is not excluded by a precondition, because the source does
not validate it either. With such a limit the speed loop removes every element
and then removes at index 0 of an empty collection, which throws. The model
returns the outcome `Faulted`. In that state the speed buffer is empty and
nothing else has changed. Every buffer property that needs a limit of at least
one says so in its `requires`.

The source makes the two button flags static fields. The model makes them
fields of the one window object, since the process has only one window.

`StartCursorMeter` (CursorMeter.GUI/MainWindow.xaml.cs:63-68) never resets the
previous position and never clears the buffers, so a restarted meter measures
from the last position it saw.

The length bound on the buffers holds right after a recorded tick, not at
every moment: lowering the limit leaves a longer buffer in place until the
next recorded tick cuts it (`LimitChangeKeepsBuffers`).

## Model

| member | source | states |
|---|---|---|
| `SampleBuffer.Evict` | CursorMeter.GUI/MainWindow.xaml.cs:182-183 | the eviction loop throws exactly when the limit is below one; otherwise it leaves the newest part of the buffer, shorter than the limit, the whole buffer if it was already shorter, and exactly `max - 1` elements otherwise |
| `SampleBuffer.EvictLeaves` | CursorMeter.GUI/MainWindow.xaml.cs:182-183 | where the loop stops: a newest part below the limit that is either the whole buffer or one short of the limit is what eviction leaves |
| `SampleBuffer.Record` | CursorMeter.GUI/MainWindow.xaml.cs:182-184 | recording fails exactly when the limit is below one; otherwise the new value is last, the length is between 1 and the limit, the elements before it are the newest old ones in their original order, and the length grows by one when below the limit and is exactly the limit otherwise, also after the limit was lowered |
| `SampleBuffer.RecordAll` | CursorMeter.GUI/MainWindow.xaml.cs:182-184 | recording nothing leaves the buffer; recording a non-empty run with a fixed limit leaves between 1 and the limit elements, ending with the run's last value (the full window is `RecordAllIsWindow`) |
| `SampleBuffer.RecordKeepsLockstep` | CursorMeter.GUI/MainWindow.xaml.cs:182-189 | two buffers of equal length recorded with the same limit stay equal in length |
| `SampleBuffer.RecordIsWindow` | CursorMeter.GUI/MainWindow.xaml.cs:182-184 | one recording leaves the newest `max` elements of the old buffer followed by the new value (all of them when there are fewer) |
| `SampleBuffer.RecordAllIsWindow` | CursorMeter.GUI/MainWindow.xaml.cs:182-184 | after any non-empty run of recordings with a fixed limit, the buffer is the newest `max` of all values seen, old and new, in arrival order (all of them when there are fewer) |
| `MouseHook.ToInt32` | CursorMeter.GUI/MainWindow.xaml.cs:32 | the `(int)` cast gives the unique 32-bit value congruent to `wParam` modulo 2^32 |
| `MouseHook.ToInt32Identity` | CursorMeter.GUI/MainWindow.xaml.cs:32 | the cast leaves a value that already fits in 32 bits unchanged |
| `MouseHook.HookFlags` | CursorMeter.GUI/MainWindow.xaml.cs:29-46 | a negative `nCode` changes nothing; the left flag changes only on a left-button message and the right flag only on a right-button message |
| `MouseHook.ButtonMessages` | CursorMeter.GUI/MainWindow.xaml.cs:34-45 | left-down sets and left-up clears the left flag, right-down sets and right-up clears the right flag, each leaving the other flag as it was |
| `MouseHook.IgnoredMessages` | CursorMeter.GUI/MainWindow.xaml.cs:29-46 | with a negative `nCode`, or a code that is not one of the four button messages (moves and wheel turns among them), the flags are unchanged |
| `MouseHook.HookIdempotent` | CursorMeter.GUI/MainWindow.xaml.cs:29-46 | delivering one message twice has the effect of delivering it once |
| `MouseHook.HighBitsIgnored` | CursorMeter.GUI/MainWindow.xaml.cs:32 | `wParam` values that differ by a multiple of 2^32 have the same effect |
| `Meter.Initial` | CursorMeter.GUI/MainWindow.xaml.cs:17-26 | the field declarations give no previous position and two empty buffers (and flags clear, hold-to-measure off, limit 50) |
| `Meter.Sampling` | CursorMeter.GUI/MainWindow.xaml.cs:172 | the tick's gate: hold-to-measure off or a button held; what each side of it does is stated by `QuietTickWindow` and `TickStepProperties` |
| `Meter.TickStep` | CursorMeter.GUI/MainWindow.xaml.cs:170-207 | one timer tick as a function of the window; its contract is stated by `TickStepProperties`, `QuietTickWindow`, `RecordedTick`, `RecordedTickWindow` and `FaultedTick`, and `Gui.MainWindow.Tick` is proved equal to it |
| `Meter.TickStepProperties` | CursorMeter.GUI/MainWindow.xaml.cs:172-206 | a tick never changes the flags, hold-to-measure or the limit; it records exactly when it samples, a previous position exists and the limit is at least one, and faults exactly when the limit is below one instead; after a recorded tick both buffers are non-empty and within the limit, so the statistics never see an empty buffer; a tick that does not fault keeps the buffers' lengths equal |
| `Meter.QuietTickWindow` | CursorMeter.GUI/MainWindow.xaml.cs:172-177 | a gated tick only zeroes the readout; the first sampling tick only stores the position |
| `Meter.HookStep` | CursorMeter.GUI/MainWindow.xaml.cs:27-50 | a hook message changes neither the previous position nor the buffers, and with a negative `nCode` changes nothing |
| `Meter.GatedTickKeepsSamples` | CursorMeter.GUI/MainWindow.xaml.cs:202-206 | a gated tick leaves the previous position and both buffers unchanged and zeroes the readout |
| `Meter.FirstTickStoresPosition` | CursorMeter.GUI/MainWindow.xaml.cs:176-177 | the first sampling tick stores the position and leaves both buffers unchanged |
| `Meter.RecordedTick` | CursorMeter.GUI/MainWindow.xaml.cs:178-200 | a later sampling tick with a limit of at least one records `speedOf(prev, pos)` and `directionOf(prev, pos)` by the evict-then-append rule, ends each buffer with its new sample, shows both in the readout and makes `pos` the previous position |
| `Meter.RecordedTickWindow` | CursorMeter.GUI/MainWindow.xaml.cs:178-200 | the complete window after a recorded tick, given the two recorded buffers |
| `Meter.FaultedTick` | CursorMeter.GUI/MainWindow.xaml.cs:182-183 | a later sampling tick with a limit below one throws, leaving the speed buffer empty and everything else unchanged |
| `Meter.RunEvents` | CursorMeter.GUI/MainWindow.xaml.cs:107-206 | the hook, limit, hold-to-measure and timer handlers applied in arrival order, stopping at a throwing tick; its properties are `RunKeepsLockstep`, `RunWithPositiveLimitNeverFaults` and `LimitChangeKeepsBuffers` |
| `Meter.LimitChangeKeepsBuffers` | CursorMeter.GUI/MainWindow.xaml.cs:152-160 | a limit change never throws and changes only the limit, so buffers longer than a lowered limit stay as they are |
| `Meter.RunKeepsLockstep` | CursorMeter.GUI/MainWindow.xaml.cs:182-189 | over any event sequence that does not throw (hook messages, limit and hold-to-measure changes, ticks) the two buffers keep equal lengths |
| `Meter.RunWithPositiveLimitNeverFaults` | CursorMeter.GUI/MainWindow.xaml.cs:182-183 | a run that starts with, and only ever sets, limits of at least one never throws |
| `Meter.ReleaseStopsSampling` | CursorMeter.GUI/MainWindow.xaml.cs:172 | with hold-to-measure on and the right button up, the tick after a left-button-up message is gated and leaves the samples alone |
| `Gui.EvictionLoopsRecord` | CursorMeter.GUI/MainWindow.xaml.cs:182-189 | what the two eviction loops stop at, followed by the two appends, is the window that a recorded tick produces |
| `Gui.MainWindow.constructor` | CursorMeter.GUI/MainWindow.xaml.cs:96-166 | the fields start as the declarations give them, except that hold-to-measure and the limit are the saved settings loaded at the end of construction; the saved limit may be below one |
| `Gui.MainWindow.SetMaxRecordCount` | CursorMeter.GUI/MainWindow.xaml.cs:154 | only the limit changes, to the new value |
| `Gui.MainWindow.SetHoldToMeasure` | CursorMeter.GUI/MainWindow.xaml.cs:107-124 | only hold-to-measure changes, to the new value |
| `Gui.MainWindow.MouseHookCallback` | CursorMeter.GUI/MainWindow.xaml.cs:27-50 | the flag fields change exactly as `HookStep` says; nothing else changes |
| `Gui.MainWindow.Tick` | CursorMeter.GUI/MainWindow.xaml.cs:170-207 | the fields and the outcome are exactly those of `TickStep`, proved through the eviction loops' invariants, so every property of `TickStep` holds of the fields |

## Left out

- Floating point: the speed (Euclidean distance over the interval times 1000), the direction (`atan2` in degrees, plus 360 when negative), and the average, maximum and variance over the buffers. Samples are opaque values, so nothing is claimed about their ranges, such as a direction in [0, 360).
- The statistics and chart text: only the speed and direction readouts are modelled, as zeroed or showing the latest samples. The window's initial text comes from its XAML, which is not part of this model; the model starts with the zeroed readout.
- Gui.MainWindow.Tick: the `RemoveAt(0)` loops run on local copies of the two collections, and the fields are assigned once afterwards, also on the throwing path. The tick is single-threaded, so no one can see the intermediate states. The collection-changed notifications sent to the charts for each removal are not modelled.
- The sampling interval `mInterval` and its text field: its value at construction sets the timer's period once (CursorMeter.GUI/MainWindow.xaml.cs:167-168), and later edits change only the divisor of the speed computation, which the caller supplies as `speedOf`. Timer periods are not modelled.
- Operating-system calls: reading the cursor position (it becomes the `pos` parameter), installing and removing the hook, passing the message on to the next hook, and changing the window's z-order.
- Timer scheduling, starting and stopping the meter, and the hook's lifetime: these belong to the event loop. `RunEvents` takes the events in the order they arrive instead.
- Gui.MainWindow.constructor: the saved hold-to-measure setting and limit reach the fields through the check-box and text-changed handlers that `LoadSettings` fires; the constructor takes them as parameters and assigns them, which is the effect of a `SetHoldToMeasure` and a `SetMaxRecordCount` call right after construction. When a saved value equals the control's initial value no handler fires and the declared value stays; the controls' initial values come from the XAML, which is not part of this model.
- Settings loading and saving, the topmost toggle, and `int.Parse` of the text fields. A parse failure is an exception before any state changes; `SetMaxRecordCount` takes the already parsed number.
- What happens after a tick throws: the exception leaves the timer callback. `RunEvents` stops at that point.
