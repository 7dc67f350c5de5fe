/** The main window as an object whose fields the timer tick and the mouse
    hook update in place.  The two sample collections are sequence fields
    that the eviction loops shorten one front element at a time. */
module Gui {
  import opened Wrappers
  import opened SampleBuffer
  import opened MouseHook
  import WinApi
  import opened Meter

  /** What the two eviction loops leave, followed by the two appends, is the
      window a recorded tick produces. */
  lemma EvictionLoopsRecord<T>(w: Window<T>, pos: Point, speedOf: (Point, Point) -> T, directionOf: (Point, Point) -> T,
                               speedsKept: seq<T>, directionsKept: seq<T>)
    requires Sampling(w) && w.prev.Some?
    requires |speedsKept| <= |w.speeds| && speedsKept == w.speeds[|w.speeds| - |speedsKept|..]
    requires |speedsKept| < w.maxRecordCount && (|speedsKept| == |w.speeds| || |speedsKept| + 1 >= w.maxRecordCount)
    requires |directionsKept| <= |w.directions| && directionsKept == w.directions[|w.directions| - |directionsKept|..]
    requires |directionsKept| < w.maxRecordCount && (|directionsKept| == |w.directions| || |directionsKept| + 1 >= w.maxRecordCount)
    ensures var speed, direction := speedOf(w.prev.value, pos), directionOf(w.prev.value, pos);
            TickStep(w, pos, speedOf, directionOf) ==
            Step(w.(prev := Some(pos), speeds := speedsKept + [speed], directions := directionsKept + [direction],
                    readout := Shown(speed, direction)), Recorded)
  {
    EvictLeaves(w.speeds, speedsKept, w.maxRecordCount);
    EvictLeaves(w.directions, directionsKept, w.maxRecordCount);
    RecordedTickWindow(w, pos, speedOf, directionOf, speedsKept + [speedOf(w.prev.value, pos)],
                       directionsKept + [directionOf(w.prev.value, pos)]);
  }

  class MainWindow<T> {
    var prevPosition: Option<Point>
    var maxRecordCount: int
    var holdToMeasure: bool
    var leftPressed: bool
    var rightPressed: bool
    var speedValues: seq<T>
    var directionValues: seq<T>
    var readout: Readout<T>

    /** The window's fields as a value of the pure model. */
    function State(): Window<T>
      reads this
    {
      Window(prevPosition, speedValues, directionValues, readout,
             Buttons(leftPressed, rightPressed), holdToMeasure, maxRecordCount)
    }

    /** Construction with the declared field values, followed by loading the
        saved hold-to-measure setting and the saved limit, which the change
        handlers copy into the fields. */
    constructor (savedHoldToMeasure: bool, savedMaxRecordCount: int)
      ensures State() == Initial().(holdToMeasure := savedHoldToMeasure, maxRecordCount := savedMaxRecordCount)
    {
      prevPosition := None;
      maxRecordCount := savedMaxRecordCount;
      holdToMeasure := savedHoldToMeasure;
      leftPressed, rightPressed := false, false;
      speedValues, directionValues := [], [];
      readout := Zeroed;
    }

    /** The record-limit text field was changed to a number. */
    method SetMaxRecordCount(n: int)
      modifies this
      ensures State() == old(State()).(maxRecordCount := n)
    {
      maxRecordCount := n;
    }

    /** The hold-to-measure check box was checked or unchecked. */
    method SetHoldToMeasure(on: bool)
      modifies this
      ensures State() == old(State()).(holdToMeasure := on)
    {
      holdToMeasure := on;
    }

    /** The low-level mouse hook callback. */
    method MouseHookCallback(nCode: int, wParam: int)
      modifies this
      ensures State() == HookStep(old(State()), nCode, wParam)
    {
      if nCode >= 0 {
        var code := ToInt32(wParam);
        if code == WinApi.WM_LBUTTONDOWN {
          leftPressed := true;
        } else if code == WinApi.WM_LBUTTONUP {
          leftPressed := false;
        } else if code == WinApi.WM_RBUTTONDOWN {
          rightPressed := true;
        } else if code == WinApi.WM_RBUTTONUP {
          rightPressed := false;
        }
      }
    }

    /** The sampling timer's tick with the cursor at `pos`. */
    method Tick(pos: Point, speedOf: (Point, Point) -> T, directionOf: (Point, Point) -> T) returns (outcome: TickOutcome)
      modifies this
      ensures Step(State(), outcome) == TickStep(old(State()), pos, speedOf, directionOf)
    {
      if !holdToMeasure || leftPressed || rightPressed {
        if prevPosition.None? {
          QuietTickWindow(State(), pos, speedOf, directionOf);
          prevPosition := Some(pos);
          outcome := FirstSample;
        } else {
          var prev := prevPosition.value;
          var speed := speedOf(prev, pos);
          // remove the oldest speed while the buffer is at or over the limit
          var speeds := speedValues;
          while |speeds| >= maxRecordCount
            invariant |speeds| <= |speedValues| && speeds == speedValues[|speedValues| - |speeds|..]
            invariant |speeds| == |speedValues| || |speeds| + 1 >= maxRecordCount
            decreases |speeds|
          {
            if speeds == [] {
              // removing index 0 of an empty collection throws
              FaultedTick(State(), pos, speedOf, directionOf);
              speedValues := [];
              outcome := Faulted;
              return;
            }
            speeds := speeds[1..];
          }
          var direction := directionOf(prev, pos);
          var directions := directionValues;
          while |directions| >= maxRecordCount
            invariant |directions| <= |directionValues| && directions == directionValues[|directionValues| - |directions|..]
            invariant |directions| == |directionValues| || |directions| + 1 >= maxRecordCount
            decreases |directions|
          {
            directions := directions[1..];
          }
          EvictionLoopsRecord(State(), pos, speedOf, directionOf, speeds, directions);
          speedValues := speeds + [speed];
          directionValues := directions + [direction];
          readout := Shown(speed, direction);
          prevPosition := Some(pos);
          outcome := Recorded;
        }
      } else {
        QuietTickWindow(State(), pos, speedOf, directionOf);
        readout := Zeroed;
        outcome := Gated;
      }
    }
  }
}
