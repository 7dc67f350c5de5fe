/** The discrete state of the main window that the sampling timer and the
    mouse hook act on, and one step of each as a function.

    Cursor positions are integer pairs, as the operating system reports them.
    The speed and the direction of a move are computed in floating point from
    the previous and the current position; the model takes them as functions
    `speedOf` and `directionOf` of those two positions and treats their values
    as opaque samples of type `T`. */
module Meter {
  import opened Wrappers
  import opened SampleBuffer
  import opened MouseHook
  import WinApi

  datatype Point = Point(x: int, y: int)

  /** What the speed and direction text blocks show: the zero readout of a
      gated tick, or the latest recorded speed and direction. */
  datatype Readout<T> = Zeroed | Shown(speed: T, direction: T)

  /** What a tick did.  `Faulted` is the exception thrown by the eviction loop
      when the record limit is below one. */
  datatype TickOutcome = Gated | FirstSample | Recorded | Faulted

  datatype Window<T> = Window(
    prev: Option<Point>,
    speeds: seq<T>,
    directions: seq<T>,
    readout: Readout<T>,
    flags: Buttons,
    holdToMeasure: bool,
    maxRecordCount: int)

  datatype Step<T> = Step(next: Window<T>, outcome: TickOutcome)

  /** The window as its field declarations give it: no previous position,
      empty buffers, flags clear, hold-to-measure off and a limit of 50.
      Loading the saved settings then replaces the last two. */
  function Initial<T>(): (w: Window<T>)
    ensures w.prev.None? && w.speeds == [] && w.directions == []
  {
    Window(None, [], [], Zeroed, Buttons(false, false), false, 50)
  }

  /** A tick samples when hold-to-measure is off or a button is held. */
  predicate Sampling<T>(w: Window<T>)
  {
    !w.holdToMeasure || w.flags.left || w.flags.right
  }

  /** The two buffers have the same length. */
  predicate Lockstep<T>(w: Window<T>)
  {
    |w.speeds| == |w.directions|
  }

  /** One timer tick with the cursor at `pos`.

      When the tick is gated off only the readout is reset.  The first
      sampling tick only remembers the position.  A later sampling tick
      records a speed and a direction sample and remembers the position;
      with a limit below one the speed buffer's eviction loop empties it and
      then throws, leaving everything else as it was. */
  function TickStep<T>(w: Window<T>, pos: Point, speedOf: (Point, Point) -> T, directionOf: (Point, Point) -> T): (r: Step<T>)
  {
    if !Sampling(w) then
      Step(w.(readout := Zeroed), Gated)
    else if w.prev.None? then
      Step(w.(prev := Some(pos)), FirstSample)
    else
      var speed := speedOf(w.prev.value, pos);
      var direction := directionOf(w.prev.value, pos);
      match Record(w.speeds, w.maxRecordCount, speed)
      case None =>
        Step(w.(speeds := []), Faulted)
      case Some(speeds) =>
        var directions := Record(w.directions, w.maxRecordCount, direction).value;
        Step(w.(prev := Some(pos), speeds := speeds, directions := directions, readout := Shown(speed, direction)), Recorded)
  }

  /** What every tick guarantees.  It never changes the flags, the
      hold-to-measure setting or the limit.  It records exactly when it
      samples, has a previous position and the limit is at least one, and
      throws exactly when the limit is below one instead.  After a recorded
      tick both buffers are non-empty, so the average and maximum computed
      right after the appends never see an empty buffer, and both are within
      the limit.  A tick that does not throw keeps the lengths equal. */
  lemma TickStepProperties<T>(w: Window<T>, pos: Point, speedOf: (Point, Point) -> T, directionOf: (Point, Point) -> T)
    ensures var r := TickStep(w, pos, speedOf, directionOf);
            && r.next.flags == w.flags && r.next.holdToMeasure == w.holdToMeasure
            && r.next.maxRecordCount == w.maxRecordCount
            && (r.outcome == Recorded ==>
                  1 <= |r.next.speeds| <= w.maxRecordCount && 1 <= |r.next.directions| <= w.maxRecordCount)
            && (r.outcome == Recorded <==> Sampling(w) && w.prev.Some? && w.maxRecordCount >= 1)
            && (r.outcome == Faulted <==> Sampling(w) && w.prev.Some? && w.maxRecordCount < 1)
            && (r.outcome != Faulted && Lockstep(w) ==> Lockstep(r.next))
  {
  }

  /** The window after a gated tick and after the first sampling tick. */
  lemma QuietTickWindow<T>(w: Window<T>, pos: Point, speedOf: (Point, Point) -> T, directionOf: (Point, Point) -> T)
    ensures !Sampling(w) ==> TickStep(w, pos, speedOf, directionOf) == Step(w.(readout := Zeroed), Gated)
    ensures Sampling(w) && w.prev.None? ==> TickStep(w, pos, speedOf, directionOf) == Step(w.(prev := Some(pos)), FirstSample)
  {
  }

  /** The hook delivering one message to the window. */
  function HookStep<T>(w: Window<T>, nCode: int, wParam: int): (r: Window<T>)
    ensures r.prev == w.prev && r.speeds == w.speeds && r.directions == w.directions
    ensures nCode < 0 ==> r == w
  {
    w.(flags := HookFlags(nCode, wParam, w.flags))
  }

  /** A gated tick changes neither the previous position nor either buffer. */
  lemma GatedTickKeepsSamples<T>(w: Window<T>, pos: Point, speedOf: (Point, Point) -> T, directionOf: (Point, Point) -> T)
    requires !Sampling(w)
    ensures var r := TickStep(w, pos, speedOf, directionOf);
            r.outcome == Gated && r.next.prev == w.prev &&
            r.next.speeds == w.speeds && r.next.directions == w.directions &&
            r.next.readout == Zeroed
  {
  }

  /** The first sampling tick stores the position and leaves both buffers. */
  lemma FirstTickStoresPosition<T>(w: Window<T>, pos: Point, speedOf: (Point, Point) -> T, directionOf: (Point, Point) -> T)
    requires Sampling(w) && w.prev.None?
    ensures var r := TickStep(w, pos, speedOf, directionOf);
            r.outcome == FirstSample && r.next.prev == Some(pos) &&
            r.next.speeds == w.speeds && r.next.directions == w.directions
  {
  }

  /** A recorded tick appends the sample computed from the previous and the
      current position to each buffer by the evict-then-append rule, and the
      current position becomes the previous one. */
  lemma RecordedTick<T>(w: Window<T>, pos: Point, speedOf: (Point, Point) -> T, directionOf: (Point, Point) -> T)
    requires Sampling(w) && w.prev.Some? && w.maxRecordCount >= 1
    ensures var r := TickStep(w, pos, speedOf, directionOf);
            var speed := speedOf(w.prev.value, pos);
            var direction := directionOf(w.prev.value, pos);
            r.outcome == Recorded && r.next.prev == Some(pos) &&
            Some(r.next.speeds) == Record(w.speeds, w.maxRecordCount, speed) &&
            Some(r.next.directions) == Record(w.directions, w.maxRecordCount, direction) &&
            r.next.speeds[|r.next.speeds| - 1] == speed &&
            r.next.directions[|r.next.directions| - 1] == direction &&
            r.next.readout == Shown(speed, direction)
  {
  }

  /** The complete window after a recorded tick, given the two recorded
      buffers. */
  lemma RecordedTickWindow<T>(w: Window<T>, pos: Point, speedOf: (Point, Point) -> T, directionOf: (Point, Point) -> T,
                              speeds: seq<T>, directions: seq<T>)
    requires Sampling(w) && w.prev.Some?
    requires Some(speeds) == Record(w.speeds, w.maxRecordCount, speedOf(w.prev.value, pos))
    requires Some(directions) == Record(w.directions, w.maxRecordCount, directionOf(w.prev.value, pos))
    ensures TickStep(w, pos, speedOf, directionOf) ==
            Step(w.(prev := Some(pos), speeds := speeds, directions := directions,
                    readout := Shown(speedOf(w.prev.value, pos), directionOf(w.prev.value, pos))), Recorded)
  {
  }

  /** A sampling tick after the first with a limit below one throws: the
      speed buffer is left empty and nothing else changes. */
  lemma FaultedTick<T>(w: Window<T>, pos: Point, speedOf: (Point, Point) -> T, directionOf: (Point, Point) -> T)
    requires Sampling(w) && w.prev.Some? && w.maxRecordCount < 1
    ensures TickStep(w, pos, speedOf, directionOf) == Step(w.(speeds := []), Faulted)
  {
  }

  /** Events the window reacts to, in the order they arrive. */
  datatype Event = HookMessage(nCode: int, wParam: int)
                 | MaxRecordCountChanged(n: int)
                 | HoldToMeasureChanged(on: bool)
                 | TimerTick(pos: Point)

  datatype Run<T> = Run(last: Window<T>, faulted: bool)

  /** Process events until they run out or a tick throws. */
  function RunEvents<T>(w: Window<T>, evs: seq<Event>, speedOf: (Point, Point) -> T, directionOf: (Point, Point) -> T): Run<T>
    decreases |evs|
  {
    if evs == [] then Run(w, false)
    else
      match evs[0]
      case HookMessage(nCode, wParam) => RunEvents(HookStep(w, nCode, wParam), evs[1..], speedOf, directionOf)
      case MaxRecordCountChanged(n) => RunEvents(w.(maxRecordCount := n), evs[1..], speedOf, directionOf)
      case HoldToMeasureChanged(on) => RunEvents(w.(holdToMeasure := on), evs[1..], speedOf, directionOf)
      case TimerTick(pos) =>
        var r := TickStep(w, pos, speedOf, directionOf);
        if r.outcome == Faulted then Run(r.next, true)
        else RunEvents(r.next, evs[1..], speedOf, directionOf)
  }

  /** Changing the limit does not touch the buffers: a buffer longer than a
      lowered limit stays as it is until the next recorded tick cuts it. */
  lemma LimitChangeKeepsBuffers<T>(w: Window<T>, n: int, speedOf: (Point, Point) -> T, directionOf: (Point, Point) -> T)
    ensures var run := RunEvents(w, [MaxRecordCountChanged(n)], speedOf, directionOf);
            && !run.faulted && run.last == w.(maxRecordCount := n)
            && run.last.speeds == w.speeds && run.last.directions == w.directions
  {
  }

  /** Over any run that does not throw, the speed and direction buffers keep
      equal lengths, whatever limits, flags and positions come along. */
  lemma {:induction false} RunKeepsLockstep<T>(w: Window<T>, evs: seq<Event>, speedOf: (Point, Point) -> T, directionOf: (Point, Point) -> T)
    requires Lockstep(w)
    decreases |evs|
    ensures var run := RunEvents(w, evs, speedOf, directionOf);
            !run.faulted ==> Lockstep(run.last)
  {
    if evs != [] {
      match evs[0]
      case HookMessage(nCode, wParam) =>
        RunKeepsLockstep(HookStep(w, nCode, wParam), evs[1..], speedOf, directionOf);
      case MaxRecordCountChanged(n) =>
        RunKeepsLockstep(w.(maxRecordCount := n), evs[1..], speedOf, directionOf);
      case HoldToMeasureChanged(on) =>
        RunKeepsLockstep(w.(holdToMeasure := on), evs[1..], speedOf, directionOf);
      case TimerTick(pos) =>
        var r := TickStep(w, pos, speedOf, directionOf);
        TickStepProperties(w, pos, speedOf, directionOf);
        if r.outcome != Faulted {
          RunKeepsLockstep(r.next, evs[1..], speedOf, directionOf);
        }
    }
  }

  /** A run throws only at a tick: from a window whose limit is at least one,
      a run whose limit changes never go below one never throws. */
  lemma {:induction false} RunWithPositiveLimitNeverFaults<T>(w: Window<T>, evs: seq<Event>, speedOf: (Point, Point) -> T, directionOf: (Point, Point) -> T)
    requires w.maxRecordCount >= 1
    requires forall i :: 0 <= i < |evs| && evs[i].MaxRecordCountChanged? ==> evs[i].n >= 1
    decreases |evs|
    ensures !RunEvents(w, evs, speedOf, directionOf).faulted
  {
    if evs != [] {
      assert forall i :: 0 <= i < |evs| - 1 && evs[1..][i].MaxRecordCountChanged? ==> evs[i + 1].n >= 1;
      match evs[0]
      case HookMessage(nCode, wParam) =>
        RunWithPositiveLimitNeverFaults(HookStep(w, nCode, wParam), evs[1..], speedOf, directionOf);
      case MaxRecordCountChanged(n) =>
        RunWithPositiveLimitNeverFaults(w.(maxRecordCount := n), evs[1..], speedOf, directionOf);
      case HoldToMeasureChanged(on) =>
        RunWithPositiveLimitNeverFaults(w.(holdToMeasure := on), evs[1..], speedOf, directionOf);
      case TimerTick(pos) =>
        TickStepProperties(w, pos, speedOf, directionOf);
        RunWithPositiveLimitNeverFaults(TickStep(w, pos, speedOf, directionOf).next, evs[1..], speedOf, directionOf);
    }
  }

  /** With hold-to-measure on, once both buttons have been released the next
      tick is gated and leaves the samples alone. */
  lemma ReleaseStopsSampling<T>(w: Window<T>, nCode: int, pos: Point, speedOf: (Point, Point) -> T, directionOf: (Point, Point) -> T)
    requires w.holdToMeasure && !w.flags.right && nCode >= 0
    ensures var released := HookStep(w, nCode, WinApi.WM_LBUTTONUP);
            var r := TickStep(released, pos, speedOf, directionOf);
            r.outcome == Gated && r.next.prev == w.prev && r.next.speeds == w.speeds && r.next.directions == w.directions
  {
    ButtonMessages(nCode, w.flags);
  }
}
