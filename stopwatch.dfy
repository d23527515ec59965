/**
 * The stopwatch of components.tsx (`Timer`): a running flag, the elapsed
 * milliseconds, and the long-press reset built from `setTimeout` /
 * `clearTimeout`; and `formatTime`, which renders the elapsed time as
 * MM:SS.CC.
 *
 * Time does not pass in the model: the periodic 10 ms tick and the firing of
 * the 800 ms reset timeout are events like the mouse and touch events. A scheduled
 * timeout is identified by the handle `setTimeout` returned; handles are
 * positive and never reused, so `pending` is the set of timeouts that were
 * scheduled and neither fired nor cleared.
 */
module Stopwatch {
  import opened Util
  import opened TimeFormat

  /** The amount the periodic tick adds to the elapsed time. */
  const TickMs := 10

  datatype Event =
    | Click                  // onClick: toggleTimer
    | Press                  // onMouseDown / onTouchStart: handleStartReset
    | Release                // onMouseUp / onTouchEnd: handleEndReset
    | ResetFires(handle: nat) // the 800 ms timeout with this handle runs
    | Tick                   // the 10 ms interval runs

  /**
   * `time` and `isActive` are the React state; `longPress` is
   * `longPressTimer.current` (None for its initial null); `pending` are the
   * reset timeouts still scheduled; `nextHandle` is the handle the next
   * `setTimeout` returns.
   */
  datatype TimerState = TimerState(time: nat, active: bool, longPress: Option<nat>, pending: set<nat>, nextHandle: nat)

  const Initial := TimerState(0, false, None, {}, 1)

  /** Every handle in use was handed out before and is positive (so `if (longPressTimer.current)` sees it). */
  predicate WellFormed(s: TimerState) {
    && 1 <= s.nextHandle
    && (forall h :: h in s.pending ==> 1 <= h < s.nextHandle)
    && (s.longPress.Some? ==> 1 <= s.longPress.value < s.nextHandle)
  }

  /** The effect of one event. */
  function Step(s: TimerState, e: Event): (r: TimerState)
    // a click flips the running flag and keeps the time
    ensures e.Click? ==> r.active == !s.active && r.time == s.time
    // a press schedules a fresh reset and overwrites the stored handle, cancelling nothing
    ensures e.Press? ==> r.time == s.time && r.active == s.active
                         && r.longPress == Some(s.nextHandle) && r.pending == s.pending + {s.nextHandle}
    // a release cancels the most recently scheduled reset only
    ensures e.Release? ==> r.time == s.time && r.active == s.active && r.longPress == s.longPress
                           && r.pending == (if s.longPress.Some? then s.pending - {s.longPress.value} else s.pending)
    // a pending reset that fires zeroes and stops the stopwatch, whatever its state
    ensures e.ResetFires? && e.handle in s.pending ==> r.time == 0 && !r.active && r.pending == s.pending - {e.handle}
    // a cleared (or already fired) timeout never runs
    ensures e.ResetFires? && e.handle !in s.pending ==> r == s
    // ticks add 10 ms while running; no interval exists while stopped
    ensures e.Tick? ==> r.active == s.active && r.time == if s.active then s.time + TickMs else s.time
    // only a press touches the stored handle and hands out a new one
    ensures !e.Press? ==> r.longPress == s.longPress && r.nextHandle == s.nextHandle
    ensures e.Press? ==> r.nextHandle == s.nextHandle + 1
    // neither a click nor a tick schedules or cancels a reset
    ensures e.Click? || e.Tick? ==> r.pending == s.pending
    ensures WellFormed(s) ==> WellFormed(r)
  {
    match e
    case Click => s.(active := !s.active)
    case Press =>
      s.(longPress := Some(s.nextHandle), pending := s.pending + {s.nextHandle}, nextHandle := s.nextHandle + 1)
    case Release =>
      if s.longPress.Some? then s.(pending := s.pending - {s.longPress.value}) else s
    case ResetFires(h) =>
      if h in s.pending then s.(time := 0, active := false, pending := s.pending - {h}) else s
    case Tick =>
      if s.active then s.(time := s.time + TickMs) else s
  }

  /** The state after a series of events. */
  function Run(s: TimerState, events: seq<Event>): TimerState
    decreases |events|
  {
    if events == [] then s else Run(Step(s, events[0]), events[1..])
  }

  lemma {:induction false} RunAppend(s: TimerState, a: seq<Event>, b: seq<Event>)
    ensures Run(s, a + b) == Run(Run(s, a), b)
    decreases |a|
  {
    if a == [] {
      assert a + b == b;
    } else {
      assert (a + b)[0] == a[0];
      assert (a + b)[1..] == a[1..] + b;
      RunAppend(Step(s, a[0]), a[1..], b);
    }
  }

  lemma RunThree(s: TimerState, e1: Event, e2: Event, e3: Event)
    ensures Run(s, [e1, e2, e3]) == Step(Step(Step(s, e1), e2), e3)
  {
    var s1 := Step(s, e1);
    var s2 := Step(s1, e2);
    assert [e1, e2, e3][0] == e1 && [e1, e2, e3][1..] == [e2, e3];
    assert Run(s, [e1, e2, e3]) == Run(s1, [e2, e3]);
    assert [e2, e3][0] == e2 && [e2, e3][1..] == [e3];
    assert Run(s1, [e2, e3]) == Run(s2, [e3]);
    assert [e3][0] == e3 && [e3][1..] == [];
    assert Run(s2, [e3]) == Run(Step(s2, e3), []);
  }

  lemma RunFour(s: TimerState, e1: Event, e2: Event, e3: Event, e4: Event)
    ensures Run(s, [e1, e2, e3, e4]) == Step(Step(Step(Step(s, e1), e2), e3), e4)
  {
    assert [e1, e2, e3, e4][0] == e1 && [e1, e2, e3, e4][1..] == [e2, e3, e4];
    assert Run(s, [e1, e2, e3, e4]) == Run(Step(s, e1), [e2, e3, e4]);
    RunThree(Step(s, e1), e2, e3, e4);
  }

  /** Starting from a multiple of 10 (such as the initial 0), the time stays a multiple of 10. */
  lemma {:induction false} RunKeepsTimeMultipleOfTick(s: TimerState, events: seq<Event>)
    requires s.time % TickMs == 0
    ensures Run(s, events).time % TickMs == 0
    decreases |events|
  {
    if events != [] {
      RunKeepsTimeMultipleOfTick(Step(s, events[0]), events[1..]);
    }
  }

  /** Well-formedness is kept by every series of events. */
  lemma {:induction false} RunKeepsWellFormed(s: TimerState, events: seq<Event>)
    requires WellFormed(s)
    ensures WellFormed(Run(s, events))
    decreases |events|
  {
    if events != [] {
      RunKeepsWellFormed(Step(s, events[0]), events[1..]);
    }
  }

  /** Without a reset firing, the elapsed time never goes down. */
  lemma {:induction false} RunWithoutResetIsMonotone(s: TimerState, events: seq<Event>)
    requires forall i :: 0 <= i < |events| ==> !events[i].ResetFires?
    ensures Run(s, events).time >= s.time
    decreases |events|
  {
    if events != [] {
      RunWithoutResetIsMonotone(Step(s, events[0]), events[1..]);
    }
  }

  function Ticks(k: nat): seq<Event> {
    seq(k, _ => Tick)
  }

  /** `k` ticks while running add exactly 10·k ms and keep it running; while stopped they change nothing. */
  lemma {:induction false} RunTicks(s: TimerState, k: nat)
    ensures Run(s, Ticks(k)) == if s.active then s.(time := s.time + TickMs * k) else s
    decreases k
  {
    if k > 0 {
      assert Ticks(k)[0] == Tick;
      assert Ticks(k)[1..] == Ticks(k - 1);
      RunTicks(Step(s, Tick), k - 1);
    }
  }

  /**
   * A quick tap: press, release before the reset fires, then the click the
   * browser sends after the release. The running flag flips, the time is
   * kept, and the reset that was scheduled is cancelled again.
   */
  lemma QuickTap(s: TimerState)
    requires WellFormed(s)
    ensures Run(s, [Press, Release, Click]).active == !s.active
    ensures Run(s, [Press, Release, Click]).time == s.time
    ensures Run(s, [Press, Release, Click]).pending == s.pending
  {
    RunThree(s, Press, Release, Click);
    assert s.nextHandle !in s.pending;
  }

  /** A cancelled reset never takes effect: the handle of a released press is no longer pending. */
  lemma ReleaseCancelsReset(s: TimerState)
    requires WellFormed(s)
    ensures Run(s, [Press, Release, ResetFires(s.nextHandle)]) == Step(Step(s, Press), Release)
  {
    RunThree(s, Press, Release, ResetFires(s.nextHandle));
    var s2 := Step(Step(s, Press), Release);
    assert s.nextHandle !in s2.pending;
  }

  /**
   * A reset that is no longer pending stays so, whatever happens next: later
   * presses hand out fresh handles, and nothing schedules an old one again.
   */
  lemma {:induction false} StaysCancelled(s: TimerState, h: nat, events: seq<Event>)
    requires h < s.nextHandle && h !in s.pending
    ensures h !in Run(s, events).pending && h < Run(s, events).nextHandle
    decreases |events|
  {
    if events != [] {
      StaysCancelled(Step(s, events[0]), h, events[1..]);
    }
  }

  /**
   * Once a press is released, its reset has no effect, however many events
   * (the click, ticks, further presses) come before its timeout would fire.
   */
  lemma ReleasedNeverFires(s: TimerState, events: seq<Event>)
    requires WellFormed(s)
    ensures var t := Run(s, [Press, Release] + events); Step(t, ResetFires(s.nextHandle)) == t
  {
    var h := s.nextHandle;
    var s2 := Step(Step(s, Press), Release);
    assert Run(s, [Press, Release]) == s2 by {
      assert [Press, Release][1..] == [Release] && [Release][1..] == [];
    }
    RunAppend(s, [Press, Release], events);
    assert h !in s.pending;
    StaysCancelled(s2, h, events);
  }

  /**
   * A long press: the reset fires while the button is still held, so the
   * time is 0 and the stopwatch stopped. That is where a long touch ends,
   * since browsers generally send no click after one. With a mouse, the
   * release is followed by the click, which starts the stopwatch again from 0.
   */
  lemma LongPress(s: TimerState)
    requires WellFormed(s)
    ensures Run(s, [Press, ResetFires(s.nextHandle), Release]).time == 0
    ensures !Run(s, [Press, ResetFires(s.nextHandle), Release]).active
    ensures Run(s, [Press, ResetFires(s.nextHandle), Release, Click]).time == 0
    ensures Run(s, [Press, ResetFires(s.nextHandle), Release, Click]).active
  {
    var h := s.nextHandle;
    RunThree(s, Press, ResetFires(h), Release);
    RunFour(s, Press, ResetFires(h), Release, Click);
    var s1 := Step(s, Press);
    assert h in s1.pending;
  }

  /**
   * Two presses without a release in between: the second overwrites the
   * stored handle, so the release cancels only the second reset and the
   * first still fires.
   */
  lemma DoublePressLeaksFirstReset(s: TimerState)
    requires WellFormed(s)
    ensures s.nextHandle in Run(s, [Press, Press, Release]).pending
    ensures s.nextHandle + 1 !in Run(s, [Press, Press, Release]).pending
    ensures Run(s, [Press, Press, Release, ResetFires(s.nextHandle)]).time == 0
    ensures !Run(s, [Press, Press, Release, ResetFires(s.nextHandle)]).active
  {
    var h := s.nextHandle;
    RunThree(s, Press, Press, Release);
    RunFour(s, Press, Press, Release, ResetFires(h));
    var s3 := Step(Step(Step(s, Press), Press), Release);
    assert h in s3.pending;
  }

  /** Start, 123 ticks, stop: 1230 ms, stopped, displayed as 00:01.23. */
  lemma Example1230()
    ensures Run(Initial, [Press, Release, Click] + Ticks(123) + [Press, Release, Click]).time == 1230
    ensures !Run(Initial, [Press, Release, Click] + Ticks(123) + [Press, Release, Click]).active
    ensures FormatTime(1230) == "00:01.23"
  {
    var tap := [Press, Release, Click];
    QuickTap(Initial);
    var s1 := Run(Initial, tap);
    assert s1.active && s1.time == 0;
    RunTicks(s1, 123);
    var s2 := Run(s1, Ticks(123));
    assert s2.active && s2.time == 1230;
    RunAppend(Initial, tap, Ticks(123));
    RunAppend(Initial, tap + Ticks(123), tap);
    RunKeepsWellFormed(Initial, tap + Ticks(123));
    QuickTap(s2);
    DisplayOf1230();
  }

  // ---------------------------------------------------------------------------
  // The component

  class Timer {
    var time: nat
    var isActive: bool
    var longPressTimer: Option<nat>
    var pending: set<nat>
    var nextHandle: nat

    function State(): TimerState
      reads this
    {
      TimerState(time, isActive, longPressTimer, pending, nextHandle)
    }

    ghost predicate Valid()
      reads this
    {
      WellFormed(State())
    }

    constructor ()
      ensures Valid() && State() == Initial
    {
      time, isActive, longPressTimer, pending, nextHandle := 0, false, None, {}, 1;
    }

    /** `toggleTimer`. */
    method ToggleTimer()
      requires Valid()
      modifies this
      ensures Valid() && State() == Step(old(State()), Click)
    {
      isActive := !isActive;
    }

    /** `handleStartReset`: schedule the reset and remember its handle. */
    method HandleStartReset() returns (handle: nat)
      requires Valid()
      modifies this
      ensures Valid() && State() == Step(old(State()), Press)
      ensures handle == old(nextHandle) && handle in pending
    {
      handle := nextHandle;
      nextHandle := nextHandle + 1;
      longPressTimer := Some(handle);
      pending := pending + {handle};
    }

    /** `handleEndReset`: clear the remembered timeout, if any. */
    method HandleEndReset()
      requires Valid()
      modifies this
      ensures Valid() && State() == Step(old(State()), Release)
    {
      if longPressTimer.Some? {
        pending := pending - {longPressTimer.value};
      }
    }

    /** The timeout callback: `setTime(0); setIsActive(false)`. */
    method FireReset(handle: nat)
      requires Valid()
      modifies this
      ensures Valid() && State() == Step(old(State()), ResetFires(handle))
    {
      if handle in pending {
        time, isActive := 0, false;
        pending := pending - {handle};
      }
    }

    /** The interval callback `setTime(t => t + 10)`, registered only while running. */
    method Tick()
      requires Valid()
      modifies this
      ensures Valid() && State() == Step(old(State()), Event.Tick)
    {
      if isActive {
        time := time + TickMs;
      }
    }
  }
}
