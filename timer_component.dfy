/**
 * The countdown widget's component state, updated in place by its handlers
 * and by its one-second interval. Each method is proved to make exactly the
 * step of the matching `TimerSpec` function, and to keep `TimerSpec.Inv`.
 */
module TimerComponent {
  import opened Wrappers
  import opened Decimal
  import opened TimerSpec

  class CountdownTimer {
    var hours: string
    var minutes: string
    var seconds: string
    /** `None` for `null`: no countdown configured yet. */
    var timeLeft: Option<int>
    var isRunning: bool
    var isPaused: bool
    /** Whether an interval is scheduled. */
    var ticking: bool
    /** How many times the user has been notified that the countdown completed. */
    var notifications: nat

    function State(): TimerSpec.State
      reads this
    {
      TimerSpec.State(hours, minutes, seconds, timeLeft, isRunning, isPaused, ticking, notifications)
    }

    predicate Valid()
      reads this
    {
      Inv(State())
    }

    /** Mounting: empty fields, nothing configured, stopped. */
    constructor ()
      ensures Valid() && State() == Initial()
    {
      hours, minutes, seconds := "", "", "";
      timeLeft := None;
      isRunning, isPaused := false, false;
      ticking := false;
      notifications := 0;
    }

    /** `setHours(e.target.value)`. */
    method SetHours(text: string)
      requires Valid() && FieldText(text)
      modifies this
      ensures Valid() && State() == EditHours(old(State()), text)
    {
      hours := text;
    }

    /** `setMinutes(e.target.value)`. */
    method SetMinutes(text: string)
      requires Valid() && FieldText(text)
      modifies this
      ensures Valid() && State() == EditMinutes(old(State()), text)
    {
      minutes := text;
    }

    /** `setSeconds(e.target.value)`. */
    method SetSeconds(text: string)
      requires Valid() && FieldText(text)
      modifies this
      ensures Valid() && State() == EditSeconds(old(State()), text)
    {
      seconds := text;
    }

    /**
     * Sets both flags, then re-runs the interval effect if they changed:
     * the old interval is cleared and a new one scheduled when running
     * and not paused.
     */
    method SetFlags(running: bool, paused: bool)
      modifies this
      ensures isRunning == running && isPaused == paused
      ensures ticking == Rescheduled(old(State()), running, paused)
      ensures hours == old(hours) && minutes == old(minutes) && seconds == old(seconds)
      ensures timeLeft == old(timeLeft) && notifications == old(notifications)
    {
      if running != isRunning || paused != isPaused {
        ticking := running && !paused;
      }
      isRunning, isPaused := running, paused;
    }

    /** `handleStart`: on first use the fields configure the time; then the timer runs. */
    method HandleStart()
      requires Valid()
      modifies this
      ensures Valid() && State() == Start(old(State()))
    {
      if timeLeft == None {
        var totalSeconds := FieldValue(hours) * 3600 + FieldValue(minutes) * 60 + FieldValue(seconds);
        timeLeft := Some(totalSeconds);
      }
      SetFlags(true, false);
    }

    /** `handlePause`. */
    method HandlePause()
      requires Valid()
      modifies this
      ensures Valid() && State() == Pause(old(State()))
    {
      SetFlags(false, true);
    }

    /** `handleReset`. */
    method HandleReset()
      requires Valid()
      modifies this
      ensures Valid() && State() == Reset(old(State()))
    {
      hours, minutes, seconds := "", "", "";
      timeLeft := None;
      SetFlags(false, false);
    }

    /**
     * One firing of the scheduled interval. It reports whether it notified
     * the user, which happens exactly when it found no time left.
     */
    method Tick() returns (notified: bool)
      requires Valid() && ticking
      modifies this
      ensures Valid() && State() == TimerSpec.Tick(old(State()))
      ensures notified <==> old(timeLeft).value <= 0
      ensures notifications == old(notifications) + (if notified then 1 else 0)
    {
      var prevTime := timeLeft.value;
      if prevTime > 0 {
        timeLeft := Some(prevTime - 1);
        notified := false;
      } else {
        ticking := false;
        notifications := notifications + 1;
        notified := true;
        timeLeft := Some(0);
      }
    }
  }

  /** A client run: two seconds configured, paused and resumed, then counted out. */
  method CompletionScenario()
  {
    var timer := new CountdownTimer();
    timer.SetSeconds("2");
    timer.HandleStart();
    assert timer.timeLeft == Some(2) by {
      assert ParseInt("2") == 2;
    }
    var notified := timer.Tick();
    assert !notified && timer.timeLeft == Some(1);
    timer.HandlePause();
    assert !timer.ticking;
    timer.HandleStart();
    assert timer.ticking && timer.timeLeft == Some(1);
    notified := timer.Tick();
    assert !notified && timer.timeLeft == Some(0);
    notified := timer.Tick();
    assert notified && timer.notifications == 1 && !timer.ticking;
    timer.HandleReset();
    assert timer.State() == Initial().(notifications := 1);
  }
}
