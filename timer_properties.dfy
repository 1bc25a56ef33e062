/** What the countdown timer's handlers and interval promise, stated over `TimerSpec`. */
module TimerProperties {
  import opened Wrappers
  import opened TimerSpec
  import ClockReading
  import ClockRoundTrip

  /** The first start configures `h*3600 + m*60 + s`, empty fields counting as 0, and runs. */
  lemma StartConfigures(s: State)
    requires Inv(s) && s.timeLeft == None
    ensures var r := Start(s);
      r.timeLeft == Some(FieldValue(s.hours) * 3600 + FieldValue(s.minutes) * 60 + FieldValue(s.seconds)) &&
      r.isRunning && !r.isPaused && r.ticking &&
      r.hours == s.hours && r.minutes == s.minutes && r.seconds == s.seconds &&
      r.notifications == s.notifications
  {
  }

  /** A later start resumes from exactly the stored time. */
  lemma StartResumes(s: State)
    requires FieldsOk(s) && s.timeLeft.Some?
    ensures var r := Start(s);
      r.timeLeft == s.timeLeft && r.isRunning && !r.isPaused &&
      (r.ticking <==> s.ticking || !s.isRunning || s.isPaused) &&
      r.hours == s.hours && r.minutes == s.minutes && r.seconds == s.seconds &&
      r.notifications == s.notifications
  {
  }

  /** Pause stops the clock and keeps the time and the fields. */
  lemma PauseKeepsTime(s: State)
    requires Inv(s)
    ensures Pause(s) == s.(isRunning := false, isPaused := true, ticking := false)
  {
  }

  /** Reset from any state returns to the state on mount, with no interval scheduled. */
  lemma ResetFromAnyState(s: State)
    requires Inv(s)
    ensures Reset(s) == Initial().(notifications := s.notifications)
  {
  }

  /** A firing with time left counts down by exactly one and does not notify. */
  lemma TickCountsDown(s: State, t: int)
    requires s.timeLeft == Some(t) && t > 0
    ensures Tick(s) == s.(timeLeft := Some(t - 1))
  {
  }

  /** The firing that finds no time left stops the interval, notifies once and pins the time at 0. */
  lemma TickCompletes(s: State)
    requires s.timeLeft.None? || s.timeLeft.value <= 0
    ensures Tick(s) == s.(timeLeft := Some(0), ticking := false, notifications := s.notifications + 1)
  {
  }

  /** After any firing the time left is a non-negative number. */
  lemma TickNonNegative(s: State)
    ensures Tick(s).timeLeft.Some? && Tick(s).timeLeft.value >= 0
  {
  }

  /** Every sequence of events keeps the invariant. */
  lemma {:induction false} RunKeepsInv(s: State, events: seq<Event>)
    requires Inv(s) && EventsOk(events)
    ensures Inv(Run(s, events))
    decreases |events|
  {
    if events != [] {
      RunKeepsInv(Step(s, events[0]), events[1..]);
    }
  }

  /** Running two sequences of events one after the other. */
  lemma {:induction false} RunAppend(s: State, a: seq<Event>, b: seq<Event>)
    requires FieldsOk(s) && EventsOk(a) && EventsOk(b)
    ensures EventsOk(a + b)
    ensures Run(s, a + b) == Run(Run(s, a), b)
    decreases |a|
  {
    if a == [] {
      assert a + b == b;
    } else {
      assert (a + b)[0] == a[0];
      assert (a + b)[1..] == a[1..] + b;
      RunAppend(Step(s, a[0]), a[1..], b);
    }
  }

  /** Seconds that pass with no interval scheduled change nothing. */
  lemma {:induction false} IdleSeconds(s: State, n: nat)
    requires FieldsOk(s) && !s.ticking
    ensures Run(s, Seconds(n)) == s
  {
    if n > 0 {
      assert Seconds(n)[1..] == Seconds(n - 1);
      IdleSeconds(s, n - 1);
    }
  }

  /** From `t` seconds left, `n <= t` seconds leave `t - n`, with the interval still scheduled and no notification. */
  lemma {:induction false} CountDown(s: State, t: int, n: nat)
    requires FieldsOk(s) && s.ticking && s.timeLeft == Some(t) && n <= t
    ensures Run(s, Seconds(n)) == s.(timeLeft := Some(t - n))
    decreases n
  {
    if n > 0 {
      assert Seconds(n)[1..] == Seconds(n - 1);
      CountDown(s.(timeLeft := Some(t - 1)), t - 1, n - 1);
    }
  }

  /**
   * From `t` seconds left the notification comes on second `t + 1`, the one
   * that finds 0 left (at once when `t` is not positive); it comes exactly
   * once, and then the time stays at 0 however many seconds pass.
   */
  lemma CompletionNotifiesOnce(s: State, t: int, k: nat)
    requires FieldsOk(s) && s.ticking && s.timeLeft == Some(t)
    ensures var n := if t > 0 then t else 0;
      Run(s, Seconds(n + 1 + k)) == s.(timeLeft := Some(0), ticking := false, notifications := s.notifications + 1)
  {
    var n := if t > 0 then t else 0;
    var atZero := s.(timeLeft := Some(t - n));
    if t > 0 {
      CountDown(s, t, n);
    } else {
      assert Run(s, Seconds(0)) == s;
    }
    var done := s.(timeLeft := Some(0), ticking := false, notifications := s.notifications + 1);
    assert Run(atZero, Seconds(1)) == done by {
      assert Seconds(1) == [SecondElapsed];
      assert Step(atZero, SecondElapsed) == done;
    }
    IdleSeconds(done, k);
    RunAppend(s, Seconds(n), Seconds(1));
    assert Seconds(n) + Seconds(1) == Seconds(n + 1);
    RunAppend(s, Seconds(n + 1), Seconds(k));
    assert Seconds(n + 1) + Seconds(k) == Seconds(n + 1 + k);
  }

  /**
   * After completion the timer still counts as running, so Pause then
   * Resume schedules a new interval, whose first firing notifies again.
   */
  lemma ResumeAfterCompletionNotifiesAgain(s: State)
    requires Inv(s) && s.isRunning && !s.ticking && s.timeLeft == Some(0)
    ensures Run(s, [PauseClicked, StartClicked, SecondElapsed]) == s.(notifications := s.notifications + 1)
  {
    var paused := Pause(s);
    var resumed := Start(paused);
    assert resumed == s.(ticking := true);
    assert Run(s, [PauseClicked, StartClicked, SecondElapsed])
        == Run(resumed, [SecondElapsed]);
  }

  /** Pausing a ticking clock, letting any time pass, and resuming gives back exactly the ticking state: no second is lost or gained. */
  lemma PauseResumeKeepsTime(s: State, k: nat)
    requires Inv(s) && s.ticking
    ensures EventsOk([PauseClicked] + Seconds(k) + [StartClicked])
    ensures Run(s, [PauseClicked] + Seconds(k) + [StartClicked]) == s
  {
    var paused := Pause(s);
    assert Run(s, [PauseClicked]) == paused;
    IdleSeconds(paused, k);
    RunAppend(s, [PauseClicked], Seconds(k));
    RunAppend(s, [PauseClicked] + Seconds(k), [StartClicked]);
    assert Run(paused, [StartClicked]) == Start(paused);
  }

  /** The toggle button pressed twice on a ticking clock pauses it, shows Resume, and resumes it exactly. */
  lemma ToggleTwice(s: State)
    requires Inv(s) && s.ticking
    ensures var s1 := Step(s, ToggleEvent(s));
      View(s1).ClockFace? && View(s1).toggleLabel == "Resume" &&
      Step(s1, ToggleEvent(s1)) == s
  {
    assert ToggleEvent(s) == PauseClicked;
    var s1 := Pause(s);
    assert s1 == s.(isRunning := false, isPaused := true, ticking := false);
    assert ToggleEvent(s1) == StartClicked;
    assert Start(s1) == s;
  }

  /** The clock face shows a configured non-negative time so that it reads back as that time. */
  lemma ViewShowsTimeLeft(s: State, t: nat)
    requires s.timeLeft == Some(t)
    ensures View(s).ClockFace? && ClockReading.ReadClock(View(s).text) == Some(t)
    ensures View(s).toggleLabel == if s.isPaused then "Resume" else "Pause"
  {
    ClockRoundTrip.FormatTimeReadBack(t);
  }

  /** Hours "1" with the other fields empty configures one hour. */
  lemma StartOneHour()
    ensures Start(Initial().(hours := "1")).timeLeft == Some(3600)
  {
    assert Decimal.ParseInt("1") == 1;
  }

  /** A negative field gives a negative time; the next second pins it at 0 and notifies. */
  lemma NegativeFieldCompletesAtOnce()
    ensures var started := Start(Initial().(seconds := "-5"));
      started.timeLeft == Some(-5) &&
      Run(started, Seconds(1)) == started.(timeLeft := Some(0), ticking := false, notifications := 1)
  {
    assert Decimal.ParseInt("-5") == -5;
    var started := Start(Initial().(seconds := "-5"));
    CompletionNotifiesOnce(started, -5, 0);
  }
}
