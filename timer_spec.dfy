/**
 * The countdown timer as a state machine over values. Each function is one
 * handler of the widget or one firing of its one-second interval; the class
 * in `TimerComponent` runs the same steps in place and is proved against
 * these functions.
 *
 * `ticking` says whether an interval is scheduled. React re-runs the
 * interval effect only when `isRunning` or `isPaused` changes: it clears the
 * old interval and schedules a new one exactly when the new flags are
 * "running and not paused". The interval also clears itself on the firing
 * that finds no time left, without touching the flags.
 */
module TimerSpec {
  import opened Wrappers
  import opened Decimal
  import ClockFormat

  /** What an input field can hold here: nothing, or an integer literal. */
  predicate FieldText(s: string) {
    s == "" || IsIntLiteral(s)
  }

  /** `parseInt(field || 0)`: an empty field counts as 0. */
  function FieldValue(s: string): int
    requires FieldText(s)
  {
    if s == "" then 0 else ParseInt(s)
  }

  /** The total the timer is configured with on its first start. */
  function TotalSeconds(hours: string, minutes: string, seconds: string): int
    requires FieldText(hours) && FieldText(minutes) && FieldText(seconds)
  {
    FieldValue(hours) * 3600 + FieldValue(minutes) * 60 + FieldValue(seconds)
  }

  datatype State = State(
    hours: string, minutes: string, seconds: string,
    timeLeft: Option<int>,
    isRunning: bool, isPaused: bool,
    ticking: bool,
    notifications: nat)

  predicate FieldsOk(s: State) {
    FieldText(s.hours) && FieldText(s.minutes) && FieldText(s.seconds)
  }

  /**
   * The invariant every handler keeps: never both running and paused, an
   * interval only while running and not paused, and a configured time
   * whenever running.
   */
  predicate Inv(s: State) {
    FieldsOk(s) &&
    !(s.isRunning && s.isPaused) &&
    (s.ticking ==> s.isRunning && !s.isPaused) &&
    (s.isRunning ==> s.timeLeft.Some?)
  }

  /** The state on mount. */
  function Initial(): State {
    State("", "", "", None, false, false, false, 0)
  }

  /** Whether an interval is scheduled once the flags become `running` and `paused`. */
  function Rescheduled(s: State, running: bool, paused: bool): bool {
    if running == s.isRunning && paused == s.isPaused then s.ticking else running && !paused
  }

  function EditHours(s: State, text: string): State {
    s.(hours := text)
  }

  function EditMinutes(s: State, text: string): State {
    s.(minutes := text)
  }

  function EditSeconds(s: State, text: string): State {
    s.(seconds := text)
  }

  /** `handleStart`: configure from the fields on first use, then run. */
  function Start(s: State): State
    requires FieldsOk(s)
  {
    var t := if s.timeLeft == None then Some(TotalSeconds(s.hours, s.minutes, s.seconds)) else s.timeLeft;
    s.(timeLeft := t, isRunning := true, isPaused := false, ticking := Rescheduled(s, true, false))
  }

  /** `handlePause`. */
  function Pause(s: State): State {
    s.(isRunning := false, isPaused := true, ticking := Rescheduled(s, false, true))
  }

  /** `handleReset`. */
  function Reset(s: State): State {
    s.(hours := "", minutes := "", seconds := "", timeLeft := None,
       isRunning := false, isPaused := false, ticking := Rescheduled(s, false, false))
  }

  /**
   * One firing of the interval: count down while time is left; otherwise
   * clear the interval, notify and pin the time at 0. As in JavaScript,
   * `null > 0` is false, so an unset time takes the second branch.
   */
  function Tick(s: State): State {
    if s.timeLeft.Some? && s.timeLeft.value > 0 then s.(timeLeft := Some(s.timeLeft.value - 1))
    else s.(timeLeft := Some(0), ticking := false, notifications := s.notifications + 1)
  }

  /** What the user and the clock can do: the handlers, and one second passing. */
  datatype Event =
    | HoursTyped(text: string) | MinutesTyped(text: string) | SecondsTyped(text: string)
    | StartClicked | PauseClicked | ResetClicked
    | SecondElapsed

  predicate EventOk(e: Event) {
    match e
    case HoursTyped(text) => FieldText(text)
    case MinutesTyped(text) => FieldText(text)
    case SecondsTyped(text) => FieldText(text)
    case _ => true
  }

  /** One event; a second that passes with no interval scheduled changes nothing. */
  function Step(s: State, e: Event): (r: State)
    requires FieldsOk(s) && EventOk(e)
    ensures FieldsOk(r)
    ensures Inv(s) ==> Inv(r)
    ensures r.notifications == s.notifications || (e == SecondElapsed && r.notifications == s.notifications + 1)
  {
    match e
    case HoursTyped(text) => EditHours(s, text)
    case MinutesTyped(text) => EditMinutes(s, text)
    case SecondsTyped(text) => EditSeconds(s, text)
    case StartClicked => Start(s)
    case PauseClicked => Pause(s)
    case ResetClicked => Reset(s)
    case SecondElapsed => if s.ticking then Tick(s) else s
  }

  predicate EventsOk(events: seq<Event>) {
    forall i :: 0 <= i < |events| ==> EventOk(events[i])
  }

  /** The state after a sequence of events, first event first. */
  function Run(s: State, events: seq<Event>): (r: State)
    requires FieldsOk(s) && EventsOk(events)
    ensures FieldsOk(r)
    decreases |events|
  {
    if events == [] then s else Run(Step(s, events[0]), events[1..])
  }

  /** `n` seconds passing with no user action. */
  function Seconds(n: nat): (r: seq<Event>)
    ensures |r| == n && EventsOk(r)
    ensures forall i :: 0 <= i < n ==> r[i] == SecondElapsed
  {
    seq(n, _ => SecondElapsed)
  }

  /** The two screens of the widget: the input form, or the clock face with its toggle button. */
  datatype Screen =
    | InputForm(hours: string, minutes: string, seconds: string)
    | ClockFace(text: string, toggleLabel: string)

  /** The inputs are shown exactly while no time is configured. */
  function View(s: State): (v: Screen)
    ensures v.InputForm? <==> s.timeLeft.None?
  {
    match s.timeLeft
    case None => InputForm(s.hours, s.minutes, s.seconds)
    case Some(t) => ClockFace(ClockFormat.FormatTime(t), if s.isPaused then "Resume" else "Pause")
  }

  /** The toggle button runs `handleStart` when paused and `handlePause` otherwise. */
  function ToggleEvent(s: State): Event {
    if s.isPaused then StartClicked else PauseClicked
  }
}
