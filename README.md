# Countdown timer: a verified model

This project models the countdown timer widget of a small React page
(`src/CountdownTimer.js`). The widget has three text fields (hours, minutes,
seconds) and a remaining time that is `null` until the first start. It also has
two flags, `isRunning` and `isPaused`. Three click handlers change this state:
`handleStart`, `handlePause` and `handleReset`. While the timer runs and is not
paused, an interval fires once a second. Each firing counts the time down, or
notifies the user once no time is left. `formatTime` shows the remaining
seconds as `HH:MM:SS`.

Modules, leaves first:

- `Wrappers`: `Option`, standing for JavaScript's `null`-or-value.
- `Decimal`: `parseInt` on the integer text a numeric field holds, and `String(n)`.
- `ClockFormat`: `formatTime`, written with JavaScript's `Math.floor` and its truncating `%`.
- `ClockReading`: a reader for `H..H:MM:SS` faces. It undoes `formatTime`, which shows that `formatTime` loses nothing.
- `ClockRoundTrip`: the read-back of every non-negative count.
- `TimerSpec`: the component state as a value, one function per handler and per interval firing, events and runs of events, and the screen shown.
- `TimerProperties`: what the handlers and the interval promise.
- `TimerComponent`: the class `CountdownTimer` with the component's fields. Its methods update the fields in place and are proved to make exactly the `TimerSpec` step.

Scheduling is abstracted as the `ticking` field, which is true while an interval is scheduled. React re-runs the
effect at lines 26-44 only when `isRunning` or `isPaused` changes. When it re-runs, it clears
the old interval and schedules a new one exactly when the new flags say
"running and not paused". The firing that finds no time left also clears its own
interval and leaves the flags alone. Notifications are counted in `notifications`.

What the code does, stated precisely:

- The notification comes on the firing that finds 0 or less left. That is one second after the face shows `00:00:00`, not on the firing that reaches 0 (`TimerProperties.CompletionNotifiesOnce`).
- After completion `isRunning` stays true. Pause then Resume schedules a new interval, and its first firing notifies again (`TimerProperties.ResumeAfterCompletionNotifiesAgain`). The completed state is therefore not terminal.
- Only an empty field counts as 0 (`hours || 0`). A negative field gives a negative time. The face shows it, for example `-1:-1:-5`, until the next firing pins it at 0 and notifies (`TimerProperties.NegativeFieldCompletesAtOnce`, `ClockFormat.FormatTimeNegative`).
- `handlePause` sets its flags in every state, even when nothing is configured yet.
- `handleStart` on a completed timer changes no flag. So it schedules nothing.

## Model

| member | source | states |
|---|---|---|
| `Decimal.ParseInt` | src/CountdownTimer.js:62-64 | `parseInt` of an integer literal: negative only with a minus sign, non-negative without one |
| `Decimal.NatToString` | src/CountdownTimer.js:89-91 | `String(n)` is a non-empty digit string that parses back to `n`, has no leading zero unless `n == 0`, and has one digit iff `n < 10` and at most two below 100 |
| `Decimal.IntToString` | src/CountdownTimer.js:89-91 | `String(i)` of any integer is an integer literal that `ParseInt` reads back as `i` |
| `Decimal.LeadingZero` | src/CountdownTimer.js:89-91 | a zero put in front by padding does not change the value of a digit string |
| `ClockFormat.FloorDiv` | src/CountdownTimer.js:89-90 | `Math.floor(a / d)` is the `q` with `d*q <= a < d*q + d` |
| `ClockFormat.JsRem` | src/CountdownTimer.js:90-91 | JavaScript `%` has magnitude below `d` and takes the sign of the dividend |
| `ClockFormat.JsRemMultiple` | src/CountdownTimer.js:90-91 | what JavaScript `%` takes away from `a` is a whole multiple of `d` |
| `ClockFormat.PadStart2` | src/CountdownTimer.js:89-91 | `padStart(2, "0")` is as wide as `s` but at least 2, ends with `s`, and is all `'0'` before it |
| `ClockFormat.ClockFieldsOfNat` | src/CountdownTimer.js:88-93 | for `t >= 0`: hours `>= 0`, minutes and seconds in 0..59, and `hrs*3600 + mins*60 + secs == t` |
| `ClockFormat.ClockFieldsUnique` | src/CountdownTimer.js:88-93 | any split of `t` with minutes and seconds below 60 is the one `formatTime` computes |
| `ClockFormat.PaddedField` | src/CountdownTimer.js:89-91 | a padded field of `n` is all digits and worth `n`, exactly two wide below 100 |
| `ClockFormat.FormatTimeZero` | src/CountdownTimer.js:88-93 | `formatTime(0) == "00:00:00"` |
| `ClockFormat.FormatTimeFiftyNine` | src/CountdownTimer.js:88-93 | `formatTime(59) == "00:00:59"` |
| `ClockFormat.FormatTimeOneHourOneMinuteOneSecond` | src/CountdownTimer.js:88-93 | `formatTime(3661) == "01:01:01"` |
| `ClockFormat.FormatTimeHundredHours` | src/CountdownTimer.js:88-93 | hours are not clamped: `formatTime(360000) == "100:00:00"` |
| `ClockFormat.FormatTimeNegative` | src/CountdownTimer.js:88-93 | a negative time shows with JavaScript's floor and remainder: `formatTime(-5) == "-1:-1:-5"` |
| `ClockFormat.ClockFields` | src/CountdownTimer.js:89-91 | no contract of its own: the hours, minutes and seconds `formatTime` computes; `ClockFormat.ClockFieldsOfNat` and `ClockFormat.ClockFieldsUnique` characterise them |
| `ClockFormat.Render` | src/CountdownTimer.js:89-92 | no contract of its own: the three padded fields joined by colons; `ClockRoundTrip.FormatTimeReadBack` characterises it through `FormatTime` |
| `ClockFormat.FormatTime` | src/CountdownTimer.js:88-93 | no contract of its own: `formatTime`; `ClockRoundTrip.FormatTimeReadBack`, `ClockRoundTrip.FormatTimeInjective` and the example lemmas characterise it |
| `TimerSpec.FieldValue` | src/CountdownTimer.js:62-64 | no contract of its own: `parseInt(field || 0)`; `TimerProperties.StartConfigures`, `TimerProperties.StartOneHour` and `TimerProperties.NegativeFieldCompletesAtOnce` characterise it |
| `TimerSpec.TotalSeconds` | src/CountdownTimer.js:61-64 | no contract of its own: the configured total; `TimerProperties.StartConfigures` characterises it |
| `TimerSpec.Initial` | src/CountdownTimer.js:7-23 | no contract of its own: the mount state; `TimerProperties.ResetFromAnyState` and `TimerComponent.CountdownTimer.constructor` characterise it |
| `TimerSpec.Rescheduled` | src/CountdownTimer.js:26-44 | no contract of its own: whether an interval is scheduled after the flags change; `TimerComponent.CountdownTimer.SetFlags`, `TimerProperties.StartResumes` and `TimerProperties.PauseKeepsTime` characterise it |
| `TimerSpec.Start` | src/CountdownTimer.js:58-69 | no contract of its own: `handleStart`; `TimerProperties.StartConfigures`, `TimerProperties.StartResumes` and `TimerSpec.Step` characterise it |
| `TimerSpec.Pause` | src/CountdownTimer.js:72-75 | no contract of its own: `handlePause`; `TimerProperties.PauseKeepsTime` and `TimerSpec.Step` characterise it |
| `TimerSpec.Reset` | src/CountdownTimer.js:78-85 | no contract of its own: `handleReset`; `TimerProperties.ResetFromAnyState` and `TimerSpec.Step` characterise it |
| `TimerSpec.Tick` | src/CountdownTimer.js:31-39 | no contract of its own: one interval firing; `TimerProperties.TickCountsDown`, `TimerProperties.TickCompletes` and `TimerProperties.TickNonNegative` characterise it |
| `TimerSpec.ToggleEvent` | src/CountdownTimer.js:131 | no contract of its own: the toggle runs start when paused and pause otherwise; `TimerProperties.ToggleTwice` characterises it |
| `ClockRoundTrip.FormatTimeReadBack` | src/CountdownTimer.js:88-93 | the face of any `t >= 0` reads back as `t`: one or more hour digits, then minutes and seconds of exactly two digits below 60 |
| `ClockRoundTrip.FormatTimeInjective` | src/CountdownTimer.js:88-93 | two different non-negative times never show the same face |
| `TimerSpec.Step` | src/CountdownTimer.js:26-85 | every handler and every second keeps the invariant: never running and paused together, an interval only while running unpaused, a time whenever running. Only a second can notify, at most once |
| `TimerSpec.View` | src/CountdownTimer.js:99-139 | the input form is shown exactly while `timeLeft` is `null` |
| `TimerProperties.StartConfigures` | src/CountdownTimer.js:58-69 | the first start sets `timeLeft = h*3600 + m*60 + s` with empty fields as 0, runs unpaused, schedules the interval and keeps the fields |
| `TimerProperties.StartResumes` | src/CountdownTimer.js:58-69 | a later start keeps `timeLeft`, the fields and the notification count, and runs unpaused. An interval is scheduled afterwards iff one was before or the flags changed, that is iff it was ticking or was not running unpaused |
| `TimerProperties.PauseKeepsTime` | src/CountdownTimer.js:72-75 | pause sets paused, not running, no interval, and keeps the time and fields |
| `TimerProperties.ResetFromAnyState` | src/CountdownTimer.js:78-85 | reset from any state gives empty fields, `null` time, both flags false and no interval |
| `TimerProperties.TickCountsDown` | src/CountdownTimer.js:31-33 | a firing with `t > 0` left leaves exactly `t - 1` and changes nothing else |
| `TimerProperties.TickCompletes` | src/CountdownTimer.js:34-39 | a firing with nothing left clears the interval, notifies once and sets the time to 0 |
| `TimerProperties.TickNonNegative` | src/CountdownTimer.js:31-39 | after any firing the time is a number `>= 0` |
| `TimerProperties.RunKeepsInv` | src/CountdownTimer.js:26-85 | any sequence of typing, clicks and seconds keeps the invariant |
| `TimerProperties.RunAppend` | src/CountdownTimer.js:26-85 | running two event sequences one after the other equals running their concatenation |
| `TimerProperties.IdleSeconds` | src/CountdownTimer.js:28 | seconds with no interval scheduled change nothing |
| `TimerProperties.CountDown` | src/CountdownTimer.js:28-33 | from `t` left, `n <= t` seconds leave exactly `t - n`, still scheduled and with no notification |
| `TimerProperties.CompletionNotifiesOnce` | src/CountdownTimer.js:30-41 | from `t` left, after `max(t, 0) + 1 + k` seconds the time is 0, the interval is cleared and the user was notified exactly once |
| `TimerProperties.ResumeAfterCompletionNotifiesAgain` | src/CountdownTimer.js:36-37 | after completion, Pause, Resume and one second notify once more and change nothing else |
| `TimerProperties.PauseResumeKeepsTime` | src/CountdownTimer.js:67-75 | on a ticking clock, pause, any number of seconds, then resume gives back exactly the ticking state: no second is lost or gained |
| `TimerProperties.ToggleTwice` | src/CountdownTimer.js:131-133 | on a ticking clock the toggle button pauses, shows "Resume", and on the second press restores the ticking state exactly |
| `TimerProperties.ViewShowsTimeLeft` | src/CountdownTimer.js:127-134 | a configured time `t >= 0` is shown as a face that reads back as `t`, with the toggle labelled "Resume" when paused and "Pause" otherwise |
| `TimerProperties.StartOneHour` | src/CountdownTimer.js:61-65 | hours "1" with the other fields empty configures 3600 seconds |
| `TimerProperties.NegativeFieldCompletesAtOnce` | src/CountdownTimer.js:61-65 | seconds "-5" configures -5. The next second pins it at 0 and notifies |
| `TimerComponent.CountdownTimer.constructor` | src/CountdownTimer.js:7-23 | on mount the fields are empty, the time is `null`, both flags are false, and nothing is scheduled |
| `TimerComponent.CountdownTimer.SetHours` | src/CountdownTimer.js:106 | typing in the hours field changes only `hours` |
| `TimerComponent.CountdownTimer.SetMinutes` | src/CountdownTimer.js:113 | typing in the minutes field changes only `minutes` |
| `TimerComponent.CountdownTimer.SetSeconds` | src/CountdownTimer.js:120 | typing in the seconds field changes only `seconds` |
| `TimerComponent.CountdownTimer.SetFlags` | src/CountdownTimer.js:26-44 | setting the flags re-runs the interval effect only if a flag changed. It then schedules exactly when running and not paused |
| `TimerComponent.CountdownTimer.HandleStart` | src/CountdownTimer.js:58-69 | makes exactly the `TimerSpec.Start` step in place and keeps the invariant |
| `TimerComponent.CountdownTimer.HandlePause` | src/CountdownTimer.js:72-75 | makes exactly the `TimerSpec.Pause` step in place and keeps the invariant |
| `TimerComponent.CountdownTimer.HandleReset` | src/CountdownTimer.js:78-85 | makes exactly the `TimerSpec.Reset` step in place and keeps the invariant |
| `TimerComponent.CountdownTimer.Tick` | src/CountdownTimer.js:30-41 | one interval firing makes exactly the `TimerSpec.Tick` step. It reports a notification exactly when no time was left, and the count grows by one then |

## Left out

- `notifyCompletion` (src/CountdownTimer.js:47-55) calls the browser's `Notification` or `alert`. Those are foreign calls. The model only counts notifications.
- `setInterval` and `clearInterval`, the one-second timing, and React's render and batching are abstracted. The `ticking` field stands for the interval, and `Tick` or a `SecondElapsed` event stands for one firing. Unmount clean-up is not modelled.
- The JSX markup is left out, except for two rules: the inputs are shown iff the time is `null`, and the toggle calls start when paused and pause otherwise. The field bindings are modelled as the three setters.
- Numbers are exact integers. JavaScript numbers are doubles, so `parseInt` of very long digit strings loses precision, and `String(n)` switches to exponent notation from 1e21. A `-0` from `parseInt("-0")` behaves as 0 everywhere it is used here.
- `TimerComponent.CountdownTimer.SetHours` accepts only empty text or an integer literal (an optional minus sign, then digits). Decimal or exponent text, which a numeric input also allows, and the `NaN` that `parseInt` would give are not modelled.
- `TimerComponent.CountdownTimer.SetMinutes` has the same restriction, for the same reason.
- `TimerComponent.CountdownTimer.SetSeconds` has the same restriction, for the same reason.
- src/OfferButton.js (a modal shown and hidden by clicks) and src/App.js (page composition) hold no timer logic. `./Counter` is not part of this model.
