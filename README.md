# Focus timer: the timer state machine and the session summary

This project models the core of a mobile focus timer. The timer component
counts a work session down from a configured length (25 minutes at first,
adjustable in 5-minute steps, never below 5 minutes). The user can pause,
continue, reset or finish the session. The component pauses by itself when
the app leaves the foreground, and it counts every pause as a distraction.
When a session finishes, it stores one record (time spent, category,
distractions) and shows a summary of it.

Files and modules:

- `JsNumber.dfy`: the JavaScript integer operations the formatters use:
  `Math.floor` division, the truncating `%`, and integer-to-decimal text. A
  decimal reader is the partner of the conversion, and they round-trip.
- `SessionSummaryModal.dfy`: the session record (`SessionData`), the modal's
  `formatTime` ("Xm Ys"), and the three rows the summary shows.
- `TimerMachine.dfy`: the component's state as a value (`TimerState`) and its
  invariant `Inv`. Each handler is a function on that state. `Offered`
  gives the controls on screen in each phase, and `Press`, `Step` and `Run`
  apply presses, seconds passing and lifecycle notifications. It also holds
  the lemmas about single events and event sequences, and the timer's own
  `formatTime` ("m:ss").
- `TimerButton.dfy`: class `Timer`, whose fields are the component's state
  and refs. It has one method per handler. Each method updates the fields in
  place, keeps `Valid()` (that is, `Inv` of its fields) and ends in exactly
  the state the matching `TimerMachine` function computes.

The session store is a field, `store`: a sequence of `SessionData` that only
`handleFinish` appends to. The interval ref is the boolean `ticking`. The
lifecycle ref `appState` is one of the five statuses the platform reports.
The component's pattern `/active/` is modelled as a substring search on the
status name, so it matches "inactive" as well as "active"
(`WasForeground`).

Three behaviours of the code that a reader might not expect, all modelled as
written (a fourth, the countdown possibly left at 0 after an automatic finish,
is under "## Findings"; whether it shows depends on how React schedules the
timer's updater):

- Reset is on screen only while paused (components/TimerButton.tsx:201-216),
  not while running.
- The countdown does not reach 0 before finishing. The firing that sees one
  second left finishes the session. So with the current-state reading below,
  a session run to its end records `initialDuration - 1` seconds
  (`UninterruptedSession`), not `initialDuration`.
- Start does not reset `distractions`. It does not need to: `Inv` shows the
  count is already 0 whenever the timer is idle.

## Model

| member | source | states |
|---|---|---|
| `TimerMachine.Initial` | components/TimerButton.tsx:15-28 | A fresh timer is idle at 1500 s with `timer == initialDuration`, zero distractions and the first category, and it satisfies `Inv` |
| `TimerMachine.StopInterval` | components/TimerButton.tsx:73-78 | After stopInterval no interval is scheduled, and nothing else changes |
| `TimerMachine.StopIntervalIdempotent` | components/TimerButton.tsx:73-78 | Stopping twice is the same as stopping once |
| `TimerMachine.AdjustTime` | components/TimerButton.tsx:129-135 | Idle only. The new duration is `max(300, old + 60*minutes)`, `timer` equals it, it stays a multiple of 300, and `Inv` is kept |
| `TimerMachine.HandleStart` | components/TimerButton.tsx:80-92 | From idle or paused: running with the interval scheduled. Countdown, distractions and store are unchanged |
| `TimerMachine.TickBody` | components/TimerButton.tsx:83-90 | A firing with `timer > 1` takes exactly one second off and keeps running. With `timer <= 1` it is exactly the finish transition: it appends the session and leaves the idle countdown at the full duration ready for the next round (the corrected firing, see "## Findings") |
| `TimerMachine.TickBodyAsWritten` | components/TimerButton.tsx:84-88 | As written: the same as `TickBody` except that a finishing firing leaves `timer` at 0, because the updater's `return 0` lands after handleFinish's reset |
| `TimerMachine.AutoFinishLeavesIdleAtZero` | components/TimerButton.tsx:84-88 | As written, an automatic finish leaves an idle timer at 0 (breaking `Inv`), and a session started from there is finished by its first firing with the full duration recorded |
| `TimerMachine.AutoFinishExample` | components/TimerButton.tsx:84-88 | A concrete 25-minute session with one second left: as written it ends with the countdown at 0, corrected at 1500 |
| `TimerMachine.SessionOf` | components/TimerButton.tsx:115 | The record a finish would store: time spent `initialDuration - timer`, in `[0, initialDuration)` during a session and 0 when idle, with the current category and distraction count |
| `TimerMachine.HandlePause` | components/TimerButton.tsx:94-98 | Only from running: interval cleared, paused, and `distractions` up by exactly 1 |
| `TimerMachine.HandleReset` | components/TimerButton.tsx:100-107 | No record. The timer is idle with `timer == initialDuration` and zero distractions. Duration, category and store are unchanged |
| `TimerMachine.HandleFinish` | components/TimerButton.tsx:109-127 | Appends exactly one record `(initialDuration - timer, category, distractions)` with duration in `[0, initialDuration)`, and shows it in the modal. Then idle, no interval, `timer == initialDuration`, zero distractions |
| `TimerMachine.OnAppStateChange` | components/TimerButton.tsx:49-61 | `appState` becomes the new status. A distraction is added (exactly one) iff the previous status matches /active/, the next matches /inactive or background/ (the regex with both alternatives), and the timer is running; the state is then the pause transition plus the new status, and otherwise only `appState` changes. No record |
| `TimerMachine.WasForeground` | components/TimerButton.tsx:51 | /active/ matches exactly the statuses active and inactive |
| `TimerMachine.GoesAway` | components/TimerButton.tsx:52 | The away pattern (inactive or background) matches exactly the statuses inactive and background |
| `TimerMachine.SelectCategory` | components/TimerButton.tsx:175-179 | Picking a category chip while idle sets the category to one of the four offered |
| `TimerMachine.CloseModal` | components/TimerButton.tsx:145-149 | Closing the summary hides it and changes nothing else |
| `TimerMachine.Unmount` | components/TimerButton.tsx:63-71 | Unmounting clears the interval and ends delivery of events |
| `TimerMachine.Offered` | components/TimerButton.tsx:156-222 | While the summary modal's overlay is up only its Close control is reachable; the category chips offer only the four categories and only while idle; pause, finish, continue and reset are offered only during a session |
| `TimerMachine.Press` | components/TimerButton.tsx:156-222 | A press on a control that is not on screen changes nothing. Any press keeps `Inv` |
| `TimerMachine.ControlsByPhase` | components/TimerButton.tsx:156-222 | Pause is on screen iff running, finish iff active, continue/reset iff paused, and -5/start/+5 iff idle with no summary shown |
| `TimerMachine.Step` | components/TimerButton.tsx:48-92 | Any event keeps `Inv`, and the store either stays as it is or gains exactly the record now shown |
| `TimerMachine.Run` | components/TimerButton.tsx:80-135 | After any sequence of events `Inv` holds: duration at least 300 and a multiple of 300, `0 <= timer <= initialDuration`, paused implies active, idle implies `timer == initialDuration`, interval scheduled iff running. The old records are a prefix of the new store |
| `TimerMachine.StepRecordsOnlyOnFinish` | components/TimerButton.tsx:100-127 | An event appends exactly one record when it is a finish (button, or a firing with one second left), and none otherwise (reset included) |
| `TimerMachine.StepCountsOneDistractionPerPause` | components/TimerButton.tsx:94-98 | A pause event (button, or the app leaving the foreground while running) adds exactly one distraction, and only a pause event adds any |
| `TimerMachine.CategoryChangesOnlyWhileIdle` | components/TimerButton.tsx:156-179 | The category changes only from an idle timer |
| `TimerMachine.DurationChangesOnlyWhileIdle` | components/TimerButton.tsx:156-173 | The duration changes only from an idle timer, and the countdown is then reset to it |
| `TimerMachine.LeavingRunningStopsTick` | components/TimerButton.tsx:69-78 | Every event that leaves running leaves no interval scheduled |
| `TimerMachine.AppEventsWhileStopped` | components/TimerButton.tsx:49-61 | Lifecycle notifications reaching a timer that is not running add no distraction and no record, and leave it not running |
| `TimerMachine.AppEventsPauseAtMostOnce` | components/TimerButton.tsx:49-61 | Any sequence of lifecycle notifications adds at most one distraction and no record |
| `TimerMachine.Countdown` | components/TimerButton.tsx:83-90 | A running timer with t seconds left finishes on the t-th firing, in the state reached by counting down to 1 |
| `TimerMachine.UninterruptedSession` | components/TimerButton.tsx:80-127 | Start, then one firing per second of the duration, records exactly one session `(initialDuration - 1, category, 0)` and returns to idle with the countdown reset |
| `TimerMachine.RunAppendsWellFormed` | components/TimerButton.tsx:109-121 | Every record added by any sequence of events has non-negative duration and count, and one of the four categories |
| `TimerMachine.FinishShowsSession` | components/TimerButton.tsx:109-122 | After a finish, the summary rows read back exactly the duration, category and distractions just stored |
| `TimerMachine.FormatClock` | components/TimerButton.tsx:137-141 | For `s >= 0` the clock text is `floor(s/60)`, ":", then the seconds as exactly two digits (zero-padded below 10) |
| `TimerMachine.ClockRoundTrip` | components/TimerButton.tsx:137-141 | The clock text reads back to s: minutes*60 + seconds == s |
| `SessionSummaryModal.SplitSeconds` | components/SessionSummaryModal.tsx:15-17 | For `s >= 0`: `mins >= 0`, `0 <= secs < 60` and `mins*60 + secs == s` |
| `SessionSummaryModal.FormatTimeRoundTrip` | components/SessionSummaryModal.tsx:15-19 | "<mins>m <secs>s" reads back to s, so the text loses nothing |
| `SessionSummaryModal.FormatTime` | components/SessionSummaryModal.tsx:15-19 | For `s >= 0` the text is exactly the decimal minutes `floor(s/60)`, "m ", the decimal seconds `s % 60` (below 60), and "s"; so it ends in "s" and the seconds are not zero-padded: the first seconds digit is '0' only when the seconds are 0 |
| `SessionSummaryModal.SummaryRows` | components/SessionSummaryModal.tsx:32-45 | The summary has three rows, labelled Duration, Category and Distractions |
| `SessionSummaryModal.SummaryShowsSession` | components/SessionSummaryModal.tsx:32-45 | Each row shows its field of the record unchanged: duration and count read back, the category is shown as is |
| `JsNumber.FloorDiv` | components/TimerButton.tsx:138 | `Math.floor(a / b)` for b > 0: the largest q with `q*b <= a` |
| `JsNumber.Rem` | components/SessionSummaryModal.tsx:17 | JavaScript `%` for b > 0: the result differs from a by a multiple of b, is the Euclidean remainder for a >= 0, and lies in `(-b, 0]` for a < 0 (the sign follows the dividend); these fix it to the truncated remainder |
| `JsNumber.IntToString` | components/TimerButton.tsx:140 | The template-literal text of an integer: the decimal digits of its magnitude, preceded by "-" when negative |
| `JsNumber.NatToStringRoundTrip` | components/SessionSummaryModal.tsx:18 | The decimal text of a number reads back to that number |
| `TimerButton.Timer.constructor` | components/TimerButton.tsx:15-28 | The object starts in `TimerMachine.Initial` |
| `TimerButton.Timer.StopInterval` | components/TimerButton.tsx:73-78 | Clears only the interval ref |
| `TimerButton.Timer.AdjustTime` | components/TimerButton.tsx:129-135 | In place: the new state is `TimerMachine.AdjustTime` of the old, and `Valid()` is kept |
| `TimerButton.Timer.HandleStart` | components/TimerButton.tsx:80-92 | In place: the new state is `TimerMachine.HandleStart` of the old, and `Valid()` is kept |
| `TimerButton.Timer.TickBody` | components/TimerButton.tsx:83-90 | In place: the new state is `TimerMachine.TickBody` of the old, and `Valid()` is kept |
| `TimerButton.Timer.HandlePause` | components/TimerButton.tsx:94-98 | In place: the new state is `TimerMachine.HandlePause` of the old, and `Valid()` is kept |
| `TimerButton.Timer.HandleReset` | components/TimerButton.tsx:100-107 | In place: the new state is `TimerMachine.HandleReset` of the old, and `Valid()` is kept |
| `TimerButton.Timer.HandleFinish` | components/TimerButton.tsx:109-127 | In place: the new state is `TimerMachine.HandleFinish` of the old (one record appended), and `Valid()` is kept |
| `TimerButton.Timer.OnAppStateChange` | components/TimerButton.tsx:49-61 | In place: the new state is `TimerMachine.OnAppStateChange` of the old, and `Valid()` is kept |
| `TimerButton.Timer.SelectCategory` | components/TimerButton.tsx:175-179 | In place: the new state is `TimerMachine.SelectCategory` of the old |
| `TimerButton.Timer.CloseModal` | components/TimerButton.tsx:145-149 | In place: the new state is `TimerMachine.CloseModal` of the old |
| `TimerButton.Timer.Unmount` | components/TimerButton.tsx:68-71 | In place: the interval is cleared and the object is marked unmounted |
| `TimerButton.Timer.Press` | components/TimerButton.tsx:156-222 | In place: the new state is `TimerMachine.Press` of the old; a control not on screen does nothing |
| `TimerButton.Timer.Dispatch` | components/TimerButton.tsx:48-92 | In place: the new state is `TimerMachine.Step` of the old, for any event |

## Left out

- The interval callback reads the component's current state here. In the
  component it closes over the render in which start was pressed, so an
  automatic finish there stores that render's `timer`, `category` and
  `distractions`. That closure capture is not modelled.
- React mechanics are not modelled: batching of state updates, re-rendering,
  and the refs that mirror `isActive` and `isPaused` for the listener. The
  listener reads the current state directly.
- Real time is not modelled. One firing of the interval is one `Elapsed`
  event; the timing of `setInterval` is not.
- The session store is an append-only sequence. SQLite, timestamps, ids,
  logging, schema migration, insert failures (which the store swallows),
  clearing and demo seeding are not part of this model. services/Database.ts
  and services/Database.js are not part of this model.
- The report and statistics screens (totals, weekly series, category
  distribution) are not part of this model.
- The category picker is folded in as its four fixed labels and the chip
  press. Its layout and styling are not modelled. Nor is any other view or
  style code.
- `JsNumber.IntToString`: does not model JavaScript's exponent notation for
  magnitudes of 10^21 and above, or non-integer numbers. Every value the
  timer formats is an integer below that bound.
- `SessionSummaryModal.SplitSeconds`, `SessionSummaryModal.FormatTime` and `TimerMachine.FormatClock` state their
  properties for non-negative seconds only. For negative input `Math.floor`
  and the truncating `%` do not recombine. The model computes that case
  faithfully, but the timer never formats a negative value (`Inv`).
- `TimerMachine.TickBody`: is the corrected firing, which the rest of the model
  uses: a finishing firing leaves the countdown at `initialDuration`, as the
  "Reset Timer for next round" step of handleFinish intends. The firing read
  top to bottom, which leaves it at 0, is `TimerMachine.TickBodyAsWritten`;
  see "## Findings" for when React produces which. `TimerButton.Timer.TickBody` follows the corrected firing.

## Findings

| source | as written | input that shows it | evidently intended | confidence | as-written member | corrected member |
|---|---|---|---|---|---|---|
| components/TimerButton.tsx:84-88 | The interval's `setTimer` updater calls handleFinish, which queues `setTimer(initialDuration)`, and then returns 0; when React runs the updater eagerly at dispatch (no update pending on the component), the 0 is applied after the reset and the idle timer shows 0:00 | A running session whose interval fires with 1 second left (e.g. 25-minute session, `timer == 1`): afterwards the idle timer is 0, and pressing Start again finishes on the next firing, recording the full 1500 s (`TimerMachine.AutoFinishLeavesIdleAtZero`, `TimerMachine.AutoFinishExample`) | After an automatic finish the countdown is reset to `initialDuration` for the next round, as after a manual finish | low; not executed (when the updater instead runs during the render, as it does while an earlier update is still pending, the nested `setTimer(initialDuration)` is a render-phase update applied after the 0, and the countdown ends at `initialDuration` as intended) | `TimerMachine.TickBodyAsWritten` | `TimerMachine.TickBody` |
