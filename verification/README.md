# Pomodoro countdown timer — a Dafny model

This project models the timer logic of the browser Pomodoro timer
(`Pomodoro---Timer/script.js`). The logic has three parts:

- **The countdown engine.** Its state is `timeLeft`, `isRunning`, the polling
  interval and the `endTime` captured at start. `startTimer` records
  `endTime = now + timeLeft * 1000`. Each interval callback then recomputes
  `timeLeft = ceil((endTime - now) / 1000)` from the wall clock; it does not
  count ticks. The timer expires only when that value goes negative. Expiry
  clears the interval, stops the timer and sets `timeLeft = 0`.
  `pauseTimer` freezes the last polled value. `resetTimer` always goes back
  to `TIMER_DEFAULT`, which is 25 minutes. Preset buttons and the custom
  dialog's Set button pause the timer first and then show the new duration.
- **`formatTime`.** It splits seconds into hour, minute and second text. The
  hour field is left out when there is no whole hour. Each field is
  zero-padded to two digits but never truncated.
- **The custom-time dialog.** It holds three two-digit fields and a selected
  unit. A digit key shifts the digit into the selected field. Set accepts
  `hr*3600 + min*60 + sec` only when it is positive.

Time is an explicit integer number of milliseconds, as `Date.now()` returns
it. Every transition that reads the clock takes it as a parameter `now`. The
repeating interval becomes `Poll(now)` events, and `intervalLive` records
whether the interval still exists. A poll with no live interval changes
nothing, because no callback exists to run. The state also counts expiries
(`expirations`). This counter stands for the alarm/notification signal, so
"at most one expiry per start" can be stated.

Modules:

- `Decimal` (decimal.dfy) covers three operations on digit strings:
  `toString` of a non-negative integer, `padStart(width, '0')`, and
  `parseInt` on digit strings.
- `Display` (display.dfy) holds `formatTime`.
- `Countdown` (countdown.dfy) holds the engine: start, poll, pause, set
  duration, reset and the start/pause toggle.
- `CustomEntry` (custom_entry.dfy) holds the dialog: open, unit selection,
  digit keys and the total.
- `Pomodoro` (pomodoro.dfy) holds the whole page state, the event type, runs
  of events, and the Set and preset handlers. It also has trace-level
  properties and two concrete scenarios.

Three behaviours of the code differ from what a reader of the page might
assume. The model follows the code in each case:

- Reset restores `TIMER_DEFAULT` (1500 s), not the last chosen duration
  (script.js:160).
- Expiry happens only when the ceiling value is negative, so at the first
  poll at least `endTime + 1000` ms. It does not happen when the value
  reaches 0 (script.js:102). For five seconds polled every second, the
  display shows 0 at the fifth second and expires at the sixth
  (`Pomodoro.FiveSecondRun`).
- Changing the duration while running is not rejected. The preset and Set
  handlers pause first (script.js:185, 269).

## Model

| member | source | states |
|---|---|---|
| Decimal.ToDecimal | Pomodoro---Timer/script.js:31-33 | `n.toString()` is a non-empty digit string with no leading zero; it has one character exactly when n < 10 and at most two exactly when n < 100 |
| Decimal.ParseToDecimal | Pomodoro---Timer/script.js:31-33 | reading back the decimal text of n gives n |
| Decimal.PadStart | Pomodoro---Timer/script.js:31-33 | `padStart(width, '0')` has length max(width, length); it ends with the original string and everything before that is '0'; longer strings are never truncated |
| Decimal.PadStartKeepsValue | Pomodoro---Timer/script.js:31-33 | padding a digit string with zeros keeps it a digit string with the same value |
| Decimal.Parse | Pomodoro---Timer/script.js:262-264 | `parseInt` of a k-digit string is below 10^k; its partners ParseToDecimal and ParseLeadingZeros tie it to `toString` and to leading zeros |
| Decimal.ParseLeadingZeros | Pomodoro---Timer/script.js:262-264 | `parseInt` ignores leading zeros, so "05" reads as 5 |
| Decimal.ParseTwo | Pomodoro---Timer/script.js:262-264 | a two-digit field reads as tens*10 + units, at most 99 |
| Display.FormatTime | Pomodoro---Timer/script.js:26-34 | the hour field is absent exactly when seconds < 3600; minutes and seconds are exactly two digits; the hour text has two digits exactly when seconds < 360000 and at least three otherwise; it starts with '0' exactly when seconds < 36000, so from 10 hours on it has no leading zero |
| Display.Pad2 | Pomodoro---Timer/script.js:31-33 | `n.toString().padStart(2, '0')` is a digit string of at least two characters that reads back as n; it has exactly two characters exactly when n < 100 and a leading '0' exactly when n < 10 |
| Display.FormatTimeRoundTrip | Pomodoro---Timer/script.js:26-29 | the fields decompose the input exactly: hours*3600 + minutes*60 + seconds equals the input, with minutes and seconds below 60 and hours the untruncated whole hours |
| Display.Decompose | Pomodoro---Timer/script.js:27-29 | floor(x/3600)*3600 + floor((x mod 3600)/60)*60 + x mod 60 = x, with the middle term below 60 |
| Display.FormatTimeInjective | Pomodoro---Timer/script.js:26-34 | two different second counts never give the same fields |
| Countdown.CeilSeconds | Pomodoro---Timer/script.js:100 | `Math.ceil(ms/1000)` is the least q with ms <= q*1000 |
| Countdown.Start | Pomodoro---Timer/script.js:79-96 | a no-op while running; otherwise the timer runs with a live interval and the end instant is now + timeLeft*1000; timeLeft is unchanged |
| Countdown.Tick | Pomodoro---Timer/script.js:98-109 | with no live interval nothing changes; before endTime + 1000, timeLeft becomes the ceiling of the remaining seconds and nothing else changes; from endTime + 1000 on, the timer stops, the interval is cleared, timeLeft is 0 and exactly one expiry is counted |
| Countdown.Pause | Pomodoro---Timer/script.js:145-148 | a no-op when not running; otherwise it stops and clears the interval, leaving timeLeft unchanged |
| Countdown.SetDuration | Pomodoro---Timer/script.js:183-188 | after pausing, the timer is stopped and shows exactly the new duration; the interval invariant is kept |
| Countdown.Reset | Pomodoro---Timer/script.js:158-160 | always ends stopped with timeLeft = 1500, whatever the prior state |
| Countdown.Toggle | Pomodoro---Timer/script.js:171-177 | the start/pause button pauses a running timer and starts a stopped one with a live interval and endTime = now + timeLeft*1000; on both branches timeLeft and the expiry count are kept |
| Countdown.TickKeepsValid | Pomodoro---Timer/script.js:105-107 | a poll keeps "interval live exactly while running" |
| Countdown.TickDriftFree | Pomodoro---Timer/script.js:96-104 | a poll at a later instant overrides an earlier poll completely, so polling history has no effect |
| Countdown.TickNonIncreasing | Pomodoro---Timer/script.js:99-103 | a later poll never shows more time than an earlier one |
| Countdown.TickAfterStartBounded | Pomodoro---Timer/script.js:96-103 | after a start, no poll at or after the start instant shows more time than at the start |
| Countdown.ExpiryInstant | Pomodoro---Timer/script.js:96-108 | right after a start with L seconds, a poll expires the timer exactly when now >= start + (L+1)*1000 |
| Countdown.PauseThenStartResumes | Pomodoro---Timer/script.js:145-148 | pausing and restarting resumes from the frozen timeLeft, not from the original duration |
| Countdown.TicksIdle | Pomodoro---Timer/script.js:106 | once the interval is cleared, no sequence of polls changes the state |
| Countdown.TicksExpireAtMostOnce | Pomodoro---Timer/script.js:102-108 | any sequence of polls expires a running timer at most once, never expires a stopped one, and keeps the interval invariant |
| Countdown.TicksDependOnLastOnly | Pomodoro---Timer/script.js:96-104 | polls at non-decreasing instants end exactly where a single poll at the last instant ends |
| Countdown.RunExpiresExactlyOnce | Pomodoro---Timer/script.js:96-108 | a timer started at s and polled at non-decreasing instants has expired exactly once and stopped at 0 if the last poll is at or after s + (timeLeft+1)*1000; otherwise it is still running with no expiry |
| Countdown.TicksAfterStartMonotone | Pomodoro---Timer/script.js:96-104 | after a start, polls at non-decreasing instants never exceed the starting value and never raise timeLeft |
| CustomEntry.Open | Pomodoro---Timer/script.js:204-206 | opening the dialog sets every field to "00" and selects minutes, whatever was entered before |
| CustomEntry.Select | Pomodoro---Timer/script.js:232-235 | a unit button selects the unit and leaves every field unchanged |
| CustomEntry.LastTwo | Pomodoro---Timer/script.js:252 | `slice(-2)` is the last min(2, length) characters |
| CustomEntry.Shift | Pomodoro---Timer/script.js:241-252 | both branches give the old last digit followed by the pressed digit, i.e. the value (old mod 10)*10 + digit |
| CustomEntry.PressDigit | Pomodoro---Timer/script.js:239-256 | the selected field becomes its old last character followed by the digit; the other two fields and the unit are unchanged |
| CustomEntry.Total | Pomodoro---Timer/script.js:262-266 | the total is at most 99:99:99 = 362439 s, and it is 0 exactly when all three fields are "00" |
| CustomEntry.PressTwiceFills | Pomodoro---Timer/script.js:244-252 | pressing one digit twice fills the selected field with it |
| Pomodoro.PressSet | Pomodoro---Timer/script.js:261-275 | a positive total leaves the timer stopped showing exactly the total; a zero total changes nothing; the dialog fields are kept |
| Pomodoro.PressPreset | Pomodoro---Timer/script.js:181-189 | a preset leaves the timer stopped showing minutes*60, with the dialog unchanged |
| Pomodoro.Step | Pomodoro---Timer/script.js:171-189 | every user or interval event keeps "interval live exactly while running"; only a poll can count an expiry; expiries plus a running countdown grow by at most one, and only on a start/pause press that finds the timer stopped; a press that pauses never raises them. Its eight cases are the handlers at script.js:171-189, the interval callback (98-109), `openCustomTimer` (204-206), the unit buttons (232-236), the digit keys (239-256) and the Set button (261-276) |
| Pomodoro.ExpiriesBoundedByStarts | Pomodoro---Timer/script.js:79-108 | over any run of events, expiries plus a still-running countdown never exceed the presses that actually start the timer (presses that pause are not counted) plus the countdown already running; so at most one expiry per start |
| Pomodoro.InitialState | Pomodoro---Timer/script.js:1-4 | at page load the timer shows `TIMER_DEFAULT` = 1500 s, is stopped with no interval and no expiry, and the dialog fields are "00" with minutes selected (script.js:201-202) |
| Pomodoro.ExpiriesFromLoad | Pomodoro---Timer/script.js:1-4 | from page load, the number of expiries is at most the number of presses that start the timer, and hence at most the number of start/pause presses |
| Pomodoro.StartsAtMostPresses | Pomodoro---Timer/script.js:171-177 | only a start/pause press that finds the timer stopped starts it, so over any run the starts never exceed the start/pause presses |
| Pomodoro.FiveSecondRun | Pomodoro---Timer/script.js:96-108 | a 5-second custom countdown polled every second shows 0 after five seconds without expiring, then expires exactly once and stays stopped at 0 |
| Pomodoro.ResetForgetsChosenDuration | Pomodoro---Timer/script.js:158-160 | a preset followed by reset shows 1500 s, not the preset |
| Pomodoro.MaxEntryShowsThreeDigitHours | Pomodoro---Timer/script.js:26-31 | entering 99:99:99 is accepted as 362439 s, and its hour field is the three-digit "100" |

## Left out

- DOM updates and display strings are left out as presentation: `updateDisplay`, `document.title`, button text and classes, `updateModalDisplay`, `updateUnitButtons`, and showing or hiding the dialogs, including `closeCustomTimer` (Cancel) and `hideTimeUpModal`.
- Audio, background music, alarm unlocking, vibration and notifications are left out. They are browser APIs with promises the model cannot see. Expiry is recorded only as the `expirations` counter.
- `setInterval` scheduling and its 1-second cadence are left out. Polls are explicit events at caller-chosen instants. The drift-freedom lemmas cover any cadence, including late or missed callbacks.
- Theme switching, the music toggle and resize handling are left out. They are canvas and audio plumbing, and the theme classes are not part of this model.
- `parseInt` on a preset button's `data-time` is left out. The minutes arrive as a natural number, and NaN is not modelled.
- The `alert` on a zero total is left out. It is modelled only as "no state change".
- Numbers are modelled as unbounded naturals and integers. JavaScript numbers are doubles: integers above 2^53 lose exactness, and `toString` switches to exponent notation from 1e21. Every value the page can reach lies far below both limits: a custom total is at most 362439 s (just over 100 hours), the presets are a few minutes, and `Date.now()` is around 2^41 ms. On those values the two agree.
- Countdown.CeilSeconds: it computes the ceiling exactly on integers. The source divides in floating point; for millisecond differences below 2^53 that rounding never crosses an integer. The source can also produce `-0`, which the model treats as 0.
- CustomEntry.PressDigit: the digit key is taken as a character '0'-'9', and the unit buttons as the three units. The source reads both from `data-num` and `data-unit` attributes set by the page.
- Countdown.Tick: `endTime` lives in the state. In the source it is a local captured by the interval closure, and it is only meaningful while the interval is live.
