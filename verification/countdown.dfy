/** The countdown engine: remaining whole seconds, a running flag, the end
    instant captured at start, and the one repeating interval that polls the
    wall clock. Time is integer milliseconds, the value `Date.now()` returns,
    passed explicitly to every transition that reads the clock. */
module Countdown {

  /** `TIMER_DEFAULT`: 25 minutes, the duration at load and after reset. */
  const TimerDefault: nat := 25 * 60

  /** Milliseconds per second, the unit conversion `timeLeft * 1000`. */
  const Millis: nat := 1000

  /** `timeLeft`, `isRunning`, whether the polling interval exists
      (`timerInterval` not cleared), the `endTime` captured by the last start,
      and the number of expiries so far (the alarm/notification signal). */
  datatype Timer = Timer(
    timeLeft: nat,
    running: bool,
    intervalLive: bool,
    endTime: int,
    expirations: nat)

  const Initial: Timer := Timer(TimerDefault, false, false, 0, 0)

  /** The interval exists exactly while the timer runs: every transition that
      leaves the running state clears it. */
  predicate Valid(t: Timer) {
    t.intervalLive == t.running
  }

  /** `Math.ceil(ms / 1000)` for an integer `ms`. */
  function CeilSeconds(ms: int): (q: int)
    ensures (q - 1) * Millis < ms <= q * Millis
  {
    -((-ms) / Millis)
  }

  /** `startTimer`: a no-op while running; otherwise runs and captures the
      instant at which the remaining time will have elapsed. */
  function Start(t: Timer, now: int): (r: Timer)
    ensures t.running ==> r == t
    ensures !t.running ==> r.running && r.intervalLive
    ensures !t.running ==> r.endTime - now == t.timeLeft * Millis
    ensures r.timeLeft == t.timeLeft && r.expirations == t.expirations
  {
    if t.running then t
    else t.(running := true, intervalLive := true, endTime := now + t.timeLeft * Millis)
  }

  /** One call of the interval callback at instant `now`. Without a live
      interval there is no callback and nothing happens. The remaining time
      is recomputed from `endTime`, not decremented; the timer expires only
      once that value is negative, i.e. a full second after `endTime`. */
  function Tick(t: Timer, now: int): (r: Timer)
    ensures !t.intervalLive ==> r == t
    ensures t.intervalLive && now < t.endTime + Millis ==>
      && r == t.(timeLeft := r.timeLeft)
      && (r.timeLeft - 1) * Millis < t.endTime - now <= r.timeLeft * Millis
    ensures t.intervalLive && now >= t.endTime + Millis ==>
      && !r.running && !r.intervalLive && r.timeLeft == 0
      && r.expirations == t.expirations + 1 && r.endTime == t.endTime
  {
    if !t.intervalLive then t
    else
      var remaining := CeilSeconds(t.endTime - now);
      if remaining >= 0 then t.(timeLeft := remaining)
      else t.(intervalLive := false, running := false, timeLeft := 0,
              expirations := t.expirations + 1)
  }

  /** `pauseTimer`: a no-op when not running; otherwise stops and clears the
      interval, freezing the last polled remaining time. */
  function Pause(t: Timer): (r: Timer)
    ensures !t.running ==> r == t
    ensures t.running ==> !r.running && !r.intervalLive
    ensures r.timeLeft == t.timeLeft && r.endTime == t.endTime
    ensures r.expirations == t.expirations
  {
    if !t.running then t else t.(running := false, intervalLive := false)
  }

  /** Pause, then show a new duration: the preset buttons (`minutes * 60`)
      and the custom dialog's Set button both do this. */
  function SetDuration(t: Timer, seconds: nat): (r: Timer)
    ensures !r.running && r.timeLeft == seconds
    ensures r.expirations == t.expirations
    ensures Valid(t) ==> Valid(r)
  {
    Pause(t).(timeLeft := seconds)
  }

  /** `resetTimer`: pause, then go back to `TIMER_DEFAULT`, whatever
      duration was chosen before. */
  function Reset(t: Timer): (r: Timer)
    ensures !r.running && r.timeLeft == TimerDefault
    ensures r.expirations == t.expirations
    ensures Valid(t) ==> Valid(r)
  {
    SetDuration(t, TimerDefault)
  }

  /** The start/pause button. */
  function Toggle(t: Timer, now: int): (r: Timer)
    ensures t.running ==> !r.running && r.timeLeft == t.timeLeft
    ensures !t.running ==> r.running && r.intervalLive && r.endTime == now + t.timeLeft * Millis
    ensures r.timeLeft == t.timeLeft && r.expirations == t.expirations
    ensures Valid(t) ==> Valid(r)
  {
    if t.running then Pause(t) else Start(t, now)
  }

  /** Polls at instants `times`, in order. */
  function Ticks(t: Timer, times: seq<int>): Timer
    decreases |times|
  {
    if |times| == 0 then t else Ticks(Tick(t, times[0]), times[1..])
  }

  predicate NonDecreasing(times: seq<int>) {
    forall i, j :: 0 <= i < j < |times| ==> times[i] <= times[j]
  }

  /** A poll keeps the interval and the running flag in step. */
  lemma TickKeepsValid(t: Timer, now: int)
    requires Valid(t)
    ensures Valid(Tick(t, now))
  {
  }

  /** Remaining time is read off the clock: a later poll overrides an earlier
      one completely, so polling history (missed, late or extra callbacks)
      has no effect on the outcome. */
  lemma TickDriftFree(t: Timer, earlier: int, later: int)
    requires earlier <= later
    ensures Tick(Tick(t, earlier), later) == Tick(t, later)
  {
  }

  /** Later polls never show more time than earlier ones. */
  lemma TickNonIncreasing(t: Timer, earlier: int, later: int)
    requires earlier <= later
    ensures Tick(t, later).timeLeft <= Tick(t, earlier).timeLeft
  {
  }

  /** After a start at `startedAt`, no poll at or after that instant shows
      more time than there was at the start. */
  lemma TickAfterStartBounded(t: Timer, startedAt: int, now: int)
    requires !t.running && startedAt <= now
    ensures Tick(Start(t, startedAt), now).timeLeft <= t.timeLeft
  {
  }

  /** A run started with `t.timeLeft` seconds expires at the first poll at
      least `t.timeLeft + 1` seconds after the start, and not before. */
  lemma ExpiryInstant(t: Timer, startedAt: int, now: int)
    requires !t.running
    ensures Tick(Start(t, startedAt), now).expirations == t.expirations + 1
        <==> now >= startedAt + (t.timeLeft + 1) * Millis
  {
  }

  /** Pausing and starting again resumes from the frozen remaining time, not
      from the original duration. */
  lemma PauseThenStartResumes(t: Timer, now: int)
    requires t.running
    ensures Start(Pause(t), now).running
    ensures Start(Pause(t), now).endTime == now + t.timeLeft * Millis
  {
  }

  /** Without a live interval no poll changes anything. */
  lemma {:induction false} TicksIdle(t: Timer, times: seq<int>)
    requires !t.intervalLive
    ensures Ticks(t, times) == t
    decreases |times|
  {
    if |times| > 0 {
      TicksIdle(Tick(t, times[0]), times[1..]);
    }
  }

  /** Any sequence of polls expires the timer at most once, and a stopped
      timer not at all. */
  lemma {:induction false} TicksExpireAtMostOnce(t: Timer, times: seq<int>)
    requires Valid(t)
    ensures Valid(Ticks(t, times))
    ensures Ticks(t, times).expirations
         <= t.expirations + (if t.running then 1 else 0)
    ensures !t.running ==> Ticks(t, times) == t
    decreases |times|
  {
    if !t.running {
      TicksIdle(t, times);
    } else if |times| > 0 {
      var t1 := Tick(t, times[0]);
      TicksExpireAtMostOnce(t1, times[1..]);
    }
  }

  /** Polls at non-decreasing instants end exactly where a single poll at
      the last instant would: the countdown never drifts. */
  lemma {:induction false} TicksDependOnLastOnly(t: Timer, times: seq<int>)
    requires |times| > 0 && NonDecreasing(times)
    ensures Ticks(t, times) == Tick(t, times[|times| - 1])
    decreases |times|
  {
    if |times| > 1 {
      var rest := times[1..];
      assert NonDecreasing(rest);
      TicksDependOnLastOnly(Tick(t, times[0]), rest);
      assert times[0] <= times[1];
      TickDriftFree(t, times[0], rest[|rest| - 1]);
    }
  }

  /** After a start at `startedAt`, polls at non-decreasing instants no
      earlier than the start never raise the remaining time and never exceed
      the value at start. */
  lemma TicksAfterStartMonotone(t: Timer, startedAt: int, times: seq<int>, later: int)
    requires !t.running && |times| > 0 && NonDecreasing(times)
    requires startedAt <= times[0] && times[|times| - 1] <= later
    ensures Ticks(Start(t, startedAt), times).timeLeft <= t.timeLeft
    ensures Tick(Ticks(Start(t, startedAt), times), later).timeLeft
         <= Ticks(Start(t, startedAt), times).timeLeft
  {
    var s := Start(t, startedAt);
    var last := times[|times| - 1];
    TicksDependOnLastOnly(s, times);
    TickAfterStartBounded(t, startedAt, last);
    TickDriftFree(s, last, later);
    TickNonIncreasing(s, last, later);
  }

  /** Polling `xs` then `ys` is polling `xs + ys`. */
  lemma {:induction false} TicksAppend(t: Timer, xs: seq<int>, ys: seq<int>)
    ensures Ticks(t, xs + ys) == Ticks(Ticks(t, xs), ys)
    decreases |xs|
  {
    if |xs| > 0 {
      assert (xs + ys)[1..] == xs[1..] + ys;
      TicksAppend(Tick(t, xs[0]), xs[1..], ys);
    } else {
      assert xs + ys == ys;
    }
  }

  /** Exactly one expiry per run: a timer started at `startedAt` and polled
      at non-decreasing instants has expired exactly once, stopped at 0, if
      the last poll is at least `timeLeft + 1` seconds after the start, and
      is still running with no expiry otherwise. */
  lemma RunExpiresExactlyOnce(t: Timer, startedAt: int, times: seq<int>)
    requires !t.running && |times| > 0 && NonDecreasing(times)
    ensures var d := Ticks(Start(t, startedAt), times);
      times[|times| - 1] >= startedAt + (t.timeLeft + 1) * Millis ==>
        !d.running && d.timeLeft == 0 && d.expirations == t.expirations + 1
    ensures var d := Ticks(Start(t, startedAt), times);
      times[|times| - 1] < startedAt + (t.timeLeft + 1) * Millis ==>
        d.running && d.expirations == t.expirations
  {
    TicksDependOnLastOnly(Start(t, startedAt), times);
  }
}
