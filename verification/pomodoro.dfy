/** The whole page's timer logic: the countdown, the custom-time dialog, and
    the user and interval events that drive them. */
module Pomodoro {
  import opened Decimal
  import Display
  import Countdown
  import CustomEntry

  datatype App = App(timer: Countdown.Timer, entry: CustomEntry.Entry)

  /** The state at page load. */
  const Initial: App := App(Countdown.Initial, CustomEntry.Entry("00", "00", "00", CustomEntry.Min))

  predicate Valid(a: App) {
    Countdown.Valid(a.timer)
  }

  /** The dialog's Set button: a positive total pauses the timer and shows
      that many seconds; a zero total only raises an alert. */
  function PressSet(a: App): (r: App)
    ensures CustomEntry.Total(a.entry) > 0 ==>
      && !r.timer.running
      && r.timer.timeLeft == CustomEntry.Total(a.entry)
      && r.timer.expirations == a.timer.expirations
    ensures CustomEntry.Total(a.entry) == 0 ==> r == a
    ensures r.entry == a.entry
    ensures Valid(a) ==> Valid(r)
  {
    var total := CustomEntry.Total(a.entry);
    if total > 0 then a.(timer := Countdown.SetDuration(a.timer, total)) else a
  }

  /** A preset button: pause, then show `minutes` whole minutes. */
  function PressPreset(a: App, minutes: nat): (r: App)
    ensures !r.timer.running && r.timer.timeLeft == minutes * 60
    ensures r.entry == a.entry
    ensures r.timer.expirations == a.timer.expirations
    ensures Valid(a) ==> Valid(r)
  {
    a.(timer := Countdown.SetDuration(a.timer, minutes * 60))
  }

  datatype Event =
    | StartPausePressed(now: int)
    | ResetPressed
    | PresetPressed(minutes: nat)
    | Poll(now: int)
    | CustomOpened
    | UnitChosen(unit: CustomEntry.Unit)
    | DigitPressed(digit: Digit)
    | SetPressed

  /** One user or interval event. Every event keeps the interval in step
      with the running flag, so no interval outlives a pause, a reset, a new
      duration or an expiry; only a poll can count an expiry, and only a
      start/pause press that finds the timer stopped can set it running. */
  function Step(a: App, e: Event): (r: App)
    ensures Valid(a) ==> Valid(r)
    ensures !e.Poll? ==> r.timer.expirations == a.timer.expirations
    ensures Valid(a) ==>
      r.timer.expirations + Live(r)
        <= a.timer.expirations + Live(a) + (if IsStart(a, e) then 1 else 0)
  {
    match e
    case StartPausePressed(now) => a.(timer := Countdown.Toggle(a.timer, now))
    case ResetPressed => a.(timer := Countdown.Reset(a.timer))
    case PresetPressed(minutes) => PressPreset(a, minutes)
    case Poll(now) => a.(timer := Countdown.Tick(a.timer, now))
    case CustomOpened => a.(entry := CustomEntry.Open(a.entry))
    case UnitChosen(u) => a.(entry := CustomEntry.Select(a.entry, u))
    case DigitPressed(d) => a.(entry := CustomEntry.PressDigit(a.entry, d))
    case SetPressed => PressSet(a)
  }

  /** Events applied in order. */
  function Run(a: App, events: seq<Event>): App
    decreases |events|
  {
    if |events| == 0 then a else Run(Step(a, events[0]), events[1..])
  }

  /** The number of start/pause presses among `events`. */
  function StartPresses(events: seq<Event>): nat
    decreases |events|
  {
    if |events| == 0 then 0
    else (if events[0].StartPausePressed? then 1 else 0) + StartPresses(events[1..])
  }

  /** A start/pause press that finds the timer stopped, and so starts it. */
  predicate IsStart(a: App, e: Event) {
    e.StartPausePressed? && !a.timer.running
  }

  /** The number of presses among `events`, applied from `a`, that start the
      timer; presses that pause it are not counted. */
  function Starts(a: App, events: seq<Event>): nat
    decreases |events|
  {
    if |events| == 0 then 0
    else (if IsStart(a, events[0]) then 1 else 0) + Starts(Step(a, events[0]), events[1..])
  }

  /** 1 while the countdown runs, else 0. */
  function Live(a: App): nat {
    if a.timer.running then 1 else 0
  }

  /** An expiry happens only where the running flag drops, and the flag can
      only rise on a press that starts the timer: so over any run, expiries
      plus a still running countdown never exceed the starts plus the
      countdown that was already running. In particular at most one expiry
      per start. */
  lemma {:induction false} ExpiriesBoundedByStarts(a: App, events: seq<Event>)
    requires Valid(a)
    ensures Valid(Run(a, events))
    ensures Run(a, events).timer.expirations + Live(Run(a, events))
         <= a.timer.expirations + Live(a) + Starts(a, events)
    decreases |events|
  {
    if |events| > 0 {
      ExpiriesBoundedByStarts(Step(a, events[0]), events[1..]);
    }
  }

  /** The page-load state: 25 minutes shown, stopped, no interval, no
      expiry yet, and the dialog fields at "00" with minutes selected. */
  lemma InitialState()
    ensures Valid(Initial)
    ensures Initial.timer.timeLeft == Countdown.TimerDefault == 1500
    ensures !Initial.timer.running && !Initial.timer.intervalLive
    ensures Initial.timer.expirations == 0
    ensures forall u :: CustomEntry.Get(Initial.entry, u) == "00"
    ensures Initial.entry.unit == CustomEntry.Min
  {
  }

  /** From page load, the alarm can have gone off at most once per press of
      the start/pause button that started the timer, and so at most once per
      press of that button. */
  lemma ExpiriesFromLoad(events: seq<Event>)
    ensures Run(Initial, events).timer.expirations <= Starts(Initial, events)
    ensures Run(Initial, events).timer.expirations <= StartPresses(events)
  {
    ExpiriesBoundedByStarts(Initial, events);
    StartsAtMostPresses(Initial, events);
  }

  /** Only start/pause presses can start the timer, and a press that pauses
      it does not count, so the starts never exceed the presses. */
  lemma {:induction false} StartsAtMostPresses(a: App, events: seq<Event>)
    ensures Starts(a, events) <= StartPresses(events)
    decreases |events|
  {
    if |events| > 0 {
      StartsAtMostPresses(Step(a, events[0]), events[1..]);
    }
  }

  /** Applying `[e] + rest` is applying `e`, then `rest`. */
  lemma RunCons(a: App, e: Event, rest: seq<Event>)
    ensures Run(a, [e] + rest) == Run(Step(a, e), rest)
  {
    assert ([e] + rest)[1..] == rest;
  }

  /** Applying `xs + ys` is applying `xs`, then `ys`. */
  lemma {:induction false} RunAppend(a: App, xs: seq<Event>, ys: seq<Event>)
    ensures Run(a, xs + ys) == Run(Run(a, xs), ys)
    decreases |xs|
  {
    if |xs| > 0 {
      assert (xs + ys)[0] == xs[0];
      assert (xs + ys)[1..] == xs[1..] + ys;
      RunAppend(Step(a, xs[0]), xs[1..], ys);
    } else {
      assert xs + ys == ys;
    }
  }

  /** Opening the dialog and entering 5 seconds. */
  const EnterFiveSeconds: seq<Event> :=
    [CustomOpened, UnitChosen(CustomEntry.Sec), DigitPressed('5'), SetPressed]

  /** `EnterFiveSeconds` is its four events one after another. */
  lemma EnterFiveSecondsSteps(a: App)
    ensures Run(a, EnterFiveSeconds)
         == Step(Step(Step(Step(a, CustomOpened), UnitChosen(CustomEntry.Sec)),
                      DigitPressed('5')), SetPressed)
  {
    var a1 := Step(a, CustomOpened);
    var a2 := Step(a1, UnitChosen(CustomEntry.Sec));
    var a3 := Step(a2, DigitPressed('5'));
    RunCons(a3, SetPressed, []);
    RunCons(a2, DigitPressed('5'), [SetPressed]);
    RunCons(a1, UnitChosen(CustomEntry.Sec), [DigitPressed('5'), SetPressed]);
    RunCons(a, CustomOpened, [UnitChosen(CustomEntry.Sec), DigitPressed('5'), SetPressed]);
  }

  /** Open, choose seconds, type 5: the dialog reads 00:00:05. */
  lemma FiveSecondsTyped(a: App)
    ensures var r := Step(Step(Step(a, CustomOpened), UnitChosen(CustomEntry.Sec)),
                          DigitPressed('5'));
      r == a.(entry := CustomEntry.Entry("00", "00", "05", CustomEntry.Sec))
  {
    var e0 := CustomEntry.Entry("00", "00", "00", CustomEntry.Min);
    OpenStep(a);
    var a1 := a.(entry := e0);
    ChooseStep(a1, CustomEntry.Sec);
    var a2 := a.(entry := e0.(unit := CustomEntry.Sec));
    DigitStep(a2, '5');
    var e3 := CustomEntry.PressDigit(a2.entry, '5');
    assert CustomEntry.Get(e3, CustomEntry.Sec) == "05";
    assert CustomEntry.Get(e3, CustomEntry.Hr) == "00";
    assert CustomEntry.Get(e3, CustomEntry.Min) == "00";
  }

  /** Opening the dialog touches only the dialog. */
  lemma OpenStep(a: App)
    ensures Step(a, CustomOpened) == a.(entry := CustomEntry.Entry("00", "00", "00", CustomEntry.Min))
  {
  }

  /** Choosing a unit touches only the selected unit. */
  lemma ChooseStep(a: App, u: CustomEntry.Unit)
    ensures Step(a, UnitChosen(u)) == a.(entry := a.entry.(unit := u))
  {
  }

  /** A digit key touches only the dialog. */
  lemma DigitStep(a: App, d: Digit)
    ensures Step(a, DigitPressed(d)) == a.(entry := CustomEntry.PressDigit(a.entry, d))
  {
  }

  /** 00:00:05 totals five seconds. */
  lemma FiveSecondsTotal()
    ensures CustomEntry.Total(CustomEntry.Entry("00", "00", "05", CustomEntry.Sec)) == 5
  {
    ParseTwo("05");
    ParseTwo("00");
  }

  /** From any stopped state, entering 5 seconds shows 5 and changes
      nothing else about the timer. */
  lemma EnterFiveSecondsSets(a: App)
    requires !a.timer.running
    ensures Run(a, EnterFiveSeconds).timer == a.timer.(timeLeft := 5)
  {
    EnterFiveSecondsSteps(a);
    FiveSecondsTyped(a);
    SetFiveSeconds(a);
  }

  /** Set on a 00:00:05 dialog shows 5 seconds on a stopped timer. */
  lemma SetFiveSeconds(a: App)
    requires !a.timer.running
    ensures Step(a.(entry := CustomEntry.Entry("00", "00", "05", CustomEntry.Sec)), SetPressed).timer
         == a.timer.(timeLeft := 5)
  {
    FiveSecondsTotal();
  }

  /** Polls at the given instants. */
  function Polls(times: seq<int>): (r: seq<Event>)
    ensures |r| == |times|
    ensures forall i :: 0 <= i < |times| ==> r[i] == Poll(times[i])
  {
    seq(|times|, i requires 0 <= i < |times| => Poll(times[i]))
  }

  /** Polling only is polling the countdown. */
  lemma {:induction false} RunPolls(a: App, times: seq<int>)
    ensures Run(a, Polls(times)) == a.(timer := Countdown.Ticks(a.timer, times))
    decreases |times|
  {
    if |times| > 0 {
      assert Polls(times)[1..] == Polls(times[1..]);
      RunPolls(Step(a, Poll(times[0])), times[1..]);
    }
  }

  /** The instants of the first five polls. */
  function FirstPolls(t0: int): seq<int> {
    [t0 + 1000, t0 + 2000, t0 + 3000, t0 + 4000, t0 + 5000]
  }

  /** The instants of the polls after that. */
  function LaterPolls(t0: int): seq<int> {
    [t0 + 6000, t0 + 7000, t0 + 60000]
  }

  /** A timer started at `t0` with five seconds, polled for five seconds,
      shows 0 and is still running. */
  lemma FiveSecondsPolled(t: Countdown.Timer, t0: int)
    requires !t.running && t.timeLeft == 5
    ensures var z := Countdown.Ticks(Countdown.Toggle(t, t0), FirstPolls(t0));
      z.timeLeft == 0 && z.running && z.expirations == t.expirations
  {
    var s := Countdown.Toggle(t, t0);
    assert Countdown.NonDecreasing(FirstPolls(t0));
    Countdown.TicksDependOnLastOnly(s, FirstPolls(t0));
  }

  /** Polling further expires the timer exactly once. */
  lemma FiveSecondsExpire(t: Countdown.Timer, t0: int)
    requires !t.running && t.timeLeft == 5
    ensures var d := Countdown.Ticks(Countdown.Ticks(Countdown.Toggle(t, t0), FirstPolls(t0)),
                                     LaterPolls(t0));
      !d.running && d.timeLeft == 0 && d.expirations == t.expirations + 1
  {
    var all := FirstPolls(t0) + LaterPolls(t0);
    assert Countdown.NonDecreasing(all);
    Countdown.TicksAppend(Countdown.Toggle(t, t0), FirstPolls(t0), LaterPolls(t0));
    Countdown.RunExpiresExactlyOnce(t, t0, all);
  }

  /** A five-second custom countdown started at `t0` and polled every second:
      it shows 0 five seconds in, without expiring yet, and expires exactly
      once at the following poll, leaving the timer stopped at 0 however
      many polls follow. */
  lemma FiveSecondRun(t0: int)
    ensures var ready := Run(Initial, EnterFiveSeconds);
      var started := Step(ready, StartPausePressed(t0));
      var atZero := Run(started, Polls(FirstPolls(t0)));
      var done := Run(atZero, Polls(LaterPolls(t0)));
      && ready.timer.timeLeft == 5 && !ready.timer.running
      && atZero.timer.timeLeft == 0 && atZero.timer.running && atZero.timer.expirations == 0
      && !done.timer.running && done.timer.timeLeft == 0 && done.timer.expirations == 1
  {
    EnterFiveSecondsSets(Initial);
    var ready := Run(Initial, EnterFiveSeconds);
    var started := Step(ready, StartPausePressed(t0));
    RunPolls(started, FirstPolls(t0));
    var atZero := Run(started, Polls(FirstPolls(t0)));
    RunPolls(atZero, LaterPolls(t0));
    FiveSecondsPolled(ready.timer, t0);
    FiveSecondsExpire(ready.timer, t0);
  }

  /** Choosing a preset and then resetting goes back to 25 minutes, not to
      the chosen duration. */
  lemma ResetForgetsChosenDuration(a: App, minutes: nat)
    ensures Run(a, [PresetPressed(minutes), ResetPressed]).timer.timeLeft
         == Countdown.TimerDefault
  {
    var b := Step(a, PresetPressed(minutes));
    RunCons(b, ResetPressed, []);
    RunCons(a, PresetPressed(minutes), [ResetPressed]);
  }

  /** The events that fill the dialog with 99:99:99 and press Set. */
  const EnterMaximum: seq<Event> :=
    [CustomOpened,
     UnitChosen(CustomEntry.Hr), DigitPressed('9'), DigitPressed('9'),
     UnitChosen(CustomEntry.Min), DigitPressed('9'), DigitPressed('9'),
     UnitChosen(CustomEntry.Sec), DigitPressed('9'), DigitPressed('9'),
     SetPressed]

  /** Typing `d` twice into unit `u`. */
  function TypeTwice(u: CustomEntry.Unit, d: Digit): seq<Event> {
    [UnitChosen(u), DigitPressed(d), DigitPressed(d)]
  }

  /** Choosing a unit and pressing one digit twice fills that field with the
      digit, leaves the other two fields and the timer alone, and keeps the
      unit selected. */
  lemma TypeTwiceFills(a: App, u: CustomEntry.Unit, d: Digit)
    ensures var r := Run(a, TypeTwice(u, d));
      && CustomEntry.Get(r.entry, u) == [d, d]
      && (forall v :: v != u ==> CustomEntry.Get(r.entry, v) == CustomEntry.Get(a.entry, v))
      && r.entry.unit == u && r.timer == a.timer
  {
    var a1 := Step(a, UnitChosen(u));
    var a2 := Step(a1, DigitPressed(d));
    var a3 := Step(a2, DigitPressed(d));
    assert Run(a, TypeTwice(u, d)) == a3 by {
      RunCons(a2, DigitPressed(d), []);
      RunCons(a1, DigitPressed(d), [DigitPressed(d)]);
      RunCons(a, UnitChosen(u), [DigitPressed(d), DigitPressed(d)]);
    }
  }

  /** `EnterMaximum` is the dialog opened, then nines typed into each field,
      then Set. */
  lemma EnterMaximumSplits(a: App)
    ensures Run(a, EnterMaximum)
         == Step(Run(Run(Run(Step(a, CustomOpened),
                              TypeTwice(CustomEntry.Hr, '9')),
                          TypeTwice(CustomEntry.Min, '9')),
                      TypeTwice(CustomEntry.Sec, '9')),
                 SetPressed)
  {
    var hr := TypeTwice(CustomEntry.Hr, '9');
    var mn := TypeTwice(CustomEntry.Min, '9');
    var sc := TypeTwice(CustomEntry.Sec, '9');
    var a1 := Step(a, CustomOpened);
    assert EnterMaximum == [CustomOpened] + (hr + (mn + (sc + [SetPressed])));
    RunCons(a, CustomOpened, hr + (mn + (sc + [SetPressed])));
    RunAppend(a1, hr, mn + (sc + [SetPressed]));
    RunAppend(Run(a1, hr), mn, sc + [SetPressed]);
    RunAppend(Run(Run(a1, hr), mn), sc, [SetPressed]);
    RunCons(Run(Run(Run(a1, hr), mn), sc), SetPressed, []);
  }

  /** Set with every field at "99" shows 99:99:99 worth of seconds. */
  lemma SetAtMaximum(b: App)
    requires b.entry.hr == "99" && b.entry.min == "99" && b.entry.sec == "99"
    ensures Step(b, SetPressed).timer.timeLeft == CustomEntry.MaxTotal
    ensures !Step(b, SetPressed).timer.running
  {
    ParseTwo("99");
    assert CustomEntry.Total(b.entry) == CustomEntry.MaxTotal;
  }

  /** Opening the dialog and typing nines everywhere fills every field with
      "99". */
  lemma TypeNinesEverywhere(a: App)
    ensures var b := Run(Run(Run(Step(a, CustomOpened),
                                  TypeTwice(CustomEntry.Hr, '9')),
                              TypeTwice(CustomEntry.Min, '9')),
                          TypeTwice(CustomEntry.Sec, '9'));
      b.entry.hr == "99" && b.entry.min == "99" && b.entry.sec == "99"
  {
    var a1 := Step(a, CustomOpened);
    var a2 := Run(a1, TypeTwice(CustomEntry.Hr, '9'));
    var a3 := Run(a2, TypeTwice(CustomEntry.Min, '9'));
    var a4 := Run(a3, TypeTwice(CustomEntry.Sec, '9'));
    TypeTwiceFills(a1, CustomEntry.Hr, '9');
    TypeTwiceFills(a2, CustomEntry.Min, '9');
    TypeTwiceFills(a3, CustomEntry.Sec, '9');
    assert CustomEntry.Get(a4.entry, CustomEntry.Hr) == "99";
    assert CustomEntry.Get(a4.entry, CustomEntry.Min) == "99";
  }

  /** The largest custom entry, 99:99:99, is accepted as 362439 seconds,
      from any state, and shows a three-digit hour field "100". */
  lemma MaxEntryShowsThreeDigitHours(a: App)
    ensures Run(a, EnterMaximum).timer.timeLeft == CustomEntry.MaxTotal
    ensures !Run(a, EnterMaximum).timer.running
    ensures Display.FormatTime(Run(a, EnterMaximum).timer.timeLeft).h
         == Display.Some("100")
  {
    TypeNinesEverywhere(a);
    SetAtMaximum(Run(Run(Run(Step(a, CustomOpened),
                              TypeTwice(CustomEntry.Hr, '9')),
                          TypeTwice(CustomEntry.Min, '9')),
                      TypeTwice(CustomEntry.Sec, '9')));
    EnterMaximumSplits(a);
    MaxTotalShowsHundredHours();
  }

  /** 362439 seconds is 100 whole hours, shown as "100". */
  lemma MaxTotalShowsHundredHours()
    ensures Display.FormatTime(CustomEntry.MaxTotal).h == Display.Some("100")
  {
    assert CustomEntry.MaxTotal / 3600 == 100;
    assert ToDecimal(10) == "10";
    assert ToDecimal(100) == "100";
  }
}
