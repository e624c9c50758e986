/** The match clock: whole seconds of the current period, rebuilt from a stored start instant.
    Instants are milliseconds. */
module MatchClock {
  import opened Basics
  import opened Results

  const MATCH_CLOCK_MINUTE_MAX := 120

  /** `elapsedSeconds` excludes the stretch that is running since `startedAt`. */
  datatype ClockState = ClockState(currentPeriod: int, elapsedSeconds: int, running: bool, startedAt: Option<int>)

  datatype Display = Display(period: int, minute: int, elapsedSeconds: int)

  datatype ClockError = LastPeriod

  function ElapsedSeconds(c: ClockState, now: int): int {
    if c.running && c.startedAt.Some? then c.elapsedSeconds + Max(0, (now - c.startedAt.value) / 1000)
    else c.elapsedSeconds
  }

  function ClockDisplay(c: ClockState, now: int): Display {
    var elapsed := ElapsedSeconds(c, now);
    Display(c.currentPeriod, Min(MATCH_CLOCK_MINUTE_MAX, elapsed / 60), elapsed)
  }

  function InitialClock(now: int): ClockState {
    ClockState(1, 0, true, Some(now))
  }

  function PauseClock(c: ClockState, now: int): ClockState {
    if !c.running then c
    else c.(running := false, elapsedSeconds := ElapsedSeconds(c, now), startedAt := None)
  }

  function ResumeClock(c: ClockState, now: int): ClockState {
    if c.running then c else c.(running := true, startedAt := Some(now))
  }

  function NextPeriodClock(c: ClockState, now: int, periodsCount: int): Result<ClockState, ClockError> {
    if c.currentPeriod >= periodsCount then Err(LastPeriod)
    else Ok(ClockState(c.currentPeriod + 1, 0, true, Some(now)))
  }

  function AdjustMinuteClock(c: ClockState, now: int, minute: int): ClockState {
    var clamped := Min(MATCH_CLOCK_MINUTE_MAX, Max(0, minute));
    c.(elapsedSeconds := clamped * 60, startedAt := if c.running then Some(now) else None)
  }

  datatype Command = Pause | Resume | NextPeriod | Adjust(minute: int)

  /** The two values that applyCommand persists. The column of the start instant holds whole seconds:
      `stored` is what it keeps of `now`. */
  function ApplyCommand(
    c: ClockState, pausedAt: Option<int>, command: Command, now: int, stored: int, periodsCount: int)
    : Result<(ClockState, Option<int>), ClockError>
  {
    match command
    case Pause => Ok((PauseClock(c, now), Some(now)))
    case Resume => Ok((ResumeClock(c, stored), None))
    case NextPeriod =>
      (match NextPeriodClock(c, stored, periodsCount)
       case Err(e) => Err(e)
       case Ok(next) => Ok((next, None)))
    case Adjust(minute) =>
      var next := AdjustMinuteClock(c, stored, minute);
      Ok((next, if next.running then None else Some(now)))
  }

  /** The minute is the whole minutes displayed, and never more than 120. */
  lemma DisplayedMinute(c: ClockState, now: int)
    ensures var d := ClockDisplay(c, now);
      && d.period == c.currentPeriod && d.minute <= 120
      && (d.elapsedSeconds < 7200 ==> 60 * d.minute <= d.elapsedSeconds < 60 * d.minute + 60)
      && (d.elapsedSeconds >= 7200 ==> d.minute == 120)
  {
  }

  /** The minute that an adjustment to `minute` sets. */
  function Clamped(minute: int): int { if minute < 0 then 0 else if minute > 120 then 120 else minute }

  /** An adjustment sets the display to that minute, full: a running clock counts on from there, a stopped one
      shows it until it is resumed. The period and the running flag stay. */
  lemma AdjustedDisplay(c: ClockState, stored: int, minute: int, at: int)
    ensures var after := AdjustMinuteClock(c, stored, minute);
      && ClockDisplay(after, stored) == Display(c.currentPeriod, Clamped(minute), 60 * Clamped(minute))
      && after.running == c.running && (after.startedAt.Some? <==> c.running)
      && (!c.running ==> ClockDisplay(after, at) == ClockDisplay(after, stored))
      && (c.running && at >= stored ==>
            ClockDisplay(after, at).elapsedSeconds == 60 * Clamped(minute) + (at - stored) / 1000)
  {
  }

  /** After every accepted command the pause stored is that of now if the clock stands, and none if it runs. */
  lemma PauseIsStored(c: ClockState, pausedAt: Option<int>, command: Command, now: int, stored: int, periodsCount: int)
    requires ApplyCommand(c, pausedAt, command, now, stored, periodsCount).Ok?
    ensures var r := ApplyCommand(c, pausedAt, command, now, stored, periodsCount).value;
      r.1 == if r.0.running then None else Some(now)
  {
  }

  // Starting and finishing a match happen in SQL

  /** TIMESTAMPDIFF(SECOND, a, b) drops the fraction towards zero, unlike Math.floor. */
  function TimestampDiffSeconds(a: int, b: int): int {
    if b >= a then (b - a) / 1000 else -((a - b) / 1000)
  }

  /** Whole seconds of the distance, cut off, with the sign of the order. */
  lemma DifferenceIsCutOff(a: int, b: int)
    ensures TimestampDiffSeconds(b, a) == -TimestampDiffSeconds(a, b)
    ensures a <= b ==> 1000 * TimestampDiffSeconds(a, b) <= b - a < 1000 * TimestampDiffSeconds(a, b) + 1000
  {
  }

  /** The CASE of the finishing UPDATE, on the row as it stands when the CASE is evaluated. */
  function ElapsedByCase(row: ClockState, now: int): int {
    if row.running && row.startedAt.Some?
    then row.elapsedSeconds + Max(0, TimestampDiffSeconds(row.startedAt.value, now)) else row.elapsedSeconds
  }

  /** MySQL carries out the assignments of an UPDATE from left to right, and each reads what those before it
      have written: here `running` is 0 before the CASE asks for it. */
  function ClockFinishedBySql(c: ClockState, now: int): ClockState {
    var stopped := c.(running := false);
    var counted := stopped.(elapsedSeconds := ElapsedByCase(stopped, now));
    counted.(startedAt := None)
  }

  /** The same assignments with the CASE first. */
  function ClockFinishedCaseFirst(c: ClockState, now: int): ClockState {
    var counted := c.(elapsedSeconds := ElapsedByCase(c, now));
    var stopped := counted.(running := false);
    stopped.(startedAt := None)
  }

  /** A start instant is stored exactly while the clock runs. */
  predicate Consistent(c: ClockState) { c.running <==> c.startedAt.Some? }

  /** A stopped clock, or one whose running stretch has not reached a second. */
  predicate NothingToCount(c: ClockState, now: int) {
    c.running && c.startedAt.Some? ==> now - c.startedAt.value < 1000
  }

  /** Finishing a match in SQL leaves the clock as pausing it at that instant would if and only if there is no
      full second of a running stretch to count. Otherwise the stretch is lost. */
  lemma SqlFinishIsPauseIff(c: ClockState, now: int)
    ensures ClockFinishedBySql(c, now) == PauseClock(c, now) <==>
      NothingToCount(c, now) && (c.running || c.startedAt.None?)
    ensures Consistent(c) ==> (ClockFinishedBySql(c, now) == PauseClock(c, now) <==> NothingToCount(c, now))
  {
  }

  /** What the display loses at the finish: the whole seconds of the running stretch, for good. */
  lemma FinishDropsStretch(c: ClockState, now: int, later: int)
    requires Consistent(c)
    ensures var before, after := ClockDisplay(c, now), ClockDisplay(ClockFinishedBySql(c, now), later);
      && after.period == before.period
      && before.elapsedSeconds - after.elapsedSeconds
         == (if c.running then Max(0, (now - c.startedAt.value) / 1000) else 0)
    ensures ClockDisplay(ClockFinishedBySql(c, now), later) == ClockDisplay(ClockFinishedBySql(c, now), now)
    ensures NotBefore(c, now, ClockFinishedBySql(c, now), later) <==> NothingToCount(c, now)
  {
  }

  /** With the CASE first the statement is a pause; only stopped clocks that hold a start instant differ. */
  lemma CaseFirstIsPause(c: ClockState, now: int)
    ensures ClockFinishedCaseFirst(c, now) == PauseClock(c, now) <==> c.running || c.startedAt.None?
  {
    if c.running && c.startedAt.Some? {
      SecondsAgree(c.startedAt.value, now);
    }
  }

  lemma SecondsAgree(a: int, b: int)
    ensures Max(0, TimestampDiffSeconds(a, b)) == Max(0, (b - a) / 1000)
  {
  }

  // Runs of commands

  /** One command at instant `now`; `stored` is the start instant the database keeps for it, which may
      differ from `now` because the column holds whole seconds. */
  datatype Timed = Timed(command: Command, now: int, stored: int)

  /** A refused command leaves the clock alone. The stored instant only matters where one is stored. */
  function Step(c: ClockState, e: Timed, periodsCount: int): ClockState {
    match e.command
    case Pause => PauseClock(c, e.now)
    case Resume => ResumeClock(c, e.stored)
    case NextPeriod =>
      (match NextPeriodClock(c, e.stored, periodsCount) case Ok(next) => next case Err(_) => c)
    case Adjust(minute) => AdjustMinuteClock(c, e.stored, minute)
  }

  function Run(c: ClockState, events: seq<Timed>, periodsCount: int): ClockState {
    if events == [] then c
    else Step(Run(c, events[..|events| - 1], periodsCount), events[|events| - 1], periodsCount)
  }

  /** A step is what applyCommand does, however the start instant is stored. */
  lemma StepIsApplyCommand(c: ClockState, pausedAt: Option<int>, e: Timed, periodsCount: int)
    ensures ApplyCommand(c, pausedAt, e.command, e.now, e.stored, periodsCount).Ok? ==>
      Step(c, e, periodsCount) == ApplyCommand(c, pausedAt, e.command, e.now, e.stored, periodsCount).value.0
    ensures ApplyCommand(c, pausedAt, e.command, e.now, e.stored, periodsCount).Err? ==> Step(c, e, periodsCount) == c
  {
  }

  /** Any commands at all keep the start instant tied to running, and the period in range. */
  lemma {:induction false} RunKeepsClockSound(c: ClockState, events: seq<Timed>, periodsCount: int)
    requires Consistent(c) && 1 <= c.currentPeriod <= periodsCount
    ensures Consistent(Run(c, events, periodsCount))
    ensures 1 <= Run(c, events, periodsCount).currentPeriod <= periodsCount
  {
    if events != [] {
      RunKeepsClockSound(c, events[..|events| - 1], periodsCount);
    }
  }

  /** From the start of a match on: sound at every moment. */
  lemma MatchClockIsSound(startedAt: int, events: seq<Timed>, periodsCount: int)
    requires periodsCount >= 1
    ensures Consistent(Run(InitialClock(startedAt), events, periodsCount))
    ensures 1 <= Run(InitialClock(startedAt), events, periodsCount).currentPeriod <= periodsCount
  {
    RunKeepsClockSound(InitialClock(startedAt), events, periodsCount);
  }

  predicate NoAdjust(events: seq<Timed>) {
    forall i :: 0 <= i < |events| ==> !events[i].command.Adjust?
  }

  /** The instants of the commands do not go back and lie between `from` and `to`. */
  predicate Ordered(from: int, events: seq<Timed>, to: int) {
    && from <= to
    && (forall i :: 0 <= i < |events| ==> from <= events[i].now <= to)
    && (forall i, j :: 0 <= i < j < |events| ==> events[i].now <= events[j].now)
  }

  /** The display of a clock is not before the display of another one, in seconds and in minutes. */
  predicate NotBefore(c: ClockState, atC: int, d: ClockState, atD: int) {
    var a, b := ClockDisplay(c, atC), ClockDisplay(d, atD);
    a.period < b.period || (a.period == b.period && a.elapsedSeconds <= b.elapsedSeconds && a.minute <= b.minute)
  }

  lemma NotBeforeIsTransitive(c: ClockState, atC: int, d: ClockState, atD: int, e: ClockState, atE: int)
    requires NotBefore(c, atC, d, atD) && NotBefore(d, atD, e, atE)
    ensures NotBefore(c, atC, e, atE)
  {
  }

  /** A clock alone never goes back. */
  lemma WaitingGoesForward(c: ClockState, from: int, to: int)
    requires from <= to
    ensures NotBefore(c, from, c, to)
  {
    assert ElapsedSeconds(c, from) <= ElapsedSeconds(c, to);
    MinutesFollow(ElapsedSeconds(c, from), ElapsedSeconds(c, to));
  }

  lemma MinutesFollow(a: int, b: int)
    requires a <= b
    ensures a / 60 <= b / 60
  {
  }

  lemma StepGoesForward(c: ClockState, e: Timed, periodsCount: int, from: int, to: int)
    requires Consistent(c) && !e.command.Adjust? && from <= e.now <= to
    ensures NotBefore(c, from, Step(c, e, periodsCount), to)
  {
    var d := Step(c, e, periodsCount);
    if d.currentPeriod == c.currentPeriod {
      assert ElapsedSeconds(c, from) <= ElapsedSeconds(c, e.now) <= ElapsedSeconds(c, to);
      assert ElapsedSeconds(c, from) <= ElapsedSeconds(d, to);
      MinutesFollow(ElapsedSeconds(c, from), ElapsedSeconds(d, to));
    }
  }

  /** Without a manual adjustment the pair (period, displayed seconds) never goes back, however the
      stored start instants were rounded. */
  lemma {:induction false} DisplayNeverGoesBack(
    c: ClockState, events: seq<Timed>, periodsCount: int, from: int, to: int)
    requires Consistent(c) && 1 <= c.currentPeriod <= periodsCount
    requires NoAdjust(events) && Ordered(from, events, to)
    ensures NotBefore(c, from, Run(c, events, periodsCount), to)
  {
    if events == [] {
      WaitingGoesForward(c, from, to);
    } else {
      var front, last := events[..|events| - 1], events[|events| - 1];
      DisplayNeverGoesBack(c, front, periodsCount, from, last.now);
      RunKeepsClockSound(c, front, periodsCount);
      StepGoesForward(Run(c, front, periodsCount), last, periodsCount, last.now, to);
    }
  }

  // How far the display can be from the real running time within one period, whichever period it is

  predicate OnlyPauseResume(events: seq<Timed>) {
    forall i :: 0 <= i < |events| ==> events[i].command == Pause || events[i].command == Resume
  }

  /** Every stored start instant is within `slack` of the true one; slack 0 is exact storage. */
  predicate StoredWithin(events: seq<Timed>, slack: int) {
    forall i :: 0 <= i < |events| ==> -slack <= events[i].stored - events[i].now <= slack
  }

  /** A stop watch of its own: milliseconds of the closed stretches, the true start of the open one,
      and the number of stretches so far. */
  datatype StopWatch = StopWatch(closed: int, openSince: Option<int>, stretches: nat)

  function Press(w: StopWatch, e: Timed): StopWatch {
    if e.command == Pause && w.openSince.Some? then
      StopWatch(w.closed + e.now - w.openSince.value, None, w.stretches)
    else if e.command == Resume && w.openSince.None? then
      StopWatch(w.closed, Some(e.now), w.stretches + 1)
    else w
  }

  function Measure(w: StopWatch, events: seq<Timed>): StopWatch {
    if events == [] then w else Press(Measure(w, events[..|events| - 1]), events[|events| - 1])
  }

  function RealMs(w: StopWatch, now: int): int {
    w.closed + if w.openSince.Some? then now - w.openSince.value else 0
  }

  /** The two devices agree on running, and differ by less than the rounding of the stretches. */
  predicate Within(c: ClockState, w: StopWatch, now: int, slack: int) {
    && Consistent(c) && (c.running <==> w.openSince.Some?)
    && (c.running ==> -slack <= c.startedAt.value - w.openSince.value <= slack)
    && (w.openSince.Some? ==> w.openSince.value <= now && w.stretches >= 1)
  }

  predicate ClosedWithin(c: ClockState, w: StopWatch, slack: int) {
    var open := if w.openSince.Some? then 1 else 0;
    && 1000 * c.elapsedSeconds <= w.closed + slack * (w.stretches - open)
    && w.closed - (999 + slack) * (w.stretches - open) <= 1000 * c.elapsedSeconds
  }

  lemma OpenStretch(c: ClockState, w: StopWatch, now: int, slack: nat)
    requires Within(c, w, now, slack) && ClosedWithin(c, w, slack)
    ensures 1000 * ElapsedSeconds(c, now) <= RealMs(w, now) + slack * w.stretches
    ensures RealMs(w, now) - (999 + slack) * w.stretches <= 1000 * ElapsedSeconds(c, now)
  {
    if c.running {
      var shown := now - c.startedAt.value;
      assert 1000 * (shown / 1000) <= shown <= 1000 * (shown / 1000) + 999;
      assert slack * w.stretches == slack * (w.stretches - 1) + slack;
      assert (999 + slack) * w.stretches == (999 + slack) * (w.stretches - 1) + 999 + slack;
    }
  }

  lemma {:induction false} RunStaysWithin(
    c: ClockState, w: StopWatch, t0: int, events: seq<Timed>, periodsCount: int, slack: nat, now: int)
    requires OnlyPauseResume(events) && Ordered(t0, events, now) && StoredWithin(events, slack)
    requires Within(c, w, t0, slack) && ClosedWithin(c, w, slack)
    ensures Within(Run(c, events, periodsCount), Measure(w, events), now, slack)
    ensures ClosedWithin(Run(c, events, periodsCount), Measure(w, events), slack)
    ensures Run(c, events, periodsCount).currentPeriod == c.currentPeriod
  {
    if events != [] {
      var front, last := events[..|events| - 1], events[|events| - 1];
      RunStaysWithin(c, w, t0, front, periodsCount, slack, last.now);
      OpenStretch(Run(c, front, periodsCount), Measure(w, front), last.now, slack);
    }
  }

  /** A stop watch set to what the clock shows when it is set at `t0`. */
  function SetWith(c: ClockState, t0: int): StopWatch {
    StopWatch(1000 * c.elapsedSeconds, if c.running then Some(t0) else None, if c.running then 1 else 0)
  }

  /** From any setting of the clock, in any period: kick-off, a next period, or a manual adjustment of a
      running or a stopped clock. After any pauses and resumes the displayed time exceeds the real running
      time by no more than the storage, and falls short by at most 999 milliseconds (and the storage) per
      running stretch. */
  lemma ShownIsNearReal(c: ClockState, t0: int, events: seq<Timed>, periodsCount: int, slack: nat, now: int)
    requires Consistent(c) && (c.running ==> t0 - slack <= c.startedAt.value <= t0 + slack)
    requires OnlyPauseResume(events) && Ordered(t0, events, now) && StoredWithin(events, slack)
    ensures var shown := 1000 * ClockDisplay(Run(c, events, periodsCount), now).elapsedSeconds;
      var w := Measure(SetWith(c, t0), events);
      && shown <= RealMs(w, now) + slack * w.stretches
      && RealMs(w, now) - shown <= (999 + slack) * w.stretches
    ensures ClockDisplay(Run(c, events, periodsCount), now).period == c.currentPeriod
  {
    RunStaysWithin(c, SetWith(c, t0), t0, events, periodsCount, slack, now);
    OpenStretch(Run(c, events, periodsCount), Measure(SetWith(c, t0), events), now, slack);
  }

  /** The clock of a period that starts. */
  function PeriodStart(period: int, startedAt: int): ClockState {
    ClockState(period, 0, true, Some(startedAt))
  }

  /** In every period the displayed time is at most the real running time, and short of it by less than one
      second per running stretch. With start instants stored up to `slack` off, each stretch adds that much
      to either side. */
  lemma DisplayedTimeIsAccurate(
      period: int, t0: int, s0: int, events: seq<Timed>, periodsCount: int, slack: nat, now: int)
    requires OnlyPauseResume(events) && Ordered(t0, events, now) && StoredWithin(events, slack)
    requires t0 - slack <= s0 <= t0 + slack
    ensures var shown := 1000 * ClockDisplay(Run(PeriodStart(period, s0), events, periodsCount), now).elapsedSeconds;
      var w := Measure(StopWatch(0, Some(t0), 1), events);
      && shown <= RealMs(w, now) + slack * w.stretches
      && RealMs(w, now) - shown < (1000 + slack) * w.stretches
  {
    var w := Measure(StopWatch(0, Some(t0), 1), events);
    ShownIsNearReal(PeriodStart(period, s0), t0, events, periodsCount, slack, now);
    StretchesCount(StopWatch(0, Some(t0), 1), events);
    assert (1000 + slack) * w.stretches == (999 + slack) * w.stretches + w.stretches;
  }

  lemma {:induction false} StretchesCount(w: StopWatch, events: seq<Timed>)
    requires w.stretches >= 1
    ensures Measure(w, events).stretches >= 1
  {
    if events != [] {
      StretchesCount(w, events[..|events| - 1]);
    }
  }
}
