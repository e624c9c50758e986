/** The clock of one match inside whole runs of live-match calls: its history is a run of the pure clock,
    so what is proved of the pure clock holds of the stored one. */
module LiveMatchClockRuns {
  import opened Results
  import MatchClock
  import opened LiveMatch
  import opened LiveMatchRuns
  import LiveMatchActions
  import LiveMatchClosed

  predicate Accepted(t: Tables, cfg: Config, e: Event, m: int) {
    e.call.Clock? && e.call.m == m && ClockRefusal(t, cfg, e.call.actor, m, e.call.command, e.now).None?
  }

  function TimedOf(e: Event): MatchClock.Timed
    requires e.call.Clock?
  {
    MatchClock.Timed(e.call.command, e.now, e.stored)
  }

  /** The accepted commands to one match, in order. */
  function CommandsOf(t: Tables, cfg: Config, trace: seq<Event>, m: int): seq<MatchClock.Timed> {
    if trace == [] then []
    else
      var front, e := trace[..|trace| - 1], trace[|trace| - 1];
      CommandsOf(t, cfg, front, m)
        + if Accepted(Run(t, cfg, front), cfg, e, m) then [TimedOf(e)] else []
  }

  /** Calls that neither start, finish nor cancel the match, nor change its number of periods. */
  predicate KeepsPlaying(e: Event, m: int) {
    && !(e.call.SetStatus? && e.call.m == m)
    && !(e.call.EditMatch? && e.call.m == m && e.call.patch.periodsCount.Some?)
  }

  lemma StepOfOneClock(t: Tables, cfg: Config, e: Event, m: int)
    requires m in t.matches && t.matches[m].status == InProgress && KeepsPlaying(e, m)
    ensures var u := Step(t, cfg, e);
      && m in u.matches && u.matches[m].status == InProgress
      && u.matches[m].periodsCount == t.matches[m].periodsCount
      && u.matches[m].clock ==
           if Accepted(t, cfg, e, m)
           then MatchClock.Step(t.matches[m].clock, TimedOf(e), EffectivePeriods(cfg, t.matches[m]))
           else t.matches[m].clock
  {
    match e.call
    case Clock(actor, g, command) => StepOfClock(t, cfg, e, m);
    case _ => StepOfOthers(t, cfg, e, m);
  }

  lemma StepOfClock(t: Tables, cfg: Config, e: Event, m: int)
    requires e.call.Clock? && m in t.matches && t.matches[m].status == InProgress
    ensures var u := Step(t, cfg, e);
      && m in u.matches && u.matches[m].status == InProgress
      && u.matches[m].periodsCount == t.matches[m].periodsCount
      && u.matches[m].clock ==
           if Accepted(t, cfg, e, m)
           then MatchClock.Step(t.matches[m].clock, TimedOf(e), EffectivePeriods(cfg, t.matches[m]))
           else t.matches[m].clock
  {
    var Clock(actor, g, command) := e.call;
    if ClockRefusal(t, cfg, actor, g, command, e.now).None? {
      var row := t.matches[g];
      MatchClock.StepIsApplyCommand(row.clock, row.pausedAt, TimedOf(e), EffectivePeriods(cfg, row));
      RefusalIgnoresStorage(row.clock, row.pausedAt, command, e.now, e.stored, EffectivePeriods(cfg, row));
      hide MatchClock.Step, MatchClock.ApplyCommand, EffectivePeriods;
    } else {
      hide ClockRefusal;
    }
  }

  lemma RefusalIgnoresStorage(
      c: MatchClock.ClockState, pausedAt: Option<int>, command: MatchClock.Command, now: int, stored: int, count: int)
    ensures MatchClock.ApplyCommand(c, pausedAt, command, now, now, count).Err?
       <==> MatchClock.ApplyCommand(c, pausedAt, command, now, stored, count).Err?
  {
  }

  lemma StepOfOthers(t: Tables, cfg: Config, e: Event, m: int)
    requires m in t.matches && t.matches[m].status == InProgress && KeepsPlaying(e, m) && !e.call.Clock?
    ensures var u := Step(t, cfg, e);
      && m in u.matches && u.matches[m].status == InProgress
      && u.matches[m].periodsCount == t.matches[m].periodsCount && u.matches[m].clock == t.matches[m].clock
  {
    hide ResolveWriteMode, AfterSave, WithNotes, Registers, UndoRefusal, VoidRefusal, AfterUpdate, AfterStatus;
    match e.call
    case EditMatch(actor, g, patch, categoryOk) => EditKeepsClock(t, actor, g, patch, categoryOk, m);
    case SetStatus(actor, g, next) => StatusKeepsClock(t, actor, g, next, e.now, e.stored, m);
    case _ =>
  }

  lemma EditKeepsClock(t: Tables, actor: Actor, g: int, patch: MatchPatch, categoryOk: bool, m: int)
    requires m in t.matches && !(g == m && patch.periodsCount.Some?)
    ensures var u := AfterUpdate(t, actor, g, patch, categoryOk);
      && m in u.matches && u.matches[m].status == t.matches[m].status
      && u.matches[m].periodsCount == t.matches[m].periodsCount && u.matches[m].clock == t.matches[m].clock
  {
    hide UpdateRefusal;
  }

  lemma StatusKeepsClock(t: Tables, actor: Actor, g: int, next: MatchStatus, now: int, stored: int, m: int)
    requires m in t.matches && g != m
    ensures var u := AfterStatus(t, actor, g, next, now, stored);
      m in u.matches && u.matches[m] == t.matches[m]
  {
    hide WithStatus, StatusRefusal;
  }

  /** While a match is played its stored clock is the pure clock run over the accepted commands, whatever
      else happens in between and on other matches. */
  lemma {:induction false} ClockIsPureRun(t: Tables, cfg: Config, trace: seq<Event>, m: int)
    requires m in t.matches && t.matches[m].status == InProgress
    requires forall i :: 0 <= i < |trace| ==> KeepsPlaying(trace[i], m)
    ensures var u := Run(t, cfg, trace);
      && m in u.matches && u.matches[m].status == InProgress
      && u.matches[m].periodsCount == t.matches[m].periodsCount
      && u.matches[m].clock ==
           MatchClock.Run(t.matches[m].clock, CommandsOf(t, cfg, trace, m), EffectivePeriods(cfg, t.matches[m]))
  {
    hide Step, MatchClock.Step, Accepted;
    if trace != [] {
      var front, e := trace[..|trace| - 1], trace[|trace| - 1];
      ClockIsPureRun(t, cfg, front, m);
      StepOfOneClock(Run(t, cfg, front), cfg, e, m);
      var before, commands := CommandsOf(t, cfg, front, m), CommandsOf(t, cfg, trace, m);
      if Accepted(Run(t, cfg, front), cfg, e, m) {
        assert commands[..|commands| - 1] == before;
      } else {
        assert commands == before;
      }
    }
  }

  predicate InTime(trace: seq<Event>, from: int, to: int) {
    && from <= to
    && (forall i :: 0 <= i < |trace| ==> from <= trace[i].now <= to)
    && (forall i, j :: 0 <= i < j < |trace| ==> trace[i].now <= trace[j].now)
  }

  /** Every instant is stored within `slack` of the true one. */
  predicate Precise(trace: seq<Event>, slack: int) {
    forall i :: 0 <= i < |trace| ==> -slack <= trace[i].stored - trace[i].now <= slack
  }

  lemma {:induction false} CommandsInTime(t: Tables, cfg: Config, trace: seq<Event>, m: int, from: int, to: int)
    requires InTime(trace, from, to)
    ensures MatchClock.Ordered(from, CommandsOf(t, cfg, trace, m), to)
  {
    hide ClockRefusal, Run;
    if trace != [] {
      var front, e := trace[..|trace| - 1], trace[|trace| - 1];
      CommandsInTime(t, cfg, front, m, from, e.now);
    }
  }

  lemma {:induction false} CommandsPrecise(t: Tables, cfg: Config, trace: seq<Event>, m: int, slack: int)
    requires Precise(trace, slack)
    ensures MatchClock.StoredWithin(CommandsOf(t, cfg, trace, m), slack)
  {
    hide ClockRefusal, Run;
    if trace != [] {
      CommandsPrecise(t, cfg, trace[..|trace| - 1], m, slack);
    }
  }

  /** In whole runs with time going forward and no accepted adjustment, what is displayed of a match under
      way never goes back, and its period stays within the number of periods. */
  lemma LiveDisplayNeverGoesBack(t: Tables, cfg: Config, trace: seq<Event>, m: int, from: int, to: int)
    requires m in t.matches && t.matches[m].status == InProgress && MatchClock.Consistent(t.matches[m].clock)
    requires 1 <= t.matches[m].clock.currentPeriod <= EffectivePeriods(cfg, t.matches[m])
    requires InTime(trace, from, to)
    requires forall i :: 0 <= i < |trace| ==> KeepsPlaying(trace[i], m)
    ensures m in Run(t, cfg, trace).matches && MatchClock.Consistent(Run(t, cfg, trace).matches[m].clock)
    ensures 1 <= Run(t, cfg, trace).matches[m].clock.currentPeriod <= EffectivePeriods(cfg, t.matches[m])
    ensures MatchClock.NoAdjust(CommandsOf(t, cfg, trace, m)) ==>
      MatchClock.NotBefore(t.matches[m].clock, from, Run(t, cfg, trace).matches[m].clock, to)
  {
    hide *;
    ClockIsPureRun(t, cfg, trace, m);
    CommandsInTime(t, cfg, trace, m, from, to);
    var commands, count := CommandsOf(t, cfg, trace, m), EffectivePeriods(cfg, t.matches[m]);
    MatchClock.RunKeepsClockSound(t.matches[m].clock, commands, count);
    if MatchClock.NoAdjust(commands) {
      MatchClock.DisplayNeverGoesBack(t.matches[m].clock, commands, count, from, to);
    }
  }

  /** A whole live match, from an accepted kick-off through any calls that leave it under way to an accepted
      finish. The period is within 1..count at the end, and what is displayed then stands still. The finish
      takes the display back if and only if it drops a full second of a running stretch; where it does not,
      the final display is not before any earlier one. */
  lemma WholeMatch(
      t: Tables, cfg: Config, start: Event, m: int, first: seq<Event>, middle: int, second: seq<Event>,
      end: Event, later: int)
    requires Starts(t, start, m) && EffectivePeriods(cfg, t.matches[m]) >= 1
    requires InTime(first, start.now, middle) && InTime(second, middle, end.now) && end.now <= later
    requires forall i :: 0 <= i < |first| ==> KeepsPlaying(first[i], m)
    requires forall i :: 0 <= i < |second| ==> KeepsPlaying(second[i], m)
    requires Finishes(Run(Run(Step(t, cfg, start), cfg, first), cfg, second), end, m)
    ensures var halfway := Run(Step(t, cfg, start), cfg, first);
      var before := Run(halfway, cfg, second);
      var after := Step(before, cfg, end);
      && m in halfway.matches && m in before.matches && m in after.matches
      && 1 <= halfway.matches[m].clock.currentPeriod <= EffectivePeriods(cfg, t.matches[m])
      && 1 <= after.matches[m].clock.currentPeriod <= EffectivePeriods(cfg, t.matches[m])
      && MatchClock.ClockDisplay(after.matches[m].clock, later)
         == MatchClock.ClockDisplay(after.matches[m].clock, end.now)
      && (MatchClock.NotBefore(before.matches[m].clock, end.now, after.matches[m].clock, later) <==>
            MatchClock.NothingToCount(before.matches[m].clock, end.now))
      && (MatchClock.NoAdjust(CommandsOf(halfway, cfg, second, m))
            && MatchClock.NothingToCount(before.matches[m].clock, end.now) ==>
            MatchClock.NotBefore(halfway.matches[m].clock, middle, after.matches[m].clock, later))
  {
    hide *;
    var started := Step(t, cfg, start);
    var halfway := Run(started, cfg, first);
    var before := Run(halfway, cfg, second);
    var after := Step(before, cfg, end);
    StartedClock(t, cfg, start, m);
    SamePeriods(cfg, t, started, m);
    ClockIsPureRun(started, cfg, first, m);
    LiveDisplayNeverGoesBack(started, cfg, first, m, start.now, middle);
    SamePeriods(cfg, started, halfway, m);
    ClockIsPureRun(halfway, cfg, second, m);
    LiveDisplayNeverGoesBack(halfway, cfg, second, m, middle, end.now);
    FinishedClock(before, cfg, end, m);
    MatchClock.FinishDropsStretch(before.matches[m].clock, end.now, later);
    if MatchClock.NoAdjust(CommandsOf(halfway, cfg, second, m))
      && MatchClock.NothingToCount(before.matches[m].clock, end.now)
    {
      MatchClock.NotBeforeIsTransitive(
        halfway.matches[m].clock, middle, before.matches[m].clock, end.now, after.matches[m].clock, later);
    }
  }

  /** An accepted kick-off. */
  predicate Starts(t: Tables, e: Event, m: int) {
    && e.call.SetStatus? && e.call.m == m && e.call.next == InProgress
    && StatusRefusal(t, e.call.actor, m, InProgress).None?
  }

  /** An accepted finish. */
  predicate Finishes(t: Tables, e: Event, m: int) {
    e.call.SetStatus? && e.call.m == m && e.call.next == Finished && StatusRefusal(t, e.call.actor, m, Finished).None?
  }

  lemma FinishedClock(t: Tables, cfg: Config, e: Event, m: int)
    requires Finishes(t, e, m)
    ensures m in t.matches && m in Step(t, cfg, e).matches
    ensures Step(t, cfg, e).matches[m].clock == MatchClock.ClockFinishedBySql(t.matches[m].clock, e.now)
    ensures !Step(t, cfg, e).matches[m].clock.running
    ensures Step(t, cfg, e).matches[m].clock.currentPeriod == t.matches[m].clock.currentPeriod
  {
  }

  lemma SamePeriods(cfg: Config, t: Tables, u: Tables, m: int)
    requires m in t.matches && m in u.matches && u.matches[m].periodsCount == t.matches[m].periodsCount
    ensures EffectivePeriods(cfg, u.matches[m]) == EffectivePeriods(cfg, t.matches[m])
  {
  }

  /** An accepted call that sets the clock of the match: kick-off, next period or a manual adjustment. */
  predicate SetsClock(t: Tables, cfg: Config, e: Event, m: int) {
    || Starts(t, e, m)
    || (Accepted(t, cfg, e, m) && (e.call.command.NextPeriod? || e.call.command.Adjust?))
  }

  /** From the moment the clock of a match is set, in whichever period, as long as the accepted commands are
      pauses and resumes, whatever other calls come in between. With start instants stored up to `slack` off,
      the displayed seconds exceed the real running time by at most `slack` per running stretch, and fall short
      of it by less than one second and `slack` per stretch; with exact storage they never exceed it. After an
      adjustment of a stopped clock, real time counts from the adjusted minute and there may be no stretch. */
  lemma LiveClockIsAccurate(t: Tables, cfg: Config, e: Event, m: int, trace: seq<Event>, slack: nat, now: int)
    requires SetsClock(t, cfg, e, m) && InTime(trace, e.now, now) && Precise([e] + trace, slack)
    requires forall i :: 0 <= i < |trace| ==> KeepsPlaying(trace[i], m)
    requires MatchClock.OnlyPauseResume(CommandsOf(Step(t, cfg, e), cfg, trace, m))
    ensures var reset := Step(t, cfg, e);
      && m in t.matches && m in reset.matches && m in Run(reset, cfg, trace).matches
      && var w := MatchClock.Measure(TrueStart(t, e, m), CommandsOf(reset, cfg, trace, m));
         var display := MatchClock.ClockDisplay(Run(reset, cfg, trace).matches[m].clock, now);
         && display.period == reset.matches[m].clock.currentPeriod
         && 1000 * display.elapsedSeconds <= MatchClock.RealMs(w, now) + slack * w.stretches
         && MatchClock.RealMs(w, now) - 1000 * display.elapsedSeconds <= (999 + slack) * w.stretches
         && (!IsAdjust(e, m) ==>
               MatchClock.RealMs(w, now) - 1000 * display.elapsedSeconds < (1000 + slack) * w.stretches)
  {
    hide *;
    var reset := Step(t, cfg, e);
    ClockAsSet(t, cfg, e, m);
    FirstIsPrecise(e, trace, slack);
    ClockIsPureRun(reset, cfg, trace, m);
    CommandsInTime(reset, cfg, trace, m, e.now, now);
    CommandsPrecise(reset, cfg, trace, m, slack);
    var commands := CommandsOf(reset, cfg, trace, m);
    var w := MatchClock.Measure(TrueStart(t, e, m), commands);
    var count := EffectivePeriods(cfg, reset.matches[m]);
    MatchClock.ShownIsNearReal(reset.matches[m].clock, e.now, commands, count, slack, now);
    if !IsAdjust(e, m) {
      MatchClock.StretchesCount(TrueStart(t, e, m), commands);
      assert (1000 + slack) * w.stretches == (999 + slack) * w.stretches + w.stretches;
    }
  }

  lemma FirstIsPrecise(e: Event, trace: seq<Event>, slack: int)
    requires Precise([e] + trace, slack)
    ensures -slack <= e.stored - e.now <= slack && Precise(trace, slack)
  {
    assert ([e] + trace)[0] == e && forall i :: 0 <= i < |trace| ==> ([e] + trace)[i + 1] == trace[i];
  }

  /** How the three calls leave the clock. */
  lemma ClockAsSet(t: Tables, cfg: Config, e: Event, m: int)
    requires SetsClock(t, cfg, e, m)
    ensures var u := Step(t, cfg, e);
      && m in t.matches && m in u.matches && u.matches[m].status == InProgress
      && MatchClock.Consistent(u.matches[m].clock)
      && (u.matches[m].clock.running ==> u.matches[m].clock.startedAt == Some(e.stored))
      && MatchClock.SetWith(u.matches[m].clock, e.now) == TrueStart(t, e, m)
      && (!IsAdjust(e, m) ==> TrueStart(t, e, m).stretches == 1)
  {
    if e.call.SetStatus? {
      StartedClock(t, cfg, e, m);
    } else {
      assert m in t.matches && t.matches[m].status == InProgress;
      StepOfClock(t, cfg, e, m);
      if e.call.command.NextPeriod? { NotLastPeriod(t, cfg, e, m); }
      hide Step, ClockRefusal;
    }
  }

  /** An accepted next period is not refused by the clock itself. */
  lemma NotLastPeriod(t: Tables, cfg: Config, e: Event, m: int)
    requires Accepted(t, cfg, e, m) && e.call.command.NextPeriod?
    ensures m in t.matches && t.matches[m].clock.currentPeriod < EffectivePeriods(cfg, t.matches[m])
  {
  }

  /** A stop watch for the call that sets the clock: it starts from 0 with a period, and from the adjusted
      minute with an adjustment, which lets a stopped clock stand. */
  function TrueStart(t: Tables, e: Event, m: int): MatchClock.StopWatch
    requires m in t.matches
  {
    if IsAdjust(e, m) then
      MatchClock.StopWatch(
        60_000 * MatchClock.Clamped(e.call.command.minute),
        if t.matches[m].clock.running then Some(e.now) else None, if t.matches[m].clock.running then 1 else 0)
    else MatchClock.StopWatch(0, Some(e.now), 1)
  }

  predicate IsAdjust(e: Event, m: int) { e.call.Clock? && e.call.m == m && e.call.command.Adjust? }

  lemma StartedClock(t: Tables, cfg: Config, e: Event, m: int)
    requires Starts(t, e, m)
    ensures var started := Step(t, cfg, e);
      && m in t.matches && m in started.matches && started.matches[m].status == InProgress
      && started.matches[m].periodsCount == t.matches[m].periodsCount
      && started.matches[m].clock == MatchClock.InitialClock(e.stored) == MatchClock.PeriodStart(1, e.stored)
      && MatchClock.Consistent(started.matches[m].clock) && started.matches[m].clock.currentPeriod == 1
  {
  }

  // Finishing a match

  /** In every reachable state, finishing a match leaves its clock as a pause at that instant would if and
      only if the clock is stopped or its running stretch has not reached a second. */
  lemma FinishIsPauseIff(cfg: Config, trace: seq<Event>, end: Event, m: int)
    requires Finishes(Run(NoRows(), cfg, trace), end, m)
    ensures var t := Run(NoRows(), cfg, trace);
      && m in t.matches && m in Step(t, cfg, end).matches
      && var clock := t.matches[m].clock;
         && (clock.running <==> clock.startedAt.Some?)
         && (Step(t, cfg, end).matches[m].clock == MatchClock.PauseClock(clock, end.now) <==>
               !clock.running || end.now - clock.startedAt.value < 1000)
  {
    RunKeepsSound(NoRows(), cfg, trace);
    var t := Run(NoRows(), cfg, trace);
    FinishedClock(t, cfg, end, m);
    hide Run, Step;
    assert RowSound(t.matches[m]);
    MatchClock.SqlFinishIsPauseIff(t.matches[m].clock, end.now);
  }

  const FULL_TIME := Event(SetStatus(LiveMatchActions.COACH, 1, Finished), 2_700_000, 2_700_000)

  /** A run from empty tables: a match of 45 minutes without a pause shows 2700 seconds at the whistle, and 0
      ever after it is finished. */
  lemma FinishLosesHalf(cfg: Config, later: int)
    ensures var t := Run(NoRows(), cfg, LiveMatchActions.PREPARE);
      && Finishes(t, FULL_TIME, 1)
      && MatchClock.ClockDisplay(t.matches[1].clock, FULL_TIME.now) == MatchClock.Display(1, 45, 2700)
    ensures var u := Run(NoRows(), cfg, LiveMatchActions.PREPARE + [FULL_TIME]);
      && 1 in u.matches && u.matches[1].status == Finished
      && MatchClock.ClockDisplay(u.matches[1].clock, later) == MatchClock.Display(1, 0, 0)
  {
    LiveMatchActions.PrepareRuns(cfg);
    RunOneMore(NoRows(), cfg, LiveMatchActions.PREPARE, FULL_TIME);
    hide Run;
    FinishedClock(LiveMatchActions.PREPARED, cfg, FULL_TIME, 1);
  }

  // Cancelling a match does not touch its clock

  /** A cancelled match's clock runs, at the cancellation and after any later run, if and only if it ran
      before it: nothing stops it then, and nothing starts it. */
  lemma CancelledClockRunsIff(
      t: Tables, cfg: Config, actor: Actor, m: int, now: int, stored: int, trace: seq<Event>)
    requires Sound(t) && StatusRefusal(t, actor, m, Cancelled).None?
    requires forall i :: 0 <= i < |trace| ==> trace[i].now >= now && !LiveMatchClosed.Reopens(trace[i], m)
    ensures var after := Run(AfterStatus(t, actor, m, Cancelled, now, stored), cfg, trace);
      && m in after.matches && after.matches[m].status == Cancelled
      && after.matches[m].clock == t.matches[m].clock
      && (after.matches[m].clock.running <==> t.matches[m].clock.running)
  {
    var cancelled := AfterStatus(t, actor, m, Cancelled, now, stored);
    StatusKeepsSound(t, actor, m, Cancelled, now, stored);
    assert m in cancelled.matches && cancelled.matches[m].status == Cancelled;
    assert cancelled.matches[m].clock == t.matches[m].clock;
    hide AfterStatus, Run, Sound;
    LiveMatchClosed.ClosedMatchIsFrozen(cancelled, cfg, trace, m, now);
  }

  const CANCEL := Event(SetStatus(LiveMatchActions.COACH, 1, Cancelled), 0, 0)

  /** A run from empty tables that ends with a cancelled match whose clock runs. */
  lemma CancelledWhileRunning(cfg: Config)
    ensures var t := Run(NoRows(), cfg, LiveMatchActions.PREPARE + [CANCEL]);
      1 in t.matches && t.matches[1].status == Cancelled && t.matches[1].clock.running
  {
    LiveMatchActions.PrepareRuns(cfg);
    RunOneMore(NoRows(), cfg, LiveMatchActions.PREPARE, CANCEL);
    hide Run;
  }
}
