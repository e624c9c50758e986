/** Who may do what in a live match, when, and what is stored then: each call by the columns it reads and
    writes, and what runs keep of it. Instants are milliseconds. */
module LiveMatchRules {
  import opened Results
  import MatchClock
  import opened LiveMatch
  import opened LiveMatchRuns
  import opened LiveMatchActions

  const DAY := 86_400_000

  /** The coaches of its category while a match is under way. */
  predicate MayCapture(t: Tables, actor: Actor, m: int) {
    m in t.matches && t.matches[m].status == InProgress && t.matches[m].categoryId in actor.categories
  }

  /** The same coaches and the administrators, until the configured number of days after the finish. */
  predicate MayCorrect(t: Tables, cfg: Config, actor: Actor, m: int, now: int) {
    && m in t.matches && t.matches[m].status == Finished
    && (t.matches[m].categoryId in actor.categories || actor.isAdmin)
    && t.matches[m].finishedAt.Some? && now < t.matches[m].finishedAt.value + cfg.windowDays * DAY
  }

  lemma WriteModeIff(t: Tables, cfg: Config, actor: Actor, m: int, now: int)
    ensures ResolveWriteMode(t, cfg, actor, m, now) == Ok(Live) <==> MayCapture(t, actor, m)
    ensures ResolveWriteMode(t, cfg, actor, m, now) == Ok(Correction) <==> MayCorrect(t, cfg, actor, m, now)
    ensures ResolveWriteMode(t, cfg, actor, m, now).Ok? <==>
      MayCapture(t, actor, m) || MayCorrect(t, cfg, actor, m, now)
  {
  }

  // Captures

  /** A capture is stored if and only if its author may write at that instant, the client id is new, the code
      is active and the player is marked present with a number. */
  lemma CaptureAcceptedIff(
      t: Tables, cfg: Config, actor: Actor, m: int, input: NewAction, now: int, catalog: Option<CatalogEntry>)
    ensures Registers(t, cfg, actor, m, input, now, catalog) <==>
      && (MayCapture(t, actor, m) || MayCorrect(t, cfg, actor, m, now))
      && (forall a :: a in t.actions ==> t.actions[a].clientId != input.clientId)
      && catalog.Some? && catalog.value.active
      && (m, input.playerId) in t.attendance
      && t.attendance[(m, input.playerId)].attended && t.attendance[(m, input.playerId)].jersey.Some?
  {
    WriteModeIff(t, cfg, actor, m, now);
    hide ResolveWriteMode, MayCapture, MayCorrect;
  }

  /** What was captured, column by column. */
  predicate ShowsCapture(row: ActionRow, actor: Actor, m: int, input: NewAction, now: int) {
    && row.matchId == m && row.playerId == input.playerId && row.code == input.code
    && row.minute == input.minute && row.period == input.period && row.clientId == input.clientId
    && row.createdBy == actor.userId && row.createdAt == now
  }

  /** An accepted capture is one new row; nothing else is written but its notifications. */
  lemma CaptureIsStored(t: Tables, cfg: Config, e: Event)
    requires e.call.Register?
    requires Registers(t, cfg, e.call.actor, e.call.m, e.call.input, e.now, e.call.catalog)
    ensures var u := Step(t, cfg, e);
      && u.matches == t.matches && u.players == t.players && u.attendance == t.attendance
      && u.nextAction == t.nextAction + 1 && u.actions.Keys == t.actions.Keys + {t.nextAction}
      && (forall a :: a in t.actions && a != t.nextAction ==> u.actions[a] == t.actions[a])
      && ShowsCapture(u.actions[t.nextAction], e.call.actor, e.call.m, e.call.input, e.now)
      && u.actions[t.nextAction].status == Active
      && u.actions[t.nextAction].voidedBy == None && u.actions[t.nextAction].reason == ""
      && Some(u.actions[t.nextAction].jersey) == t.attendance[(e.call.m, e.call.input.playerId)].jersey
      && (u.actions[t.nextAction].postMatch <==> t.matches[e.call.m].status == Finished)
  {
    hide WithNotes, NotifiedBy;
  }

  /** After any later run the action still shows what was captured, by whom, when and with which number, and
      is the only one with its client id: as long as it is not undone. */
  lemma CaptureIsKept(t: Tables, cfg: Config, e: Event, trace: seq<Event>)
    requires Sound(t) && e.call.Register?
    requires Registers(t, cfg, e.call.actor, e.call.m, e.call.input, e.now, e.call.catalog)
    requires forall i :: 0 <= i < |trace| ==> !UndoesAction(trace[i], t.nextAction)
    ensures var u, a := Run(Step(t, cfg, e), cfg, trace), t.nextAction;
      && (forall b :: b in u.actions && u.actions[b].clientId == e.call.input.clientId <==> b == a)
      && ShowsCapture(u.actions[a], e.call.actor, e.call.m, e.call.input, e.now)
      && Some(u.actions[a].jersey) == t.attendance[(e.call.m, e.call.input.playerId)].jersey
      && (u.actions[a].postMatch <==> t.matches[e.call.m].status == Finished)
  {
    var captured, a := Step(t, cfg, e), t.nextAction;
    CaptureIsStored(t, cfg, e);
    StepKeepsSound(t, cfg, e);
    ActionSurvives(captured, cfg, trace, a);
    RunKeepsTrail(captured, cfg, trace);
    RunKeepsSound(captured, cfg, trace);
    var u := Run(captured, cfg, trace);
    IdsAreUnique(u);
    hide Sound, Step, Run, Registers;
    assert LaterRow(captured.actions[a], u.actions[a]);
  }

  lemma IdsAreUnique(t: Tables)
    requires Sound(t)
    ensures UniqueClientIds(t)
  {
  }

  /** A notification shows its recipient, the player, the match and the action, and is valid at first. */
  lemma NotificationIsStored(t: Tables, cfg: Config, e: Event, n: int)
    requires Sound(t) && e.call.Register?
    requires n !in t.notifications && n in Step(t, cfg, e).notifications
    ensures var note := Step(t, cfg, e).notifications[n];
      && note.recipient in e.call.audience.parents && note.recipient in e.call.audience.inApp
      && note.playerId == e.call.input.playerId && note.matchId == e.call.m
      && note.actionId == Some(t.nextAction) && !note.voided
  {
    FreshAfterRun(t);
    var Register(actor, m, input, catalog, audience) := e.call;
    assert Registers(t, cfg, actor, m, input, e.now, catalog);
    var mode := ResolveWriteMode(t, cfg, actor, m, e.now).value;
    var row, to := NewRow(t, actor, m, input, e.now, mode), NotifiedBy(audience, catalog, mode);
    assert Step(t, cfg, e) == WithAction(t, row, to);
    NoteIsOldOrNew(t, row, to, n);
    hide WithNotes, Sound, ResolveWriteMode;
    assert to[n - t.nextNotification] in to;
  }

  // Undoing and voiding

  /** Only the author undoes a capture: live, while it counts, and within the undo window. */
  lemma UndoAcceptedIff(t: Tables, cfg: Config, actor: Actor, m: int, a: int, now: int)
    ensures UndoRefusal(t, cfg, actor, m, a, now).None? <==>
      && MayCapture(t, actor, m) && a in t.actions && t.actions[a].matchId == m && t.actions[a].status == Active
      && t.actions[a].createdBy == actor.userId && now <= t.actions[a].createdAt + cfg.undoWindowMs
  {
    WriteModeIff(t, cfg, actor, m, now);
    hide ResolveWriteMode, MayCapture, MayCorrect;
  }

  lemma VoidAcceptedIff(t: Tables, cfg: Config, actor: Actor, m: int, a: int, now: int)
    ensures VoidRefusal(t, cfg, actor, m, a, now).None? <==>
      && (MayCapture(t, actor, m) || MayCorrect(t, cfg, actor, m, now))
      && a in t.actions && t.actions[a].matchId == m && t.actions[a].status == Active
  {
    WriteModeIff(t, cfg, actor, m, now);
    hide ResolveWriteMode, MayCapture, MayCorrect;
  }

  /** A void leaves who and why on the row, and nothing else changes in the table of actions. */
  lemma VoidIsStored(t: Tables, cfg: Config, e: Event)
    requires e.call.Void? && VoidRefusal(t, cfg, e.call.actor, e.call.m, e.call.action, e.now).None?
    ensures var u, a := Step(t, cfg, e), e.call.action;
      && u.actions.Keys == t.actions.Keys && a in t.actions
      && (forall b :: b in t.actions && b != a ==> u.actions[b] == t.actions[b])
      && u.actions[a].status == Voided && u.actions[a].voidedBy == Some(e.call.actor.userId)
      && u.actions[a].reason == e.call.reason
      && LaterRow(t.actions[a], u.actions[a])
  {
    hide VoidRefusal, VoidNotesOf;
    assert e.call.action in t.actions && t.actions[e.call.action].status == Active by {
      VoidAcceptedIff(t, cfg, e.call.actor, e.call.m, e.call.action, e.now);
    }
  }

  /** A cancellation voids every counted action of the match in the name of the canceller. */
  lemma CancelIsStored(t: Tables, cfg: Config, e: Event, a: int)
    requires e.call.SetStatus? && e.call.next == Cancelled
    requires StatusRefusal(t, e.call.actor, e.call.m, Cancelled).None? && a in t.actions
    ensures var u := Step(t, cfg, e);
      && a in u.actions && LaterRow(t.actions[a], u.actions[a])
      && if t.actions[a].matchId == e.call.m && t.actions[a].status == Active then
           && u.actions[a].status == Voided
           && u.actions[a].voidedBy == Some(e.call.actor.userId) && u.actions[a].reason == "Partido cancelado"
         else u.actions[a] == t.actions[a]
  {
    hide VoidNotesOfMatch, WithStatus;
  }

  // The life of a match

  /** Administrators, people who are no coaches at all, and the coaches of its category. */
  predicate MaySee(actor: Actor, row: MatchRow) {
    row.categoryId in actor.categories || actor.isAdmin || !actor.isCoach
  }

  /** Scheduled, under way, finished, in this order; cancelled only from the first two. */
  predicate Follows(before: MatchStatus, after: MatchStatus) {
    || (before == Scheduled && after == InProgress)
    || (before == InProgress && after == Finished)
    || (before == Scheduled && after == Cancelled)
    || (before == InProgress && after == Cancelled)
  }

  lemma StatusAcceptedIff(t: Tables, actor: Actor, m: int, next: MatchStatus)
    ensures StatusRefusal(t, actor, m, next).None? <==>
      m in t.matches && MaySee(actor, t.matches[m]) && Follows(t.matches[m].status, next)
  {
  }

  /** What a change of status writes to the row of the match. */
  lemma StatusIsStored(t: Tables, cfg: Config, e: Event)
    requires e.call.SetStatus? && StatusRefusal(t, e.call.actor, e.call.m, e.call.next).None?
    ensures var m, u := e.call.m, Step(t, cfg, e);
      && m in t.matches && u.matches.Keys == t.matches.Keys
      && (forall g :: g in t.matches && g != m ==> u.matches[g] == t.matches[g])
      && u.matches[m].status == e.call.next
      && u.matches[m].categoryId == t.matches[m].categoryId
      && u.matches[m].periodsCount == t.matches[m].periodsCount && u.matches[m].details == t.matches[m].details
      && (e.call.next == InProgress ==>
            && u.matches[m].finishedAt == None && u.matches[m].pausedAt == None
            && u.matches[m].clock == MatchClock.ClockState(1, 0, true, Some(e.stored)))
      && (e.call.next == Finished ==>
            && u.matches[m].finishedAt == Some(e.now) && u.matches[m].pausedAt == Some(e.now)
            && !u.matches[m].clock.running && u.matches[m].clock.startedAt == None
            && u.matches[m].clock.currentPeriod == t.matches[m].clock.currentPeriod
            && u.matches[m].clock.elapsedSeconds == t.matches[m].clock.elapsedSeconds)
      && (e.call.next == Cancelled ==> u.matches[m] == t.matches[m].(status := Cancelled))
  {
    hide VoidAllOf, VoidNotesOfMatch;
  }

  lemma NewMatchIsScheduled(t: Tables, cfg: Config, e: Event)
    requires e.call.CreateMatch? && e.call.m !in t.matches
    ensures var row := Step(t, cfg, e).matches[e.call.m];
      && row.status == Scheduled && row.finishedAt == None && row.categoryId == e.call.categoryId
      && row.periodsCount == e.call.periodsCount && row.details == e.call.details
      && row.clock == MatchClock.ClockState(1, 0, false, None) && row.pausedAt == None
  {
  }

  /** A development reopening takes exactly a finished match back to play, without its finish; nothing else
      changes, not even its clock. */
  lemma ReopeningIsStored(t: Tables, cfg: Config, e: Event, g: int)
    requires e.call.DevReopen? && g in t.matches
    ensures var u := Step(t, cfg, e);
      && u == t.(matches := u.matches) && u.matches.Keys == t.matches.Keys
      && if g == e.call.m && t.matches[g].status == Finished && MaySee(e.call.actor, t.matches[g]) then
           && u.matches[g].status == InProgress && u.matches[g].finishedAt == None
           && u.matches[g] == t.matches[g].(status := InProgress, finishedAt := None)
         else u.matches[g] == t.matches[g]
  {
  }

  /** Only a change of status or a development reopening changes the status of a match. */
  lemma OtherCallsKeepStatus(t: Tables, cfg: Config, e: Event, m: int)
    requires m in t.matches && !(e.call.SetStatus? && e.call.m == m) && !(e.call.DevReopen? && e.call.m == m)
    ensures m in Step(t, cfg, e).matches && Step(t, cfg, e).matches[m].status == t.matches[m].status
  {
    hide AfterRegister, AfterUndo, AfterVoid, AfterSave;
    match e.call
    case SetStatus(actor, g, next) => { hide WithStatus, StatusRefusal; }
    case EditMatch(actor, g, patch, ok) => { hide UpdateRefusal; }
    case Clock(actor, g, command) => { hide ClockRefusal, MatchClock.ApplyCommand; }
    case Register(actor, g, input, catalog, audience) => { OtherTablesKeepMatches(t, cfg, e); }
    case Undo(actor, g, a) => { OtherTablesKeepMatches(t, cfg, e); }
    case Void(actor, g, a, reason) => { OtherTablesKeepMatches(t, cfg, e); }
    case _ =>
  }

  lemma OtherTablesKeepMatches(t: Tables, cfg: Config, e: Event)
    requires e.call.Register? || e.call.Undo? || e.call.Void?
    ensures Step(t, cfg, e).matches == t.matches
  {
    hide Registers, UndoRefusal, VoidRefusal, ResolveWriteMode, WithNotes;
  }

  predicate KickedOff(trace: seq<Event>, m: int) {
    exists i :: 0 <= i < |trace| && trace[i].call.SetStatus? && trace[i].call.m == m && trace[i].call.next == InProgress
  }

  /** No match is finished, or under way, that was not kicked off. */
  lemma {:induction false} FinishedWasPlayed(cfg: Config, trace: seq<Event>, m: int)
    requires m in Run(NoRows(), cfg, trace).matches
    requires Run(NoRows(), cfg, trace).matches[m].status in {InProgress, Finished}
    ensures KickedOff(trace, m)
  {
    hide Step;
    var front, e := trace[..|trace| - 1], trace[|trace| - 1];
    var t := Run(NoRows(), cfg, front);
    if e.call.SetStatus? && e.call.m == m && e.call.next == InProgress {
      assert trace[|trace| - 1].call.SetStatus?;
    } else {
      WasPlayedBefore(t, cfg, e, m);
      FinishedWasPlayed(cfg, front, m);
      var i :| 0 <= i < |front| && front[i].call.SetStatus? && front[i].call.m == m && front[i].call.next == InProgress;
      assert trace[i] == front[i];
    }
  }

  lemma WasPlayedBefore(t: Tables, cfg: Config, e: Event, m: int)
    requires m in Step(t, cfg, e).matches && Step(t, cfg, e).matches[m].status in {InProgress, Finished}
    requires !(e.call.SetStatus? && e.call.m == m && e.call.next == InProgress)
    ensures m in t.matches && t.matches[m].status in {InProgress, Finished}
  {
    if e.call.SetStatus? && e.call.m == m {
      StatusAcceptedIff(t, e.call.actor, m, e.call.next);
      hide StatusRefusal, VoidAllOf, VoidNotesOfMatch;
    } else if e.call.DevReopen? && e.call.m == m {
    } else if m in t.matches {
      OtherCallsKeepStatus(t, cfg, e, m);
    } else {
      RowsAreNotFound(t, cfg, e, m);
    }
  }

  lemma RowsAreNotFound(t: Tables, cfg: Config, e: Event, m: int)
    requires m !in t.matches && m in Step(t, cfg, e).matches
    ensures Step(t, cfg, e).matches[m].status == Scheduled
  {
    hide AfterSave, AfterRegister, AfterUndo, AfterVoid, AfterUpdate, AfterClock, AfterStatus;
    match e.call
    case Register(actor, g, input, catalog, audience) => { OtherTablesKeepMatches(t, cfg, e); }
    case Undo(actor, g, a) => { OtherTablesKeepMatches(t, cfg, e); }
    case Void(actor, g, a, reason) => { OtherTablesKeepMatches(t, cfg, e); }
    case EditMatch(actor, g, patch, ok) => { ChangedRowsExist(t, cfg, e); }
    case SetStatus(actor, g, next) => { ChangedRowsExist(t, cfg, e); }
    case Clock(actor, g, command) => { ChangedRowsExist(t, cfg, e); }
    case _ =>
  }

  lemma ChangedRowsExist(t: Tables, cfg: Config, e: Event)
    requires e.call.EditMatch? || e.call.SetStatus? || e.call.Clock?
    ensures Step(t, cfg, e).matches.Keys == t.matches.Keys
  {
    hide WithStatus, Patched, MatchClock.ApplyCommand;
  }

  // Editing

  /** Only a scheduled match without attendance moves to another category; a finished or cancelled one is not
      edited at all. */
  lemma EditAcceptedIff(t: Tables, actor: Actor, m: int, patch: MatchPatch, categoryOk: bool)
    ensures UpdateRefusal(t, actor, m, patch, categoryOk).None? <==>
      && m in t.matches && MaySee(actor, t.matches[m])
      && (t.matches[m].status == Scheduled || t.matches[m].status == InProgress)
      && (patch.categoryId.None? || patch.categoryId.value == t.matches[m].categoryId
          || (t.matches[m].status == Scheduled && categoryOk && forall k :: k in t.attendance ==> k.0 != m))
  {
  }

  /** Each field of the request is stored; one that is left out keeps its value. */
  lemma EditIsStored(t: Tables, cfg: Config, e: Event)
    requires e.call.EditMatch? && UpdateRefusal(t, e.call.actor, e.call.m, e.call.patch, e.call.categoryOk).None?
    ensures var m, u, patch := e.call.m, Step(t, cfg, e), e.call.patch;
      && m in t.matches && m in u.matches
      && u.matches[m].status == t.matches[m].status && u.matches[m].clock == t.matches[m].clock
      && u.matches[m].finishedAt == t.matches[m].finishedAt && u.matches[m].pausedAt == t.matches[m].pausedAt
      && (patch.categoryId.Some? ==> u.matches[m].categoryId == patch.categoryId.value)
      && (patch.categoryId.None? ==> u.matches[m].categoryId == t.matches[m].categoryId)
      && (patch.periodsCount.Some? ==> u.matches[m].periodsCount == patch.periodsCount.value)
      && (patch.periodsCount.None? ==> u.matches[m].periodsCount == t.matches[m].periodsCount)
      && (patch.details.Some? ==> u.matches[m].details == patch.details.value)
      && (patch.details.None? ==> u.matches[m].details == t.matches[m].details)
  {
    hide UpdateRefusal;
    EditAcceptedIff(t, e.call.actor, e.call.m, e.call.patch, e.call.categoryOk);
  }

  // The clock

  /** The coaches of the category command the clock while the match is under way; the last period has no next
      one. A match without a number of periods of its own has the default number. */
  lemma ClockAcceptedIff(t: Tables, cfg: Config, actor: Actor, m: int, command: MatchClock.Command, now: int)
    ensures ClockRefusal(t, cfg, actor, m, command, now).None? <==>
      && MayCapture(t, actor, m)
      && (command.NextPeriod? ==>
            var count := match t.matches[m].periodsCount case Some(n) => n case None => cfg.defaultPeriods;
            t.matches[m].clock.currentPeriod < count)
  {
  }

  /** What each accepted command leaves: a pause what is displayed at that instant, a resume the same from
      there on, a next period a running clock at 0, an adjustment the full minute asked for. */
  lemma ClockIsStored(t: Tables, cfg: Config, e: Event, at: int)
    requires e.call.Clock? && ClockRefusal(t, cfg, e.call.actor, e.call.m, e.call.command, e.now).None?
    ensures var m, u := e.call.m, Step(t, cfg, e);
      && m in t.matches && u.matches.Keys == t.matches.Keys
      && (forall g :: g in t.matches && g != m ==> u.matches[g] == t.matches[g])
      && var before, after := t.matches[m].clock, u.matches[m].clock;
         && u.matches[m] == t.matches[m].(clock := after, pausedAt := if after.running then None else Some(e.now))
         && match e.call.command
            case Pause =>
              && !after.running
              && MatchClock.ClockDisplay(after, at) == MatchClock.ClockDisplay(before, e.now)
            case Resume =>
              && after.running && after.elapsedSeconds == before.elapsedSeconds
              && after.currentPeriod == before.currentPeriod
              && after.startedAt == if before.running then before.startedAt else Some(e.stored)
            case NextPeriod => after == MatchClock.ClockState(before.currentPeriod + 1, 0, true, Some(e.stored))
            case Adjust(minute) =>
              var shown := MatchClock.Clamped(minute);
              && after.running == before.running && (after.startedAt.Some? <==> before.running)
              && MatchClock.ClockDisplay(after, e.stored) == MatchClock.Display(before.currentPeriod, shown, 60 * shown)
  {
    ClockAcceptedIff(t, cfg, e.call.actor, e.call.m, e.call.command, e.now);
    var row := t.matches[e.call.m];
    if e.call.command.Adjust? {
      MatchClock.AdjustedDisplay(row.clock, e.stored, e.call.command.minute, at);
    }
  }

  // Attendance

  /** A save is accepted if and only if its author is a coach of the category, the match is neither finished
      nor cancelled, every player of the request is listed, nobody with a counted action is marked absent, and
      no two listed players end up present with the same number. */
  lemma SaveAcceptedIff(t: Tables, actor: Actor, m: int, entries: seq<AttendancePatch>)
    ensures SaveRefusal(t, actor, m, entries).None? <==>
      && m in t.matches && t.matches[m].categoryId in actor.categories
      && (t.matches[m].status == Scheduled || t.matches[m].status == InProgress)
      && (forall i :: 0 <= i < |entries| ==> IsListed(t, m, entries[i].playerId))
      && (forall i, a :: 0 <= i < |entries| && a in t.actions && !entries[i].attended ==>
            t.actions[a].matchId != m || t.actions[a].playerId != entries[i].playerId || t.actions[a].status == Voided)
      && !MergeClashes(t, m, PatchMap(entries))
  {
    hide MergeClashes;
    if m in t.matches {
      forall p ensures p in EntryPlayers(t, m) <==> IsListed(t, m, p) {}
    }
  }

  /** Players of the category of the match who are active, or have attendance saved. */
  predicate IsListed(t: Tables, m: int, p: int) {
    && m in t.matches && p in t.players && t.players[p].categoryId == t.matches[m].categoryId
    && (t.players[p].active || (m, p) in t.attendance)
  }
}
