/** A match that is closed for good: cancelled, or finished with its correction window over. */
module LiveMatchClosed {
  import opened Results
  import opened MatchCorrection
  import opened LiveMatch
  import opened LiveMatchRuns
  import opened LiveMatchActions
  import LiveMatchAttendance

  predicate Closed(cfg: Config, row: MatchRow, now: int) {
    row.status == Cancelled || (row.status == Finished && !CorrectionOpen(cfg, row, now))
  }

  /** A closed match stays closed. */
  lemma ClosedStays(cfg: Config, row: MatchRow, now: int, later: int)
    requires Closed(cfg, row, now) && now <= later
    ensures Closed(cfg, row, later)
  {
  }

  /** The match row with its clock, its attendance, its actions and its notifications are the same. */
  ghost predicate SameMatch(t: Tables, u: Tables, m: int) {
    && m in t.matches && m in u.matches && u.matches[m] == t.matches[m]
    && (forall p :: (m, p) in t.attendance <==> (m, p) in u.attendance)
    && (forall p :: (m, p) in t.attendance ==> u.attendance[(m, p)] == t.attendance[(m, p)])
    && SameActions(t, u, m)
    && SameNotes(t, u, m)
  }

  ghost predicate SameActions(t: Tables, u: Tables, m: int) {
    && (forall a :: a in t.actions && t.actions[a].matchId == m ==> a in u.actions && u.actions[a] == t.actions[a])
    && (forall a :: a in u.actions && u.actions[a].matchId == m ==> a in t.actions && t.actions[a].matchId == m)
  }

  ghost predicate SameNotes(t: Tables, u: Tables, m: int) {
    && (forall n :: n in t.notifications && t.notifications[n].matchId == m ==>
          n in u.notifications && u.notifications[n] == t.notifications[n])
    && (forall n :: n in u.notifications && u.notifications[n].matchId == m ==>
          n in t.notifications && t.notifications[n].matchId == m)
  }

  predicate Reopens(e: Event, m: int) { e.call.DevReopen? && e.call.m == m }

  lemma RegisterElsewhere(
      t: Tables, cfg: Config, actor: Actor, g: int, input: NewAction, now: int, catalog: Option<CatalogEntry>,
      audience: Audience, m: int)
    requires Sound(t) && m in t.matches && Closed(cfg, t.matches[m], now)
    ensures SameMatch(t, AfterRegister(t, cfg, actor, g, input, now, catalog, audience), m)
  {
    if Registers(t, cfg, actor, g, input, now, catalog) {
      var mode := ResolveWriteMode(t, cfg, actor, g, now).value;
      var row := NewRow(t, actor, g, input, now, mode);
      var to := NotifiedBy(audience, catalog, mode);
      var u := WithAction(t, row, to);
      assert g != m;
      FreshAfterRun(t);
      hide Sound, WithNotes, Registers, NotifiedBy, ResolveWriteMode;
      forall n | n in u.notifications
        ensures if n < t.nextNotification then n in t.notifications && u.notifications[n] == t.notifications[n]
          else u.notifications[n].matchId == g
      {
        NoteIsOldOrNew(t, row, to, n);
      }
    }
  }

  lemma NotesOfItsMatch(t: Tables, a: int)
    requires Sound(t)
    ensures forall n :: n in t.notifications && t.notifications[n].actionId == Some(a) ==>
      a in t.actions && t.notifications[n].matchId == t.actions[a].matchId
  {
    forall n | n in t.notifications && t.notifications[n].actionId == Some(a)
      ensures a in t.actions && t.notifications[n].matchId == t.actions[a].matchId
    {
      assert NoteFits(t, t.notifications[n]);
    }
  }

  /** Calls that change one action and its notifications do so in the match they are made for. */
  lemma UndoElsewhere(t: Tables, cfg: Config, actor: Actor, g: int, a: int, now: int, m: int)
    requires Sound(t) && m in t.matches && Closed(cfg, t.matches[m], now)
    ensures SameMatch(t, AfterUndo(t, cfg, actor, g, a, now), m)
  {
    NotesOfItsMatch(t, a);
    hide Sound;
    if UndoRefusal(t, cfg, actor, g, a, now).None? {
      assert g != m;
      hide UndoRefusal, ResolveWriteMode, Closed;
    }
  }

  lemma VoidElsewhere(t: Tables, cfg: Config, actor: Actor, g: int, a: int, now: int, reason: string, m: int)
    requires Sound(t) && m in t.matches && Closed(cfg, t.matches[m], now)
    ensures SameMatch(t, AfterVoid(t, cfg, actor, g, a, now, reason), m)
  {
    NotesOfItsMatch(t, a);
    hide Sound;
    if VoidRefusal(t, cfg, actor, g, a, now).None? {
      assert g != m;
    }
  }

  lemma StatusElsewhere(t: Tables, actor: Actor, g: int, next: MatchStatus, now: int, stored: int, m: int)
    requires m in t.matches && (t.matches[m].status == Finished || t.matches[m].status == Cancelled)
    ensures SameMatch(t, AfterStatus(t, actor, g, next, now, stored), m)
  {
    if StatusRefusal(t, actor, g, next).None? {
      assert g != m;
      hide WithStatus;
    }
  }

  lemma OtherRowsElsewhere(t: Tables, cfg: Config, e: Event, m: int)
    requires e.call.CreateMatch? || e.call.PutPlayer? || e.call.EditMatch? || e.call.Clock? || e.call.DevReopen?
    requires m in t.matches && (t.matches[m].status == Finished || t.matches[m].status == Cancelled) && !Reopens(e, m)
    ensures SameMatch(t, Step(t, cfg, e), m)
  {
    OtherRowsWritten(t, cfg, e, m);
    hide Step, Reopens;
  }

  lemma OtherRowsWritten(t: Tables, cfg: Config, e: Event, m: int)
    requires e.call.CreateMatch? || e.call.PutPlayer? || e.call.EditMatch? || e.call.Clock? || e.call.DevReopen?
    requires m in t.matches && (t.matches[m].status == Finished || t.matches[m].status == Cancelled) && !Reopens(e, m)
    ensures var u := Step(t, cfg, e);
      u == t.(matches := u.matches, players := u.players) && m in u.matches && u.matches[m] == t.matches[m]
  {
    hide ResolveWriteMode, AfterRegister, AfterUndo, AfterVoid, AfterSave, AfterStatus;
  }

  lemma SaveElsewhere(t: Tables, actor: Actor, g: int, entries: seq<AttendancePatch>, m: int)
    requires m in t.matches && (t.matches[m].status == Finished || t.matches[m].status == Cancelled)
    ensures SameMatch(t, AfterSave(t, actor, g, entries), m)
  {
    if SaveRefusal(t, actor, g, entries).None? {
      assert g != m;
      LiveMatchAttendance.SavedRows(t, actor, g, entries);
      hide *;
      RowsOfOthers(t, AfterSave(t, actor, g, entries), g, PatchMap(entries), m);
    } else {
      assert AfterSave(t, actor, g, entries) == t;
      hide AfterSave, SaveRefusal;
    }
  }

  lemma RowsOfOthers(t: Tables, u: Tables, g: int, patches: map<int, AttendancePatch>, m: int)
    requires LiveMatchAttendance.RowsSaved(t, u, g, patches) && m in t.matches && g != m
    ensures SameMatch(t, u, m)
  {
    hide MergedEntry, EntryPlayers;
  }

  lemma StepLeavesClosed(t: Tables, cfg: Config, e: Event, m: int)
    requires Sound(t) && m in t.matches && Closed(cfg, t.matches[m], e.now) && !Reopens(e, m)
    ensures SameMatch(t, Step(t, cfg, e), m)
  {
    hide Sound, SameMatch, AfterRegister, AfterUndo, AfterVoid, AfterSave, AfterStatus;
    match e.call
    case Register(actor, g, input, catalog, audience) =>
      RegisterElsewhere(t, cfg, actor, g, input, e.now, catalog, audience, m);
    case Undo(actor, g, a) => UndoElsewhere(t, cfg, actor, g, a, e.now, m);
    case Void(actor, g, a, reason) => VoidElsewhere(t, cfg, actor, g, a, e.now, reason, m);
    case Save(actor, g, entries) => SaveElsewhere(t, actor, g, entries, m);
    case SetStatus(actor, g, next) => StatusElsewhere(t, actor, g, next, e.now, e.stored, m);
    case _ => OtherRowsElsewhere(t, cfg, e, m);
  }

  lemma SameMatchIsTransitive(t: Tables, u: Tables, v: Tables, m: int)
    requires SameMatch(t, u, m) && SameMatch(u, v, m)
    ensures SameMatch(t, v, m)
  {
  }

  /** Once a match is closed, no later run of calls, by whoever and on whatever match, changes anything of
      it: neither its fields nor its clock, attendance, actions or notifications. Only a development
      reopening of that very match is excluded. */
  lemma {:induction false} ClosedMatchIsFrozen(t: Tables, cfg: Config, trace: seq<Event>, m: int, now: int)
    requires Sound(t) && m in t.matches && Closed(cfg, t.matches[m], now)
    requires forall i :: 0 <= i < |trace| ==> trace[i].now >= now && !Reopens(trace[i], m)
    ensures SameMatch(t, Run(t, cfg, trace), m)
  {
    hide Sound, Step, SameActions, SameNotes;
    if trace == [] {
      SameMatchIsReflexive(t, m);
    } else {
      var u, e := Run(t, cfg, trace[..|trace| - 1]), trace[|trace| - 1];
      ClosedMatchIsFrozen(t, cfg, trace[..|trace| - 1], m, now);
      RunKeepsSound(t, cfg, trace[..|trace| - 1]);
      ClosedStays(cfg, u.matches[m], now, e.now);
      StepLeavesClosed(u, cfg, e, m);
      SameMatchIsTransitive(t, u, Run(t, cfg, trace), m);
    }
  }

  lemma SameMatchIsReflexive(t: Tables, m: int)
    requires m in t.matches
    ensures SameMatch(t, t, m)
  {
  }

  // Who changes the actions of a match, and when

  /** A capture or a correction made for this match. */
  predicate WritesActionsOf(e: Event, m: int) {
    (e.call.Register? || e.call.Undo? || e.call.Void?) && e.call.m == m
  }

  /** What it takes to change the actions of a match: under way, a coach of its category, or anyone who may
      access the match, by cancelling it; finished, a coach or an administrator, while the window is open,
      and not by an undo. In a match that has not started or is cancelled nothing changes them. */
  predicate MayChangeActions(t: Tables, cfg: Config, e: Event, m: int)
    requires m in t.matches
  {
    var row := t.matches[m];
    match row.status
    case InProgress =>
      || (WritesActionsOf(e, m) && row.categoryId in e.call.actor.categories)
      || (e.call.SetStatus? && e.call.m == m && e.call.next == Cancelled && MayAccess(e.call.actor, row))
    case Finished =>
      && WritesActionsOf(e, m) && !e.call.Undo? && CorrectionOpen(cfg, row, e.now)
      && (row.categoryId in e.call.actor.categories || e.call.actor.isAdmin)
    case _ => false
  }

  lemma SameActionsWhenRefused(t: Tables, m: int)
    ensures SameActions(t, t, m)
  {
  }

  /** Every change of a match's actions comes from someone entitled to it at that moment. */
  lemma ActionsChangeOnlyByRight(t: Tables, cfg: Config, e: Event, m: int)
    requires Sound(t) && m in t.matches && !SameActions(t, Step(t, cfg, e), m)
    ensures MayChangeActions(t, cfg, e, m)
    ensures e.call.Undo? ==>
      && e.call.action in t.actions && t.actions[e.call.action].createdBy == e.call.actor.userId
      && e.now - t.actions[e.call.action].createdAt <= cfg.undoWindowMs
  {
    match e.call
    case Register(actor, g, input, catalog, audience) => CaptureByRight(t, cfg, e, m);
    case Undo(actor, g, a) => UndoByRight(t, cfg, e, m);
    case Void(actor, g, a, reason) => VoidByRight(t, cfg, e, m);
    case SetStatus(actor, g, next) => StatusChangesActions(t, actor, g, next, e.now, e.stored, m);
    case _ =>
      OtherCallsKeepActions(t, cfg, e);
      hide Step, Sound;
  }

  lemma CaptureByRight(t: Tables, cfg: Config, e: Event, m: int)
    requires Sound(t) && e.call.Register? && m in t.matches && !SameActions(t, Step(t, cfg, e), m)
    ensures MayChangeActions(t, cfg, e, m)
  {
    hide WithNotes, NotifiedBy;
    var Register(actor, g, input, catalog, audience) := e.call;
    if !Registers(t, cfg, actor, g, input, e.now, catalog) { SameActionsWhenRefused(t, m); }
  }

  lemma UndoByRight(t: Tables, cfg: Config, e: Event, m: int)
    requires e.call.Undo? && m in t.matches && !SameActions(t, Step(t, cfg, e), m)
    ensures MayChangeActions(t, cfg, e, m)
    ensures e.call.action in t.actions && t.actions[e.call.action].createdBy == e.call.actor.userId
    ensures e.now - t.actions[e.call.action].createdAt <= cfg.undoWindowMs
  {
    hide ForgetAction;
    var Undo(actor, g, a) := e.call;
    if UndoRefusal(t, cfg, actor, g, a, e.now).Some? { SameActionsWhenRefused(t, m); }
  }

  lemma VoidByRight(t: Tables, cfg: Config, e: Event, m: int)
    requires e.call.Void? && m in t.matches && !SameActions(t, Step(t, cfg, e), m)
    ensures MayChangeActions(t, cfg, e, m)
  {
    hide VoidNotesOf;
    var Void(actor, g, a, reason) := e.call;
    if VoidRefusal(t, cfg, actor, g, a, e.now).Some? { SameActionsWhenRefused(t, m); }
  }

  lemma StatusChangesActions(t: Tables, actor: Actor, g: int, next: MatchStatus, now: int, stored: int, m: int)
    requires Sound(t) && m in t.matches && !SameActions(t, AfterStatus(t, actor, g, next, now, stored), m)
    ensures g == m && next == Cancelled && t.matches[m].status == InProgress && MayAccess(actor, t.matches[m])
  {
    hide WithStatus, VoidNotesOfMatch;
    if StatusRefusal(t, actor, g, next).Some? || next != Cancelled {
      SameActionsWhenRefused(t, m);
      assert false;
    }
  }

  /** The window is what decides: while it is open, and only then, the coach of a finished match can still
      void a counted action. */
  lemma CorrectionsWhileOpen(t: Tables, cfg: Config, actor: Actor, a: int, now: int)
    requires a in t.actions && t.actions[a].status == Active && t.actions[a].matchId in t.matches
    requires t.matches[t.actions[a].matchId].status == Finished
    requires t.matches[t.actions[a].matchId].categoryId in actor.categories
    ensures VoidRefusal(t, cfg, actor, t.actions[a].matchId, a, now).None? <==>
      !Closed(cfg, t.matches[t.actions[a].matchId], now)
  {
  }

  /** Finishing a match opens its window for exactly the configured number of days: from then on the match is
      closed at an instant if and only if that time has passed since the finish, through every later run
      without a development reopening. */
  lemma FinishOpensWindow(
      t: Tables, cfg: Config, actor: Actor, m: int, finish: int, stored: int, trace: seq<Event>, later: int)
    requires StatusRefusal(t, actor, m, Finished).None?
    requires forall i :: 0 <= i < |trace| ==> !Reopens(trace[i], m)
    ensures var u := Run(AfterStatus(t, actor, m, Finished, finish, stored), cfg, trace);
      m in u.matches && (Closed(cfg, u.matches[m], later) <==> later >= finish + cfg.windowDays * MS_PER_DAY)
  {
    var finished := AfterStatus(t, actor, m, Finished, finish, stored);
    assert m in finished.matches && finished.matches[m].status == Finished;
    assert finished.matches[m].finishedAt == Some(finish);
    hide AfterStatus, Step;
    FinishedStays(finished, cfg, trace, m);
  }

  lemma {:induction false} FinishedStays(t: Tables, cfg: Config, trace: seq<Event>, m: int)
    requires m in t.matches && t.matches[m].status == Finished
    requires forall i :: 0 <= i < |trace| ==> !Reopens(trace[i], m)
    ensures m in Run(t, cfg, trace).matches && Run(t, cfg, trace).matches[m] == t.matches[m]
  {
    hide Step;
    if trace != [] {
      var u, e := Run(t, cfg, trace[..|trace| - 1]), trace[|trace| - 1];
      FinishedStays(t, cfg, trace[..|trace| - 1], m);
      FinishedRowStays(u, cfg, e, m);
    }
  }

  lemma FinishedRowStays(t: Tables, cfg: Config, e: Event, m: int)
    requires m in t.matches && t.matches[m].status == Finished && !Reopens(e, m)
    ensures m in Step(t, cfg, e).matches && Step(t, cfg, e).matches[m] == t.matches[m]
  {
    hide AfterSave, WithNotes, Registers, UndoRefusal, VoidRefusal, WithStatus, VoidAllOf, VoidNotesOfMatch;
    hide ResolveWriteMode;
    match e.call
    case SetStatus(actor, g, next) =>
    case EditMatch(actor, g, patch, categoryOk) =>
    case Clock(actor, g, command) =>
    case _ =>
  }
}
