/** Retries of a capture, and what undo, void and cancel do to the notifications of an action. */
module LiveMatchActions {
  import opened Results
  import opened LiveMatch
  import opened LiveMatchRuns

  // Retries

  predicate UndoesAction(e: Event, a: int) { e.call.Undo? && e.call.action == a }

  /** Without an undo of it, an action's row survives every run, with its client id and its match. */
  lemma {:induction false} ActionSurvives(t: Tables, cfg: Config, trace: seq<Event>, a: int)
    requires Sound(t) && a in t.actions
    requires forall i :: 0 <= i < |trace| ==> !UndoesAction(trace[i], a)
    ensures a in Run(t, cfg, trace).actions
    ensures Run(t, cfg, trace).actions[a].clientId == t.actions[a].clientId
    ensures Run(t, cfg, trace).actions[a].matchId == t.actions[a].matchId
  {
    hide Sound;
    if trace != [] {
      var u, e := Run(t, cfg, trace[..|trace| - 1]), trace[|trace| - 1];
      ActionSurvives(t, cfg, trace[..|trace| - 1], a);
      RunKeepsSound(t, cfg, trace[..|trace| - 1]);
      FreshAfterRun(u);
      StepKeepsTrail(u, cfg, e);
      StepKeepsAction(u, cfg, e, a);
    }
  }

  lemma FreshAfterRun(t: Tables)
    requires Sound(t)
    ensures FreshIds(t)
  {
  }

  lemma StepKeepsAction(t: Tables, cfg: Config, e: Event, a: int)
    requires a in t.actions && !UndoesAction(e, a)
    ensures a in Step(t, cfg, e).actions
  {
    if !e.call.SetStatus? && !e.call.Register? && !e.call.Undo? && !e.call.Void? {
      OtherCallsKeepActions(t, cfg, e);
      hide Step;
    } else {
      hide UndoRefusal, VoidRefusal, StatusRefusal, Registers, WithNotes, WithStatus, NotifiedBy, ResolveWriteMode;
    }
  }

  /** A capture that is sent again at any later time, by anyone, to any match, changes nothing: as long as
      its action has not been undone. */
  lemma RetryChangesNothing(t: Tables, cfg: Config, trace: seq<Event>, a: int, retry: Event)
    requires Sound(t) && a in t.actions
    requires forall i :: 0 <= i < |trace| ==> !UndoesAction(trace[i], a)
    requires retry.call.Register? && retry.call.input.clientId == t.actions[a].clientId
    ensures Run(t, cfg, trace + [retry]) == Run(t, cfg, trace)
  {
    ActionSurvives(t, cfg, trace, a);
    RunOneMore(t, cfg, trace, retry);
    assert KnownClient(Run(t, cfg, trace), retry.call.input.clientId);
  }

  /** An accepted capture leaves exactly one action with its client id, in this match, with the jersey
      number of the day. */
  lemma CaptureIsRecordedOnce(
      t: Tables, cfg: Config, actor: Actor, m: int, input: NewAction, now: int, catalog: Option<CatalogEntry>,
      audience: Audience)
    requires Sound(t) && Registers(t, cfg, actor, m, input, now, catalog)
    ensures var u := AfterRegister(t, cfg, actor, m, input, now, catalog, audience);
      && (forall a :: a in u.actions && u.actions[a].clientId == input.clientId <==> a == t.nextAction)
      && u.actions[t.nextAction].matchId == m && u.actions[t.nextAction].status == Active
      && Some(u.actions[t.nextAction].jersey) == t.attendance[(m, input.playerId)].jersey
      && (u.actions[t.nextAction].postMatch <==> t.matches[m].status == Finished)
  {
    hide WithNotes;
  }

  /** Once its action is undone, the same capture is accepted again as a new action. */
  lemma RetryAfterUndoRegistersAgain(
      t: Tables, cfg: Config, actor: Actor, m: int, input: NewAction, now: int, later: int,
      catalog: Option<CatalogEntry>, audience: Audience)
    requires Sound(t) && Registers(t, cfg, actor, m, input, now, catalog)
    requires now <= later <= now + cfg.undoWindowMs && t.matches[m].status == InProgress
    ensures var captured := AfterRegister(t, cfg, actor, m, input, now, catalog, audience);
      var undone := AfterUndo(captured, cfg, actor, m, t.nextAction, later);
      && UndoRefusal(captured, cfg, actor, m, t.nextAction, later).None?
      && undone.actions == t.actions
      && Registers(undone, cfg, actor, m, input, later, catalog)
      && t.nextAction + 1 in AfterRegister(undone, cfg, actor, m, input, later, catalog, audience).actions
  {
    hide WithNotes;
    var captured := AfterRegister(t, cfg, actor, m, input, now, catalog, audience);
    assert captured.actions[t.nextAction].createdAt == now;
    assert captured.actions - {t.nextAction} == t.actions;
  }

  lemma {:induction false} RecipientIffListed(parents: seq<int>, inApp: set<int>, parent: int)
    ensures parent in Recipients(parents, inApp) <==> parent in parents && parent in inApp
  {
    if parents != [] {
      RecipientIffListed(parents[..|parents| - 1], inApp, parent);
    }
  }

  predicate NotifiedOf(t: Tables, a: int, parent: int) {
    exists n :: n in t.notifications && t.notifications[n].recipient == parent
      && t.notifications[n].actionId == Some(a) && !t.notifications[n].voided
  }

  /** A capture notifies exactly the parents of the player who take in-app messages, and nobody at all when
      the code is not notifiable, the academy has notifications off, or the match is already over. */
  lemma CaptureNotifiesParents(
      t: Tables, cfg: Config, actor: Actor, m: int, input: NewAction, now: int, catalog: Option<CatalogEntry>,
      audience: Audience, parent: int)
    requires Sound(t) && Registers(t, cfg, actor, m, input, now, catalog)
    ensures NotifiedOf(AfterRegister(t, cfg, actor, m, input, now, catalog, audience), t.nextAction, parent) <==>
      && catalog.value.notifiable && audience.enabled && t.matches[m].status == InProgress
      && parent in audience.parents && parent in audience.inApp
  {
    var mode := ResolveWriteMode(t, cfg, actor, m, now).value;
    var row := NewRow(t, actor, m, input, now, mode);
    var to := NotifiedBy(audience, catalog, mode);
    RecipientIffListed(audience.parents, audience.inApp, parent);
    assert parent in to <==>
      catalog.value.notifiable && audience.enabled && t.matches[m].status == InProgress
      && parent in audience.parents && parent in audience.inApp;
    NotifiedIffRecipient(t, row, to, parent);
  }

  /** With a new action exactly the given recipients have a notification of it. */
  lemma NotifiedIffRecipient(t: Tables, row: ActionRow, to: seq<int>, parent: int)
    requires Sound(t)
    ensures NotifiedOf(WithAction(t, row, to), t.nextAction, parent) <==> parent in to
  {
    var u := WithAction(t, row, to);
    FreshAfterRun(t);
    NobodyNotifiedYet(t);
    hide Sound, WithNotes;
    if i :| 0 <= i < |to| && to[i] == parent {
      assert u.notifications[t.nextNotification + i] == NewNote(to[i], t.nextAction, row);
      assert t.nextNotification + i in u.notifications;
    }
    if NotifiedOf(u, t.nextAction, parent) {
      var n :| n in u.notifications && u.notifications[n].recipient == parent
        && u.notifications[n].actionId == Some(t.nextAction) && !u.notifications[n].voided;
      NoteIsOldOrNew(t, row, to, n);
      assert to[n - t.nextNotification] in to;
    }
  }

  lemma NobodyNotifiedYet(t: Tables)
    requires Sound(t)
    ensures forall n :: n in t.notifications ==> t.notifications[n].actionId != Some(t.nextAction)
  {
  }

  // Notifications of an action that no longer counts

  predicate Refers(t: Tables, note: NotificationRow) {
    note.actionId.Some? && note.actionId.value in t.actions && t.actions[note.actionId.value].status == Active
  }

  /** Every notification shown as valid refers to a counted action. */
  ghost predicate AllLinked(t: Tables) {
    forall n :: n in t.notifications && !t.notifications[n].voided ==> Refers(t, t.notifications[n])
  }

  predicate Notified(t: Tables, a: int) {
    exists n :: n in t.notifications && !t.notifications[n].voided && t.notifications[n].actionId == Some(a)
  }

  /** Undoing keeps all valid notifications linked if and only if nobody had been notified of the action:
      its row goes first and takes the reference along, so voiding by action id comes too late. */
  lemma UndoKeepsLinksIff(t: Tables, cfg: Config, actor: Actor, m: int, a: int, now: int)
    requires Sound(t) && AllLinked(t) && UndoRefusal(t, cfg, actor, m, a, now).None?
    ensures AllLinked(AfterUndo(t, cfg, actor, m, a, now)) <==> !Notified(t, a)
  {
    hide ResolveWriteMode, Sound;
    var u := AfterUndo(t, cfg, actor, m, a, now);
    if Notified(t, a) {
      var n :| n in t.notifications && !t.notifications[n].voided && t.notifications[n].actionId == Some(a);
      assert !u.notifications[n].voided && u.notifications[n].actionId.None?;
    } else {
      forall n | n in u.notifications && !u.notifications[n].voided ensures Refers(u, u.notifications[n]) {
        assert Refers(t, t.notifications[n]);
      }
    }
  }

  /** Voiding takes back every notification of the action, and no other. */
  lemma VoidTakesBackNotifications(t: Tables, cfg: Config, actor: Actor, m: int, a: int, now: int, reason: string)
    requires VoidRefusal(t, cfg, actor, m, a, now).None?
    ensures var u := AfterVoid(t, cfg, actor, m, a, now, reason);
      && u.notifications.Keys == t.notifications.Keys
      && !Notified(u, a)
      && forall n :: n in t.notifications ==>
           (u.notifications[n].voided <==> t.notifications[n].voided || t.notifications[n].actionId == Some(a))
  {
  }

  /** Cancelling takes back every notification of the match, even those whose action was undone, and
      leaves no counted action in it. */
  lemma CancelTakesBackEverything(t: Tables, actor: Actor, m: int, now: int, stored: int)
    requires StatusRefusal(t, actor, m, Cancelled).None?
    ensures var u := AfterStatus(t, actor, m, Cancelled, now, stored);
      && (forall n :: n in u.notifications && u.notifications[n].matchId == m ==> u.notifications[n].voided)
      && (forall a :: a in u.actions && u.actions[a].matchId == m ==> u.actions[a].status == Voided)
      && (forall a :: a in t.actions && t.actions[a].matchId != m ==> a in u.actions && u.actions[a] == t.actions[a])
  {
    forall n | n in AfterStatus(t, actor, m, Cancelled, now, stored).notifications
      ensures AfterStatus(t, actor, m, Cancelled, now, stored).notifications[n].matchId == t.notifications[n].matchId
    {
    }
  }

  /** The event undoes no action of which someone holds a valid notification. */
  predicate QuietUndo(t: Tables, e: Event) { e.call.Undo? ==> !Notified(t, e.call.action) }

  predicate QuietUndos(t: Tables, cfg: Config, trace: seq<Event>) {
    trace == [] || (QuietUndos(t, cfg, trace[..|trace| - 1])
                    && QuietUndo(Run(t, cfg, trace[..|trace| - 1]), trace[|trace| - 1]))
  }

  lemma StepKeepsLinks(t: Tables, cfg: Config, e: Event)
    requires Sound(t) && AllLinked(t) && QuietUndo(t, e)
    ensures AllLinked(Step(t, cfg, e))
  {
    hide Sound, AfterRegister, AfterStatus, AfterVoid;
    match e.call
    case Undo(actor, m, a) =>
      if UndoRefusal(t, cfg, actor, m, a, e.now).None? {
        UndoKeepsLinksIff(t, cfg, actor, m, a, e.now);
      }
    case Register(actor, m, input, catalog, audience) =>
      RegisterKeepsLinks(t, cfg, actor, m, input, e.now, catalog, audience);
    case SetStatus(actor, m, next) =>
      StatusKeepsLinks(t, actor, m, next, e.now, e.stored);
    case Void(actor, m, a, reason) =>
      VoidKeepsLinks(t, cfg, actor, m, a, e.now, reason);
    case _ =>
      OtherCallsKeepActions(t, cfg, e);
      hide Sound, Step;
      var u := Step(t, cfg, e);
      forall n | n in u.notifications && !u.notifications[n].voided ensures Refers(u, u.notifications[n]) {
        assert Refers(t, t.notifications[n]);
      }
  }

  lemma RegisterKeepsLinks(
      t: Tables, cfg: Config, actor: Actor, m: int, input: NewAction, now: int, catalog: Option<CatalogEntry>,
      audience: Audience)
    requires Sound(t) && AllLinked(t)
    ensures AllLinked(AfterRegister(t, cfg, actor, m, input, now, catalog, audience))
  {
    if Registers(t, cfg, actor, m, input, now, catalog) {
      var mode := ResolveWriteMode(t, cfg, actor, m, now).value;
      var row := NewRow(t, actor, m, input, now, mode);
      var to := NotifiedBy(audience, catalog, mode);
      var u := WithAction(t, row, to);
      FreshAfterRun(t);
      hide Sound, WithNotes, Registers, NewRow, NotifiedBy, ResolveWriteMode;
      forall n | n in u.notifications && !u.notifications[n].voided ensures Refers(u, u.notifications[n]) {
        NoteIsOldOrNew(t, row, to, n);
        if n < t.nextNotification {
          assert Refers(t, t.notifications[n]);
        }
      }
    }
  }

  lemma StatusKeepsLinks(t: Tables, actor: Actor, m: int, next: MatchStatus, now: int, stored: int)
    requires Sound(t) && AllLinked(t)
    ensures AllLinked(AfterStatus(t, actor, m, next, now, stored))
  {
    var u := AfterStatus(t, actor, m, next, now, stored);
    forall n | n in u.notifications && !u.notifications[n].voided ensures Refers(u, u.notifications[n]) {
      assert Refers(t, t.notifications[n]) && NoteFits(t, t.notifications[n]);
    }
  }

  lemma VoidKeepsLinks(t: Tables, cfg: Config, actor: Actor, m: int, a: int, now: int, reason: string)
    requires AllLinked(t)
    ensures AllLinked(AfterVoid(t, cfg, actor, m, a, now, reason))
  {
    hide ResolveWriteMode;
    var u := AfterVoid(t, cfg, actor, m, a, now, reason);
    forall n | n in u.notifications && !u.notifications[n].voided ensures Refers(u, u.notifications[n]) {
      assert Refers(t, t.notifications[n]);
    }
  }

  /** Over every run without an undo of a notified action, valid notifications refer to counted actions. */
  lemma {:induction false} RunKeepsLinks(cfg: Config, trace: seq<Event>)
    requires QuietUndos(NoRows(), cfg, trace)
    ensures AllLinked(Run(NoRows(), cfg, trace))
  {
    hide Step, Sound;
    if trace != [] {
      RunKeepsLinks(cfg, trace[..|trace| - 1]);
      NoRowsIsSound();
      RunKeepsSound(NoRows(), cfg, trace[..|trace| - 1]);
      StepKeepsLinks(Run(NoRows(), cfg, trace[..|trace| - 1]), cfg, trace[|trace| - 1]);
    }
  }

  lemma NoRowsIsSound()
    ensures Sound(NoRows())
  {
  }

  // A run that leaves a valid notification of nothing

  const COACH := Actor(5, false, true, {10})
  const PARENT := 50

  const PREPARE := [
    Event(PutPlayer(1, Player(10, true, 7)), 0, 0),
    Event(CreateMatch(1, 10, None, ""), 0, 0),
    Event(SetStatus(COACH, 1, InProgress), 0, 0),
    Event(Save(COACH, 1, [AttendancePatch(1, true, None, Number(7))]), 0, 0)]

  const CAPTURE := Event(
    Register(COACH, 1, NewAction("c", 1, 13, 0, 1), Some(CatalogEntry(true, true)), Audience(true, [PARENT], {PARENT})),
    0, 0)

  const TAKE_BACK := Event(Undo(COACH, 1, 0), 0, 0)

  const STARTED := WithStatus(NewMatch(10, None, ""), InProgress, 0, 0)

  const PREPARED := Tables(
    map[1 := STARTED], map[1 := Player(10, true, 7)], map[(1, 1) := AttendanceRow(true, None, Some(7))],
    map[], map[], 0, 0)

  lemma PrepareRuns(cfg: Config)
    ensures Run(NoRows(), cfg, PREPARE) == PREPARED
  {
    var one := NoRows().(players := map[1 := Player(10, true, 7)]);
    var two := one.(matches := map[1 := NewMatch(10, None, "")]);
    var three := one.(matches := map[1 := STARTED]);
    RunOneMore(NoRows(), cfg, [], PREPARE[0]);
    RunOneMore(NoRows(), cfg, PREPARE[..1], PREPARE[1]);
    RunOneMore(NoRows(), cfg, PREPARE[..2], PREPARE[2]);
    RunOneMore(NoRows(), cfg, PREPARE[..3], PREPARE[3]);
    assert [] + [PREPARE[0]] == PREPARE[..1] && PREPARE[..1] + [PREPARE[1]] == PREPARE[..2];
    assert PREPARE[..2] + [PREPARE[2]] == PREPARE[..3] && PREPARE[..3] + [PREPARE[3]] == PREPARE;
    PrepareSaves(three);
    assert Step(NoRows(), cfg, PREPARE[0]) == one;
    assert Step(one, cfg, PREPARE[1]) == two;
    assert Step(two, cfg, PREPARE[2]) == three;
  }

  lemma PrepareSaves(t: Tables)
    requires t == PREPARED.(attendance := map[])
    ensures AfterSave(t, COACH, 1, PREPARE[3].call.entries) == PREPARED
  {
    var entries := PREPARE[3].call.entries;
    assert EntryPlayers(t, 1) == {1};
    assert entries[..0] == [];
    assert PatchMap(entries) == map[1 := entries[0]];
  }

  lemma CaptureRuns(cfg: Config)
    ensures Registers(PREPARED, cfg, COACH, 1, CAPTURE.call.input, 0, CAPTURE.call.catalog)
    ensures var u := Step(PREPARED, cfg, CAPTURE);
      && 0 in u.actions && u.actions[0].createdAt == 0 && u.actions[0].createdBy == COACH.userId
      && u.actions[0].matchId == 1 && u.actions[0].status == Active && u.matches == PREPARED.matches
      && 0 in u.notifications && !u.notifications[0].voided && u.notifications[0].actionId == Some(0)
  {
    assert [PARENT][..0] == [];
    assert Recipients([PARENT], {PARENT}) == [PARENT];
  }

  /** A parent keeps a valid notification of a goal that was taken back at once: the links of all valid
      notifications hold after the capture and not after the undo. */
  lemma UndoLeavesNotification(cfg: Config)
    requires cfg.undoWindowMs >= 0
    ensures var t := Run(NoRows(), cfg, PREPARE + [CAPTURE] + [TAKE_BACK]);
      && t.actions == map[]
      && 0 in t.notifications && !t.notifications[0].voided && t.notifications[0].actionId == None
      && !AllLinked(t)
  {
    PrepareRuns(cfg);
    CaptureRuns(cfg);
    TakeBackRuns(cfg);
    hide *;
    RunOneMore(NoRows(), cfg, PREPARE, CAPTURE);
    RunOneMore(NoRows(), cfg, PREPARE + [CAPTURE], TAKE_BACK);
  }

  lemma TakeBackRuns(cfg: Config)
    requires cfg.undoWindowMs >= 0
    ensures var t := Step(Step(PREPARED, cfg, CAPTURE), cfg, TAKE_BACK);
      && t.actions == map[]
      && 0 in t.notifications && !t.notifications[0].voided && t.notifications[0].actionId == None
      && !AllLinked(t)
  {
    CaptureRuns(cfg);
    var u := Step(PREPARED, cfg, CAPTURE);
    var t := Step(u, cfg, TAKE_BACK);
    assert u.actions.Keys == {0};
    hide AfterRegister;
    assert t == AfterUndo(u, cfg, COACH, 1, 0, 0);
    assert !Refers(t, t.notifications[0]);
  }
}
