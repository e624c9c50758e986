/** Whole runs of live-match calls, by any users, at any instants, on any number of matches. */
module LiveMatchRuns {
  import opened Results
  import opened MatchClock
  import opened MatchCorrection
  import opened LiveMatch

  /** Everything that writes the tables. `PutPlayer` is any change of a player by the player service. */
  datatype Call =
    | CreateMatch(m: int, categoryId: int, periodsCount: Option<int>, details: string)
    | PutPlayer(playerId: int, player: Player)
    | EditMatch(actor: Actor, m: int, patch: MatchPatch, categoryOk: bool)
    | SetStatus(actor: Actor, m: int, next: MatchStatus)
    | Save(actor: Actor, m: int, entries: seq<AttendancePatch>)
    | Register(actor: Actor, m: int, input: NewAction, catalog: Option<CatalogEntry>, audience: Audience)
    | Undo(actor: Actor, m: int, action: int)
    | Void(actor: Actor, m: int, action: int, reason: string)
    | Clock(actor: Actor, m: int, command: Command)
    | DevReopen(actor: Actor, m: int)

  /** A call at `now`; `stored` is what a column of whole seconds keeps of this instant. */
  datatype Event = Event(call: Call, now: int, stored: int)

  /** Clock columns of a new match hold their defaults. */
  function NewMatch(categoryId: int, periodsCount: Option<int>, details: string): MatchRow {
    MatchRow(categoryId, Scheduled, None, ClockState(1, 0, false, None), None, periodsCount, details)
  }

  function AfterReopen(t: Tables, actor: Actor, m: int): Tables {
    if m in t.matches && MayAccess(actor, t.matches[m]) && t.matches[m].status == Finished
    then t.(matches := t.matches[m := t.matches[m].(status := InProgress, finishedAt := None)]) else t
  }

  /** A refused call changes nothing. An automatic id is never one in use. */
  function Step(t: Tables, cfg: Config, e: Event): Tables {
    match e.call
    case CreateMatch(m, categoryId, periodsCount, details) =>
      if m in t.matches then t else t.(matches := t.matches[m := NewMatch(categoryId, periodsCount, details)])
    case PutPlayer(p, player) => t.(players := t.players[p := player])
    case EditMatch(actor, m, patch, categoryOk) => AfterUpdate(t, actor, m, patch, categoryOk)
    case SetStatus(actor, m, next) => AfterStatus(t, actor, m, next, e.now, e.stored)
    case Save(actor, m, entries) => AfterSave(t, actor, m, entries)
    case Register(actor, m, input, catalog, audience) =>
      AfterRegister(t, cfg, actor, m, input, e.now, catalog, audience)
    case Undo(actor, m, action) => AfterUndo(t, cfg, actor, m, action, e.now)
    case Void(actor, m, action, reason) => AfterVoid(t, cfg, actor, m, action, e.now, reason)
    case Clock(actor, m, command) => AfterClock(t, cfg, actor, m, command, e.now, e.stored)
    case DevReopen(actor, m) => AfterReopen(t, actor, m)
  }

  function Run(t: Tables, cfg: Config, trace: seq<Event>): Tables {
    if trace == [] then t else Step(Run(t, cfg, trace[..|trace| - 1]), cfg, trace[|trace| - 1])
  }

  lemma RunOneMore(t: Tables, cfg: Config, trace: seq<Event>, e: Event)
    ensures Run(t, cfg, trace + [e]) == Step(Run(t, cfg, trace), cfg, e)
  {
    assert (trace + [e])[..|trace|] == trace;
  }

  /** Running one trace after another. */
  lemma {:induction false} RunThen(t: Tables, cfg: Config, first: seq<Event>, second: seq<Event>)
    ensures Run(t, cfg, first + second) == Run(Run(t, cfg, first), cfg, second)
  {
    hide Step;
    if second == [] {
      assert first + second == first;
    } else {
      var front, e := second[..|second| - 1], second[|second| - 1];
      RunThen(t, cfg, first, front);
      RunOneMore(t, cfg, first + front, e);
      assert first + second == (first + front) + [e];
    }
  }

  lemma RunOfTwo(t: Tables, cfg: Config, e: Event, f: Event)
    ensures Run(t, cfg, [e, f]) == Step(Step(t, cfg, e), cfg, f)
  {
    RunOneMore(t, cfg, [], e);
    RunOneMore(t, cfg, [e], f);
    assert [] + [e] == [e] && [e] + [f] == [e, f];
  }

  function NoRows(): Tables { Tables(map[], map[], map[], map[], map[], 0, 0) }

  // What holds in every reachable state

  predicate HasAttended(t: Tables, m: int, p: int) { (m, p) in t.attendance && t.attendance[(m, p)].attended }

  predicate Played(t: Tables, m: int) {
    m in t.matches && (t.matches[m].status == InProgress || t.matches[m].status == Finished)
  }

  /** A counted action belongs to a player marked present, in a match under way or finished. */
  ghost predicate ActionsAttended(t: Tables) {
    forall a :: a in t.actions && t.actions[a].status == Active ==>
      HasAttended(t, t.actions[a].matchId, t.actions[a].playerId) && Played(t, t.actions[a].matchId)
  }

  predicate NoteFits(t: Tables, note: NotificationRow) {
    note.actionId.Some? ==>
      && note.actionId.value in t.actions
      && t.actions[note.actionId.value].matchId == note.matchId
      && t.actions[note.actionId.value].playerId == note.playerId
      && (!note.voided ==> t.actions[note.actionId.value].status == Active && !t.actions[note.actionId.value].postMatch)
  }

  ghost predicate NotesFit(t: Tables) { forall n :: n in t.notifications ==> NoteFits(t, t.notifications[n]) }

  predicate RowSound(row: MatchRow) {
    && Consistent(row.clock)
    && row.clock.currentPeriod >= 1
    && (row.clock.running ==> row.status == InProgress || row.status == Cancelled)
    && (row.finishedAt.Some? <==> row.status == Finished)
  }

  ghost predicate RowsSound(t: Tables) { forall m :: m in t.matches ==> RowSound(t.matches[m]) }

  ghost predicate Sound(t: Tables) {
    Stored(t) && ActionsAttended(t) && NotesFit(t) && RowsSound(t)
  }

  lemma RowChangeKeepsSound(t: Tables, m: int, row: MatchRow)
    requires Sound(t) && RowSound(row)
    requires Played(t, m) ==> row.status == InProgress || row.status == Finished
    ensures Sound(t.(matches := t.matches[m := row]))
  {
    hide RowSound;
    var u := t.(matches := t.matches[m := row]);
    forall n | n in u.notifications ensures NoteFits(u, u.notifications[n]) {
      assert NoteFits(t, t.notifications[n]);
    }
    assert ActionsAttended(u) by {
      forall a | a in u.actions && u.actions[a].status == Active
        ensures HasAttended(u, u.actions[a].matchId, u.actions[a].playerId) && Played(u, u.actions[a].matchId)
      {
        assert HasAttended(t, t.actions[a].matchId, t.actions[a].playerId) && Played(t, t.actions[a].matchId);
      }
    }
  }

  lemma PutPlayerKeepsSound(t: Tables, p: int, player: Player)
    requires Sound(t)
    ensures Sound(t.(players := t.players[p := player]))
  {
    var u := t.(players := t.players[p := player]);
    forall n | n in u.notifications ensures NoteFits(u, u.notifications[n]) {
      assert NoteFits(t, t.notifications[n]);
    }
  }

  lemma ClockStaysSound(t: Tables, cfg: Config, actor: Actor, m: int, command: Command, now: int, stored: int)
    requires RowsSound(t) && ClockRefusal(t, cfg, actor, m, command, now).None?
    ensures RowSound(AfterClock(t, cfg, actor, m, command, now, stored).matches[m])
  {
    assert RowSound(t.matches[m]);
  }

  lemma RowStepsKeepSound(t: Tables, cfg: Config, e: Event)
    requires Sound(t)
    requires e.call.CreateMatch? || e.call.EditMatch? || e.call.Clock? || e.call.DevReopen?
    ensures Sound(Step(t, cfg, e))
  {
    assert RowsSound(t);
    hide Sound, ClockRefusal, ApplyCommand;
    match e.call
    case CreateMatch(m, categoryId, periodsCount, details) =>
      if m !in t.matches {
        RowChangeKeepsSound(t, m, NewMatch(categoryId, periodsCount, details));
      }
    case EditMatch(actor, m, patch, categoryOk) =>
      if UpdateRefusal(t, actor, m, patch, categoryOk).None? {
        RowChangeKeepsSound(t, m, Patched(t.matches[m], patch));
      }
    case Clock(actor, m, command) =>
      if ClockRefusal(t, cfg, actor, m, command, e.now).None? {
        ClockStaysSound(t, cfg, actor, m, command, e.now, e.stored);
        RowChangeKeepsSound(t, m, AfterClock(t, cfg, actor, m, command, e.now, e.stored).matches[m]);
      }
    case DevReopen(actor, m) =>
      if AfterReopen(t, actor, m) != t {
        RowChangeKeepsSound(t, m, t.matches[m].(status := InProgress, finishedAt := None));
      }
    case _ =>
  }

  /** The tables of a match that has been cancelled. */
  function Cancelling(t: Tables, m: int, user: int, reason: string, row: MatchRow): Tables {
    t.(matches := t.matches[m := row], actions := VoidAllOf(t.actions, m, user, reason),
       notifications := VoidNotesOfMatch(t.notifications, m))
  }

  lemma CancelKeepsNotesFit(t: Tables, m: int, user: int, reason: string, row: MatchRow)
    requires NotesFit(t)
    ensures NotesFit(Cancelling(t, m, user, reason, row))
  {
    var u := Cancelling(t, m, user, reason, row);
    forall n | n in u.notifications ensures NoteFits(u, u.notifications[n]) {
      assert NoteFits(t, t.notifications[n]);
    }
  }

  lemma CancelKeepsStored(t: Tables, m: int, user: int, reason: string, row: MatchRow)
    requires Stored(t)
    ensures Stored(Cancelling(t, m, user, reason, row))
  {
  }

  lemma CancelKeepsSound(t: Tables, m: int, user: int, reason: string, row: MatchRow)
    requires Sound(t) && RowSound(row)
    ensures Sound(Cancelling(t, m, user, reason, row))
  {
    CancelKeepsNotesFit(t, m, user, reason, row);
    CancelKeepsStored(t, m, user, reason, row);
    hide RowSound, NotesFit, Stored;
    var u := Cancelling(t, m, user, reason, row);
    assert ActionsAttended(u) by {
      forall a | a in u.actions && u.actions[a].status == Active
        ensures HasAttended(u, u.actions[a].matchId, u.actions[a].playerId) && Played(u, u.actions[a].matchId)
      {
        assert u.actions[a].matchId != m && u.actions[a] == t.actions[a];
        assert HasAttended(t, t.actions[a].matchId, t.actions[a].playerId) && Played(t, t.actions[a].matchId);
      }
    }
  }

  lemma StatusKeepsSound(t: Tables, actor: Actor, m: int, next: MatchStatus, now: int, stored: int)
    requires Sound(t)
    ensures Sound(AfterStatus(t, actor, m, next, now, stored))
  {
    if StatusRefusal(t, actor, m, next).None? {
      var row := WithStatus(t.matches[m], next, now, stored);
      StatusKeepsRow(t, actor, m, next, now, stored);
      hide Sound, RowSound, WithStatus, VoidAllOf, VoidNotesOfMatch;
      if next == Cancelled {
        CancelKeepsSound(t, m, actor.userId, "Partido cancelado", row);
      } else {
        RowChangeKeepsSound(t, m, row);
      }
    }
  }

  lemma StatusKeepsRow(t: Tables, actor: Actor, m: int, next: MatchStatus, now: int, stored: int)
    requires RowsSound(t) && StatusRefusal(t, actor, m, next).None?
    ensures RowSound(WithStatus(t.matches[m], next, now, stored))
    ensures WithStatus(t.matches[m], next, now, stored).status == next
    ensures next != Cancelled && Played(t, m) ==> next == InProgress || next == Finished
  {
    assert RowSound(t.matches[m]);
  }

  lemma AttendanceChangeKeepsSound(t: Tables, attendance: map<(int, int), AttendanceRow>)
    requires Sound(t) && ActionsAttended(t.(attendance := attendance))
    requires forall k :: k in attendance ==> k.0 in t.matches && k.1 in t.players
    ensures Sound(t.(attendance := attendance))
  {
    var u := t.(attendance := attendance);
    forall n | n in u.notifications ensures NoteFits(u, u.notifications[n]) {
      assert NoteFits(t, t.notifications[n]);
    }
  }

  lemma SaveKeepsSound(t: Tables, actor: Actor, m: int, entries: seq<AttendancePatch>)
    requires Sound(t)
    ensures Sound(AfterSave(t, actor, m, entries))
  {
    if SaveRefusal(t, actor, m, entries).None? {
      SaveKeepsScorersPresent(t, actor, m, entries);
      hide Sound, SaveRefusal, AfterSave, ActionsAttended;
      AttendanceChangeKeepsSound(t, AfterSave(t, actor, m, entries).attendance);
    }
  }

  lemma SaveKeepsScorersPresent(t: Tables, actor: Actor, m: int, entries: seq<AttendancePatch>)
    requires Sound(t) && SaveRefusal(t, actor, m, entries).None?
    ensures ActionsAttended(AfterSave(t, actor, m, entries))
    ensures forall k :: k in AfterSave(t, actor, m, entries).attendance ==> k.0 in t.matches && k.1 in t.players
  {
    var u := AfterSave(t, actor, m, entries);
    var patches := PatchMap(entries);
    forall a | a in u.actions && u.actions[a].status == Active
      ensures HasAttended(u, u.actions[a].matchId, u.actions[a].playerId)
    {
      var p := u.actions[a].playerId;
      if u.actions[a].matchId == m && p in patches {
        assert HasActiveAction(t, m, p);
        var i :| 0 <= i < |entries| && entries[i] == patches[p];
        assert patches[p].attended;
        assert u.attendance[(m, p)] == MergedEntry(t, m, patches, p);
      }
    }
  }

  lemma RegisterKeepsSound(
      t: Tables, cfg: Config, actor: Actor, m: int, input: NewAction, now: int, catalog: Option<CatalogEntry>,
      audience: Audience)
    requires Sound(t)
    ensures Sound(AfterRegister(t, cfg, actor, m, input, now, catalog, audience))
  {
    if Registers(t, cfg, actor, m, input, now, catalog) {
      var mode := ResolveWriteMode(t, cfg, actor, m, now).value;
      var row := NewRow(t, actor, m, input, now, mode);
      var to := NotifiedBy(audience, catalog, mode);
      RecipientsDistinct(audience.parents, audience.inApp);
      assert Distinct(to);
      NewNotesAreUnique(t, to, row);
      NewNotesFit(t, to, row);
      NewActionFits(t, to, row);
    }
  }

  lemma NewActionFits(t: Tables, to: seq<int>, row: ActionRow)
    requires Sound(t) && !KnownClient(t, row.clientId)
    requires HasAttended(t, row.matchId, row.playerId) && Played(t, row.matchId)
    ensures var u := WithAction(t, row, to);
      FreshIds(u) && ForeignKeys(u) && UniqueClientIds(u) && ActionsAttended(u) && RowsSound(u)
  {
    hide WithNotes, NoteFits;
    var u := WithAction(t, row, to);
    forall n | n in u.notifications
      ensures n < u.nextNotification
      ensures u.notifications[n].actionId.Some? ==> u.notifications[n].actionId.value in u.actions
    {
      NoteIsOldOrNew(t, row, to, n);
    }
    assert ActionsAttended(u) by {
      forall a | a in u.actions && u.actions[a].status == Active
        ensures HasAttended(u, u.actions[a].matchId, u.actions[a].playerId) && Played(u, u.actions[a].matchId)
      {
        assert a in t.actions && a != t.nextAction ==>
          HasAttended(t, u.actions[a].matchId, u.actions[a].playerId) && Played(t, u.actions[a].matchId);
      }
    }
  }

  lemma {:induction false} RecipientsDistinct(parents: seq<int>, inApp: set<int>)
    requires Distinct(parents)
    ensures Distinct(Recipients(parents, inApp))
  {
    if parents != [] {
      RecipientsDistinct(parents[..|parents| - 1], inApp);
    }
  }

  /** The tables with a new action and its notifications. */
  function WithAction(t: Tables, row: ActionRow, to: seq<int>): Tables {
    t.(actions := t.actions[t.nextAction := row], nextAction := t.nextAction + 1,
       notifications := WithNotes(t.notifications, t.nextNotification, to, t.nextAction, row),
       nextNotification := t.nextNotification + |to|)
  }

  lemma NoteIsOldOrNew(t: Tables, row: ActionRow, to: seq<int>, n: int)
    requires FreshIds(t) && n in WithAction(t, row, to).notifications
    ensures var note := WithAction(t, row, to).notifications[n];
      if n < t.nextNotification then n in t.notifications && note == t.notifications[n]
      else n - t.nextNotification < |to| && note == NewNote(to[n - t.nextNotification], t.nextAction, row)
  {
    if n >= t.nextNotification {
      var i := n - t.nextNotification;
      assert WithNotes(t.notifications, t.nextNotification, to, t.nextAction, row)[t.nextNotification + i]
        == NewNote(to[n - t.nextNotification], t.nextAction, row);
    }
  }

  lemma NewNotesFit(t: Tables, to: seq<int>, row: ActionRow)
    requires Stored(t) && NotesFit(t) && row.status == Active && (row.postMatch ==> to == [])
    ensures NotesFit(WithAction(t, row, to))
  {
    hide WithNotes;
    var u := WithAction(t, row, to);
    forall n | n in u.notifications ensures NoteFits(u, u.notifications[n]) {
      NoteIsOldOrNew(t, row, to, n);
      if n in t.notifications && n < t.nextNotification {
        assert NoteFits(t, t.notifications[n]);
      }
    }
  }

  lemma NewNotesAreUnique(t: Tables, to: seq<int>, row: ActionRow)
    requires Stored(t) && Distinct(to)
    ensures UniqueRecipients(WithAction(t, row, to))
  {
    hide WithNotes;
    var u := WithAction(t, row, to);
    forall n, k | n in u.notifications && k in u.notifications && SameNotice(u.notifications[n], u.notifications[k])
      ensures n == k
    {
      NoteIsOldOrNew(t, row, to, n);
      NoteIsOldOrNew(t, row, to, k);
    }
  }

  lemma UndoKeepsSound(t: Tables, cfg: Config, actor: Actor, m: int, id: int, now: int)
    requires Sound(t)
    ensures Sound(AfterUndo(t, cfg, actor, m, id, now))
  {
    var u := AfterUndo(t, cfg, actor, m, id, now);
    forall n | n in u.notifications ensures NoteFits(u, u.notifications[n]) {
      assert NoteFits(t, t.notifications[n]);
    }
  }

  lemma VoidKeepsSound(t: Tables, cfg: Config, actor: Actor, m: int, id: int, now: int, reason: string)
    requires Sound(t)
    ensures Sound(AfterVoid(t, cfg, actor, m, id, now, reason))
  {
    var u := AfterVoid(t, cfg, actor, m, id, now, reason);
    forall n | n in u.notifications ensures NoteFits(u, u.notifications[n]) {
      assert NoteFits(t, t.notifications[n]);
    }
  }

  lemma StepKeepsSound(t: Tables, cfg: Config, e: Event)
    requires Sound(t)
    ensures Sound(Step(t, cfg, e))
  {
    hide Sound, AfterStatus, AfterSave, AfterRegister, AfterUndo, AfterVoid;
    match e.call
    case PutPlayer(p, player) => PutPlayerKeepsSound(t, p, player);
    case SetStatus(actor, m, next) => StatusKeepsSound(t, actor, m, next, e.now, e.stored);
    case Save(actor, m, entries) => SaveKeepsSound(t, actor, m, entries);
    case Register(actor, m, input, catalog, audience) =>
      RegisterKeepsSound(t, cfg, actor, m, input, e.now, catalog, audience);
    case Undo(actor, m, action) => UndoKeepsSound(t, cfg, actor, m, action, e.now);
    case Void(actor, m, action, reason) => VoidKeepsSound(t, cfg, actor, m, action, e.now, reason);
    case _ => RowStepsKeepSound(t, cfg, e);
  }

  lemma {:induction false} RunKeepsSound(t: Tables, cfg: Config, trace: seq<Event>)
    requires Sound(t)
    ensures Sound(Run(t, cfg, trace))
  {
    hide Sound, Step;
    if trace != [] {
      RunKeepsSound(t, cfg, trace[..|trace| - 1]);
      StepKeepsSound(Run(t, cfg, trace[..|trace| - 1]), cfg, trace[|trace| - 1]);
    }
  }

  /** In every reachable state: a counted action belongs to a player marked present in a match that was
      started and not cancelled, a client id has at most one action, a notification still shown as valid
      refers to a counted action captured live (or to none, once its action was undone), no parent has
      two notifications of one action, and only matches under way or cancelled have a running clock. */
  lemma EveryReachableState(cfg: Config, trace: seq<Event>)
    ensures var t := Run(NoRows(), cfg, trace);
      && (forall a :: a in t.actions && t.actions[a].status == Active ==>
            && HasAttended(t, t.actions[a].matchId, t.actions[a].playerId)
            && t.actions[a].matchId in t.matches
            && t.matches[t.actions[a].matchId].status != Scheduled
            && t.matches[t.actions[a].matchId].status != Cancelled)
      && UniqueClientIds(t)
      && (forall n :: n in t.notifications && !t.notifications[n].voided && t.notifications[n].actionId.Some? ==>
            && t.notifications[n].actionId.value in t.actions
            && t.actions[t.notifications[n].actionId.value].status == Active
            && !t.actions[t.notifications[n].actionId.value].postMatch)
      && UniqueRecipients(t)
      && (forall m :: m in t.matches && t.matches[m].clock.running ==>
            && t.matches[m].clock.startedAt.Some?
            && (t.matches[m].status == InProgress || t.matches[m].status == Cancelled))
  {
    RunKeepsSound(NoRows(), cfg, trace);
    var t := Run(NoRows(), cfg, trace);
    forall n | n in t.notifications ensures NoteFits(t, t.notifications[n]) {}
    forall m | m in t.matches ensures RowSound(t.matches[m]) {}
  }

  // The trail of actions

  /** What was captured never changes; voiding is final; ids are not reused. */
  predicate LaterRow(before: ActionRow, after: ActionRow) {
    || after == before
    || (before.status == Active && after.status == Voided && after.voidedBy.Some?
        && after == before.(status := Voided, voidedBy := after.voidedBy, reason := after.reason))
  }

  ghost predicate Trail(t: Tables, u: Tables) {
    && t.nextAction <= u.nextAction
    && (forall a :: a in t.actions ==>
          if a in u.actions then LaterRow(t.actions[a], u.actions[a]) else t.actions[a].status == Active)
    && (forall a :: a in u.actions && a !in t.actions ==> a >= t.nextAction)
  }

  /** The calls that write neither actions nor notifications. */
  lemma OtherCallsKeepActions(t: Tables, cfg: Config, e: Event)
    requires !e.call.SetStatus? && !e.call.Register? && !e.call.Undo? && !e.call.Void?
    ensures Step(t, cfg, e).actions == t.actions && Step(t, cfg, e).nextAction == t.nextAction
    ensures Step(t, cfg, e).notifications == t.notifications
  {
    hide AfterSave, AfterClock, AfterUpdate, AfterRegister, AfterStatus, AfterUndo, AfterVoid, MayAccess;
  }

  lemma SameActionsKeepTrail(t: Tables, u: Tables)
    requires u.actions == t.actions && u.nextAction == t.nextAction
    ensures Trail(t, u)
  {
  }

  lemma RegisterKeepsTrail(
      t: Tables, cfg: Config, actor: Actor, m: int, input: NewAction, now: int, catalog: Option<CatalogEntry>,
      audience: Audience)
    requires FreshIds(t)
    ensures Trail(t, AfterRegister(t, cfg, actor, m, input, now, catalog, audience))
  {
    if Registers(t, cfg, actor, m, input, now, catalog) {
      hide Registers, ResolveWriteMode, WithNotes, NotifiedBy;
    } else {
      hide Registers;
      SameActionsKeepTrail(t, t);
    }
  }

  lemma StepKeepsTrail(t: Tables, cfg: Config, e: Event)
    requires FreshIds(t)
    ensures Trail(t, Step(t, cfg, e))
  {
    hide Trail, FreshIds, AfterStatus, AfterRegister, AfterUndo, AfterVoid;
    match e.call
    case SetStatus(actor, m, next) => StatusKeepsTrail(t, actor, m, next, e.now, e.stored);
    case Register(actor, m, input, catalog, audience) =>
      RegisterKeepsTrail(t, cfg, actor, m, input, e.now, catalog, audience);
    case Undo(actor, m, action) => UndoKeepsTrail(t, cfg, actor, m, action, e.now);
    case Void(actor, m, action, reason) => VoidKeepsTrail(t, cfg, actor, m, action, e.now, reason);
    case _ =>
      OtherCallsKeepActions(t, cfg, e);
      SameActionsKeepTrail(t, Step(t, cfg, e));
  }

  lemma UndoKeepsTrail(t: Tables, cfg: Config, actor: Actor, m: int, a: int, now: int)
    ensures Trail(t, AfterUndo(t, cfg, actor, m, a, now))
  {
    hide ResolveWriteMode, ForgetAction;
  }

  lemma VoidKeepsTrail(t: Tables, cfg: Config, actor: Actor, m: int, a: int, now: int, reason: string)
    ensures Trail(t, AfterVoid(t, cfg, actor, m, a, now, reason))
  {
    hide ResolveWriteMode, VoidNotesOf;
  }

  lemma StatusKeepsTrail(t: Tables, actor: Actor, m: int, next: MatchStatus, now: int, stored: int)
    ensures Trail(t, AfterStatus(t, actor, m, next, now, stored))
  {
    hide StatusRefusal, WithStatus;
  }

  lemma TrailIsTransitive(t: Tables, u: Tables, v: Tables)
    requires FreshIds(t) && Trail(t, u) && Trail(u, v)
    ensures Trail(t, v)
  {
  }

  /** The trail over whole runs: a voided action stays, with who voided it and why, for ever; an active
      one keeps everything that was captured, and can only be voided or undone. */
  lemma {:induction false} RunKeepsTrail(t: Tables, cfg: Config, trace: seq<Event>)
    requires Sound(t)
    ensures Trail(t, Run(t, cfg, trace))
    ensures forall a :: a in t.actions && t.actions[a].status == Voided ==>
      a in Run(t, cfg, trace).actions && Run(t, cfg, trace).actions[a] == t.actions[a]
  {
    hide Step;
    if trace != [] {
      var u := Run(t, cfg, trace[..|trace| - 1]);
      RunKeepsTrail(t, cfg, trace[..|trace| - 1]);
      RunKeepsSound(t, cfg, trace[..|trace| - 1]);
      StepKeepsTrail(u, cfg, trace[|trace| - 1]);
      TrailIsTransitive(t, u, Run(t, cfg, trace));
    }
  }
}
