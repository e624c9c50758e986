/** The services of a live match over mutable tables. Each call is proved to do to the tables exactly
    what LiveMatch says, and to answer with exactly that error. */
module LiveMatchService {
  import opened Basics
  import opened Results
  import opened MatchClock
  import opened MatchCorrection
  import opened LiveMatch

  /** Once the reference is cleared, voiding by action id reaches no notification. */
  lemma NothingLeftToVoid(notes: map<int, NotificationRow>, id: int)
    ensures VoidNotesOf(ForgetAction(notes, id), id) == ForgetAction(notes, id)
  {
  }

  predicate Wears(row: AttendanceRow, jersey: int) { row.attended && row.jersey == Some(jersey) }

  /** These are positions among the first `k` that wear the number, in order. */
  ghost predicate Wearers(rows: seq<AttendanceRow>, k: nat, jersey: int, list: seq<int>)
    requires k <= |rows|
  {
    && (forall i :: 0 <= i < |list| ==> 0 <= list[i] < k && Wears(rows[list[i]], jersey))
    && (forall i, j :: 0 <= i < j < |list| ==> list[i] < list[j])
  }

  function Group(wearers: map<int, seq<int>>, jersey: int): seq<int> {
    if jersey in wearers then wearers[jersey] else []
  }

  /** The map lists, for each number, all of the first `k` positions that wear it. */
  ghost predicate Grouped(rows: seq<AttendanceRow>, k: nat, wearers: map<int, seq<int>>)
    requires k <= |rows|
  {
    && (forall jersey :: Wearers(rows, k, jersey, Group(wearers, jersey)))
    && (forall x :: 0 <= x < k && rows[x].attended && rows[x].jersey.Some? ==>
          x in Group(wearers, rows[x].jersey.value))
  }

  lemma WearersOneMore(rows: seq<AttendanceRow>, k: nat, jersey: int, list: seq<int>)
    requires k < |rows| && Wearers(rows, k, jersey, list)
    ensures Wearers(rows, k + 1, jersey, list)
    ensures Wears(rows[k], jersey) ==> Wearers(rows, k + 1, jersey, list + [k])
  {
  }

  lemma Appended(list: seq<int>, k: int)
    ensures k in list + [k]
    ensures forall x :: x in list ==> x in list + [k]
  {
    assert (list + [k])[|list|] == k;
    forall x | x in list ensures x in list + [k] {
      var i :| 0 <= i < |list| && list[i] == x;
      assert (list + [k])[i] == x;
    }
  }

  lemma GroupOneMore(rows: seq<AttendanceRow>, k: nat, wearers: map<int, seq<int>>, jersey: int)
    requires k < |rows| && Grouped(rows, k, wearers) && Wears(rows[k], jersey)
    ensures Grouped(rows, k + 1, wearers[jersey := Group(wearers, jersey) + [k]])
  {
    hide Wearers;
    var list := Group(wearers, jersey);
    var after := wearers[jersey := list + [k]];
    forall j ensures Wearers(rows, k + 1, j, Group(after, j)) {
      WearersOneMore(rows, k, j, Group(wearers, j));
    }
    Appended(list, k);
  }

  lemma GroupSkip(rows: seq<AttendanceRow>, k: nat, wearers: map<int, seq<int>>)
    requires k < |rows| && Grouped(rows, k, wearers) && !(rows[k].attended && rows[k].jersey.Some?)
    ensures Grouped(rows, k + 1, wearers)
  {
    forall j ensures Wearers(rows, k + 1, j, Group(wearers, j)) {
      WearersOneMore(rows, k, j, Group(wearers, j));
    }
  }

  lemma GroupsShowClashes(rows: seq<AttendanceRow>, wearers: map<int, seq<int>>)
    requires Grouped(rows, |rows|, wearers)
    ensures (forall j :: j in wearers ==> |wearers[j]| <= 1) <==> !AnyClash(rows)
  {
    if AnyClash(rows) {
      var i, j :| 0 <= i < j < |rows| && Clash(rows[i], rows[j]);
      var list := Group(wearers, rows[i].jersey.value);
      assert i in list && j in list;
    }
    if j :| j in wearers && |wearers[j]| > 1 {
      var list := Group(wearers, j);
      assert Wearers(rows, |rows|, j, list);
      assert Clash(rows[list[0]], rows[list[1]]);
    }
  }

  ghost predicate AnyClash(rows: seq<AttendanceRow>) {
    exists i, j :: 0 <= i < j < |rows| && Clash(rows[i], rows[j])
  }

  /** True when no two attending entries share a jersey number. */
  method ValidateJerseyCollisions(rows: seq<AttendanceRow>) returns (ok: bool)
    ensures ok <==> !AnyClash(rows)
  {
    var jerseyToPlayers: map<int, seq<int>> := map[];
    for k := 0 to |rows|
      invariant Grouped(rows, k, jerseyToPlayers)
    {
      var row := rows[k];
      if row.attended && row.jersey.Some? {
        GroupOneMore(rows, k, jerseyToPlayers, row.jersey.value);
        jerseyToPlayers := jerseyToPlayers[row.jersey.value := Group(jerseyToPlayers, row.jersey.value) + [k]];
      } else {
        GroupSkip(rows, k, jerseyToPlayers);
      }
    }
    GroupsShowClashes(rows, jerseyToPlayers);
    ok := forall j :: j in jerseyToPlayers ==> |jerseyToPlayers[j]| <= 1;
  }

  /** The saved rows once the merged rows of `done` have been written. */
  ghost predicate UpsertedUpTo(
    attendance: map<(int, int), AttendanceRow>, t: Tables, m: int, patches: map<int, AttendancePatch>, done: seq<int>)
  {
    && (forall key :: key in attendance <==> key in t.attendance || Written(key, m, patches, done))
    && (forall key :: key in attendance && key.1 in t.players && Written(key, m, patches, done) ==>
          attendance[key] == MergedEntry(t, m, patches, key.1))
    && (forall key :: key in attendance && key in t.attendance && !Written(key, m, patches, done) ==>
          attendance[key] == t.attendance[key])
  }

  predicate Written(key: (int, int), m: int, patches: map<int, AttendancePatch>, done: seq<int>) {
    key.0 == m && key.1 in done && key.1 in patches
  }

  lemma UpsertOneMore(
      attendance: map<(int, int), AttendanceRow>, t: Tables, m: int, patches: map<int, AttendancePatch>,
      done: seq<int>, p: int)
    requires UpsertedUpTo(attendance, t, m, patches, done)
    ensures p !in patches ==> UpsertedUpTo(attendance, t, m, patches, done + [p])
    ensures p in patches && p in t.players ==>
      UpsertedUpTo(attendance[(m, p) := MergedEntry(t, m, patches, p)], t, m, patches, done + [p])
  {
    hide MergedEntry;
    assert forall key :: Written(key, m, patches, done + [p]) <==>
      Written(key, m, patches, done) || (key == (m, p) && p in patches);
  }

  lemma UpsertedIsAll(
      attendance: map<(int, int), AttendanceRow>, t: Tables, m: int, patches: map<int, AttendancePatch>,
      done: seq<int>)
    requires UpsertedUpTo(attendance, t, m, patches, done)
    requires forall p :: p in patches ==> p in done && p in t.players
    ensures attendance == Upserted(t, m, patches)
  {
    hide MergedEntry;
    var all := Upserted(t, m, patches);
    forall g: int, p: int
      ensures (g, p) in all <==> (g, p) in t.attendance || (g == m && p in patches)
      ensures Written((g, p), m, patches, done) <==> (g == m && p in patches)
    {
    }
    forall key ensures key in attendance <==> key in all {
      assert key == (key.0, key.1);
    }
    forall key | key in all ensures attendance[key] == all[key] {
      assert key == (key.0, key.1);
    }
  }

  /** A parent not served yet has no notification of a new action. */
  lemma NoEarlierNotice(
      before: map<int, NotificationRow>, next: int, sofar: seq<int>, id: int, row: ActionRow, parent: int)
    requires Unnoticed(before, next, id)
    requires parent !in sofar
    ensures var notes := WithNotes(before, next, sofar, id, row);
      forall n :: n in notes ==> !SameNotice(notes[n], NewNote(parent, id, row))
  {
    var notes := WithNotes(before, next, sofar, id, row);
    forall n | n in notes ensures !SameNotice(notes[n], NewNote(parent, id, row)) {
      if n >= next {
        assert notes[next + (n - next)] == NewNote(sofar[n - next], id, row);
        assert sofar[n - next] in sofar;
      }
    }
  }

  ghost predicate Unnoticed(notes: map<int, NotificationRow>, next: int, id: int) {
    forall n :: n in notes ==> n < next && notes[n].actionId != Some(id)
  }

  lemma NoRecipients(inApp: set<int>, before: map<int, NotificationRow>, next: int, id: int, row: ActionRow)
    ensures Recipients([], inApp) == [] && WithNotes(before, next, [], id, row) == before
  {
  }

  /** One more parent, who has no notification yet: the insert succeeds and continues the list. */
  lemma OneMoreNote(before: map<int, NotificationRow>, next: int, to: seq<int>, id: int, row: ActionRow, recipient: int)
    ensures WithNotes(before, next, to + [recipient], id, row)
         == WithNotes(before, next, to, id, row)[next + |to| := NewNote(recipient, id, row)]
  {
    assert (to + [recipient])[..|to|] == to;
  }

  lemma RecipientsOneMore(
      parents: seq<int>, k: nat, inApp: set<int>, before: map<int, NotificationRow>, next: int, id: int, row: ActionRow)
    requires k < |parents| && Distinct(parents) && Unnoticed(before, next, id)
    ensures var sofar, more := Recipients(parents[..k], inApp), Recipients(parents[..k + 1], inApp);
      var notes := WithNotes(before, next, sofar, id, row);
      if parents[k] in inApp then
        && |more| == |sofar| + 1
        && WithNotes(before, next, more, id, row) == notes[next + |sofar| := NewNote(parents[k], id, row)]
        && !exists n :: n in notes && SameNotice(notes[n], NewNote(parents[k], id, row))
      else more == sofar
  {
    var sofar := Recipients(parents[..k], inApp);
    assert parents[..k + 1][..k] == parents[..k];
    if parents[k] in inApp {
      NoEarlierNotice(before, next, sofar, id, row, parents[k]);
      hide Recipients, SameNotice, Unnoticed;
      OneMoreNote(before, next, sofar, id, row, parents[k]);
    }
  }

  class MatchTables {
    var matches: map<int, MatchRow>
    var players: map<int, Player>
    var attendance: map<(int, int), AttendanceRow>
    var actions: map<int, ActionRow>
    var notifications: map<int, NotificationRow>
    var nextAction: int
    var nextNotification: int

    constructor (t: Tables)
      ensures All() == t
    {
      matches, players, attendance := t.matches, t.players, t.attendance;
      actions, notifications := t.actions, t.notifications;
      nextAction, nextNotification := t.nextAction, t.nextNotification;
    }

    function All(): Tables
      reads this
    {
      Tables(matches, players, attendance, actions, notifications, nextAction, nextNotification)
    }

    // Actions

    method FindByClientActionId(clientId: string) returns (found: Option<int>)
      ensures found.Some? ==> found.value in actions && actions[found.value].clientId == clientId
      ensures found.None? ==> !KnownClient(All(), clientId)
    {
      found := None;
      if exists id :: id in actions && actions[id].clientId == clientId {
        var id :| id in actions && actions[id].clientId == clientId;
        found := Some(id);
      }
    }

    method CreateAction(row: ActionRow) returns (id: int)
      modifies this
      ensures id == old(nextAction)
      ensures All() == old(All()).(actions := old(actions)[id := row], nextAction := id + 1)
    {
      id := nextAction;
      actions := actions[id := row];
      nextAction := nextAction + 1;
    }

    /** An insert that gives way to a row with the same recipient and action. */
    method CreateIfNotExists(row: NotificationRow) returns (id: Option<int>)
      modifies this`notifications, this`nextNotification
      ensures id.None? <==> exists n :: n in old(notifications) && SameNotice(old(notifications)[n], row)
      ensures id.None? ==> notifications == old(notifications) && nextNotification == old(nextNotification)
      ensures id.Some? ==>
        && id.value == old(nextNotification)
        && notifications == old(notifications)[id.value := row]
        && nextNotification == id.value + 1
    {
      if exists n :: n in notifications && SameNotice(notifications[n], row) {
        return None;
      }
      id := Some(nextNotification);
      notifications := notifications[nextNotification := row];
      nextNotification := nextNotification + 1;
    }

    /** The loop over the parents. */
    method NotifyParents(id: int, row: ActionRow, parents: seq<int>, inApp: set<int>) returns (created: int)
      requires Distinct(parents)
      requires Unnoticed(notifications, nextNotification, id)
      modifies this`notifications, this`nextNotification
      ensures created == |Recipients(parents, inApp)|
      ensures notifications == WithNotes(old(notifications), old(nextNotification), Recipients(parents, inApp), id, row)
      ensures nextNotification == old(nextNotification) + created
    {
      hide Unnoticed, SameNotice, NewNote, Recipients, WithNotes, Distinct;
      created := 0;
      ghost var before, next := notifications, nextNotification;
      NoRecipients(inApp, before, next, id, row);
      assert parents[..0] == [];
      for k := 0 to |parents|
        invariant created == |Recipients(parents[..k], inApp)|
        invariant notifications == WithNotes(before, next, Recipients(parents[..k], inApp), id, row)
        invariant nextNotification == next + created
      {
        RecipientsOneMore(parents, k, inApp, before, next, id, row);
        if parents[k] in inApp {
          var note := CreateIfNotExists(NewNote(parents[k], id, row));
          if note.Some? { created := created + 1; }
        }
      }
      assert parents[..|parents|] == parents;
    }

    method OnNotifiableActionRegistered(id: int, row: ActionRow, audience: Audience) returns (created: int)
      requires Unnoticed(notifications, nextNotification, id)
      modifies this`notifications, this`nextNotification
      ensures var to := if audience.enabled then Recipients(audience.parents, audience.inApp) else [];
        && created == |to|
        && notifications == WithNotes(old(notifications), old(nextNotification), to, id, row)
        && nextNotification == old(nextNotification) + created
    {
      created := 0;
      if audience.enabled {
        created := NotifyParents(id, row, audience.parents, audience.inApp);
      }
    }

    method RegisterAction(
        cfg: Config, actor: Actor, m: int, input: NewAction, now: int, catalog: Option<CatalogEntry>,
        audience: Audience)
      returns (r: Result<Registered, CallError>)
      requires Stored(All())
      modifies this
      ensures All() == AfterRegister(old(All()), cfg, actor, m, input, now, catalog, audience)
      ensures Registers(old(All()), cfg, actor, m, input, now, catalog) ==> r == Ok(Registered(old(nextAction), true))
      ensures var mode := ResolveWriteMode(old(All()), cfg, actor, m, now);
        if mode.Err? then r == Err(mode.error)
        else if KnownInMatch(old(All()), input.clientId, m) then
          r.Ok? && !r.value.created && r.value.id in actions && actions[r.value.id].clientId == input.clientId
        else if KnownClient(old(All()), input.clientId) then r == Err(ClientIdConflict)
        else var refused := RegisterRefusal(old(All()), m, input, catalog);
          refused.Some? ==> r == Err(refused.value)
    {
      var mode := ResolveWriteMode(All(), cfg, actor, m, now);
      if mode.Err? { return Err(mode.error); }
      var existing := FindByClientActionId(input.clientId);
      if existing.Some? {
        assert forall id :: id in actions && actions[id].clientId == input.clientId ==> id == existing.value;
        assert KnownClient(All(), input.clientId);
        if actions[existing.value].matchId != m { return Err(ClientIdConflict); }
        return Ok(Registered(existing.value, false));
      }
      var refused := RegisterRefusal(All(), m, input, catalog);
      if refused.Some? { return Err(refused.value); }
      var row := NewRow(All(), actor, m, input, now, mode.value);
      var id := CreateAction(row);
      if catalog.value.notifiable && mode.value != Correction {
        var _ := OnNotifiableActionRegistered(id, row, audience);
      }
      return Ok(Registered(id, true));
    }

    /** DELETE of one row; the foreign key clears the references to it. */
    method DeleteById(id: int)
      requires id in actions
      modifies this
      ensures All() == old(All()).(
        actions := old(actions) - {id}, notifications := ForgetAction(old(notifications), id))
    {
      actions := actions - {id};
      notifications := ForgetAction(notifications, id);
    }

    method MarkVoidedByGameActionId(id: int)
      modifies this
      ensures All() == old(All()).(notifications := VoidNotesOf(old(notifications), id))
    {
      notifications := VoidNotesOf(notifications, id);
    }

    method ImmediateUndo(cfg: Config, actor: Actor, m: int, id: int, now: int) returns (error: Option<CallError>)
      modifies this
      ensures error == UndoRefusal(old(All()), cfg, actor, m, id, now)
      ensures All() == AfterUndo(old(All()), cfg, actor, m, id, now)
    {
      var mode := ResolveWriteMode(All(), cfg, actor, m, now);
      if mode.Err? { return Some(mode.error); }
      if mode.value != Live { return Some(UndoOnlyLive); }
      if id !in actions || actions[id].matchId != m { return Some(ActionNotFound); }
      if actions[id].status != Active { return Some(ActionNotActive); }
      if actions[id].createdBy != actor.userId { return Some(NotTheAuthor); }
      if now - actions[id].createdAt > cfg.undoWindowMs { return Some(UndoExpired); }
      NothingLeftToVoid(notifications, id);
      DeleteById(id);
      MarkVoidedByGameActionId(id);
      return None;
    }

    method VoidAction(cfg: Config, actor: Actor, m: int, id: int, now: int, reason: string)
      returns (error: Option<CallError>)
      modifies this
      ensures error == VoidRefusal(old(All()), cfg, actor, m, id, now)
      ensures All() == AfterVoid(old(All()), cfg, actor, m, id, now, reason)
    {
      var mode := ResolveWriteMode(All(), cfg, actor, m, now);
      if mode.Err? { return Some(mode.error); }
      if id !in actions || actions[id].matchId != m { return Some(ActionNotFound); }
      if actions[id].status != Active { return Some(ActionNotActive); }
      actions := actions[id := VoidedRow(actions[id], actor.userId, reason)];
      MarkVoidedByGameActionId(id);
      return None;
    }

    // The match row

    method UpdateMatch(actor: Actor, m: int, patch: MatchPatch, categoryOk: bool) returns (error: Option<CallError>)
      modifies this
      ensures error == UpdateRefusal(old(All()), actor, m, patch, categoryOk)
      ensures All() == AfterUpdate(old(All()), actor, m, patch, categoryOk)
    {
      if m !in matches { return Some(MatchNotFound); }
      var row := matches[m];
      if !MayAccess(actor, row) { return Some(Forbidden); }
      if row.status != Scheduled && row.status != InProgress { return Some(MatchNotEditable); }
      if patch.categoryId.Some? && patch.categoryId.value != row.categoryId {
        if row.status != Scheduled || HasAttendance(All(), m) { return Some(CategoryLocked); }
        if !categoryOk { return Some(CategoryRefused); }
      }
      if patch.categoryId.Some? { row := row.(categoryId := patch.categoryId.value); }
      if patch.periodsCount.Some? { row := row.(periodsCount := patch.periodsCount.value); }
      if patch.details.Some? { row := row.(details := patch.details.value); }
      matches := matches[m := row];
      return None;
    }

    method UpdateMatchStatus(actor: Actor, m: int, next: MatchStatus, now: int, stored: int)
      returns (error: Option<CallError>)
      modifies this
      ensures error == StatusRefusal(old(All()), actor, m, next)
      ensures All() == AfterStatus(old(All()), actor, m, next, now, stored)
    {
      if m !in matches { return Some(MatchNotFound); }
      if !MayAccess(actor, matches[m]) { return Some(Forbidden); }
      if next !in AllowedNext(matches[m].status) { return Some(TransitionRefused); }
      matches := matches[m := WithStatus(matches[m], next, now, stored)];
      if next == Cancelled {
        actions := VoidAllOf(actions, m, actor.userId, "Partido cancelado");
        notifications := VoidNotesOfMatch(notifications, m);
      }
      return None;
    }

    method ApplyClockCommand(cfg: Config, actor: Actor, m: int, command: Command, now: int, stored: int)
      returns (error: Option<CallError>)
      modifies this
      ensures error == ClockRefusal(old(All()), cfg, actor, m, command, now)
      ensures All() == AfterClock(old(All()), cfg, actor, m, command, now, stored)
    {
      if m !in matches { return Some(MatchNotFound); }
      var row := matches[m];
      if row.status != InProgress { return Some(ClockNotLive); }
      if row.categoryId !in actor.categories { return Some(Forbidden); }
      var next, pausedAt := row.clock, row.pausedAt;
      match command {
      case Pause =>
        next, pausedAt := PauseClock(row.clock, now), Some(now);
      case Resume =>
        next, pausedAt := ResumeClock(row.clock, stored), None;
      case NextPeriod =>
        var started := NextPeriodClock(row.clock, stored, EffectivePeriods(cfg, row));
        if started.Err? { return Some(ClockRefused); }
        next, pausedAt := started.value, None;
      case Adjust(minute) =>
        next := AdjustMinuteClock(row.clock, stored, minute);
        pausedAt := if next.running then None else Some(now);
      }
      matches := matches[m := row.(clock := next, pausedAt := pausedAt)];
      return None;
    }

    // Attendance

    /** The players of mergeEntries. They come sorted by name there; the order is left open here. */
    method ListEntryPlayers(m: int) returns (order: seq<int>)
      requires m in matches
      ensures Distinct(order)
      ensures forall p :: p in order <==> p in EntryPlayers(All(), m)
    {
      order := [];
      var todo := EntryPlayers(All(), m);
      while todo != {}
        invariant Distinct(order) && forall p :: p in order ==> p !in todo
        invariant forall p :: p in EntryPlayers(All(), m) <==> p in order || p in todo
        decreases todo
      {
        NonEmpty(todo);
        var p :| p in todo;
        order, todo := order + [p], todo - {p};
      }
    }

    method NormalizeEntries(m: int, order: seq<int>, patches: map<int, AttendancePatch>)
      returns (rows: seq<AttendanceRow>)
      requires forall p :: p in order ==> p in players
      ensures |rows| == |order|
      ensures forall k :: 0 <= k < |order| ==> rows[k] == MergedEntry(All(), m, patches, order[k])
    {
      rows := [];
      for k := 0 to |order|
        invariant |rows| == k
        invariant forall i :: 0 <= i < k ==> rows[i] == MergedEntry(All(), m, patches, order[i])
      {
        assert order[k] in order;
        var existing := EntryOf(All(), m, order[k]);
        if order[k] !in patches {
          rows := rows + [existing];
        } else {
          var patch := patches[order[k]];
          var defaultJersey := players[order[k]].defaultJersey;
          var lineup := patch.lineup;
          var jersey := match patch.jersey
            case Unset => OrElse(existing.jersey, defaultJersey)
            case Null => None
            case Number(j) => Some(j);
          if !patch.attended {
            lineup, jersey := None, None;
          } else if lineup.None? {
            jersey := OrElse(jersey, defaultJersey);
          }
          rows := rows + [AttendanceRow(patch.attended, lineup, jersey)];
        }
      }
    }

    method UpsertBatch(m: int, order: seq<int>, rows: seq<AttendanceRow>, patches: map<int, AttendancePatch>)
      requires |rows| == |order|
      requires forall p :: p in patches ==> p in order && p in players
      requires forall k :: 0 <= k < |order| && order[k] in patches ==>
        rows[k] == MergedEntry(All(), m, patches, order[k])
      modifies this
      ensures All() == old(All()).(attendance := Upserted(old(All()), m, patches))
    {
      ghost var t := All();
      for k := 0 to |order|
        invariant All() == t.(attendance := attendance)
        invariant UpsertedUpTo(attendance, t, m, patches, order[..k])
      {
        assert order[..k + 1] == order[..k] + [order[k]];
        UpsertOneMore(attendance, t, m, patches, order[..k], order[k]);
        if order[k] in patches {
          attendance := attendance[(m, order[k]) := rows[k]];
        }
      }
      assert order[..|order|] == order;
      UpsertedIsAll(attendance, t, m, patches, order);
    }

    method SaveAttendance(actor: Actor, m: int, entries: seq<AttendancePatch>) returns (error: Option<CallError>)
      modifies this
      ensures error == SaveRefusal(old(All()), actor, m, entries)
      ensures All() == AfterSave(old(All()), actor, m, entries)
    {
      if m !in matches { return Some(MatchNotFound); }
      var row := matches[m];
      if !MayAccess(actor, row) || row.categoryId !in actor.categories { return Some(Forbidden); }
      if row.status == Finished || row.status == Cancelled { return Some(AttendanceLocked); }
      var order := ListEntryPlayers(m);
      var patches: map<int, AttendancePatch> := map[];
      for k := 0 to |entries|
        invariant patches == PatchMap(entries[..k])
        invariant forall i :: 0 <= i < k ==> entries[i].playerId in EntryPlayers(All(), m)
      {
        if entries[k].playerId !in order { return Some(PlayerNotInCategory); }
        assert entries[..k + 1][..k] == entries[..k];
        patches := patches[entries[k].playerId := entries[k]];
      }
      assert entries[..|entries|] == entries;
      if MarksScorerAbsent(All(), m, entries) { return Some(PlayerHasActions); }
      var rows := NormalizeEntries(m, order, patches);
      var ok := ValidateJerseyCollisions(rows);
      ListedClashes(All(), m, patches, order, rows);
      if !ok { return Some(JerseyCollision); }
      UpsertBatch(m, order, rows, patches);
      return None;
    }
  }

  lemma ListedClashes(t: Tables, m: int, patches: map<int, AttendancePatch>, order: seq<int>, rows: seq<AttendanceRow>)
    requires m in t.matches && Distinct(order) && |rows| == |order|
    requires forall p :: p in order <==> p in EntryPlayers(t, m)
    requires forall k :: 0 <= k < |order| ==> order[k] in t.players && rows[k] == MergedEntry(t, m, patches, order[k])
    ensures MergeClashes(t, m, patches) <==> AnyClash(rows)
  {
    if MergeClashes(t, m, patches) {
      var p, q :| p in EntryPlayers(t, m) && q in EntryPlayers(t, m) && p != q
        && Clash(MergedEntry(t, m, patches, p), MergedEntry(t, m, patches, q));
      var i :| 0 <= i < |order| && order[i] == p;
      var j :| 0 <= j < |order| && order[j] == q;
      assert Clash(rows[i], rows[j]) && Clash(rows[j], rows[i]);
    }
    if AnyClash(rows) {
      var i, j :| 0 <= i < j < |rows| && Clash(rows[i], rows[j]);
      assert order[i] in order && order[j] in order;
    }
  }
}
