/** The tables behind a live match and what each service call does to them. One call is one step. The
    answers of lookups outside these tables (catalogue, notification settings, category rules) are
    arguments of the call. Instants are milliseconds. */
module LiveMatch {
  import opened Results
  import opened MatchClock
  import opened MatchCorrection

  datatype MatchStatus = Scheduled | InProgress | Finished | Cancelled

  /** MATCH_STATUS_TRANSITIONS. */
  function AllowedNext(s: MatchStatus): set<MatchStatus> {
    match s
    case Scheduled => {InProgress, Cancelled}
    case InProgress => {Finished, Cancelled}
    case Finished => {}
    case Cancelled => {}
  }

  datatype MatchRow = MatchRow(
    categoryId: int, status: MatchStatus, finishedAt: Option<int>, clock: ClockState, pausedAt: Option<int>,
    periodsCount: Option<int>, details: string)

  datatype Lineup = Starter | Substitute

  datatype AttendanceRow = AttendanceRow(attended: bool, lineup: Option<Lineup>, jersey: Option<int>)

  datatype ActionStatus = Active | Voided

  datatype ActionRow = ActionRow(
    matchId: int, playerId: int, jersey: int, code: int, minute: int, period: int, status: ActionStatus,
    createdBy: int, clientId: string, postMatch: bool, createdAt: int, voidedBy: Option<int>, reason: string)

  /** `actionId` is None once the action's row has been deleted (ON DELETE SET NULL). */
  datatype NotificationRow = NotificationRow(
    recipient: int, playerId: int, matchId: int, actionId: Option<int>, voided: bool)

  datatype Player = Player(categoryId: int, active: bool, defaultJersey: int)

  datatype Tables = Tables(
    matches: map<int, MatchRow>, players: map<int, Player>, attendance: map<(int, int), AttendanceRow>,
    actions: map<int, ActionRow>, notifications: map<int, NotificationRow>,
    nextAction: int, nextNotification: int)

  datatype Config = Config(windowDays: int, undoWindowMs: int, defaultPeriods: int)

  /** A signed-in user: roles, and the categories assigned to the user as a coach. */
  datatype Actor = Actor(userId: int, isAdmin: bool, isCoach: bool, categories: set<int>)

  datatype CallError =
    | MatchNotFound | Forbidden | NotForThisStatus | WindowClosed | ClientIdConflict | CodeInvalid
    | PlayerNotPresent | JerseyRequired | ActionNotFound | ActionNotActive | NotTheAuthor | UndoExpired
    | UndoOnlyLive | TransitionRefused | MatchNotEditable | CategoryLocked | CategoryRefused
    | AttendanceLocked | PlayerNotInCategory | PlayerHasActions | JerseyCollision | ClockNotLive | ClockRefused

  // Who may write, and when

  datatype WriteMode = Live | Correction

  predicate MayAccess(actor: Actor, row: MatchRow) {
    actor.isAdmin || !actor.isCoach || row.categoryId in actor.categories
  }

  predicate CorrectionOpen(cfg: Config, row: MatchRow, now: int) {
    row.status == Finished && IsCorrectionWindowOpen(row.finishedAt, cfg.windowDays, now)
  }

  function ResolveWriteMode(t: Tables, cfg: Config, actor: Actor, m: int, now: int): Result<WriteMode, CallError> {
    if m !in t.matches then Err(MatchNotFound)
    else
      var row := t.matches[m];
      var coach := row.categoryId in actor.categories;
      if row.status == InProgress then (if coach then Ok(Live) else Err(Forbidden))
      else if row.status == Finished then
        if !coach && !actor.isAdmin then Err(Forbidden)
        else if CorrectionOpen(cfg, row, now) then Ok(Correction) else Err(WindowClosed)
      else Err(NotForThisStatus)
  }

  // What the database guarantees: automatic ids, foreign keys and unique keys

  ghost predicate FreshIds(t: Tables) {
    && (forall a :: a in t.actions ==> a < t.nextAction)
    && (forall n :: n in t.notifications ==> n < t.nextNotification)
  }

  ghost predicate ForeignKeys(t: Tables) {
    && (forall a :: a in t.actions ==> t.actions[a].matchId in t.matches && t.actions[a].playerId in t.players)
    && (forall k :: k in t.attendance ==> k.0 in t.matches && k.1 in t.players)
    && (forall n :: n in t.notifications && t.notifications[n].actionId.Some? ==>
          t.notifications[n].actionId.value in t.actions)
  }

  ghost predicate UniqueClientIds(t: Tables) {
    forall a, b :: a in t.actions && b in t.actions && t.actions[a].clientId == t.actions[b].clientId ==> a == b
  }

  predicate SameNotice(a: NotificationRow, b: NotificationRow) {
    a.actionId.Some? && a.actionId == b.actionId && a.recipient == b.recipient
  }

  ghost predicate UniqueRecipients(t: Tables) {
    forall n, k :: (n in t.notifications && k in t.notifications && SameNotice(t.notifications[n], t.notifications[k]))
      ==> n == k
  }

  ghost predicate Stored(t: Tables) {
    FreshIds(t) && ForeignKeys(t) && UniqueClientIds(t) && UniqueRecipients(t)
  }

  // Registering an action

  datatype NewAction = NewAction(clientId: string, playerId: int, code: int, minute: int, period: int)

  datatype CatalogEntry = CatalogEntry(active: bool, notifiable: bool)

  /** Whether the academy notifies at all, the distinct parents of the player, and those of them who
      take in-app messages about the player. */
  datatype Audience = Audience(enabled: bool, parents: Parents, inApp: set<int>)

  /** SELECT DISTINCT. */
  type Parents = s: seq<int> | Distinct(s)

  predicate Distinct(s: seq<int>) { forall i, j :: 0 <= i < j < |s| ==> s[i] != s[j] }

  datatype Registered = Registered(id: int, created: bool)

  predicate KnownClient(t: Tables, clientId: string) {
    exists id :: id in t.actions && t.actions[id].clientId == clientId
  }

  predicate KnownInMatch(t: Tables, clientId: string, m: int) {
    exists id :: id in t.actions && t.actions[id].clientId == clientId && t.actions[id].matchId == m
  }

  /** None when a new row is to be inserted. */
  function RegisterRefusal(t: Tables, m: int, input: NewAction, catalog: Option<CatalogEntry>): Option<CallError> {
    if catalog.None? || !catalog.value.active then Some(CodeInvalid)
    else if (m, input.playerId) !in t.attendance || !t.attendance[(m, input.playerId)].attended then
      Some(PlayerNotPresent)
    else if t.attendance[(m, input.playerId)].jersey.None? then Some(JerseyRequired)
    else None
  }

  predicate Registers(
    t: Tables, cfg: Config, actor: Actor, m: int, input: NewAction, now: int, catalog: Option<CatalogEntry>)
  {
    && ResolveWriteMode(t, cfg, actor, m, now).Ok?
    && !KnownClient(t, input.clientId)
    && RegisterRefusal(t, m, input, catalog).None?
  }

  function NewRow(t: Tables, actor: Actor, m: int, input: NewAction, now: int, mode: WriteMode): ActionRow
    requires (m, input.playerId) in t.attendance && t.attendance[(m, input.playerId)].jersey.Some?
  {
    ActionRow(m, input.playerId, t.attendance[(m, input.playerId)].jersey.value, input.code, input.minute,
      input.period, Active, actor.userId, input.clientId, mode == Correction, now, None, "")
  }

  function Recipients(parents: seq<int>, inApp: set<int>): (r: seq<int>)
    ensures forall p :: p in r ==> p in parents && p in inApp
  {
    if parents == [] then []
    else
      var front, last := parents[..|parents| - 1], parents[|parents| - 1];
      Recipients(front, inApp) + if last in inApp then [last] else []
  }

  function NewNote(recipient: int, a: int, row: ActionRow): NotificationRow {
    NotificationRow(recipient, row.playerId, row.matchId, Some(a), false)
  }

  /** One unvoided notification per recipient, with the next free ids. */
  function WithNotes(notes: map<int, NotificationRow>, next: int, to: seq<int>, a: int, row: ActionRow)
    : (after: map<int, NotificationRow>)
    ensures forall id :: id in after <==> id in notes || next <= id < next + |to|
    ensures forall id :: id in notes && !(next <= id < next + |to|) ==> after[id] == notes[id]
    ensures forall i :: 0 <= i < |to| ==> after[next + i] == NewNote(to[i], a, row)
  {
    if to == [] then notes
    else
      var front, last := to[..|to| - 1], to[|to| - 1];
      WithNotes(notes, next, front, a, row)[next + |front| := NewNote(last, a, row)]
  }

  function NotifiedBy(audience: Audience, catalog: Option<CatalogEntry>, mode: WriteMode): seq<int> {
    if catalog.Some? && catalog.value.notifiable && mode == Live && audience.enabled
    then Recipients(audience.parents, audience.inApp) else []
  }

  function AfterRegister(
    t: Tables, cfg: Config, actor: Actor, m: int, input: NewAction, now: int,
    catalog: Option<CatalogEntry>, audience: Audience): Tables
  {
    if !Registers(t, cfg, actor, m, input, now, catalog) then t
    else
      var mode := ResolveWriteMode(t, cfg, actor, m, now).value;
      var row := NewRow(t, actor, m, input, now, mode);
      var to := NotifiedBy(audience, catalog, mode);
      t.(actions := t.actions[t.nextAction := row],
         nextAction := t.nextAction + 1,
         notifications := WithNotes(t.notifications, t.nextNotification, to, t.nextAction, row),
         nextNotification := t.nextNotification + |to|)
  }

  // Undoing and voiding an action

  function UndoRefusal(t: Tables, cfg: Config, actor: Actor, m: int, id: int, now: int): Option<CallError> {
    var mode := ResolveWriteMode(t, cfg, actor, m, now);
    if mode.Err? then Some(mode.error)
    else if mode.value != Live then Some(UndoOnlyLive)
    else if id !in t.actions || t.actions[id].matchId != m then Some(ActionNotFound)
    else if t.actions[id].status != Active then Some(ActionNotActive)
    else if t.actions[id].createdBy != actor.userId then Some(NotTheAuthor)
    else if now - t.actions[id].createdAt > cfg.undoWindowMs then Some(UndoExpired)
    else None
  }

  /** The foreign key of notifications: deleting an action clears the reference to it. */
  function ForgetAction(notes: map<int, NotificationRow>, id: int): map<int, NotificationRow> {
    map n | n in notes :: if notes[n].actionId == Some(id) then notes[n].(actionId := None) else notes[n]
  }

  /** markVoidedByGameActionId. */
  function VoidNotesOf(notes: map<int, NotificationRow>, id: int): map<int, NotificationRow> {
    map n | n in notes :: if notes[n].actionId == Some(id) then notes[n].(voided := true) else notes[n]
  }

  /** The row is deleted first, so the later search by action id finds no notification any more. */
  function AfterUndo(t: Tables, cfg: Config, actor: Actor, m: int, id: int, now: int): Tables {
    if UndoRefusal(t, cfg, actor, m, id, now).Some? then t
    else t.(actions := t.actions - {id}, notifications := ForgetAction(t.notifications, id))
  }

  function VoidRefusal(t: Tables, cfg: Config, actor: Actor, m: int, id: int, now: int): Option<CallError> {
    var mode := ResolveWriteMode(t, cfg, actor, m, now);
    if mode.Err? then Some(mode.error)
    else if id !in t.actions || t.actions[id].matchId != m then Some(ActionNotFound)
    else if t.actions[id].status != Active then Some(ActionNotActive)
    else None
  }

  function VoidedRow(row: ActionRow, user: int, reason: string): ActionRow {
    row.(status := Voided, voidedBy := Some(user), reason := reason)
  }

  function AfterVoid(t: Tables, cfg: Config, actor: Actor, m: int, id: int, now: int, reason: string): Tables {
    if VoidRefusal(t, cfg, actor, m, id, now).Some? then t
    else t.(actions := t.actions[id := VoidedRow(t.actions[id], actor.userId, reason)],
            notifications := VoidNotesOf(t.notifications, id))
  }

  // Match status and match fields

  function StatusRefusal(t: Tables, actor: Actor, m: int, next: MatchStatus): Option<CallError> {
    if m !in t.matches then Some(MatchNotFound)
    else if !MayAccess(actor, t.matches[m]) then Some(Forbidden)
    else if next !in AllowedNext(t.matches[m].status) then Some(TransitionRefused)
    else None
  }

  /** updateStatus: starting and finishing also set the clock, cancelling leaves it alone. `stored` is what
      the column of the start instant keeps of `now`. */
  function WithStatus(row: MatchRow, next: MatchStatus, now: int, stored: int): MatchRow {
    if next == Finished then
      row.(status := next, finishedAt := Some(now), clock := ClockFinishedBySql(row.clock, now), pausedAt := Some(now))
    else if next == InProgress then
      row.(status := next, finishedAt := None, clock := InitialClock(stored), pausedAt := None)
    else row.(status := next)
  }

  function VoidAllOf(actions: map<int, ActionRow>, m: int, user: int, reason: string): (after: map<int, ActionRow>)
    ensures after.Keys == actions.Keys
    ensures forall a :: a in actions ==>
      after[a].matchId == actions[a].matchId && after[a].playerId == actions[a].playerId
    ensures forall a :: a in actions && !(actions[a].matchId == m && actions[a].status == Active) ==>
      after[a] == actions[a]
    ensures forall a :: a in actions && actions[a].matchId == m ==> after[a].status == Voided
  {
    map a | a in actions ::
      if actions[a].matchId == m && actions[a].status == Active then VoidedRow(actions[a], user, reason) else actions[a]
  }

  function VoidNotesOfMatch(notes: map<int, NotificationRow>, m: int): map<int, NotificationRow> {
    map n | n in notes :: if notes[n].matchId == m then notes[n].(voided := true) else notes[n]
  }

  function AfterStatus(t: Tables, actor: Actor, m: int, next: MatchStatus, now: int, stored: int): Tables {
    if StatusRefusal(t, actor, m, next).Some? then t
    else
      var moved := t.(matches := t.matches[m := WithStatus(t.matches[m], next, now, stored)]);
      if next != Cancelled then moved
      else moved.(actions := VoidAllOf(t.actions, m, actor.userId, "Partido cancelado"),
                  notifications := VoidNotesOfMatch(t.notifications, m))
  }

  datatype MatchPatch = MatchPatch(categoryId: Option<int>, periodsCount: Option<Option<int>>, details: Option<string>)

  predicate HasAttendance(t: Tables, m: int) { exists k :: k in t.attendance && k.0 == m }

  /** `categoryOk` is the answer of the category access and assignability checks. */
  function UpdateRefusal(t: Tables, actor: Actor, m: int, patch: MatchPatch, categoryOk: bool): Option<CallError> {
    if m !in t.matches then Some(MatchNotFound)
    else
      var row := t.matches[m];
      if !MayAccess(actor, row) then Some(Forbidden)
      else if row.status != Scheduled && row.status != InProgress then Some(MatchNotEditable)
      else if patch.categoryId.Some? && patch.categoryId.value != row.categoryId then
        if row.status != Scheduled || HasAttendance(t, m) then Some(CategoryLocked)
        else if !categoryOk then Some(CategoryRefused)
        else None
      else None
  }

  function Patched(row: MatchRow, patch: MatchPatch): MatchRow {
    row.(categoryId := if patch.categoryId.Some? then patch.categoryId.value else row.categoryId,
         periodsCount := if patch.periodsCount.Some? then patch.periodsCount.value else row.periodsCount,
         details := if patch.details.Some? then patch.details.value else row.details)
  }

  function AfterUpdate(t: Tables, actor: Actor, m: int, patch: MatchPatch, categoryOk: bool): (u: Tables)
    ensures u == t.(matches := u.matches)
  {
    if UpdateRefusal(t, actor, m, patch, categoryOk).Some? then t
    else t.(matches := t.matches[m := Patched(t.matches[m], patch)])
  }

  // The clock

  function EffectivePeriods(cfg: Config, row: MatchRow): int {
    if row.periodsCount.Some? then row.periodsCount.value else cfg.defaultPeriods
  }

  function ClockRefusal(t: Tables, cfg: Config, actor: Actor, m: int, command: Command, now: int): Option<CallError> {
    if m !in t.matches then Some(MatchNotFound)
    else
      var row := t.matches[m];
      if row.status != InProgress then Some(ClockNotLive)
      else if row.categoryId !in actor.categories then Some(Forbidden)
      else if ApplyCommand(row.clock, row.pausedAt, command, now, now, EffectivePeriods(cfg, row)).Err? then
        Some(ClockRefused)
      else None
  }

  function AfterClock(t: Tables, cfg: Config, actor: Actor, m: int, command: Command, now: int, stored: int)
    : (u: Tables)
    ensures u == t.(matches := u.matches)
  {
    if ClockRefusal(t, cfg, actor, m, command, now).Some? then t
    else
      var row := t.matches[m];
      var next := ApplyCommand(row.clock, row.pausedAt, command, now, stored, EffectivePeriods(cfg, row)).value;
      t.(matches := t.matches[m := row.(clock := next.0, pausedAt := next.1)])
  }

  // Attendance

  /** A jersey number in the request: left out, null, or a number. */
  datatype JerseyPatch = Unset | Null | Number(value: int)

  datatype AttendancePatch = AttendancePatch(playerId: int, attended: bool, lineup: Option<Lineup>, jersey: JerseyPatch)

  /** The players shown for a match: active ones of its category, and others of it with a saved row. */
  function EntryPlayers(t: Tables, m: int): set<int>
    requires m in t.matches
  {
    set p | p in t.players && t.players[p].categoryId == t.matches[m].categoryId
            && (t.players[p].active || (m, p) in t.attendance)
  }

  /** One line of mergeEntries. */
  function EntryOf(t: Tables, m: int, p: int): AttendanceRow
    requires p in t.players
  {
    if (m, p) in t.attendance then t.attendance[(m, p)]
    else AttendanceRow(false, None, Some(t.players[p].defaultJersey))
  }

  /** Later entries for the same player replace earlier ones. */
  function PatchMap(entries: seq<AttendancePatch>): (patches: map<int, AttendancePatch>)
    ensures forall p :: p in patches <==> exists i :: 0 <= i < |entries| && entries[i].playerId == p
    ensures forall p :: p in patches ==> patches[p] in entries && patches[p].playerId == p
  {
    if entries == [] then map[]
    else
      var front, last := entries[..|entries| - 1], entries[|entries| - 1];
      var before := PatchMap(front);
      assert entries == front + [last];
      before[last.playerId := last]
  }

  function OrElse(j: Option<int>, default: int): Option<int> {
    if j.Some? then j else Some(default)
  }

  function Normalized(existing: AttendanceRow, default: int, patch: AttendancePatch): AttendanceRow {
    if !patch.attended then AttendanceRow(false, None, None)
    else
      var given := match patch.jersey
        case Unset => OrElse(existing.jersey, default)
        case Null => None
        case Number(j) => Some(j);
      AttendanceRow(true, patch.lineup, if patch.lineup.None? then OrElse(given, default) else given)
  }

  /** The list that is checked for collisions: saved or default entries with the request laid over them. */
  function MergedEntry(t: Tables, m: int, patches: map<int, AttendancePatch>, p: int): AttendanceRow
    requires p in t.players
  {
    if p in patches then Normalized(EntryOf(t, m, p), t.players[p].defaultJersey, patches[p]) else EntryOf(t, m, p)
  }

  predicate Clash(a: AttendanceRow, b: AttendanceRow) {
    a.attended && b.attended && a.jersey.Some? && a.jersey == b.jersey
  }

  predicate HasActiveAction(t: Tables, m: int, p: int) {
    exists a :: a in t.actions
      && t.actions[a].matchId == m && t.actions[a].playerId == p && t.actions[a].status == Active
  }

  predicate AllListed(t: Tables, m: int, entries: seq<AttendancePatch>)
    requires m in t.matches
  {
    forall i :: 0 <= i < |entries| ==> entries[i].playerId in EntryPlayers(t, m)
  }

  /** Some entry of the request, even one that a later entry replaces, marks a scorer absent. */
  predicate MarksScorerAbsent(t: Tables, m: int, entries: seq<AttendancePatch>) {
    exists i :: 0 <= i < |entries| && !entries[i].attended && HasActiveAction(t, m, entries[i].playerId)
  }

  predicate MergeClashes(t: Tables, m: int, patches: map<int, AttendancePatch>)
    requires m in t.matches
  {
    exists p, q :: p in EntryPlayers(t, m) && q in EntryPlayers(t, m) && p != q
      && Clash(MergedEntry(t, m, patches, p), MergedEntry(t, m, patches, q))
  }

  function SaveRefusal(t: Tables, actor: Actor, m: int, entries: seq<AttendancePatch>): Option<CallError> {
    if m !in t.matches then Some(MatchNotFound)
    else
      var row := t.matches[m];
      if !MayAccess(actor, row) || row.categoryId !in actor.categories then Some(Forbidden)
      else if row.status == Finished || row.status == Cancelled then Some(AttendanceLocked)
      else if !AllListed(t, m, entries) then Some(PlayerNotInCategory)
      else if MarksScorerAbsent(t, m, entries) then Some(PlayerHasActions)
      else if MergeClashes(t, m, PatchMap(entries)) then Some(JerseyCollision)
      else None
  }

  /** upsertBatch of the merged rows of the players in `patches`. */
  function Upserted(t: Tables, m: int, patches: map<int, AttendancePatch>): map<(int, int), AttendanceRow>
    requires forall p :: p in patches ==> p in t.players
  {
    t.attendance + map p | p in patches :: (m, p) := MergedEntry(t, m, patches, p)
  }

  function AfterSave(t: Tables, actor: Actor, m: int, entries: seq<AttendancePatch>): (u: Tables)
    ensures u == t.(attendance := u.attendance)
  {
    if SaveRefusal(t, actor, m, entries).Some? then t
    else
      assert forall p :: p in PatchMap(entries) ==> p in EntryPlayers(t, m);
      t.(attendance := Upserted(t, m, PatchMap(entries)))
  }
}
