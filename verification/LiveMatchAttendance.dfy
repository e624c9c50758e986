/** Attendance over whole runs: what was checked is what is stored, and numbers stay distinct. */
module LiveMatchAttendance {
  import opened Results
  import opened LiveMatch
  import MatchClock
  import opened LiveMatchRuns

  /** The rows after a save: merged ones for the players in the request, all others untouched. */
  ghost predicate RowsSaved(t: Tables, u: Tables, m: int, patches: map<int, AttendancePatch>) {
    && u == t.(attendance := u.attendance)
    && m in t.matches
    && (forall p :: p in patches ==> p in EntryPlayers(t, m) && (m, p) in u.attendance)
    && (forall k :: k in t.attendance ==> k in u.attendance)
    && (forall k :: k in u.attendance && k !in t.attendance ==> k.0 == m && k.1 in patches)
    && (forall p :: p in patches && p in t.players ==> u.attendance[(m, p)] == MergedEntry(t, m, patches, p))
    && (forall k :: k in t.attendance && !(k.0 == m && k.1 in patches) ==> u.attendance[k] == t.attendance[k])
  }

  lemma AcceptedSave(t: Tables, actor: Actor, m: int, entries: seq<AttendancePatch>)
    requires SaveRefusal(t, actor, m, entries).None?
    ensures m in t.matches && !MergeClashes(t, m, PatchMap(entries))
    ensures forall p :: p in PatchMap(entries) ==> p in EntryPlayers(t, m)
    ensures forall p :: p in EntryPlayers(t, m) ==> p in t.players
    ensures AfterSave(t, actor, m, entries) == t.(attendance := Upserted(t, m, PatchMap(entries)))
  {
    forall p | p in PatchMap(entries) ensures p in EntryPlayers(t, m) {
      var i :| 0 <= i < |entries| && entries[i].playerId == p;
    }
    hide MergeClashes, MarksScorerAbsent, Upserted, PatchMap;
  }

  lemma UpsertedRows(t: Tables, m: int, patches: map<int, AttendancePatch>)
    requires m in t.matches
    requires forall p :: p in patches ==> p in EntryPlayers(t, m) && p in t.players
    ensures RowsSaved(t, t.(attendance := Upserted(t, m, patches)), m, patches)
  {
    hide MergedEntry, EntryPlayers;
    var written := map p | p in patches :: (m, p) := MergedEntry(t, m, patches, p);
    assert Upserted(t, m, patches) == t.attendance + written;
    assert forall k :: k in written ==> k.0 == m && k.1 in patches;
    assert forall p :: p in patches ==> (m, p) in written && written[(m, p)] == MergedEntry(t, m, patches, p);
  }

  lemma SavedRows(t: Tables, actor: Actor, m: int, entries: seq<AttendancePatch>)
    requires SaveRefusal(t, actor, m, entries).None?
    ensures RowsSaved(t, AfterSave(t, actor, m, entries), m, PatchMap(entries))
  {
    hide *;
    AcceptedSave(t, actor, m, entries);
    UpsertedRows(t, m, PatchMap(entries));
  }

  /** The list checked for collisions is exactly the list that is read back after the save: for the same
      players, field by field. */
  lemma SavedListIsReloaded(t: Tables, actor: Actor, m: int, entries: seq<AttendancePatch>)
    requires SaveRefusal(t, actor, m, entries).None?
    ensures m in t.matches
    ensures var u := AfterSave(t, actor, m, entries);
      && EntryPlayers(u, m) == EntryPlayers(t, m)
      && forall p :: p in EntryPlayers(t, m) ==> EntryOf(u, m, p) == MergedEntry(t, m, PatchMap(entries), p)
  {
    SavedRows(t, actor, m, entries);
    hide SaveRefusal, AfterSave, Normalized;
    var u, patches := AfterSave(t, actor, m, entries), PatchMap(entries);
    forall p | p in EntryPlayers(t, m) ensures EntryOf(u, m, p) == MergedEntry(t, m, patches, p) {
      assert (m, p) in u.attendance && (m, p) !in t.attendance ==> p in patches;
    }
    forall p ensures p in EntryPlayers(u, m) <==> p in EntryPlayers(t, m) {
      assert (m, p) in u.attendance && (m, p) !in t.attendance ==> p in patches;
    }
  }

  /** The entry of the request that counts for a player: the last one. */
  ghost predicate IsLastEntry(entries: seq<AttendancePatch>, i: nat)
    requires i < |entries|
  {
    forall j :: i < j < |entries| ==> entries[j].playerId != entries[i].playerId
  }

  lemma {:induction false} LastEntryCounts(entries: seq<AttendancePatch>, i: nat)
    requires i < |entries| && IsLastEntry(entries, i)
    ensures entries[i].playerId in PatchMap(entries) && PatchMap(entries)[entries[i].playerId] == entries[i]
  {
    var last, front := |entries| - 1, entries[..|entries| - 1];
    if i < last {
      assert entries[last].playerId != entries[i].playerId;
      assert front[i] == entries[i] && forall j :: i < j < last ==> front[j] == entries[j];
      LastEntryCounts(front, i);
    }
  }

  /** What is stored for a player of the request: absent players have neither role nor number; a present one
      has the role and number asked for; a number left out is the saved one, else the player's own; only a
      player with a role can be present without a number. */
  lemma SavedRowFollowsRequest(t: Tables, actor: Actor, m: int, entries: seq<AttendancePatch>, i: nat)
    requires SaveRefusal(t, actor, m, entries).None? && i < |entries| && IsLastEntry(entries, i)
    ensures var e, key := entries[i], (m, entries[i].playerId);
      var u := AfterSave(t, actor, m, entries);
      && key in u.attendance && e.playerId in t.players
      && (!e.attended ==> u.attendance[key] == AttendanceRow(false, None, None))
      && (e.attended ==>
            && u.attendance[key].attended && u.attendance[key].lineup == e.lineup
            && (e.jersey.Number? ==> u.attendance[key].jersey == Some(e.jersey.value))
            && (e.jersey.Unset? && key in t.attendance && t.attendance[key].jersey.Some? ==>
                  u.attendance[key].jersey == t.attendance[key].jersey)
            && (e.jersey.Unset? && (key !in t.attendance || t.attendance[key].jersey.None?) ==>
                  u.attendance[key].jersey == Some(t.players[e.playerId].defaultJersey))
            && (u.attendance[key].jersey.None? <==> e.jersey.Null? && e.lineup.Some?))
  {
    AcceptedSave(t, actor, m, entries);
    LastEntryCounts(entries, i);
    SavedRows(t, actor, m, entries);
    hide SaveRefusal, AfterSave, PatchMap, Upserted;
    assert RowsSaved(t, AfterSave(t, actor, m, entries), m, PatchMap(entries));
  }

  /** Attending players of the match with the same number. */
  predicate SameNumber(t: Tables, m: int, p: int, q: int) {
    p != q && (m, p) in t.attendance && (m, q) in t.attendance && Clash(t.attendance[(m, p)], t.attendance[(m, q)])
  }

  ghost predicate NumbersDistinct(t: Tables, m: int) { forall p, q :: !SameNumber(t, m, p, q) }

  /** A player of the request would wear the number of someone who is saved as present but is no longer
      listed, because the player has left the category of the match. */
  predicate ClashesWithUnlisted(t: Tables, m: int, patches: map<int, AttendancePatch>)
    requires m in t.matches
  {
    exists p, k :: p in patches && p in t.players && k in t.attendance && k.0 == m && k.1 !in EntryPlayers(t, m)
      && Clash(MergedEntry(t, m, patches, p), t.attendance[k])
  }

  /** The rows after a save, and that the checked list is what is stored. */
  ghost predicate SavedAs(t: Tables, u: Tables, m: int, patches: map<int, AttendancePatch>) {
    && RowsSaved(t, u, m, patches)
    && (forall p :: p in EntryPlayers(t, m) && (m, p) in u.attendance ==>
          u.attendance[(m, p)] == MergedEntry(t, m, patches, p))
  }

  lemma ListIsStored(t: Tables, u: Tables, m: int, patches: map<int, AttendancePatch>)
    requires RowsSaved(t, u, m, patches)
    requires forall p :: p in EntryPlayers(t, m) ==> p in u.players && EntryOf(u, m, p) == MergedEntry(t, m, patches, p)
    ensures SavedAs(t, u, m, patches)
  {
    hide RowsSaved, MergedEntry, EntryPlayers;
  }

  lemma SaveIsSavedAs(t: Tables, actor: Actor, m: int, entries: seq<AttendancePatch>)
    requires SaveRefusal(t, actor, m, entries).None?
    ensures SavedAs(t, AfterSave(t, actor, m, entries), m, PatchMap(entries)) && !MergeClashes(t, m, PatchMap(entries))
  {
    hide *;
    AcceptedSave(t, actor, m, entries);
    SavedRows(t, actor, m, entries);
    SavedListIsReloaded(t, actor, m, entries);
    ListIsStored(t, AfterSave(t, actor, m, entries), m, PatchMap(entries));
  }

  /** A save keeps the numbers of a match distinct if and only if no player of the request takes the number
      of a present player outside the list. */
  lemma SaveKeepsNumbersDistinct(t: Tables, actor: Actor, m: int, entries: seq<AttendancePatch>)
    requires NumbersDistinct(t, m) && SaveRefusal(t, actor, m, entries).None?
    ensures m in t.matches
    ensures NumbersDistinct(AfterSave(t, actor, m, entries), m) <==> !ClashesWithUnlisted(t, m, PatchMap(entries))
  {
    SaveIsSavedAs(t, actor, m, entries);
    assert m in t.matches;
    hide *;
    var u, patches := AfterSave(t, actor, m, entries), PatchMap(entries);
    if ClashesWithUnlisted(t, m, patches) {
      UnlistedClashStays(t, u, m, patches);
    } else {
      NoOtherClash(t, u, m, patches);
    }
  }

  lemma UnlistedClashStays(t: Tables, u: Tables, m: int, patches: map<int, AttendancePatch>)
    requires SavedAs(t, u, m, patches) && ClashesWithUnlisted(t, m, patches)
    ensures !NumbersDistinct(u, m)
  {
    hide MergedEntry;
    var p, k :| p in patches && p in t.players && k in t.attendance && k.0 == m && k.1 !in EntryPlayers(t, m)
      && Clash(MergedEntry(t, m, patches, p), t.attendance[k]);
    var q: int := k.1;
    assert k == (m, q);
    assert SameNumber(u, m, p, q);
  }

  lemma NoOtherClash(t: Tables, u: Tables, m: int, patches: map<int, AttendancePatch>)
    requires SavedAs(t, u, m, patches) && !ClashesWithUnlisted(t, m, patches) && !MergeClashes(t, m, patches)
    requires NumbersDistinct(t, m)
    ensures NumbersDistinct(u, m)
  {
    hide SavedAs, ClashesWithUnlisted, MergeClashes, SameNumber;
    forall p, q ensures !SameNumber(u, m, p, q) {
      assert !SameNumber(t, m, p, q);
      if SameNumber(u, m, p, q) {
        ClashInvolvesRequest(t, u, m, patches, p, q);
      }
    }
  }

  lemma ClashInvolvesRequest(t: Tables, u: Tables, m: int, patches: map<int, AttendancePatch>, p: int, q: int)
    requires SavedAs(t, u, m, patches) && SameNumber(u, m, p, q) && !SameNumber(t, m, p, q)
    ensures MergeClashes(t, m, patches) || ClashesWithUnlisted(t, m, patches)
  {
    hide MergedEntry;
    var a, b := u.attendance[(m, p)], u.attendance[(m, q)];
    assert Clash(a, b) && Clash(b, a);
    if p in EntryPlayers(t, m) && q in EntryPlayers(t, m) {
      assert Clash(MergedEntry(t, m, patches, p), MergedEntry(t, m, patches, q));
    } else if p in patches {
      assert (m, q) in t.attendance && Clash(MergedEntry(t, m, patches, p), t.attendance[(m, q)]);
    } else {
      assert (m, p) in t.attendance && Clash(MergedEntry(t, m, patches, q), t.attendance[(m, p)]);
    }
  }

  // With a fixed roster nobody with saved attendance is outside the list

  ghost predicate RosterFits(t: Tables) {
    && (forall k :: k in t.attendance ==> k.0 in t.matches && k.1 in t.players)
    && (forall k :: k in t.attendance ==> t.players[k.1].categoryId == t.matches[k.0].categoryId)
  }

  ghost predicate AllDistinct(t: Tables) { forall m :: NumbersDistinct(t, m) }

  /** The step moves no player with saved attendance to another category. */
  predicate KeepsRoster(t: Tables, e: Event) {
    e.call.PutPlayer? && (exists k :: k in t.attendance && k.1 == e.call.playerId) ==>
      e.call.playerId in t.players && e.call.player.categoryId == t.players[e.call.playerId].categoryId
  }

  predicate RunKeepsRoster(t: Tables, cfg: Config, trace: seq<Event>) {
    trace == [] || (RunKeepsRoster(t, cfg, trace[..|trace| - 1])
                    && KeepsRoster(Run(t, cfg, trace[..|trace| - 1]), trace[|trace| - 1]))
  }

  lemma StepKeepsNumbers(t: Tables, cfg: Config, e: Event)
    requires RosterFits(t) && AllDistinct(t) && KeepsRoster(t, e)
    ensures RosterFits(Step(t, cfg, e)) && AllDistinct(Step(t, cfg, e))
  {
    match e.call
    case Save(actor, m, entries) => SaveKeepsNumbers(t, actor, m, entries);
    case _ => OtherStepsKeepNumbers(t, cfg, e);
  }

  lemma SaveKeepsNumbers(t: Tables, actor: Actor, m: int, entries: seq<AttendancePatch>)
    requires RosterFits(t) && AllDistinct(t)
    ensures RosterFits(AfterSave(t, actor, m, entries)) && AllDistinct(AfterSave(t, actor, m, entries))
  {
    if SaveRefusal(t, actor, m, entries).None? {
      var u, patches := AfterSave(t, actor, m, entries), PatchMap(entries);
      assert NumbersDistinct(t, m);
      SavedRows(t, actor, m, entries);
      SaveKeepsNumbersDistinct(t, actor, m, entries);
      hide *;
      NobodyUnlisted(t, m, patches);
      OthersUntouched(t, u, m, patches);
    } else {
      hide RosterFits, AllDistinct, SaveRefusal;
    }
  }

  lemma NobodyUnlisted(t: Tables, m: int, patches: map<int, AttendancePatch>)
    requires RosterFits(t) && m in t.matches
    ensures !ClashesWithUnlisted(t, m, patches)
  {
    hide MergedEntry;
    forall k | k in t.attendance && k.0 == m ensures k.1 in EntryPlayers(t, m) {
      assert k == (m, k.1);
    }
  }

  lemma OthersUntouched(t: Tables, u: Tables, m: int, patches: map<int, AttendancePatch>)
    requires RowsSaved(t, u, m, patches) && RosterFits(t) && AllDistinct(t) && NumbersDistinct(u, m)
    ensures RosterFits(u) && AllDistinct(u)
  {
    hide MergedEntry;
    forall k | k in u.attendance
      ensures k.0 in u.matches && k.1 in u.players && u.players[k.1].categoryId == u.matches[k.0].categoryId
    {
      var p: int := k.1;
      assert k !in t.attendance ==> p in patches && p in EntryPlayers(t, m);
    }
    forall g ensures NumbersDistinct(u, g) {
      if g != m {
        forall p, q ensures !SameNumber(u, g, p, q) {
          assert NumbersDistinct(t, g) && !SameNumber(t, g, p, q);
        }
      }
    }
  }

  /** No attendance is written, and no match or player with attendance changes category. */
  ghost predicate AttendanceFramed(t: Tables, u: Tables) {
    && u.attendance == t.attendance
    && (forall m :: m in t.matches ==> m in u.matches)
    && (forall p :: p in t.players ==> p in u.players)
    && (forall k :: k in t.attendance && k.0 in t.matches ==> u.matches[k.0].categoryId == t.matches[k.0].categoryId)
    && (forall k :: k in t.attendance && k.1 in t.players ==> u.players[k.1].categoryId == t.players[k.1].categoryId)
  }

  lemma EditKeepsRoster(t: Tables, actor: Actor, m: int, patch: MatchPatch, categoryOk: bool)
    ensures AttendanceFramed(t, AfterUpdate(t, actor, m, patch, categoryOk))
  {
    forall k | k in t.attendance && k.0 == m ensures HasAttendance(t, m) {}
  }

  lemma ClockKeepsRoster(
      t: Tables, cfg: Config, actor: Actor, m: int, command: MatchClock.Command, now: int, stored: int)
    ensures AttendanceFramed(t, AfterClock(t, cfg, actor, m, command, now, stored))
  {
    if ClockRefusal(t, cfg, actor, m, command, now).None? {
      assert m in t.matches;
      hide ClockRefusal, MatchClock.ApplyCommand;
    } else {
      hide ClockRefusal, MatchClock.ApplyCommand;
    }
  }

  lemma StatusKeepsRoster(t: Tables, actor: Actor, m: int, next: MatchStatus, now: int, stored: int)
    ensures AttendanceFramed(t, AfterStatus(t, actor, m, next, now, stored))
  {
    hide VoidAllOf, VoidNotesOfMatch;
  }

  lemma OtherStepsKeepRoster(t: Tables, cfg: Config, e: Event)
    requires KeepsRoster(t, e) && !e.call.Save?
    ensures AttendanceFramed(t, Step(t, cfg, e))
  {
    hide AfterUpdate, AfterClock, AfterStatus, AfterRegister, AfterUndo, AfterVoid;
    match e.call
    case EditMatch(actor, m, patch, categoryOk) => EditKeepsRoster(t, actor, m, patch, categoryOk);
    case Clock(actor, m, command) => ClockKeepsRoster(t, cfg, actor, m, command, e.now, e.stored);
    case SetStatus(actor, m, next) => StatusKeepsRoster(t, actor, m, next, e.now, e.stored);
    case Register(actor, m, input, catalog, audience) => { RegisterKeepsRoster(t, cfg, e); }
    case Undo(actor, m, a) => { UndoKeepsRoster(t, cfg, e); }
    case Void(actor, m, a, reason) => { UndoKeepsRoster(t, cfg, e); }
    case _ =>
  }

  lemma RegisterKeepsRoster(t: Tables, cfg: Config, e: Event)
    requires e.call.Register?
    ensures AttendanceFramed(t, Step(t, cfg, e))
  {
    hide ResolveWriteMode, Registers, WithNotes;
  }

  lemma UndoKeepsRoster(t: Tables, cfg: Config, e: Event)
    requires e.call.Undo? || e.call.Void?
    ensures AttendanceFramed(t, Step(t, cfg, e))
  {
    hide UndoRefusal, VoidRefusal;
  }

  lemma OtherStepsKeepNumbers(t: Tables, cfg: Config, e: Event)
    requires RosterFits(t) && AllDistinct(t) && KeepsRoster(t, e) && !e.call.Save?
    ensures RosterFits(Step(t, cfg, e)) && AllDistinct(Step(t, cfg, e))
  {
    hide Step, KeepsRoster;
    var u := Step(t, cfg, e);
    OtherStepsKeepRoster(t, cfg, e);
    forall k | k in u.attendance
      ensures k.0 in u.matches && k.1 in u.players && u.players[k.1].categoryId == u.matches[k.0].categoryId
    {
      var m: int, p: int := k.0, k.1;
      assert m in t.matches && p in t.players;
    }
    forall m ensures NumbersDistinct(u, m) {
      forall p, q ensures !SameNumber(u, m, p, q) {
        assert NumbersDistinct(t, m) && !SameNumber(t, m, p, q);
      }
    }
  }

  /** Over every run that keeps the roster, no two present players of a match wear the same number. */
  lemma {:induction false} NumbersStayDistinct(cfg: Config, trace: seq<Event>)
    requires RunKeepsRoster(NoRows(), cfg, trace)
    ensures RosterFits(Run(NoRows(), cfg, trace)) && AllDistinct(Run(NoRows(), cfg, trace))
  {
    hide Step;
    if trace != [] {
      NumbersStayDistinct(cfg, trace[..|trace| - 1]);
      StepKeepsNumbers(Run(NoRows(), cfg, trace[..|trace| - 1]), cfg, trace[|trace| - 1]);
    }
  }

  // Moving a present player to another category and saving the others

  const COACH := Actor(5, false, true, {10})

  /** Two players of one category and a match, for which player 1 is saved as present with number 7. */
  const SEATED := [
    Event(PutPlayer(1, Player(10, true, 7)), 0, 0),
    Event(PutPlayer(2, Player(10, true, 7)), 0, 0),
    Event(CreateMatch(1, 10, None, ""), 0, 0),
    Event(Save(COACH, 1, [AttendancePatch(1, true, None, Number(7))]), 0, 0)]

  const ONE_PRESENT := Tables(
    map[1 := NewMatch(10, None, "")], map[1 := Player(10, true, 7), 2 := Player(10, true, 7)],
    map[(1, 1) := AttendanceRow(true, None, Some(7))], map[], map[], 0, 0)

  /** Player 1 moves to another category, and player 2 is saved with the same number. */
  const MOVED := [
    Event(PutPlayer(1, Player(20, true, 7)), 0, 0),
    Event(Save(COACH, 1, [AttendancePatch(2, true, None, Number(7))]), 1, 1)]

  /** Without the roster condition numbers can coincide: the moved player is not on the checked list. */
  lemma MovedPlayerKeepsNumber(cfg: Config)
    ensures var t := Run(NoRows(), cfg, SEATED);
      && RosterFits(t) && AllDistinct(t) && !KeepsRoster(t, MOVED[0])
      && SameNumber(Run(NoRows(), cfg, SEATED + MOVED), 1, 1, 2)
  {
    hide *;
    SeatedRuns(cfg);
    OnePresentFits();
    FirstMoves(cfg);
    RunThen(NoRows(), cfg, SEATED, MOVED);
    RunOfTwo(ONE_PRESENT, cfg, MOVED[0], MOVED[1]);
  }

  lemma SeatedRuns(cfg: Config)
    ensures Run(NoRows(), cfg, SEATED) == ONE_PRESENT
  {
    var two := ONE_PRESENT.(matches := map[], attendance := map[]);
    var three := ONE_PRESENT.(attendance := map[]);
    assert SEATED == [SEATED[0], SEATED[1]] + [SEATED[2], SEATED[3]];
    RunThen(NoRows(), cfg, [SEATED[0], SEATED[1]], [SEATED[2], SEATED[3]]);
    RunOfTwo(NoRows(), cfg, SEATED[0], SEATED[1]);
    RunOfTwo(two, cfg, SEATED[2], SEATED[3]);
    SeatedSave(three);
    hide AfterSave;
    assert Step(Step(NoRows(), cfg, SEATED[0]), cfg, SEATED[1]) == two;
    assert Step(two, cfg, SEATED[2]) == three;
  }

  lemma SeatedSave(t: Tables)
    requires t == ONE_PRESENT.(attendance := map[])
    ensures AfterSave(t, COACH, 1, SEATED[3].call.entries) == ONE_PRESENT
  {
    var entries := SEATED[3].call.entries;
    SeatedSaveIsAccepted(t);
    AcceptedSave(t, COACH, 1, entries);
    hide SaveRefusal, AfterSave, PatchMap, EntryPlayers, MergeClashes;
    assert Upserted(t, 1, PatchMap(entries)) == ONE_PRESENT.attendance;
  }

  lemma SeatedSaveIsAccepted(t: Tables)
    requires t == ONE_PRESENT.(attendance := map[])
    ensures SaveRefusal(t, COACH, 1, SEATED[3].call.entries).None?
    ensures PatchMap(SEATED[3].call.entries) == map[1 := SEATED[3].call.entries[0]]
  {
    var entries := SEATED[3].call.entries;
    assert EntryPlayers(t, 1) == {1, 2};
    assert entries[..0] == [];
    assert PatchMap(entries) == map[1 := entries[0]];
    assert !MergeClashes(t, 1, PatchMap(entries));
  }

  lemma FirstMoves(cfg: Config)
    ensures MOVED == [MOVED[0], MOVED[1]] && !KeepsRoster(ONE_PRESENT, MOVED[0])
    ensures SameNumber(Step(Step(ONE_PRESENT, cfg, MOVED[0]), cfg, MOVED[1]), 1, 1, 2)
  {
    hide AfterSave, SameNumber, RosterFits;
    assert (1, 1) in ONE_PRESENT.attendance;
    var u := Step(ONE_PRESENT, cfg, MOVED[0]);
    MovedSaveIsAccepted(u);
    assert Step(u, cfg, MOVED[1]) == AfterSave(u, COACH, 1, MOVED[1].call.entries);
  }

  lemma OnePresentFits()
    ensures RosterFits(ONE_PRESENT) && AllDistinct(ONE_PRESENT)
  {
  }

  lemma MovedSaveIsAccepted(u: Tables)
    requires u == ONE_PRESENT.(players := map[1 := Player(20, true, 7), 2 := Player(10, true, 7)])
    ensures SaveRefusal(u, COACH, 1, MOVED[1].call.entries).None?
    ensures SameNumber(AfterSave(u, COACH, 1, MOVED[1].call.entries), 1, 1, 2)
  {
    var entries := MOVED[1].call.entries;
    assert EntryPlayers(u, 1) == {2};
    assert entries[..0] == [];
    assert PatchMap(entries) == map[2 := entries[0]];
    assert !MergeClashes(u, 1, PatchMap(entries));
    SavedRows(u, COACH, 1, entries);
  }
}
