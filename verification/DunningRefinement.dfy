/** The statements of the job against the job as one step. An instance that nothing interrupts does to the
    tables what one run does; an instance at work is never stuck, and each of its statements brings it nearer
    its end; the statements of the other calls do what those calls do. */
module DunningRefinement {
  import opened Basics
  import opened Results
  import opened Dunning
  import opened DunningInterleaving
  import DunningRuns

  // An instance alone

  /** A statement by which the instance goes on. */
  predicate GoesOn(x: Statement, w: int, graceDays: nat) {
    x == ClaimNext(w, graceDays) || (x.SelectDue? && x.w == w)
    || x == FindAcademy(w) || x == ClearSchedule(w) || x == Suspend(w)
  }

  /** From its first SELECT to its end, without a failure and without statements of anyone else. Other
      instances may be at work, but rest. */
  ghost predicate Alone(states: seq<State>, xs: seq<Statement>, w: int, now: int, graceDays: nat) {
    && |states| == |xs| + 1 && |xs| >= 2
    && (forall n :: 0 <= n < |xs| ==> Enabled(states[n], xs[n]) && states[n + 1] == Exec(states[n], xs[n]))
    && xs[0].SelectPastDue? && xs[0].w == w && xs[0].now == now
    && (forall n :: 0 < n < |xs| - 1 ==> GoesOn(xs[n], w, graceDays))
    && xs[|xs| - 1] == Finish(w)
  }

  /** Between the statements: how much of the run the tables show. */
  ghost predicate PartOfRun(start: State, s: State, w: int, now: int, graceDays: nat) {
    w in s.workers &&
    match s.workers[w]
    case Idle => false
    case Warning(at, snapshot, k) =>
      && at == now && k <= |snapshot| && s.db == HalfWarned(start.db, snapshot[..k], now, graceDays)
      && s.suspendedAt == start.suspendedAt
      && Lists(snapshot, set id | id in start.db.invoices && PendingPastDue(start.db.invoices[id], DayOf(now)))
    case Suspending(at, snapshot, k, suspended, point) =>
      var middle := AfterWarnings(start.db, now, graceDays);
      && at == now && k <= |snapshot|
      && Lists(snapshot, set id | id in middle.invoices && DueForSuspension(middle.invoices[id], now))
      && s.suspendedAt.Keys == start.suspendedAt.Keys + suspended
      && HalfSuspended(middle, s.db, snapshot, k, suspended, point)
  }

  /** The listed invoices have been looked at by the warning loop. */
  function HalfWarned(db: Db, ids: seq<int>, now: int, graceDays: nat): Db {
    db.(invoices := map id | id in db.invoices ::
      if id in ids then WarnedRow(db.invoices[id], now, graceDays) else db.invoices[id])
  }

  /** The tenants of the finished entries are done; of the current one, what the point says. */
  ghost predicate HalfSuspended(middle: Db, db: Db, snapshot: seq<int>, k: nat, suspended: set<int>, point: Point)
    requires k <= |snapshot| && forall j :: 0 <= j < |snapshot| ==> snapshot[j] in middle.invoices
  {
    var seen := TenantsOf(middle.invoices, snapshot[..k]);
    && db.academies == SuspendedIn(middle.academies, seen)
    && suspended == ActiveAmong(middle.academies, seen)
    && (k == |snapshot| ==> point == ToFind)
    && (point == ToSuspend || db.invoices == ClearedFor(middle.invoices, seen))
    && (k < |snapshot| && point != ToFind ==>
          var tenant := middle.invoices[snapshot[k]].tenantId;
          var active := tenant in db.academies && db.academies[tenant].status == Active;
          && tenant !in suspended
          && (point.ToClear? ==> point.active == active)
          && (point == ToSuspend ==> active && db.invoices == ClearedFor(middle.invoices, seen + {tenant})))
  }

  lemma StartsRun(s: State, x: Statement, graceDays: nat)
    requires Enabled(s, x) && x.SelectPastDue?
    ensures PartOfRun(s, Exec(s, x), x.w, x.now, graceDays)
  {
    assert HalfWarned(s.db, x.ids[..0], x.now, graceDays).invoices == s.db.invoices;
  }

  lemma ClaimGoesOn(start: State, s: State, x: Statement, now: int, graceDays: nat)
    requires Enabled(s, x) && x.ClaimNext? && x.graceDays == graceDays && PartOfRun(start, s, x.w, now, graceDays)
    ensures PartOfRun(start, Exec(s, x), x.w, now, graceDays)
  {
    var Warning(at, snapshot, k) := s.workers[x.w];
    var id := snapshot[k];
    assert id !in snapshot[..k] && snapshot[..k + 1] == snapshot[..k] + [id];
    assert id in start.db.invoices && s.db.invoices[id] == start.db.invoices[id];
    assert Exec(s, x).db.invoices == HalfWarned(start.db, snapshot[..k + 1], now, graceDays).invoices;
    assert Exec(s, x).db.academies == start.db.academies;
  }

  lemma AllWarned(db: Db, ids: seq<int>, now: int, graceDays: nat)
    requires Lists(ids, set id | id in db.invoices && PendingPastDue(db.invoices[id], DayOf(now)))
    ensures HalfWarned(db, ids, now, graceDays) == AfterWarnings(db, now, graceDays)
  {
    assert forall id :: id in db.invoices && id !in ids ==>
      WarnedRow(db.invoices[id], now, graceDays) == db.invoices[id];
    assert HalfWarned(db, ids, now, graceDays).invoices == AfterWarnings(db, now, graceDays).invoices;
  }

  lemma SelectDueGoesOn(start: State, s: State, x: Statement, now: int, graceDays: nat)
    requires Enabled(s, x) && x.SelectDue? && PartOfRun(start, s, x.w, now, graceDays)
    ensures PartOfRun(start, Exec(s, x), x.w, now, graceDays)
  {
    var snapshot := s.workers[x.w].snapshot;
    assert snapshot[..|snapshot|] == snapshot;
    AllWarned(start.db, snapshot, now, graceDays);
    NothingCleared(s.db.invoices);
    NobodySuspended(s.db.academies);
    assert x.ids[..0] == [];
    hide AfterWarnings, HalfWarned, ClearedFor, SuspendedIn, ActiveAmong, PendingPastDue, DueForSuspension;
  }

  /** One more entry is done: its tenant has been seen. */
  lemma OneMoreEntry(middle: Db, snapshot: seq<int>, k: nat)
    requires k < |snapshot| && forall j :: 0 <= j < |snapshot| ==> snapshot[j] in middle.invoices
    ensures TenantsOf(middle.invoices, snapshot[..k + 1])
         == TenantsOf(middle.invoices, snapshot[..k]) + {middle.invoices[snapshot[k]].tenantId}
  {
    assert snapshot[..k + 1][..k] == snapshot[..k];
  }

  /** One more tenant of the loop: what that changes for the academies, by whether it was done before. */
  lemma TenantSeen(academies: map<int, Academy>, seen: set<int>, t: int)
    ensures var done, before := ActiveAmong(academies, seen), SuspendedIn(academies, seen);
      var active := t in before && before[t].status == Active;
      && (t in done ==> t in seen)
      && (t !in done && !active ==>
            SuspendedIn(academies, seen + {t}) == before && ActiveAmong(academies, seen + {t}) == done)
      && (active ==>
            && SuspendedIn(academies, seen + {t}) == before[t := SuspendedForBilling]
            && ActiveAmong(academies, seen + {t}) == done + {t})
  {
    SuspendedInMore(academies, seen, t);
    ActiveAmongMore(academies, seen, t);
  }

  /** The tenant of an earlier entry has been suspended already. */
  lemma EntrySkipped(middle: Db, db: Db, snapshot: seq<int>, k: nat, suspended: set<int>)
    requires k < |snapshot| && forall j :: 0 <= j < |snapshot| ==> snapshot[j] in middle.invoices
    requires HalfSuspended(middle, db, snapshot, k, suspended, ToFind)
    requires middle.invoices[snapshot[k]].tenantId in suspended
    ensures HalfSuspended(middle, db, snapshot, k + 1, suspended, ToFind)
  {
    var seen, tenant := TenantsOf(middle.invoices, snapshot[..k]), middle.invoices[snapshot[k]].tenantId;
    OneMoreEntry(middle, snapshot, k);
    TenantSeen(middle.academies, seen, tenant);
    hide TenantsOf, ClearedFor, SuspendedIn, ActiveAmong;
    assert seen + {tenant} == seen;
  }

  lemma EntryFound(middle: Db, db: Db, snapshot: seq<int>, k: nat, suspended: set<int>)
    requires k < |snapshot| && forall j :: 0 <= j < |snapshot| ==> snapshot[j] in middle.invoices
    requires HalfSuspended(middle, db, snapshot, k, suspended, ToFind)
    requires middle.invoices[snapshot[k]].tenantId !in suspended
    ensures var tenant := middle.invoices[snapshot[k]].tenantId;
      var active := tenant in db.academies && db.academies[tenant].status == Active;
      HalfSuspended(middle, db, snapshot, k, suspended, ToClear(active))
  {
    hide TenantsOf, ClearedFor, SuspendedIn, ActiveAmong;
  }

  /** Its schedules are used up; the academy is suspended next if it is active. */
  lemma EntryCleared(middle: Db, db: Db, snapshot: seq<int>, k: nat, suspended: set<int>, active: bool, after: Db)
    requires k < |snapshot| && forall j :: 0 <= j < |snapshot| ==> snapshot[j] in middle.invoices
    requires HalfSuspended(middle, db, snapshot, k, suspended, ToClear(active))
    requires after == db.(invoices := ClearedFor(db.invoices, {middle.invoices[snapshot[k]].tenantId}))
    ensures if active then HalfSuspended(middle, after, snapshot, k, suspended, ToSuspend)
            else HalfSuspended(middle, after, snapshot, k + 1, suspended, ToFind)
  {
    var seen, tenant := TenantsOf(middle.invoices, snapshot[..k]), middle.invoices[snapshot[k]].tenantId;
    ClearedForMore(middle.invoices, seen, tenant);
    if !active {
      OneMoreEntry(middle, snapshot, k);
      TenantSeen(middle.academies, seen, tenant);
    }
    hide TenantsOf, ClearedFor, SuspendedIn, ActiveAmong;
  }

  lemma EntrySuspended(middle: Db, db: Db, snapshot: seq<int>, k: nat, suspended: set<int>)
    requires k < |snapshot| && forall j :: 0 <= j < |snapshot| ==> snapshot[j] in middle.invoices
    requires HalfSuspended(middle, db, snapshot, k, suspended, ToSuspend)
    ensures var tenant := middle.invoices[snapshot[k]].tenantId;
      && tenant in db.academies
      && HalfSuspended(middle, db.(academies := db.academies[tenant := SuspendedForBilling]), snapshot, k + 1,
           suspended + {tenant}, ToFind)
  {
    var seen, tenant := TenantsOf(middle.invoices, snapshot[..k]), middle.invoices[snapshot[k]].tenantId;
    OneMoreEntry(middle, snapshot, k);
    TenantSeen(middle.academies, seen, tenant);
    hide TenantsOf, ClearedFor, SuspendedIn, ActiveAmong;
  }

  /** The entry the suspension loop works on, and what the tables show of it. */
  ghost predicate AtEntry(
      start: State, s: State, worker: Worker, middle: Db, now: int, graceDays: nat)
  {
    && worker.Suspending? && middle == AfterWarnings(start.db, now, graceDays) && worker.now == now
    && Lists(worker.snapshot, set id | id in middle.invoices && DueForSuspension(middle.invoices[id], now))
    && worker.k < |worker.snapshot| && HasCurrent(s, worker)
    && CurrentTenant(s, worker) == middle.invoices[worker.snapshot[worker.k]].tenantId
    && s.suspendedAt.Keys == start.suspendedAt.Keys + worker.suspended
    && HalfSuspended(middle, s.db, worker.snapshot, worker.k, worker.suspended, worker.point)
  }

  lemma CurrentEntry(start: State, s: State, x: Statement, now: int, graceDays: nat)
    requires Enabled(s, x) && (x.FindAcademy? || x.ClearSchedule? || x.Suspend?)
    requires PartOfRun(start, s, x.w, now, graceDays)
    ensures AtEntry(start, s, s.workers[x.w], AfterWarnings(start.db, now, graceDays), now, graceDays)
  {
    hide TenantsOf, SuspendedIn, ActiveAmong, AfterWarnings, DueForSuspension;
  }

  lemma StillPart(start: State, s: State, t: State, w: int, worker: Worker, middle: Db, now: int, graceDays: nat)
    requires AtEntry(start, s, worker, middle, now, graceDays)
    requires w in t.workers && t.workers[w].Suspending?
    requires var after := t.workers[w];
      && after.now == worker.now && after.snapshot == worker.snapshot && after.k <= |worker.snapshot|
      && t.suspendedAt.Keys == start.suspendedAt.Keys + after.suspended
      && (forall j :: 0 <= j < |worker.snapshot| ==> worker.snapshot[j] in middle.invoices)
      && HalfSuspended(middle, t.db, worker.snapshot, after.k, after.suspended, after.point)
    ensures PartOfRun(start, t, w, now, graceDays)
  {
    hide HalfSuspended, AfterWarnings, DueForSuspension, Lists, CurrentTenant;
  }

  lemma EntryFacts(start: State, s: State, worker: Worker, middle: Db, now: int, graceDays: nat)
    requires AtEntry(start, s, worker, middle, now, graceDays)
    ensures worker.Suspending? && worker.k < |worker.snapshot|
    ensures forall j :: 0 <= j < |worker.snapshot| ==> worker.snapshot[j] in middle.invoices
    ensures HalfSuspended(middle, s.db, worker.snapshot, worker.k, worker.suspended, worker.point)
    ensures s.suspendedAt.Keys == start.suspendedAt.Keys + worker.suspended
    ensures HasCurrent(s, worker) && CurrentTenant(s, worker) == middle.invoices[worker.snapshot[worker.k]].tenantId
  {
    hide HalfSuspended, AfterWarnings, DueForSuspension, CurrentTenant;
  }

  /** What a statement of the suspension loop does, told from its current entry alone. */
  lemma LoopStatement(s: State, x: Statement)
    requires Enabled(s, x) && (x.FindAcademy? || x.ClearSchedule? || x.Suspend?)
    ensures var t, worker, tenant := Exec(s, x), s.workers[x.w], CurrentTenant(s, s.workers[x.w]);
      var active := tenant in s.db.academies && s.db.academies[tenant].status == Active;
      x.w in t.workers &&
      match worker.point
      case ToFind =>
        && x.FindAcademy? && t.db == s.db && t.suspendedAt == s.suspendedAt
        && t.workers[x.w] ==
             if tenant in worker.suspended then NextEntry(worker) else worker.(point := ToClear(active))
      case ToClear(found) =>
        && x.ClearSchedule? && t.db == s.db.(invoices := ClearedFor(s.db.invoices, {tenant}))
        && t.suspendedAt == s.suspendedAt
        && t.workers[x.w] == if found then worker.(point := ToSuspend) else NextEntry(worker)
      case ToSuspend =>
        && x.Suspend? && t.suspendedAt.Keys == s.suspendedAt.Keys + {tenant}
        && (tenant in s.db.academies ==>
              t.db == s.db.(academies := s.db.academies[tenant := SuspendedForBilling]))
        && t.workers[x.w] == Suspending(
             worker.now, worker.snapshot, worker.k + 1, worker.suspended + {tenant}, ToFind)
  {
    hide ClearedFor;
  }

  lemma SkippedIsPart(
      start: State, s: State, t: State, w: int, worker: Worker, middle: Db, now: int, graceDays: nat)
    requires AtEntry(start, s, worker, middle, now, graceDays) && w in t.workers
    requires worker.point == ToFind && t.db == s.db && t.suspendedAt == s.suspendedAt
    requires CurrentTenant(s, worker) in worker.suspended
    requires t.workers[w] == Suspending(worker.now, worker.snapshot, worker.k + 1, worker.suspended, ToFind)
    ensures PartOfRun(start, t, w, now, graceDays)
  {
    hide *;
    EntryFacts(start, s, worker, middle, now, graceDays);
    EntrySkipped(middle, s.db, worker.snapshot, worker.k, worker.suspended);
    assert HalfSuspended(middle, t.db, worker.snapshot, worker.k + 1, worker.suspended, ToFind);
    StillPart(start, s, t, w, worker, middle, now, graceDays);
  }

  lemma FoundIsPart(
      start: State, s: State, t: State, w: int, worker: Worker, middle: Db, now: int, graceDays: nat)
    requires AtEntry(start, s, worker, middle, now, graceDays) && w in t.workers
    requires worker.point == ToFind && t.db == s.db && t.suspendedAt == s.suspendedAt
    requires CurrentTenant(s, worker) !in worker.suspended
    requires var tenant := CurrentTenant(s, worker);
      var active := tenant in s.db.academies && s.db.academies[tenant].status == Active;
      t.workers[w] == Suspending(worker.now, worker.snapshot, worker.k, worker.suspended, ToClear(active))
    ensures PartOfRun(start, t, w, now, graceDays)
  {
    EntryFacts(start, s, worker, middle, now, graceDays);
    hide *;
    EntryFound(middle, s.db, worker.snapshot, worker.k, worker.suspended);
    StillPart(start, s, t, w, worker, middle, now, graceDays);
  }

  lemma ClearedIsPart(
      start: State, s: State, t: State, w: int, worker: Worker, middle: Db, now: int, graceDays: nat)
    requires AtEntry(start, s, worker, middle, now, graceDays) && w in t.workers
    requires worker.point.ToClear? && t.suspendedAt == s.suspendedAt
    requires t.db == s.db.(invoices := ClearedFor(s.db.invoices, {CurrentTenant(s, worker)}))
    requires t.workers[w] == if worker.point.active then worker.(point := ToSuspend) else NextEntry(worker)
    ensures PartOfRun(start, t, w, now, graceDays)
  {
    EntryFacts(start, s, worker, middle, now, graceDays);
    hide *;
    EntryCleared(middle, s.db, worker.snapshot, worker.k, worker.suspended, worker.point.active, t.db);
    StillPart(start, s, t, w, worker, middle, now, graceDays);
  }

  lemma SuspendedIsPart(
      start: State, s: State, t: State, w: int, worker: Worker, middle: Db, now: int, graceDays: nat)
    requires AtEntry(start, s, worker, middle, now, graceDays) && w in t.workers
    requires worker.point == ToSuspend
    requires var tenant := CurrentTenant(s, worker);
      && t.suspendedAt.Keys == s.suspendedAt.Keys + {tenant}
      && (tenant in s.db.academies ==> t.db == s.db.(academies := s.db.academies[tenant := SuspendedForBilling]))
      && t.workers[w] == Suspending(
             worker.now, worker.snapshot, worker.k + 1, worker.suspended + {tenant}, ToFind)
    ensures PartOfRun(start, t, w, now, graceDays)
  {
    EntryFacts(start, s, worker, middle, now, graceDays);
    hide *;
    EntrySuspended(middle, s.db, worker.snapshot, worker.k, worker.suspended);
    StillPart(start, s, t, w, worker, middle, now, graceDays);
  }

  lemma SuspensionGoesOn(start: State, s: State, x: Statement, now: int, graceDays: nat)
    requires Enabled(s, x) && (x.FindAcademy? || x.ClearSchedule? || x.Suspend?)
    requires PartOfRun(start, s, x.w, now, graceDays)
    ensures PartOfRun(start, Exec(s, x), x.w, now, graceDays)
  {
    var t, worker, middle := Exec(s, x), s.workers[x.w], AfterWarnings(start.db, now, graceDays);
    CurrentEntry(start, s, x, now, graceDays);
    LoopStatement(s, x);
    assert worker.Suspending?;
    hide Enabled, Exec, PartOfRun, AtEntry, AfterWarnings, ClearedFor;
    match worker.point
    case ToFind =>
      if CurrentTenant(s, worker) in worker.suspended {
        SkippedIsPart(start, s, t, x.w, worker, middle, now, graceDays);
      } else {
        FoundIsPart(start, s, t, x.w, worker, middle, now, graceDays);
      }
    case ToClear(_) => ClearedIsPart(start, s, t, x.w, worker, middle, now, graceDays);
    case ToSuspend => SuspendedIsPart(start, s, t, x.w, worker, middle, now, graceDays);
  }

  lemma {:induction false} RunSoFar(
      states: seq<State>, xs: seq<Statement>, n: nat, w: int, now: int, graceDays: nat)
    requires Alone(states, xs, w, now, graceDays) && 0 < n < |xs|
    ensures PartOfRun(states[0], states[n], w, now, graceDays)
  {
    hide Exec, Enabled, PartOfRun;
    var s, x := states[n - 1], xs[n - 1];
    assert states[n] == Exec(s, x) && Enabled(s, x);
    if n == 1 {
      StartsRun(s, x, graceDays);
    } else {
      RunSoFar(states, xs, n - 1, w, now, graceDays);
      assert GoesOn(x, w, graceDays);
      if x.ClaimNext? {
        ClaimGoesOn(states[0], s, x, now, graceDays);
      } else if x.SelectDue? {
        SelectDueGoesOn(states[0], s, x, now, graceDays);
      } else {
        SuspensionGoesOn(states[0], s, x, now, graceDays);
      }
    }
  }

  lemma AllEntriesDone(start: State, s: State, w: int, now: int, graceDays: nat)
    requires PartOfRun(start, s, w, now, graceDays) && Enabled(s, Finish(w))
    ensures var worker, middle := s.workers[w], AfterWarnings(start.db, now, graceDays);
      && Lists(worker.snapshot, set id | id in middle.invoices && DueForSuspension(middle.invoices[id], now))
      && var seen := TenantsOf(middle.invoices, worker.snapshot);
         && s.db == Db(ClearedFor(middle.invoices, seen), SuspendedIn(middle.academies, seen))
         && s.suspendedAt.Keys == start.suspendedAt.Keys + ActiveAmong(middle.academies, seen)
  {
    assert s.workers[w].snapshot[..|s.workers[w].snapshot|] == s.workers[w].snapshot;
    hide TenantsOf, ClearedFor, SuspendedIn, ActiveAmong, AfterWarnings, DueForSuspension, Lists;
  }

  lemma SuspendedByActive(db: Db, now: int, graceDays: nat)
    ensures var middle := AfterWarnings(db, now, graceDays);
      (set t | t in db.academies && SuspendedByRun(db, now, graceDays, t))
      == set t | t in middle.academies && middle.academies[t].status == Active && IsDueTenant(middle, now, t)
  {
    hide IsDueTenant;
  }

  lemma EndOfRun(start: State, s: State, w: int, now: int, graceDays: nat)
    requires PartOfRun(start, s, w, now, graceDays) && Enabled(s, Finish(w))
    ensures s.db == AfterRun(start.db, now, graceDays)
    ensures s.suspendedAt.Keys == start.suspendedAt.Keys
      + set t | t in start.db.academies && SuspendedByRun(start.db, now, graceDays, t)
  {
    AllEntriesDone(start, s, w, now, graceDays);
    SuspendedByActive(start.db, now, graceDays);
    hide PartOfRun, Enabled, TenantsOf, ClearedFor, SuspendedIn, ActiveAmong, AfterWarnings, SuspendedByRun;
    hide AfterSuspensions, DueForSuspension, IsDueTenant, Lists;
    SeenAreDueTenants(AfterWarnings(start.db, now, graceDays), now, s.workers[w].snapshot);
  }

  /** Whatever the order in which the SELECTs list their rows: once an instance that runs alone has ended,
      the tables are those after one run, and exactly the academies a run suspends have been suspended. */
  lemma AloneIsOneRun(states: seq<State>, xs: seq<Statement>, w: int, now: int, graceDays: nat)
    requires Alone(states, xs, w, now, graceDays)
    ensures var start, end := states[0], states[|xs|];
      && end.db == AfterRun(start.db, now, graceDays) && w in end.workers && end.workers[w] == Idle
      && end.suspendedAt.Keys == start.suspendedAt.Keys
           + set t | t in start.db.academies && SuspendedByRun(start.db, now, graceDays, t)
  {
    var last := |xs| - 1;
    RunSoFar(states, xs, last, w, now, graceDays);
    assert Enabled(states[last], xs[last]) && states[last + 1] == Exec(states[last], xs[last]);
    EndOfRun(states[0], states[last], w, now, graceDays);
    hide AfterRun, PartOfRun, SuspendedByRun;
  }

  // An instance among others

  function Phase(worker: Worker): nat {
    match worker
    case Idle => 0
    case Warning(_, _, _) => 2
    case Suspending(_, _, _, _, _) => 1
  }

  /** Statements left in the phase, at most. */
  function Left(worker: Worker): int {
    match worker
    case Idle => 0
    case Warning(_, snapshot, k) => |snapshot| - k
    case Suspending(_, snapshot, k, _, point) =>
      3 * (|snapshot| - k) - match point case ToFind => 0 case ToClear(_) => 1 case ToSuspend => 2
  }

  /** Each statement of an instance at work takes it to a later phase or leaves less to do in this one, and
      nobody else's statement touches it. So no instance works forever. */
  lemma StatementsComeNearer(s: State, x: Statement, w: int)
    requires Enabled(s, x) && Busy(s, w)
    ensures w in Exec(s, x).workers
    ensures var before, after := s.workers[w], Exec(s, x).workers[w];
      if OfWorker(x, w) then
        Phase(after) < Phase(before) || (Phase(after) == Phase(before) && 0 <= Left(after) < Left(before))
      else after == before
  {
  }

  ghost predicate CanGoOn(s: State, worker: Worker) {
    match worker
    case Idle => true
    case Warning(_, snapshot, k) => k <= |snapshot|
    case Suspending(_, snapshot, k, _, point) =>
      && k <= |snapshot| && (k == |snapshot| ==> point == ToFind)
      && forall j :: 0 <= j < |snapshot| ==> snapshot[j] in s.db.invoices
  }

  lemma CanGoOnStep(s: State, x: Statement, w: int)
    requires Enabled(s, x) && w in Exec(s, x).workers && (w in s.workers ==> CanGoOn(s, s.workers[w]))
    ensures CanGoOn(Exec(s, x), Exec(s, x).workers[w])
  {
    RowsStay(s, x);
  }

  lemma RowsStay(s: State, x: Statement)
    requires Enabled(s, x)
    ensures s.db.invoices.Keys <= Exec(s, x).db.invoices.Keys
  {
    forall id | id in s.db.invoices ensures id in Exec(s, x).db.invoices { RowStep(s, x, id); }
  }

  lemma {:induction false} CanGoOnHolds(states: seq<State>, xs: seq<Statement>, n: nat, w: int)
    requires IsRun(states, xs) && n < |states| && w in states[n].workers
    ensures CanGoOn(states[n], states[n].workers[w])
  {
    hide CanGoOn, Exec, Enabled;
    if n > 0 {
      assert states[n] == Exec(states[n - 1], xs[n - 1]);
      if w in states[n - 1].workers {
        CanGoOnHolds(states, xs, n - 1, w);
      }
      CanGoOnStep(states[n - 1], xs[n - 1], w);
    }
  }

  lemma {:induction false} ListExists(all: set<int>) returns (ids: seq<int>)
    ensures Lists(ids, all)
  {
    ids := [];
    if all != {} {
      NonEmpty(all);
      var next :| next in all;
      var rest := ListExists(all - {next});
      ids := [next] + rest;
    }
  }

  /** Under every interleaving an instance at work can execute its next statement: it is never stuck. */
  lemma NeverStuck(states: seq<State>, xs: seq<Statement>, n: nat, w: int, graceDays: nat)
    returns (x: Statement)
    requires IsRun(states, xs) && n < |states| && Busy(states[n], w)
    ensures Enabled(states[n], x) && (GoesOn(x, w, graceDays) || x == Finish(w))
  {
    CanGoOnHolds(states, xs, n, w);
    hide IsRun;
    var s := states[n];
    match s.workers[w]
    case Warning(now, snapshot, k) =>
      if k < |snapshot| {
        x := ClaimNext(w, graceDays);
      } else {
        var ids := ListExists(set id | id in s.db.invoices && DueForSuspension(s.db.invoices[id], now));
        x := SelectDue(w, ids);
      }
    case Suspending(now, snapshot, k, suspended, point) =>
      if k == |snapshot| {
        x := Finish(w);
      } else {
        x := match point case ToFind => FindAcademy(w) case ToClear(_) => ClearSchedule(w) case ToSuspend => Suspend(w);
      }
  }

  // The lock

  ghost predicate AtMostOneBusy(s: State) { forall v, w :: Busy(s, v) && Busy(s, w) ==> v == w }

  lemma BusyStep(s: State, x: Statement, v: int)
    requires Enabled(s, x)
    ensures Busy(Exec(s, x), v) ==> Busy(s, v) || (x.SelectPastDue? && x.w == v)
    ensures x.SelectPastDue? ==> !Busy(s, x.w) && Busy(Exec(s, x), x.w) && (Busy(s, v) ==> Busy(Exec(s, x), v))
  {
  }

  lemma LockStep(s: State, x: Statement)
    requires Enabled(s, x) && AtMostOneBusy(s)
    ensures AtMostOneBusy(Exec(s, x)) <==> Locked(s, x)
  {
    forall v { BusyStep(s, x, v); }
    hide Exec, Enabled, Busy;
    if AtMostOneBusy(Exec(s, x)) && x.SelectPastDue? {
      forall v ensures !Busy(s, v) {
        assert Busy(Exec(s, x), x.w);
      }
    }
  }

  /** A run keeps the lock if and only if at no time two instances are at work. */
  lemma LockIffOneAtATime(states: seq<State>, xs: seq<Statement>)
    requires IsRun(states, xs)
    ensures (forall n :: 0 <= n < |xs| ==> Enabled(states[n], xs[n]) && Locked(states[n], xs[n]))
      <==> (forall n :: 0 <= n < |states| ==> AtMostOneBusy(states[n]))
  {
    hide AtMostOneBusy, Locked, Exec, Enabled;
    if forall n :: 0 <= n < |xs| ==> Enabled(states[n], xs[n]) && Locked(states[n], xs[n]) {
      forall n | 0 <= n < |states| ensures AtMostOneBusy(states[n]) { OneAtATime(states, xs, n); }
    }
    if forall n :: 0 <= n < |states| ==> AtMostOneBusy(states[n]) {
      forall n | 0 <= n < |xs| ensures Enabled(states[n], xs[n]) && Locked(states[n], xs[n]) {
        assert AtMostOneBusy(states[n]) && AtMostOneBusy(states[n + 1]);
        LockStep(states[n], xs[n]);
      }
    }
  }

  lemma {:induction false} OneAtATime(states: seq<State>, xs: seq<Statement>, n: nat)
    requires IsRun(states, xs) && n < |states|
    requires forall m :: 0 <= m < |xs| ==> Enabled(states[m], xs[m]) && Locked(states[m], xs[m])
    ensures AtMostOneBusy(states[n])
  {
    hide AtMostOneBusy, Locked, Exec, Enabled;
    if n > 0 {
      OneAtATime(states, xs, n - 1);
      LockStep(states[n - 1], xs[n - 1]);
    } else {
      NobodyBusy(states[0]);
    }
  }

  lemma NobodyBusy(s: State)
    requires Initial(s)
    ensures AtMostOneBusy(s)
  {
  }

  // The statements of the other calls

  /** What the other calls execute does to the tables what those calls do. */
  lemma StatementsOfCalls(s: State, x: Statement, graceDays: nat)
    requires Enabled(s, x)
    ensures x.Insert? ==>
      Exec(s, x).db == DunningRuns.Step(s.db, DunningRuns.NewInvoice(x.id, x.tenantId, x.dueDay), graceDays)
    ensures x.WriteStatus? && x.status != Cancelled && s.db.invoices[x.id].status != Cancelled ==>
      Exec(s, x).db == DunningRuns.Step(s.db, DunningRuns.Payment(x.id, x.status == Paid), graceDays)
    ensures x.WriteStatus? && x.status == Cancelled && s.db.invoices[x.id].status != Paid ==>
      Exec(s, x).db == DunningRuns.Step(s.db, DunningRuns.Cancellation(x.id), graceDays)
    ensures (x.WriteAcademy? && x.t in s.db.academies && s.db.academies[x.t].status == Suspended
             && x.academy == Academy(Active, None)) ==>
      Exec(s, x).db == DunningRuns.Step(s.db, DunningRuns.Reactivation(x.t, true), graceDays)
    ensures (x.WriteAcademy? && x.t in s.db.academies && s.db.academies[x.t].status != Suspended
             && x.academy.reason == (if x.academy.status == Suspended then Some(Manual) else None)) ==>
      Exec(s, x).db == DunningRuns.Step(s.db, DunningRuns.StatusChange(x.t, x.academy.status), graceDays)
  {
    hide AfterRun, AfterProcessOverdue;
  }

  /** The mark of the manual action leaves the row as that action does. */
  lemma MarkOfManualAction(s: State, x: Statement, now: int)
    requires Enabled(s, x) && x.ManualMark? && PendingPastDue(s.db.invoices[x.id], DayOf(now))
    ensures Exec(s, x).db
      == s.db.(invoices := s.db.invoices[x.id := AfterProcessOverdue(s.db, now).invoices[x.id]])
  {
  }
}
