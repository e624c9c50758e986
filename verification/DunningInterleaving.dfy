/** The job statement by statement. Each SQL statement is one atomic step; any number of job instances,
    payments, cancellations and administrative updates may be interleaved between two of them. A statement
    that fails ends its run at that point and gives the lock back. */
module DunningInterleaving {
  import opened Results
  import opened Dunning
  import DunningRules

  /** What the suspension loop does next with its current invoice. */
  datatype Point = ToFind | ToClear(active: bool) | ToSuspend

  /** Where one job instance stands; `k` counts the finished entries of its snapshot. */
  datatype Worker =
    | Idle
    | Warning(now: int, snapshot: seq<int>, k: nat)
    | Suspending(now: int, snapshot: seq<int>, k: nat, suspended: set<int>, point: Point)

  /** A successful claim: the row as the UPDATE found it. */
  datatype Claim = Claim(id: int, row: Invoice, warnedAt: int, step: nat)

  datatype State = State(
    db: Db, workers: map<int, Worker>, clock: nat,
    claims: seq<Claim>, written: set<int>, suspendedAt: map<int, nat>)

  datatype Statement =
    | SelectPastDue(w: int, now: int, ids: seq<int>)
    | ClaimNext(w: int, graceDays: nat)
    | SelectDue(w: int, ids: seq<int>)
    | FindAcademy(w: int)
    | ClearSchedule(w: int)
    | Suspend(w: int)
    | Finish(w: int)
    | Abort(w: int)
    | WriteStatus(id: int, status: InvoiceStatus)
    | ManualMark(id: int)
    | Insert(id: int, tenantId: int, dueDay: int)
    | WriteAcademy(t: int, academy: Academy)

  predicate Busy(s: State, w: int) { w in s.workers && s.workers[w] != Idle }

  /** The suspension loop has an invoice to work on; rows are never deleted. */
  predicate HasCurrent(s: State, worker: Worker) {
    worker.Suspending? && worker.k < |worker.snapshot| && worker.snapshot[worker.k] in s.db.invoices
  }

  function CurrentTenant(s: State, worker: Worker): int
    requires HasCurrent(s, worker)
  {
    s.db.invoices[worker.snapshot[worker.k]].tenantId
  }

  predicate AtPoint(s: State, w: int, point: Point) {
    w in s.workers && HasCurrent(s, s.workers[w]) && s.workers[w].point == point
  }

  /** The suspension loop goes on to its next entry. */
  function NextEntry(worker: Worker): Worker
    requires worker.Suspending?
  {
    Suspending(worker.now, worker.snapshot, worker.k + 1, worker.suspended, ToFind)
  }

  ghost predicate Enabled(s: State, x: Statement) {
    match x
    case SelectPastDue(w, now, ids) =>
      && !Busy(s, w)
      && Lists(ids, set id | id in s.db.invoices && PendingPastDue(s.db.invoices[id], DayOf(now)))
    case ClaimNext(w, _) => w in s.workers && s.workers[w].Warning? && s.workers[w].k < |s.workers[w].snapshot|
    case SelectDue(w, ids) =>
      && w in s.workers && s.workers[w].Warning? && s.workers[w].k == |s.workers[w].snapshot|
      && Lists(ids, set id | id in s.db.invoices && DueForSuspension(s.db.invoices[id], s.workers[w].now))
    case FindAcademy(w) => AtPoint(s, w, ToFind)
    case ClearSchedule(w) => AtPoint(s, w, ToClear(true)) || AtPoint(s, w, ToClear(false))
    case Suspend(w) => AtPoint(s, w, ToSuspend)
    case Finish(w) =>
      w in s.workers && s.workers[w].Suspending? && s.workers[w].k == |s.workers[w].snapshot|
    case Abort(w) => Busy(s, w)
    case WriteStatus(id, status) => id in s.db.invoices && status != Overdue
    case ManualMark(id) => id in s.db.invoices
    case Insert(id, _, _) => id !in s.db.invoices
    case WriteAcademy(_, _) => true
  }

  ghost function Exec(s: State, x: Statement): State
    requires Enabled(s, x)
  {
    var t := s.(clock := s.clock + 1);
    match x
    case SelectPastDue(w, now, ids) => t.(workers := s.workers[w := Warning(now, ids, 0)])
    case ClaimNext(w, graceDays) =>
      var worker := s.workers[w];
      var id := worker.snapshot[worker.k];
      var next := t.(workers := s.workers[w := Warning(worker.now, worker.snapshot, worker.k + 1)]);
      if id in s.db.invoices && Claimable(s.db.invoices[id]) then
        var row := s.db.invoices[id];
        next.(
          db := s.db.(invoices := s.db.invoices[id := WithWarning(row, worker.now, worker.now + graceDays * DAY_MS)]),
          claims := s.claims + [Claim(id, row, worker.now, s.clock)])
      else next
    case SelectDue(w, ids) => t.(workers := s.workers[w := Suspending(s.workers[w].now, ids, 0, {}, ToFind)])
    case FindAcademy(w) =>
      var worker, tenant := s.workers[w], CurrentTenant(s, s.workers[w]);
      if tenant in worker.suspended then t.(workers := s.workers[w := NextEntry(worker)])
      else
        var active := tenant in s.db.academies && s.db.academies[tenant].status == Active;
        t.(workers := s.workers[w := worker.(point := ToClear(active))])
    case ClearSchedule(w) =>
      var worker := s.workers[w];
      var cleared := t.(db := s.db.(invoices := ClearedFor(s.db.invoices, {CurrentTenant(s, s.workers[w])})));
      if worker.point.active then cleared.(workers := s.workers[w := worker.(point := ToSuspend)])
      else cleared.(workers := s.workers[w := NextEntry(worker)])
    case Suspend(w) =>
      var worker, tenant := s.workers[w], CurrentTenant(s, s.workers[w]);
      t.(
        db := if tenant in s.db.academies
          then s.db.(academies := s.db.academies[tenant := SuspendedForBilling]) else s.db,
        workers := s.workers[w :=
          Suspending(worker.now, worker.snapshot, worker.k + 1, worker.suspended + {tenant}, ToFind)],
        suspendedAt := s.suspendedAt[tenant := s.clock])
    case Finish(w) => t.(workers := s.workers[w := Idle])
    case Abort(w) => t.(workers := s.workers[w := Idle])
    case WriteStatus(id, status) =>
      t.(db := s.db.(invoices := s.db.invoices[id := s.db.invoices[id].(status := status)]),
         written := s.written + {id})
    case ManualMark(id) =>
      if s.db.invoices[id].status == Pending then
        t.(db := s.db.(invoices := s.db.invoices[id := s.db.invoices[id].(status := Overdue)]),
           written := s.written + {id})
      else t
    case Insert(id, tenantId, dueDay) =>
      t.(db := s.db.(invoices := s.db.invoices[id := Invoice(tenantId, dueDay, Pending, None, None)]))
    case WriteAcademy(a, academy) => t.(db := s.db.(academies := s.db.academies[a := academy]))
  }

  /** No invoice has been warned yet and no instance is running. */
  ghost predicate Initial(s: State) {
    && (forall id :: id in s.db.invoices ==>
          s.db.invoices[id].warnedAt == None && s.db.invoices[id].scheduledFor == None)
    && s.workers == map[] && s.claims == [] && s.written == {} && s.suspendedAt == map[]
  }

  ghost predicate IsRun(states: seq<State>, xs: seq<Statement>) {
    && |states| == |xs| + 1 && Initial(states[0])
    && forall n :: 0 <= n < |xs| ==> Enabled(states[n], xs[n]) && states[n + 1] == Exec(states[n], xs[n])
  }

  // Each invoice is warned at most once, and only while it is pending

  ghost predicate Claimed(s: State, id: int) {
    exists j :: 0 <= j < |s.claims| && s.claims[j].id == id
  }

  ghost predicate ClaimsInv(s: State) {
    && (forall j, k :: 0 <= j < k < |s.claims| ==> s.claims[j].id != s.claims[k].id)
    && (forall j :: 0 <= j < |s.claims| ==> ClaimStands(s, s.claims[j]))
    && (forall id :: id in s.db.invoices && s.db.invoices[id].warnedAt.Some? ==> Claimed(s, id))
    && (forall id :: id in s.db.invoices && s.db.invoices[id].scheduledFor.Some? ==> s.db.invoices[id].warnedAt.Some?)
  }

  /** The row was pending and unwarned when it was claimed, and still shows that very warning. */
  ghost predicate ClaimStands(s: State, c: Claim) {
    && Claimable(c.row) && c.step < s.clock
    && c.id in s.db.invoices
    && s.db.invoices[c.id].warnedAt == Some(c.warnedAt) && s.db.invoices[c.id].tenantId == c.row.tenantId
  }

  /** The invoice a claim statement tries to warn. */
  ghost function Target(s: State, x: Statement): int
    requires Enabled(s, x) && x.ClaimNext?
  {
    s.workers[x.w].snapshot[s.workers[x.w].k]
  }

  ghost predicate ClaimSucceeds(s: State, x: Statement)
    requires Enabled(s, x)
  {
    x.ClaimNext? && Target(s, x) in s.db.invoices && Claimable(s.db.invoices[Target(s, x)])
  }

  ghost function ClaimOf(s: State, x: Statement): Claim
    requires Enabled(s, x) && ClaimSucceeds(s, x)
  {
    Claim(Target(s, x), s.db.invoices[Target(s, x)], s.workers[x.w].now, s.clock)
  }

  /** One statement, one invoice row. */
  lemma RowStep(s: State, x: Statement, id: int)
    requires Enabled(s, x)
    ensures id in s.db.invoices ==> id in Exec(s, x).db.invoices
    ensures id in Exec(s, x).db.invoices && id !in s.db.invoices ==>
      Exec(s, x).db.invoices[id].warnedAt == None && Exec(s, x).db.invoices[id].scheduledFor == None
    ensures id in s.db.invoices ==>
      var before, after := s.db.invoices[id], Exec(s, x).db.invoices[id];
      after.tenantId == before.tenantId
      && if ClaimSucceeds(s, x) && id == Target(s, x) then
           after.status == Overdue && after.warnedAt == Some(ClaimOf(s, x).warnedAt)
         else
           && after.warnedAt == before.warnedAt
           && (after.scheduledFor == None || after.scheduledFor == before.scheduledFor)
           && (after.status == before.status || id in Exec(s, x).written)
           && (HasSchedule(after) ==> HasSchedule(before) || (FlipsStaleSchedule(s, x) && x.id == id))
  {
  }

  /** The manual action hits a pending invoice that still carries an old schedule. */
  ghost predicate FlipsStaleSchedule(s: State, x: Statement)
    requires Enabled(s, x)
  {
    x.ManualMark? && s.db.invoices[x.id].status == Pending && s.db.invoices[x.id].scheduledFor.Some?
  }

  /** One statement, the list of claims. */
  lemma ClaimListStep(s: State, x: Statement)
    requires Enabled(s, x)
    ensures Exec(s, x).clock == s.clock + 1
    ensures Exec(s, x).claims == s.claims + if ClaimSucceeds(s, x) then [ClaimOf(s, x)] else []
  {
  }

  lemma ClaimsStep(s: State, x: Statement)
    requires ClaimsInv(s) && Enabled(s, x)
    ensures ClaimsInv(Exec(s, x))
  {
    hide Exec, Enabled, Target;
    var t := Exec(s, x);
    ClaimListStep(s, x);
    assert s.claims <= t.claims;
    forall id ensures id in s.db.invoices ==> id in t.db.invoices {
      RowStep(s, x, id);
    }
    forall j | 0 <= j < |s.claims| ensures ClaimStands(t, s.claims[j]) {
      assert ClaimStands(s, s.claims[j]);
      RowStep(s, x, s.claims[j].id);
    }
    forall id | id in t.db.invoices
      ensures t.db.invoices[id].warnedAt.Some? ==> Claimed(t, id)
      ensures t.db.invoices[id].scheduledFor.Some? ==> t.db.invoices[id].warnedAt.Some?
    {
      RowStep(s, x, id);
      if id in s.db.invoices && s.db.invoices[id].warnedAt.Some? {
        var j :| 0 <= j < |s.claims| && s.claims[j].id == id;
        assert t.claims[j].id == id;
      } else if t.db.invoices[id].warnedAt.Some? {
        assert t.claims[|s.claims|].id == id;
      }
    }
    if ClaimSucceeds(s, x) {
      var id := Target(s, x);
      RowStep(s, x, id);
      assert ClaimStands(t, t.claims[|s.claims|]);
      forall j | 0 <= j < |s.claims| ensures s.claims[j].id != id {
        assert ClaimStands(s, s.claims[j]);
      }
    }
  }

  /** Under every interleaving: no invoice is claimed twice, every claim found its row pending and
      unwarned, and the warning written by a claim is never changed afterwards. */
  lemma {:induction false} WarnedAtMostOnce(states: seq<State>, xs: seq<Statement>, n: nat)
    requires IsRun(states, xs) && n < |states|
    ensures ClaimsInv(states[n])
  {
    hide ClaimsInv, Exec, Enabled;
    if n > 0 {
      WarnedAtMostOnce(states, xs, n - 1);
      ClaimsStep(states[n - 1], xs[n - 1]);
    } else {
      InitialClaims(states[0]);
    }
  }

  lemma InitialClaims(s: State)
    requires Initial(s)
    ensures ClaimsInv(s)
  {
  }

  // The instants behind the selections and the claims

  /** What the two SELECTs return, in instants. */
  lemma SelectedByInstant(s: State, x: Statement, id: int)
    requires Enabled(s, x)
    ensures x.SelectPastDue? ==> (id in x.ids <==>
      && id in s.db.invoices && s.db.invoices[id].status == Pending
      && x.now >= DunningRules.PastDueFrom(s.db.invoices[id]))
    ensures x.SelectDue? ==> x.w in s.workers && s.workers[x.w].Warning? && (id in x.ids <==>
      && id in s.db.invoices && s.db.invoices[id].status == Overdue && s.db.invoices[id].scheduledFor.Some?
      && s.workers[x.w].now >= s.db.invoices[id].scheduledFor.value)
  {
    if x.SelectPastDue? && id in s.db.invoices { DunningRules.DayIsOver(s.db.invoices[id], x.now); }
  }

  /** What a successful claim writes. */
  lemma ClaimWrites(s: State, x: Statement)
    requires Enabled(s, x) && ClaimSucceeds(s, x)
    ensures var id := Target(s, x);
      var row, now := s.db.invoices[id], s.workers[x.w].now;
      && row.status == Pending && row.warnedAt == None
      && Exec(s, x).db == s.db.(invoices := s.db.invoices[id :=
           Invoice(row.tenantId, row.dueDay, Overdue, Some(now), Some(now + x.graceDays * 86_400_000))])
  {
  }

  /** Everything a warning loop has selected is past due for it, and so was everything that was claimed. */
  ghost predicate DueInv(s: State) {
    && (forall w :: w in s.workers && s.workers[w].Warning? ==> SelectedPastDue(s, s.workers[w]))
    && (forall j :: 0 <= j < |s.claims| ==> s.claims[j].warnedAt >= DunningRules.PastDueFrom(s.claims[j].row))
  }

  ghost predicate SelectedPastDue(s: State, worker: Worker)
    requires worker.Warning?
  {
    forall j :: 0 <= j < |worker.snapshot| ==>
      && worker.snapshot[j] in s.db.invoices
      && worker.now >= DunningRules.PastDueFrom(s.db.invoices[worker.snapshot[j]])
  }

  lemma DueDayStays(s: State, x: Statement, id: int)
    requires Enabled(s, x) && id in s.db.invoices
    ensures id in Exec(s, x).db.invoices && Exec(s, x).db.invoices[id].dueDay == s.db.invoices[id].dueDay
  {
  }

  lemma DueStep(s: State, x: Statement)
    requires Enabled(s, x) && DueInv(s)
    ensures DueInv(Exec(s, x))
  {
    var t := Exec(s, x);
    ClaimListStep(s, x);
    if ClaimSucceeds(s, x) {
      assert SelectedPastDue(s, s.workers[x.w]);
      assert ClaimOf(s, x).warnedAt >= DunningRules.PastDueFrom(ClaimOf(s, x).row);
    }
    hide Exec, Enabled, Target, ClaimSucceeds;
    forall w | w in t.workers && t.workers[w].Warning? ensures SelectedPastDue(t, t.workers[w]) {
      WorkerStep(s, x, w);
      var snapshot := t.workers[w].snapshot;
      forall j | 0 <= j < |snapshot|
        ensures snapshot[j] in t.db.invoices
        ensures t.workers[w].now >= DunningRules.PastDueFrom(t.db.invoices[snapshot[j]])
      {
        if x.SelectPastDue? && x.w == w {
          SelectedByInstant(s, x, snapshot[j]);
        } else {
          assert SelectedPastDue(s, s.workers[w]);
        }
        DueDayStays(s, x, snapshot[j]);
      }
    }
  }

  /** Under every interleaving no invoice is warned on or before its due day. */
  lemma {:induction false} NoClaimBeforeDue(states: seq<State>, xs: seq<Statement>, n: nat, j: nat)
    requires IsRun(states, xs) && n < |states| && j < |states[n].claims|
    ensures states[n].claims[j].warnedAt >= DunningRules.PastDueFrom(states[n].claims[j].row)
  {
    DueHolds(states, xs, n);
  }

  lemma {:induction false} DueHolds(states: seq<State>, xs: seq<Statement>, n: nat)
    requires IsRun(states, xs) && n < |states|
    ensures DueInv(states[n])
  {
    hide DueInv, Exec, Enabled;
    if n > 0 {
      DueHolds(states, xs, n - 1);
      DueStep(states[n - 1], xs[n - 1]);
    } else {
      NothingClaimed(states[0]);
    }
  }

  lemma NothingClaimed(s: State)
    requires Initial(s)
    ensures DueInv(s)
  {
  }

  // No warning is lost

  ghost predicate Settled(s: State, id: int) {
    Claimed(s, id) || id in s.written
  }

  ghost predicate SettledOrPending(s: State, id: int) {
    id in s.db.invoices && (Settled(s, id) || s.db.invoices[id].status == Pending)
  }

  /** What a warning loop has passed is settled, what lies ahead is settled or still pending. */
  ghost predicate SnapshotInv(s: State, worker: Worker)
    requires worker.Warning?
  {
    && worker.k <= |worker.snapshot|
    && (forall j :: 0 <= j < worker.k ==> Settled(s, worker.snapshot[j]))
    && (forall j :: worker.k <= j < |worker.snapshot| ==> SettledOrPending(s, worker.snapshot[j]))
  }

  ghost predicate SnapshotsInv(s: State) {
    forall w :: w in s.workers && s.workers[w].Warning? ==> SnapshotInv(s, s.workers[w])
  }

  lemma SettledStep(s: State, x: Statement, id: int)
    requires Enabled(s, x) && Settled(s, id)
    ensures Settled(Exec(s, x), id)
  {
    ClaimListStep(s, x);
    assert s.written <= Exec(s, x).written;
    if Claimed(s, id) {
      var j :| 0 <= j < |s.claims| && s.claims[j].id == id;
      assert Exec(s, x).claims[j].id == id;
    }
  }

  /** A row that was pending is still pending afterwards, or it has been settled. */
  lemma PendingStep(s: State, x: Statement, id: int)
    requires Enabled(s, x) && id in s.db.invoices && s.db.invoices[id].status == Pending
    ensures id in Exec(s, x).db.invoices
    ensures Exec(s, x).db.invoices[id].status == Pending || Settled(Exec(s, x), id)
  {
    hide Exec, Enabled, Target;
    RowStep(s, x, id);
    ClaimListStep(s, x);
    if ClaimSucceeds(s, x) && id == Target(s, x) {
      assert Exec(s, x).claims[|s.claims|].id == id;
    }
  }

  /** The workers a statement leaves alone keep their place; a claim moves its worker by one. */
  lemma WorkerStep(s: State, x: Statement, w: int)
    requires Enabled(s, x) && w in Exec(s, x).workers && Exec(s, x).workers[w].Warning?
    ensures var after := Exec(s, x).workers[w];
      || (w in s.workers && after == s.workers[w])
      || (x.ClaimNext? && x.w == w && w in s.workers && s.workers[w].Warning?
          && after == Warning(s.workers[w].now, s.workers[w].snapshot, s.workers[w].k + 1)
          && s.workers[w].k < |s.workers[w].snapshot|)
      || (x.SelectPastDue? && x.w == w && after == Warning(x.now, x.ids, 0)
          && Lists(x.ids, set id | id in s.db.invoices && PendingPastDue(s.db.invoices[id], DayOf(x.now)))
          && Exec(s, x).db == s.db)
  {
  }

  lemma SnapshotKept(s: State, x: Statement, worker: Worker)
    requires Enabled(s, x) && worker.Warning? && SnapshotInv(s, worker)
    ensures SnapshotInv(Exec(s, x), worker)
  {
    hide Exec, Enabled, Settled, Claimed;
    var t := Exec(s, x);
    forall j | 0 <= j < |worker.snapshot|
      ensures j < worker.k ==> Settled(t, worker.snapshot[j])
      ensures worker.k <= j ==> SettledOrPending(t, worker.snapshot[j])
    {
      var id := worker.snapshot[j];
      if worker.k <= j {
        assert SettledOrPending(s, id);
        RowStep(s, x, id);
      }
      if Settled(s, id) { SettledStep(s, x, id); } else { PendingStep(s, x, id); }
    }
  }

  /** The claim of a pending, unsettled row succeeds, so the entry a claim passes is settled. */
  lemma PassedEntryIsSettled(s: State, x: Statement)
    requires Enabled(s, x) && x.ClaimNext? && ClaimsInv(s) && SnapshotInv(s, s.workers[x.w])
    ensures Settled(Exec(s, x), Target(s, x))
  {
    hide Exec;
    var id := Target(s, x);
    if Settled(s, id) {
      SettledStep(s, x, id);
    } else {
      assert Claimable(s.db.invoices[id]);
      ClaimListStep(s, x);
      assert Exec(s, x).claims[|s.claims|].id == id;
    }
  }

  lemma SnapshotsStep(s: State, x: Statement)
    requires ClaimsInv(s) && SnapshotsInv(s) && Enabled(s, x)
    ensures SnapshotsInv(Exec(s, x))
  {
    hide Exec, Enabled, ClaimsInv, Settled;
    var t := Exec(s, x);
    forall w | w in t.workers && t.workers[w].Warning? ensures SnapshotInv(t, t.workers[w]) {
      WorkerStep(s, x, w);
      if w in s.workers && t.workers[w] == s.workers[w] {
        SnapshotKept(s, x, s.workers[w]);
      } else if x.ClaimNext? {
        SnapshotKept(s, x, s.workers[w]);
        PassedEntryIsSettled(s, x);
      }
    }
  }

  /** No warning is lost: once an instance has gone through its list, every invoice it had selected
      has been warned, by it or by another instance, unless somebody else changed its status. */
  lemma {:induction false} NoWarningIsLost(states: seq<State>, xs: seq<Statement>, n: nat)
    requires IsRun(states, xs) && n < |states|
    ensures SnapshotsInv(states[n])
  {
    hide SnapshotsInv, Exec, Enabled, ClaimsInv;
    if n > 0 {
      NoWarningIsLost(states, xs, n - 1);
      WarnedAtMostOnce(states, xs, n - 1);
      SnapshotsStep(states[n - 1], xs[n - 1]);
    } else {
      NobodyAtWork(states[0]);
    }
  }

  lemma NobodyAtWork(s: State)
    requires Initial(s)
    ensures SnapshotsInv(s)
  {
  }

  // One instance at a time: what the job's named lock adds

  /** Some claim of the invoice is newer than the tenant's last suspension by the job. */
  ghost predicate NewlyClaimed(s: State, id: int, tenant: int) {
    exists j :: 0 <= j < |s.claims| && s.claims[j].id == id
      && (tenant in s.suspendedAt ==> s.suspendedAt[tenant] < s.claims[j].step)
  }

  /** Live schedules stem from claims newer than the tenant's last suspension. */
  ghost predicate LiveSchedulesAreNew(s: State) {
    forall id :: id in s.db.invoices && HasSchedule(s.db.invoices[id]) ==>
      NewlyClaimed(s, id, s.db.invoices[id].tenantId)
  }

  /** An entry the suspension loop still has to work on. */
  ghost predicate EntryIsNew(s: State, worker: Worker, id: int)
    requires worker.Suspending?
  {
    id in s.db.invoices
    && (s.db.invoices[id].tenantId in worker.suspended || NewlyClaimed(s, id, s.db.invoices[id].tenantId))
  }

  ghost predicate LoopInv(s: State, worker: Worker)
    requires worker.Suspending?
  {
    && worker.k <= |worker.snapshot|
    && (forall j :: worker.k <= j < |worker.snapshot| ==> EntryIsNew(s, worker, worker.snapshot[j]))
    && (worker.point != ToFind ==> HasCurrent(s, worker) && CurrentTenant(s, worker) !in worker.suspended)
  }

  ghost predicate NoLiveSchedule(s: State, tenant: int) {
    forall id :: id in s.db.invoices && s.db.invoices[id].tenantId == tenant ==> !HasSchedule(s.db.invoices[id])
  }

  ghost predicate LockInv(s: State) {
    && LiveSchedulesAreNew(s)
    && (forall t :: t in s.suspendedAt ==> s.suspendedAt[t] < s.clock)
    && (forall v, w :: Busy(s, v) && Busy(s, w) ==> v == w)
    && (forall w :: w in s.workers && s.workers[w].Suspending? ==> LoopInv(s, s.workers[w]))
  }

  /** The lock lets no instance start while another one is at work. */
  ghost predicate Locked(s: State, x: Statement)
    requires Enabled(s, x)
  {
    x.SelectPastDue? ==> forall v :: !Busy(s, v)
  }

  /** An invoice that the manual action revives has been claimed since its tenant's last suspension. */
  ghost predicate RevivesOnlyNew(s: State, x: Statement)
    requires Enabled(s, x)
  {
    FlipsStaleSchedule(s, x) ==> NewlyClaimed(s, x.id, s.db.invoices[x.id].tenantId)
  }

  /** A tenant is suspended with all its schedules used up: nothing has been revived since they were. */
  ghost predicate SuspendsClean(s: State, x: Statement)
    requires Enabled(s, x)
  {
    x.Suspend? ==> NoLiveSchedule(s, CurrentTenant(s, s.workers[x.w]))
  }

  ghost predicate Orderly(s: State, x: Statement)
    requires Enabled(s, x)
  {
    Locked(s, x) && RevivesOnlyNew(s, x) && SuspendsClean(s, x)
  }

  /** Which suspension a statement records. */
  lemma SuspensionStep(s: State, x: Statement)
    requires Enabled(s, x)
    ensures Exec(s, x).suspendedAt
         == if x.Suspend? then s.suspendedAt[CurrentTenant(s, s.workers[x.w]) := s.clock] else s.suspendedAt
    ensures x.Suspend? ==> Exec(s, x).claims == s.claims && Exec(s, x).db.invoices == s.db.invoices
  {
  }

  /** Being newly claimed survives every statement but a suspension of that very tenant. */
  lemma NewlyClaimedStep(s: State, x: Statement, id: int, tenant: int)
    requires Enabled(s, x) && NewlyClaimed(s, id, tenant)
    requires x.Suspend? ==> AtPoint(s, x.w, ToSuspend) && CurrentTenant(s, s.workers[x.w]) != tenant
    ensures NewlyClaimed(Exec(s, x), id, tenant)
  {
    hide Exec, Enabled;
    ClaimListStep(s, x);
    SuspensionStep(s, x);
    var j :| 0 <= j < |s.claims| && s.claims[j].id == id
      && (tenant in s.suspendedAt ==> s.suspendedAt[tenant] < s.claims[j].step);
    assert Exec(s, x).claims[j] == s.claims[j];
  }

  lemma LiveSchedulesStep(s: State, x: Statement)
    requires LockInv(s) && Enabled(s, x) && Orderly(s, x)
    ensures LiveSchedulesAreNew(Exec(s, x))
  {
    hide Exec, Enabled, Target;
    var t := Exec(s, x);
    ClaimListStep(s, x);
    SuspensionStep(s, x);
    forall id | id in t.db.invoices && HasSchedule(t.db.invoices[id])
      ensures NewlyClaimed(t, id, t.db.invoices[id].tenantId)
    {
      RowStep(s, x, id);
      var tenant := t.db.invoices[id].tenantId;
      if x.Suspend? { SuspendingNow(s, x); }
      if ClaimSucceeds(s, x) && id == Target(s, x) {
        assert t.claims[|s.claims|].id == id;
      } else if x.Suspend? && CurrentTenant(s, s.workers[x.w]) == tenant {
        assert false;  // it is suspended with no live schedule
      } else {
        NewlyClaimedStep(s, x, id, tenant);
      }
    }
  }

  lemma SuspendingNow(s: State, x: Statement)
    requires Enabled(s, x) && x.Suspend?
    ensures AtPoint(s, x.w, ToSuspend) && Busy(s, x.w)
  {
  }

  /** What a statement does to a worker that is in its suspension loop afterwards. */
  lemma LoopStep(s: State, x: Statement, w: int)
    requires Enabled(s, x) && w in Exec(s, x).workers && Exec(s, x).workers[w].Suspending?
    ensures var after := Exec(s, x).workers[w];
      || (w in s.workers && after == s.workers[w] && !(x.Suspend? && x.w == w))
      || (x.SelectDue? && x.w == w && Busy(s, w) && Exec(s, x).db == s.db
          && after == Suspending(s.workers[w].now, x.ids, 0, {}, ToFind)
          && Lists(x.ids, set id | id in s.db.invoices && DueForSuspension(s.db.invoices[id], s.workers[w].now)))
      || (x.FindAcademy? && x.w == w && AtPoint(s, w, ToFind) && Exec(s, x).db == s.db && FoundNext(s, w, after))
      || (x.ClearSchedule? && x.w == w && w in s.workers && s.workers[w].Suspending? && s.workers[w].point.ToClear?
          && AtPoint(s, w, s.workers[w].point) && ClearedNext(s, w, after)
          && Exec(s, x).db.invoices == ClearedFor(s.db.invoices, {CurrentTenant(s, s.workers[w])}))
      || (x.Suspend? && x.w == w && AtPoint(s, w, ToSuspend)
          && after == Suspending(s.workers[w].now, s.workers[w].snapshot, s.workers[w].k + 1,
                                 s.workers[w].suspended + {CurrentTenant(s, s.workers[w])}, ToFind))
  {
  }

  ghost predicate FoundNext(s: State, w: int, after: Worker)
    requires AtPoint(s, w, ToFind)
  {
    var before := s.workers[w];
    if CurrentTenant(s, s.workers[w]) in before.suspended then
      after == Suspending(before.now, before.snapshot, before.k + 1, before.suspended, ToFind)
    else
      after.Suspending? && after.point.ToClear?
      && after == Suspending(before.now, before.snapshot, before.k, before.suspended, after.point)
  }

  ghost predicate ClearedNext(s: State, w: int, after: Worker)
    requires w in s.workers && s.workers[w].Suspending? && AtPoint(s, w, s.workers[w].point)
  {
    var before := s.workers[w];
    || after == Suspending(before.now, before.snapshot, before.k + 1, before.suspended, ToFind)
    || after == Suspending(before.now, before.snapshot, before.k, before.suspended, ToSuspend)
  }

  lemma BusyStep(s: State, x: Statement, v: int)
    requires Enabled(s, x) && Busy(Exec(s, x), v)
    ensures Busy(s, v) || (x.SelectPastDue? && x.w == v)
  {
  }

  lemma ClaimingNow(s: State, x: Statement)
    requires Enabled(s, x) && x.ClaimNext?
    ensures x.w in s.workers && s.workers[x.w].Warning? && Busy(s, x.w)
  {
  }

  /** An entry stays new while other statements run; a suspension of its tenant moves it to the
      tenants that this run will skip. */
  lemma EntryStep(s: State, x: Statement, before: Worker, after: Worker, id: int)
    requires Enabled(s, x) && before.Suspending? && after.Suspending? && EntryIsNew(s, before, id)
    requires before.suspended <= after.suspended
    requires x.Suspend? ==> AtPoint(s, x.w, ToSuspend) && CurrentTenant(s, s.workers[x.w]) in after.suspended
    ensures EntryIsNew(Exec(s, x), after, id)
  {
    hide Exec, Enabled;
    RowStep(s, x, id);
    var tenant := s.db.invoices[id].tenantId;
    if tenant !in after.suspended {
      NewlyClaimedStep(s, x, id, tenant);
    }
  }

  lemma EntriesStep(s: State, x: Statement, before: Worker, after: Worker)
    requires Enabled(s, x) && before.Suspending? && after.Suspending? && LoopInv(s, before)
    requires after.snapshot == before.snapshot && before.k <= after.k && before.suspended <= after.suspended
    requires x.Suspend? ==> AtPoint(s, x.w, ToSuspend) && CurrentTenant(s, s.workers[x.w]) in after.suspended
    ensures forall j :: after.k <= j < |after.snapshot| ==> EntryIsNew(Exec(s, x), after, after.snapshot[j])
  {
    hide Exec, Enabled, EntryIsNew, HasCurrent;
    forall j | after.k <= j < |after.snapshot| ensures EntryIsNew(Exec(s, x), after, after.snapshot[j]) {
      EntryStep(s, x, before, after, before.snapshot[j]);
    }
  }

  /** A loop that another statement leaves alone keeps its invariant. */
  lemma LoopKept(s: State, x: Statement, w: int)
    requires LockInv(s) && Enabled(s, x) && Orderly(s, x)
    requires w in s.workers && s.workers[w].Suspending? && !(x.Suspend? && x.w == w)
    ensures LoopInv(Exec(s, x), s.workers[w])
  {
    hide Exec, Enabled, Target, EntryIsNew;
    var worker := s.workers[w];
    assert Busy(s, w) && LoopInv(s, worker);
    if x.Suspend? { SuspendingNow(s, x); }
    if x.ClaimNext? { ClaimingNow(s, x); }
    assert !x.Suspend? && !x.ClaimNext?;  // only one worker is busy
    EntriesStep(s, x, worker, worker);
    if worker.point != ToFind {
      RowStep(s, x, worker.snapshot[worker.k]);
    }
  }

  lemma LoopStarts(s: State, x: Statement)
    requires LockInv(s) && Enabled(s, x) && x.SelectDue?
    requires Lists(x.ids, set id | id in s.db.invoices && DueForSuspension(s.db.invoices[id], s.workers[x.w].now))
    requires Exec(s, x).db == s.db
    ensures LoopInv(Exec(s, x), Suspending(s.workers[x.w].now, x.ids, 0, {}, ToFind))
  {
    hide Exec, NewlyClaimed;
    ClaimListStep(s, x);
    SuspensionStep(s, x);
    forall j | 0 <= j < |x.ids|
      ensures x.ids[j] in s.db.invoices && NewlyClaimed(Exec(s, x), x.ids[j], s.db.invoices[x.ids[j]].tenantId)
    {
      var id := x.ids[j];
      assert id in s.db.invoices && HasSchedule(s.db.invoices[id]);
      NewlyClaimedStep(s, x, id, s.db.invoices[id].tenantId);
    }
  }

  lemma LoopMoves(s: State, x: Statement, w: int)
    requires LockInv(s) && Enabled(s, x) && Orderly(s, x)
    requires w in Exec(s, x).workers && Exec(s, x).workers[w].Suspending?
    ensures LoopInv(Exec(s, x), Exec(s, x).workers[w])
  {
    hide Exec, Enabled, EntryIsNew, LiveSchedulesAreNew, ClearedFor;
    var t := Exec(s, x);
    var after := t.workers[w];
    LoopStep(s, x, w);
    if w in s.workers && after == s.workers[w] && !(x.Suspend? && x.w == w) {
      LoopKept(s, x, w);
    } else if x.SelectDue? {
      LoopStarts(s, x);
    } else if x.FindAcademy? {
      EntriesStep(s, x, s.workers[w], after);
    } else if x.ClearSchedule? {
      EntriesStep(s, x, s.workers[w], after);
    } else {
      EntriesStep(s, x, s.workers[w], after);
    }
  }

  lemma LockStep(s: State, x: Statement)
    requires LockInv(s) && Enabled(s, x) && Orderly(s, x)
    ensures LockInv(Exec(s, x))
  {
    hide Exec, Enabled, LiveSchedulesAreNew, LoopInv;
    var t := Exec(s, x);
    ClaimListStep(s, x);
    SuspensionStep(s, x);
    LiveSchedulesStep(s, x);
    forall w | w in t.workers && t.workers[w].Suspending? ensures LoopInv(t, t.workers[w]) {
      LoopMoves(s, x, w);
    }
    forall v, w | Busy(t, v) && Busy(t, w) ensures v == w {
      BusyStep(s, x, v);
      BusyStep(s, x, w);
    }
  }

  /** With the job's named lock, whatever payments and administrative updates are interleaved between
      its statements, it suspends an academy only after claiming one of the academy's invoices since
      its previous suspension of that academy: unless an old schedule has been revived before. */
  lemma SuspensionNeedsNewClaim(states: seq<State>, xs: seq<Statement>, n: nat)
    requires IsRun(states, xs) && n < |xs| && xs[n].Suspend?
    requires forall m :: 0 <= m < n ==> Orderly(states[m], xs[m])
    ensures AtPoint(states[n], xs[n].w, ToSuspend)
    ensures var worker := states[n].workers[xs[n].w];
      NewlyClaimed(states[n], worker.snapshot[worker.k], CurrentTenant(states[n], worker))
  {
    LockHolds(states, xs, n);
    var s, worker := states[n], states[n].workers[xs[n].w];
    assert LoopInv(s, worker);
    assert EntryIsNew(s, worker, worker.snapshot[worker.k]);
  }

  lemma {:induction false} LockHolds(states: seq<State>, xs: seq<Statement>, n: nat)
    requires IsRun(states, xs) && n < |states|
    requires forall m :: 0 <= m < n ==> Orderly(states[m], xs[m])
    ensures LockInv(states[n])
  {
    hide LockInv, Exec, Enabled, Orderly;
    if n > 0 {
      LockHolds(states, xs, n - 1);
      LockStep(states[n - 1], xs[n - 1]);
    } else {
      NothingScheduled(states[0]);
    }
  }

  /** With the lock, live schedules always stem from claims newer than the tenant's last suspension if and
      only if the manual action revives no older ones and no tenant is suspended over a revived schedule. */
  lemma SchedulesStayNewIff(states: seq<State>, xs: seq<Statement>, n: nat)
    requires IsRun(states, xs) && n < |states|
    requires forall m :: 0 <= m < n ==> Locked(states[m], xs[m])
    ensures (forall k :: 0 <= k <= n ==> LiveSchedulesAreNew(states[k])) <==>
      (forall m :: 0 <= m < n ==> RevivesOnlyNew(states[m], xs[m]) && SuspendsClean(states[m], xs[m]))
  {
    hide Exec, Enabled, RevivesOnlyNew, SuspendsClean, LiveSchedulesAreNew, Locked;
    if forall m :: 0 <= m < n ==> RevivesOnlyNew(states[m], xs[m]) && SuspendsClean(states[m], xs[m]) {
      forall k | 0 <= k <= n ensures LiveSchedulesAreNew(states[k]) {
        LockHolds(states, xs, k);
      }
    }
    if forall k :: 0 <= k <= n ==> LiveSchedulesAreNew(states[k]) {
      forall m | 0 <= m < n ensures RevivesOnlyNew(states[m], xs[m]) && SuspendsClean(states[m], xs[m]) {
        WarnedAtMostOnce(states, xs, m);
        assert LiveSchedulesAreNew(states[m + 1]);
        NewAfterStep(states[m], xs[m]);
      }
    }
  }

  /** A statement that leaves only new schedules live has revived no old one and suspended over none. */
  lemma NewAfterStep(s: State, x: Statement)
    requires Enabled(s, x) && ClaimsInv(s) && LiveSchedulesAreNew(Exec(s, x))
    ensures RevivesOnlyNew(s, x) && SuspendsClean(s, x)
  {
    var t := Exec(s, x);
    ClaimListStep(s, x);
    SuspensionStep(s, x);
    if FlipsStaleSchedule(s, x) {
      FlipMakesLive(s, x);
      hide Exec, ClaimsInv;
      assert NewlyClaimed(t, x.id, t.db.invoices[x.id].tenantId);
    }
    if x.Suspend? {
      SuspendingNow(s, x);
      var tenant := CurrentTenant(s, s.workers[x.w]);
      forall j | 0 <= j < |s.claims| ensures s.claims[j].step < s.clock {
        assert ClaimStands(s, s.claims[j]);
      }
      hide Exec, Enabled, ClaimsInv;
      forall id | id in s.db.invoices && s.db.invoices[id].tenantId == tenant ensures !HasSchedule(s.db.invoices[id]) {
        NoClaimSoLate(t, id, tenant);
      }
    }
  }

  lemma NoClaimSoLate(s: State, id: int, tenant: int)
    requires tenant in s.suspendedAt && forall j :: 0 <= j < |s.claims| ==> s.claims[j].step < s.suspendedAt[tenant]
    ensures !NewlyClaimed(s, id, tenant)
  {
  }

  lemma FlipMakesLive(s: State, x: Statement)
    requires Enabled(s, x) && FlipsStaleSchedule(s, x)
    ensures var t := Exec(s, x);
      && x.id in t.db.invoices && HasSchedule(t.db.invoices[x.id])
      && t.db.invoices[x.id].tenantId == s.db.invoices[x.id].tenantId
      && t.claims == s.claims && t.suspendedAt == s.suspendedAt
  {
  }

  /** Every tenant about to be suspended has its schedules used up. */
  ghost predicate UsedUpInv(s: State) {
    forall w :: AtPoint(s, w, ToSuspend) ==>
      NoLiveSchedule(s, CurrentTenant(s, s.workers[w]))
  }

  lemma ClearedTenant(invoices: map<int, Invoice>, tenant: int)
    ensures var cleared := ClearedFor(invoices, {tenant});
      forall id :: id in cleared && cleared[id].tenantId == tenant ==> !HasSchedule(cleared[id])
  {
  }

  lemma UsedUpKept(s: State, x: Statement, w: int)
    requires LockInv(s) && UsedUpInv(s) && Enabled(s, x) && Locked(s, x) && !FlipsStaleSchedule(s, x)
    requires w in s.workers && s.workers[w].Suspending? && s.workers[w].point == ToSuspend && !(x.Suspend? && x.w == w)
    requires HasCurrent(Exec(s, x), s.workers[w])
    ensures NoLiveSchedule(Exec(s, x), CurrentTenant(Exec(s, x), s.workers[w]))
  {
    var worker, t := s.workers[w], Exec(s, x);
    hide Exec, Enabled, Target, EntryIsNew, LiveSchedulesAreNew;
    assert Busy(s, w) && LoopInv(s, worker);
    if x.ClaimNext? { ClaimingNow(s, x); }
    RowStep(s, x, worker.snapshot[worker.k]);
    forall id | id in t.db.invoices && t.db.invoices[id].tenantId == CurrentTenant(s, worker)
      ensures !HasSchedule(t.db.invoices[id])
    {
      RowStep(s, x, id);
    }
  }

  lemma UsedUpStep(s: State, x: Statement)
    requires LockInv(s) && UsedUpInv(s) && Enabled(s, x) && Locked(s, x) && !FlipsStaleSchedule(s, x)
    ensures UsedUpInv(Exec(s, x))
  {
    hide Exec, Enabled, EntryIsNew, LiveSchedulesAreNew, ClearedFor, LoopInv, LockInv, FlipsStaleSchedule;
    hide Locked, NoLiveSchedule;
    var t := Exec(s, x);
    forall w | AtPoint(t, w, ToSuspend)
      ensures NoLiveSchedule(t, CurrentTenant(t, t.workers[w]))
    {
      LoopStep(s, x, w);
      if w in s.workers && t.workers[w] == s.workers[w] && !(x.Suspend? && x.w == w) {
        UsedUpKept(s, x, w);
      } else {
        ClearedNow(s, x, w);
      }
    }
  }

  lemma ClearedNow(s: State, x: Statement, w: int)
    requires Enabled(s, x) && x.ClearSchedule? && x.w == w && w in s.workers && HasCurrent(s, s.workers[w])
    requires w in Exec(s, x).workers && Exec(s, x).workers[w].Suspending? && Exec(s, x).workers[w].point == ToSuspend
    requires HasCurrent(Exec(s, x), Exec(s, x).workers[w])
    ensures NoLiveSchedule(Exec(s, x), CurrentTenant(Exec(s, x), Exec(s, x).workers[w]))
  {
    ClearedTenant(s.db.invoices, CurrentTenant(s, s.workers[w]));
  }

  /** With the lock and as long as the manual action meets no pending invoice that carries a schedule, every
      statement is orderly. */
  lemma {:induction false} NothingRevived(states: seq<State>, xs: seq<Statement>, n: nat)
    requires IsRun(states, xs) && n < |states|
    requires forall m :: 0 <= m < |xs| ==> Locked(states[m], xs[m]) && !FlipsStaleSchedule(states[m], xs[m])
    ensures LockInv(states[n]) && UsedUpInv(states[n])
    ensures n < |xs| ==> Orderly(states[n], xs[n])
  {
    if n > 0 {
      NothingRevived(states, xs, n - 1);
      hide LockInv, UsedUpInv, Exec, Enabled, Orderly, FlipsStaleSchedule, Locked;
      LockStep(states[n - 1], xs[n - 1]);
      UsedUpStep(states[n - 1], xs[n - 1]);
    } else {
      NothingScheduled(states[0]);
    }
    hide LockInv, Exec, FlipsStaleSchedule, Locked;
  }

  lemma NothingScheduled(s: State)
    requires Initial(s)
    ensures LockInv(s)
  {
  }

  // Which of the debts behind a suspension are still unpaid when it comes

  predicate IsOverdue(s: State, id: int) { id in s.db.invoices && s.db.invoices[id].status == Overdue }

  /** A payment, its withdrawal or a cancellation. */
  predicate WritesStatus(x: Statement, id: int) { x.WriteStatus? && x.id == id }

  ghost predicate MakesOverdue(s: State, x: Statement, id: int)
    requires Enabled(s, x)
  {
    || (x.ManualMark? && x.id == id && s.db.invoices[id].status == Pending)
    || (ClaimSucceeds(s, x) && Target(s, x) == id)
  }

  lemma StatusStep(s: State, x: Statement, id: int)
    requires Enabled(s, x)
    ensures IsOverdue(Exec(s, x), id) <==> MakesOverdue(s, x, id) || (IsOverdue(s, id) && !WritesStatus(x, id))
  {
  }

  /** From m on the invoice was overdue and nobody wrote its status, or it became overdue later and nobody
      wrote its status after that. */
  ghost predicate OverdueSince(states: seq<State>, xs: seq<Statement>, m: nat, n: nat, id: int)
    requires IsRun(states, xs) && m <= n < |states|
  {
    || (IsOverdue(states[m], id) && Unwritten(xs, m, n, id))
    || exists k :: m <= k < n && MakesOverdue(states[k], xs[k], id) && Unwritten(xs, k + 1, n, id)
  }

  predicate Unwritten(xs: seq<Statement>, m: nat, n: nat, id: int)
    requires n <= |xs|
  {
    forall j :: m <= j < n ==> !WritesStatus(xs[j], id)
  }

  lemma {:induction false} OverdueIffSince(states: seq<State>, xs: seq<Statement>, m: nat, n: nat, id: int)
    requires IsRun(states, xs) && m <= n < |states|
    ensures IsOverdue(states[n], id) <==> OverdueSince(states, xs, m, n, id)
    decreases n
  {
    hide IsOverdue, Exec, Enabled, MakesOverdue, WritesStatus;
    if m < n {
      OverdueIffSince(states, xs, m, n - 1, id);
      StatusStep(states[n - 1], xs[n - 1], id);
      OneMoreStatement(states, xs, m, n, id);
    }
  }

  lemma OneMoreStatement(states: seq<State>, xs: seq<Statement>, m: nat, n: nat, id: int)
    requires IsRun(states, xs) && m < n < |states|
    ensures OverdueSince(states, xs, m, n, id) <==>
      MakesOverdue(states[n - 1], xs[n - 1], id)
      || (OverdueSince(states, xs, m, n - 1, id) && !WritesStatus(xs[n - 1], id))
  {
    hide IsOverdue, Exec, Enabled, MakesOverdue, WritesStatus;
    if k :| m <= k < n && MakesOverdue(states[k], xs[k], id) && Unwritten(xs, k + 1, n, id) {
      assert k < n - 1 ==> Unwritten(xs, k + 1, n - 1, id) && !WritesStatus(xs[n - 1], id);
    }
    if MakesOverdue(states[n - 1], xs[n - 1], id) {
      assert Unwritten(xs, n, n, id);
    }
    if OverdueSince(states, xs, m, n - 1, id) && !WritesStatus(xs[n - 1], id) {
      if k :| m <= k < n - 1 && MakesOverdue(states[k], xs[k], id) && Unwritten(xs, k + 1, n - 1, id) {
        assert Unwritten(xs, k + 1, n, id);
      }
    }
  }

  /** The statement that chose the work of a suspension loop. */
  ghost predicate SelectedAt(states: seq<State>, xs: seq<Statement>, m: nat, w: int, snapshot: seq<int>)
    requires IsRun(states, xs) && m < |xs|
  {
    && xs[m] == SelectDue(w, snapshot) && w in states[m].workers && states[m].workers[w].Warning?
    && forall j :: 0 <= j < |snapshot| ==>
         snapshot[j] in states[m].db.invoices
         && DueForSuspension(states[m].db.invoices[snapshot[j]], states[m].workers[w].now)
  }

  /** A loop of an instance that was idle at `from` has been selected since then. */
  lemma {:induction false} LoopWasSelected(states: seq<State>, xs: seq<Statement>, from: nat, n: nat, w: int)
    returns (m: nat)
    requires IsRun(states, xs) && from <= n < |states| && !Busy(states[from], w)
    requires w in states[n].workers && states[n].workers[w].Suspending?
    ensures from <= m < n && SelectedAt(states, xs, m, w, states[n].workers[w].snapshot)
    decreases n
  {
    assert |states| == |xs| + 1 && from < n;
    hide IsRun, Exec, Enabled, SelectedAt, Busy;
    RunStep(states, xs, n - 1);
    SnapshotStep(states[n - 1], xs[n - 1], w);
    if xs[n - 1] == SelectDue(w, states[n].workers[w].snapshot) {
      m := n - 1;
    } else {
      m := LoopWasSelected(states, xs, from, n - 1, w);
    }
  }

  /** A running loop has the snapshot it had before, or has just selected it. */
  lemma SnapshotStep(s: State, x: Statement, w: int)
    requires Enabled(s, x) && w in Exec(s, x).workers && Exec(s, x).workers[w].Suspending?
    ensures var snapshot := Exec(s, x).workers[w].snapshot;
      if x == SelectDue(w, snapshot) then
        && w in s.workers && s.workers[w].Warning?
        && forall j :: 0 <= j < |snapshot| ==>
             snapshot[j] in s.db.invoices && DueForSuspension(s.db.invoices[snapshot[j]], s.workers[w].now)
      else w in s.workers && s.workers[w].Suspending? && s.workers[w].snapshot == snapshot
  {
    LoopStep(s, x, w);
    hide Exec, DueForSuspension;
  }

  lemma NobodyStarted(states: seq<State>, xs: seq<Statement>)
    requires IsRun(states, xs)
    ensures states[0].workers == map[]
  {
  }

  lemma RunStep(states: seq<State>, xs: seq<Statement>, n: nat)
    requires IsRun(states, xs) && n < |xs|
    ensures Enabled(states[n], xs[n]) && states[n + 1] == Exec(states[n], xs[n])
  {
  }

  /** The loop never reads an invoice again. At the suspension the invoice it works on, which was overdue and
      due when it was selected, is still overdue if and only if nobody has written its status since, or it was
      made overdue again after that; and the academy still owes an overdue invoice if and only if this holds
      of one of its invoices. */
  lemma SuspendedWhileOwingIff(states: seq<State>, xs: seq<Statement>, n: nat) returns (m: nat)
    requires IsRun(states, xs) && n < |xs| && xs[n].Suspend?
    ensures AtPoint(states[n], xs[n].w, ToSuspend)
    ensures var worker := states[n].workers[xs[n].w];
      var id := worker.snapshot[worker.k];
      && m < n && SelectedAt(states, xs, m, xs[n].w, worker.snapshot) && IsOverdue(states[m], id)
      && (IsOverdue(states[n], id) <==>
            Unwritten(xs, m, n, id)
            || exists k :: m <= k < n && MakesOverdue(states[k], xs[k], id) && Unwritten(xs, k + 1, n, id))
      && (OwesOverdue(states[n].db, CurrentTenant(states[n], worker)) <==>
            exists other :: other in states[n].db.invoices
              && states[n].db.invoices[other].tenantId == CurrentTenant(states[n], worker)
              && OverdueSince(states, xs, m, n, other))
  {
    RunStep(states, xs, n);
    SuspendingNow(states[n], xs[n]);
    var worker := states[n].workers[xs[n].w];
    var id := worker.snapshot[worker.k];
    NobodyStarted(states, xs);
    m := LoopWasSelected(states, xs, 0, n, xs[n].w);
    hide IsRun, Enabled, Exec, MakesOverdue, Unwritten;
    OverdueIffSince(states, xs, m, n, id);
    forall other ensures IsOverdue(states[n], other) <==> OverdueSince(states, xs, m, n, other) {
      OverdueIffSince(states, xs, m, n, other);
    }
    hide OverdueSince;
    OwingIff(states[n], CurrentTenant(states[n], worker));
  }

  lemma OwingIff(s: State, tenant: int)
    ensures OwesOverdue(s.db, tenant) <==>
      exists other :: other in s.db.invoices && s.db.invoices[other].tenantId == tenant && IsOverdue(s, other)
  {
  }

  // A run that fails between using up the schedules and suspending

  /** A statement of the instance w. */
  predicate OfWorker(x: Statement, w: int) {
    && (x.SelectPastDue? || x.ClaimNext? || x.SelectDue? || x.FindAcademy? || x.ClearSchedule? || x.Suspend?
        || x.Finish? || x.Abort?)
    && x.w == w
  }

  /** The first statement of w after n. */
  predicate NextOf(xs: seq<Statement>, n: nat, j: nat, w: int)
    requires n < j < |xs|
  {
    OfWorker(xs[j], w) && forall i :: n < i < j ==> !OfWorker(xs[i], w)
  }

  lemma WorkerWaits(s: State, x: Statement, w: int)
    requires Enabled(s, x) && !OfWorker(x, w) && w in s.workers
    ensures w in Exec(s, x).workers && Exec(s, x).workers[w] == s.workers[w]
  {
  }

  lemma OnlySuspendOrAbort(s: State, x: Statement, w: int)
    requires Enabled(s, x) && OfWorker(x, w) && AtPoint(s, w, ToSuspend)
    ensures x == Suspend(w) || x == Abort(w)
  {
  }

  /** The statement n uses up the schedules of the tenant. */
  ghost predicate UsesUp(states: seq<State>, xs: seq<Statement>, n: nat, tenant: int)
    requires IsRun(states, xs) && n < |xs|
  {
    && xs[n].ClearSchedule? && xs[n].w in states[n].workers && HasCurrent(states[n], states[n].workers[xs[n].w])
    && CurrentTenant(states[n], states[n].workers[xs[n].w]) == tenant
  }

  lemma {:induction false} WaitsToSuspend(states: seq<State>, xs: seq<Statement>, n: nat, k: nat, tenant: int)
    requires IsRun(states, xs) && n < k < |states|
    requires UsesUp(states, xs, n, tenant) && states[n].workers[xs[n].w].point == ToClear(true)
    requires forall i :: n < i < k ==> !OfWorker(xs[i], xs[n].w)
    ensures AtPoint(states[k], xs[n].w, ToSuspend) && CurrentTenant(states[k], states[k].workers[xs[n].w]) == tenant
    decreases k
  {
    assert |states| == |xs| + 1;
    hide *;
    if k - 1 > n {
      WaitsToSuspend(states, xs, n, k - 1, tenant);
      RunStep(states, xs, k - 1);
      StillWaits(states[k - 1], xs[k - 1], xs[n].w);
    } else {
      JustCleared(states, xs, n, tenant);
    }
  }

  lemma JustCleared(states: seq<State>, xs: seq<Statement>, n: nat, tenant: int)
    requires IsRun(states, xs) && n < |xs|
    requires UsesUp(states, xs, n, tenant) && states[n].workers[xs[n].w].point == ToClear(true)
    ensures AtPoint(states[n + 1], xs[n].w, ToSuspend)
    ensures CurrentTenant(states[n + 1], states[n + 1].workers[xs[n].w]) == tenant
  {
    RunStep(states, xs, n);
    hide IsRun, Exec, Enabled;
    ClearsToSuspend(states[n], xs[n]);
  }

  lemma StillWaits(s: State, x: Statement, w: int)
    requires Enabled(s, x) && !OfWorker(x, w) && AtPoint(s, w, ToSuspend)
    ensures AtPoint(Exec(s, x), w, ToSuspend)
    ensures CurrentTenant(Exec(s, x), Exec(s, x).workers[w]) == CurrentTenant(s, s.workers[w])
  {
    WorkerWaits(s, x, w);
    RowStep(s, x, s.workers[w].snapshot[s.workers[w].k]);
    hide Exec, Enabled, OfWorker;
  }

  lemma ClearsToSuspend(s: State, x: Statement)
    requires Enabled(s, x) && x.ClearSchedule? && AtPoint(s, x.w, ToClear(true))
    ensures AtPoint(Exec(s, x), x.w, ToSuspend)
    ensures CurrentTenant(Exec(s, x), Exec(s, x).workers[x.w]) == CurrentTenant(s, s.workers[x.w])
  {
  }

  /** When a run has used up the schedules of an academy it found active, the academy is suspended for them if
      and only if the next statement of this run does not fail. */
  lemma UsedUpIsSuspendedIff(states: seq<State>, xs: seq<Statement>, n: nat, j: nat, tenant: int)
    requires IsRun(states, xs) && n < j < |xs|
    requires UsesUp(states, xs, n, tenant) && states[n].workers[xs[n].w].point == ToClear(true)
    requires NextOf(xs, n, j, xs[n].w)
    ensures xs[j] == Suspend(xs[n].w) <==> xs[j] != Abort(xs[n].w)
    ensures if xs[j] == Abort(xs[n].w) then states[j + 1].db == states[j].db else
      && states[j + 1].suspendedAt == states[j].suspendedAt[tenant := states[j].clock]
      && (tenant in states[j].db.academies ==> states[j + 1].db.academies[tenant] == SuspendedForBilling)
  {
    WaitsToSuspend(states, xs, n, j, tenant);
    RunStep(states, xs, j);
    OnlySuspendOrAbort(states[j], xs[j], xs[n].w);
  }

  /** Some statement strictly between n and k claimed the invoice. */
  ghost predicate ClaimedBetween(states: seq<State>, xs: seq<Statement>, n: nat, k: nat, id: int)
    requires IsRun(states, xs) && k <= |xs|
  {
    exists j :: n < j < k && ClaimSucceeds(states[j], xs[j]) && Target(states[j], xs[j]) == id
  }

  ghost predicate LiveOnlyByClaim(states: seq<State>, xs: seq<Statement>, n: nat, k: nat, tenant: int)
    requires IsRun(states, xs) && k <= |xs|
  {
    forall id :: IsLive(states[k], tenant, id) ==> ClaimedBetween(states, xs, n, k, id)
  }

  predicate IsLive(s: State, tenant: int, id: int) {
    id in s.db.invoices && s.db.invoices[id].tenantId == tenant && HasSchedule(s.db.invoices[id])
  }

  /** The manual action revives no schedule of the tenant whose invoice was not claimed since n. */
  ghost predicate RevivesOnlyClaimed(states: seq<State>, xs: seq<Statement>, n: nat, i: nat, tenant: int)
    requires IsRun(states, xs) && i < |xs|
  {
    FlipsStaleSchedule(states[i], xs[i]) && states[i].db.invoices[xs[i].id].tenantId == tenant ==>
      ClaimedBetween(states, xs, n, i, xs[i].id)
  }

  lemma MoreStatements(states: seq<State>, xs: seq<Statement>, n: nat, k: nat, id: int)
    requires IsRun(states, xs) && k < |xs|
    ensures ClaimedBetween(states, xs, n, k + 1, id) <==>
      ClaimedBetween(states, xs, n, k, id)
      || (n < k && ClaimSucceeds(states[k], xs[k]) && Target(states[k], xs[k]) == id)
  {
    hide Enabled, Exec, ClaimSucceeds, Target;
  }

  /** One statement later, and the revival in it. */
  lemma LiveOneMore(states: seq<State>, xs: seq<Statement>, n: nat, k: nat, tenant: int)
    requires IsRun(states, xs) && n < k < |xs|
    ensures LiveOnlyByClaim(states, xs, n, k, tenant) && RevivesOnlyClaimed(states, xs, n, k, tenant) ==>
      LiveOnlyByClaim(states, xs, n, k + 1, tenant)
    ensures LiveOnlyByClaim(states, xs, n, k + 1, tenant) ==> RevivesOnlyClaimed(states, xs, n, k, tenant)
  {
    RunStep(states, xs, k);
    var s, x := states[k], xs[k];
    hide IsRun, Exec, Enabled, ClaimedBetween, Target;
    if LiveOnlyByClaim(states, xs, n, k, tenant) && RevivesOnlyClaimed(states, xs, n, k, tenant) {
      var t := states[k + 1];
      forall id | IsLive(t, tenant, id) ensures ClaimedBetween(states, xs, n, k + 1, id) {
        RowStep(s, x, id);
        assert IsLive(s, tenant, id) ==> ClaimedBetween(states, xs, n, k, id);
        MoreStatements(states, xs, n, k, id);
      }
    }
    if LiveOnlyByClaim(states, xs, n, k + 1, tenant) && FlipsStaleSchedule(s, x) {
      FlipMakesLive(s, x);
      MoreStatements(states, xs, n, k, x.id);
      assert IsLive(states[k + 1], s.db.invoices[x.id].tenantId, x.id);
    }
  }

  /** After the schedules of a tenant have been used up, live ones come from later claims only, if and only if
      the manual action revives none that was not claimed since. No lock is needed for this. */
  lemma {:induction false} LiveOnlyByClaimIff(states: seq<State>, xs: seq<Statement>, n: nat, k: nat, tenant: int)
    requires IsRun(states, xs) && n < k <= |xs| && UsesUp(states, xs, n, tenant)
    ensures (forall j :: n < j <= k ==> LiveOnlyByClaim(states, xs, n, j, tenant)) <==>
      (forall i :: n < i < k ==> RevivesOnlyClaimed(states, xs, n, i, tenant))
    decreases k
  {
    hide IsRun, LiveOnlyByClaim, RevivesOnlyClaimed, UsesUp;
    if k == n + 1 {
      NothingLeftLive(states, xs, n, tenant);
    } else {
      LiveOnlyByClaimIff(states, xs, n, k - 1, tenant);
      LiveOneMore(states, xs, n, k - 1, tenant);
      assert (forall i :: n < i < k ==> RevivesOnlyClaimed(states, xs, n, i, tenant)) <==>
        (forall i :: n < i < k - 1 ==> RevivesOnlyClaimed(states, xs, n, i, tenant))
        && RevivesOnlyClaimed(states, xs, n, k - 1, tenant);
    }
  }

  lemma NothingLeftLive(states: seq<State>, xs: seq<Statement>, n: nat, tenant: int)
    requires IsRun(states, xs) && n < |xs| && UsesUp(states, xs, n, tenant)
    ensures LiveOnlyByClaim(states, xs, n, n + 1, tenant)
  {
    RunStep(states, xs, n);
    ClearedTenant(states[n].db.invoices, tenant);
  }

  /** With the lock at most one instance is at work. */
  lemma {:induction false} OneAtWork(states: seq<State>, xs: seq<Statement>, n: nat)
    requires IsRun(states, xs) && n < |states|
    requires forall i :: 0 <= i < n ==> Locked(states[i], xs[i])
    ensures forall v, w :: Busy(states[n], v) && Busy(states[n], w) ==> v == w
  {
    if n == 0 {
      NobodyStarted(states, xs);
    } else {
      OneAtWork(states, xs, n - 1);
      RunStep(states, xs, n - 1);
      hide IsRun, Exec, Enabled;
      forall v, w | Busy(states[n], v) && Busy(states[n], w) ensures v == w {
        BusyStep(states[n - 1], xs[n - 1], v);
        BusyStep(states[n - 1], xs[n - 1], w);
      }
    }
  }

  predicate Quiet(s: State) { forall v :: v in s.workers ==> s.workers[v] == Idle }

  lemma NobodyAfterAbort(states: seq<State>, xs: seq<Statement>, q: nat)
    requires IsRun(states, xs) && q < |xs| && xs[q].Abort?
    requires forall i :: 0 <= i < q ==> Locked(states[i], xs[i])
    ensures Quiet(states[q + 1])
  {
    OneAtWork(states, xs, q);
    RunStep(states, xs, q);
    hide IsRun;
    var t := states[q + 1];
    forall v | v in t.workers ensures t.workers[v] == Idle {
      assert Busy(states[q], v) ==> v == xs[q].w;
    }
  }

  lemma {:induction false} TenantStays(states: seq<State>, xs: seq<Statement>, p: nat, m: nat, id: int)
    requires IsRun(states, xs) && p <= m < |states| && id in states[p].db.invoices
    ensures id in states[m].db.invoices && states[m].db.invoices[id].tenantId == states[p].db.invoices[id].tenantId
    decreases m
  {
    assert |states| == |xs| + 1;
    hide *;
    if p < m {
      TenantStays(states, xs, p, m - 1, id);
      RunStep(states, xs, m - 1);
      RowStep(states[m - 1], xs[m - 1], id);
    }
  }

  /** A failed run is not made good: with the lock, once the schedules of a tenant have been used up by a run
      that failed, the tenant is suspended only for an invoice that was claimed after that; unless the manual
      action has revived one of its old schedules. */
  lemma FailedRunIsNotRepeated(states: seq<State>, xs: seq<Statement>, n: nat, q: nat, m: nat, tenant: int)
    returns (j: nat)
    requires IsRun(states, xs) && n < q < m < |xs|
    requires UsesUp(states, xs, n, tenant) && xs[q].Abort?
    requires xs[m].Suspend? && AtPoint(states[m], xs[m].w, ToSuspend)
    requires CurrentTenant(states[m], states[m].workers[xs[m].w]) == tenant
    requires forall i :: 0 <= i < q ==> Locked(states[i], xs[i])
    requires forall i :: n < i < m ==> RevivesOnlyClaimed(states, xs, n, i, tenant)
    ensures n < j < m && ClaimSucceeds(states[j], xs[j])
    ensures var worker := states[m].workers[xs[m].w]; Target(states[j], xs[j]) == worker.snapshot[worker.k]
  {
    var worker := states[m].workers[xs[m].w];
    var id := worker.snapshot[worker.k];
    NobodyAfterAbort(states, xs, q);
    var p := LoopWasSelected(states, xs, q + 1, m, xs[m].w);
    TenantStays(states, xs, p, m, id);
    assert IsLive(states[p], tenant, id);
    hide IsRun, Exec, Enabled, UsesUp, RevivesOnlyClaimed, Target, IsLive;
    LiveOnlyByClaimIff(states, xs, n, p, tenant);
    assert LiveOnlyByClaim(states, xs, n, p, tenant) && ClaimedBetween(states, xs, n, p, id);
    j :| n < j < p && ClaimSucceeds(states[j], xs[j]) && Target(states[j], xs[j]) == id;
  }

  /** The run fails after the schedule is used up; the next run, years later, finds nothing to do. */
  function FailedStatements(): seq<Statement> {
    [ SelectPastDue(1, DAY_MS, [1]), ClaimNext(1, 0), SelectDue(1, [1]), FindAcademy(1), ClearSchedule(1), Abort(1),
      SelectPastDue(1, 1000 * DAY_MS, []), SelectDue(1, []), Finish(1) ]
  }

  function FailedState(row: Invoice, worker: Worker, clock: nat): State {
    State(
      Db(map[1 := row], map[7 := Academy(Active, None)]), if clock == 0 then map[] else map[1 := worker], clock,
      if clock < 2 then [] else [Claim(1, UnwarnedRow(), DAY_MS, 1)], {}, map[])
  }

  function FailedAt(n: nat): State {
    if n == 0 then FailedState(UnwarnedRow(), Idle, 0)
    else if n == 1 then FailedState(UnwarnedRow(), Warning(DAY_MS, [1], 0), 1)
    else if n == 2 then FailedState(WarnedNow(), Warning(DAY_MS, [1], 1), 2)
    else if n == 3 then FailedState(WarnedNow(), Loop(0, {}, ToFind), 3)
    else if n == 4 then FailedState(WarnedNow(), Loop(0, {}, ToClear(true)), 4)
    else if n == 5 then FailedState(UsedUp(), Loop(0, {}, ToSuspend), 5)
    else if n == 6 then FailedState(UsedUp(), Idle, 6)
    else if n == 7 then FailedState(UsedUp(), Warning(1000 * DAY_MS, [], 0), 7)
    else if n == 8 then FailedState(UsedUp(), Suspending(1000 * DAY_MS, [], 0, {}, ToFind), 8)
    else FailedState(UsedUp(), Idle, 9)
  }

  lemma FailedWarns()
    ensures StepsTo(FailedAt(0), SelectPastDue(1, DAY_MS, [1]), FailedAt(1))
    ensures StepsTo(FailedAt(1), ClaimNext(1, 0), FailedAt(2))
  {
    var rows := map[1 := UnwarnedRow()];
    assert (set id | id in rows && PendingPastDue(rows[id], DayOf(DAY_MS))) == {1};
  }

  lemma FailedSelects()
    ensures StepsTo(FailedAt(2), SelectDue(1, [1]), FailedAt(3))
    ensures StepsTo(FailedAt(3), FindAcademy(1), FailedAt(4))
  {
    var rows := map[1 := WarnedNow()];
    assert (set id | id in rows && DueForSuspension(rows[id], DAY_MS)) == {1};
  }

  lemma FailedClears()
    ensures StepsTo(FailedAt(4), ClearSchedule(1), FailedAt(5))
  {
  }

  lemma FailedAborts()
    ensures StepsTo(FailedAt(5), Abort(1), FailedAt(6))
  {
  }

  lemma NextRunWarnsNobody()
    ensures StepsTo(FailedAt(6), SelectPastDue(1, 1000 * DAY_MS, []), FailedAt(7))
  {
    var rows := map[1 := UsedUp()];
    assert (set id | id in rows && PendingPastDue(rows[id], DayOf(1000 * DAY_MS))) == {};
  }

  lemma NextRunSuspendsNobody()
    ensures StepsTo(FailedAt(7), SelectDue(1, []), FailedAt(8))
    ensures StepsTo(FailedAt(8), Finish(1), FailedAt(9))
  {
    var rows := map[1 := UsedUp()];
    assert (set id | id in rows && DueForSuspension(rows[id], 1000 * DAY_MS)) == {};
  }

  lemma FailedInitial()
    ensures Initial(FailedAt(0))
  {
  }

  /** The academy stays active with an overdue invoice that was warned and has no schedule any more. */
  lemma FailureLosesSuspension()
    ensures var states, xs := seq(10, (n: nat) => FailedAt(n)), FailedStatements();
      && IsRun(states, xs) && xs[5] == Abort(1)
      && OwesOverdue(states[9].db, 7) && NoLiveSchedule(states[9], 7)
      && states[9].db.academies[7].status == Active && states[9].suspendedAt == map[]
  {
    FailedWarns();
    FailedSelects();
    FailedClears();
    FailedAborts();
    NextRunWarnsNobody();
    NextRunSuspendsNobody();
    FailedInitial();
    hide Exec, Enabled, Initial;
    var states, xs := seq(10, (n: nat) => FailedAt(n)), FailedStatements();
    forall n | 0 <= n < |xs| ensures Enabled(states[n], xs[n]) && states[n + 1] == Exec(states[n], xs[n]) {
      assert StepsTo(FailedAt(n), xs[n], FailedAt(n + 1));
    }
    assert states[9].db.invoices[1].status == Overdue;
  }

  // A payment that comes after the selection: the academy is suspended owing nothing

  function PaidRow(): Invoice { WarnedNow().(status := Paid) }

  function LateStatements(): seq<Statement> {
    [ SelectPastDue(1, DAY_MS, [1]), ClaimNext(1, 0), SelectDue(1, [1]), FindAcademy(1),
      WriteStatus(1, Paid), ClearSchedule(1), Suspend(1) ]
  }

  function LateState(row: Invoice, active: bool, worker: Worker, clock: nat): State {
    State(
      Db(map[1 := row], map[7 := if active then Academy(Active, None) else SuspendedForBilling]),
      if clock == 0 then map[] else map[1 := worker], clock,
      if clock < 2 then [] else [Claim(1, UnwarnedRow(), DAY_MS, 1)],
      if clock < 5 then {} else {1}, if clock < 7 then map[] else map[7 := 6])
  }

  function LateAt(n: nat): State {
    if n == 0 then LateState(UnwarnedRow(), true, Idle, 0)
    else if n == 1 then LateState(UnwarnedRow(), true, Warning(DAY_MS, [1], 0), 1)
    else if n == 2 then LateState(WarnedNow(), true, Warning(DAY_MS, [1], 1), 2)
    else if n == 3 then LateState(WarnedNow(), true, Loop(0, {}, ToFind), 3)
    else if n == 4 then LateState(WarnedNow(), true, Loop(0, {}, ToClear(true)), 4)
    else if n == 5 then LateState(PaidRow(), true, Loop(0, {}, ToClear(true)), 5)
    else if n == 6 then LateState(PaidRow(), true, Loop(0, {}, ToSuspend), 6)
    else LateState(PaidRow(), false, Loop(1, {7}, ToFind), 7)
  }

  lemma LateWarns()
    ensures StepsTo(LateAt(0), SelectPastDue(1, DAY_MS, [1]), LateAt(1))
    ensures StepsTo(LateAt(1), ClaimNext(1, 0), LateAt(2))
  {
    var rows := map[1 := UnwarnedRow()];
    assert (set id | id in rows && PendingPastDue(rows[id], DayOf(DAY_MS))) == {1};
  }

  lemma LateSelects()
    ensures StepsTo(LateAt(2), SelectDue(1, [1]), LateAt(3))
    ensures StepsTo(LateAt(3), FindAcademy(1), LateAt(4))
  {
    var rows := map[1 := WarnedNow()];
    assert (set id | id in rows && DueForSuspension(rows[id], DAY_MS)) == {1};
  }

  lemma LatePays()
    ensures StepsTo(LateAt(4), WriteStatus(1, Paid), LateAt(5))
  {
    var nothing: set<int> := {};
    assert nothing + {1} == {1};
  }

  lemma LateClears()
    ensures StepsTo(LateAt(5), ClearSchedule(1), LateAt(6))
  {
  }

  lemma LateSuspends()
    ensures StepsTo(LateAt(6), Suspend(1), LateAt(7))
  {
    var t := Exec(LateAt(6), Suspend(1));
    var nobody: set<int> := {};
    assert nobody + {7} == {7};
    assert t.db == LateAt(7).db;
    assert t.workers == LateAt(7).workers;
    assert t.suspendedAt == LateAt(7).suspendedAt;
  }

  /** The only invoice of the academy is paid while the loop is at work, and the academy is suspended all the
      same: it is active and owes nothing when the suspension is written. */
  lemma PaymentTooLate()
    ensures var states, xs := seq(8, (n: nat) => LateAt(n)), LateStatements();
      && IsRun(states, xs) && xs[6] == Suspend(1)
      && !OwesOverdue(states[6].db, 7) && states[6].db.academies[7].status == Active
      && states[7].db.academies[7] == SuspendedForBilling
  {
    LateWarns();
    LateSelects();
    LatePays();
    LateClears();
    LateSuspends();
    LateInitial();
    hide Exec, Enabled, Initial;
    var states, xs := seq(8, (n: nat) => LateAt(n)), LateStatements();
    forall n | 0 <= n < |xs| ensures Enabled(states[n], xs[n]) && states[n + 1] == Exec(states[n], xs[n]) {
      assert StepsTo(LateAt(n), xs[n], LateAt(n + 1));
    }
  }

  lemma LateInitial()
    ensures Initial(LateAt(0))
  {
  }

  // Why the lock is needed: two replicas, one invoice, one reactivation in between

  function ReplicaState(
      row: Invoice, active: bool, one: Worker, two: Worker, clock: nat, suspendedAt: map<int, nat>): State
  {
    State(
      Db(map[1 := row], map[7 := if active then Academy(Active, None) else SuspendedForBilling]),
      if clock == 0 then map[] else if clock < 3 then map[1 := one] else map[1 := one, 2 := two],
      clock,
      if clock < 2 then [] else [Claim(1, UnwarnedRow(), DAY_MS, 1)],
      {}, suspendedAt)
  }

  function UnwarnedRow(): Invoice { Invoice(7, 0, Pending, None, None) }

  function WarnedNow(): Invoice { WithWarning(UnwarnedRow(), DAY_MS, DAY_MS) }

  function UsedUp(): Invoice { Unscheduled(WarnedNow()) }

  function Loop(k: nat, suspended: set<int>, point: Point): Worker {
    Suspending(DAY_MS, [1], k, suspended, point)
  }

  /** Both replicas select the overdue invoice and see the academy active before either clears it. */
  function ReplicaStatements(): seq<Statement> {
    [ SelectPastDue(1, DAY_MS, [1]), ClaimNext(1, 0), SelectPastDue(2, DAY_MS, []),
      SelectDue(1, [1]), SelectDue(2, [1]), FindAcademy(1), FindAcademy(2),
      ClearSchedule(1), Suspend(1), WriteAcademy(7, Academy(Active, None)),
      ClearSchedule(2), Suspend(2) ]
  }

  function ReplicaAt(n: nat): State {
    if n == 0 then ReplicaState(UnwarnedRow(), true, Idle, Idle, 0, map[])
    else if n == 1 then ReplicaState(UnwarnedRow(), true, Warning(DAY_MS, [1], 0), Idle, 1, map[])
    else if n == 2 then ReplicaState(WarnedNow(), true, Warning(DAY_MS, [1], 1), Idle, 2, map[])
    else if n == 3 then ReplicaState(WarnedNow(), true, Warning(DAY_MS, [1], 1), Warning(DAY_MS, [], 0), 3, map[])
    else if n == 4 then ReplicaState(WarnedNow(), true, Loop(0, {}, ToFind), Warning(DAY_MS, [], 0), 4, map[])
    else if n == 5 then ReplicaState(WarnedNow(), true, Loop(0, {}, ToFind), Loop(0, {}, ToFind), 5, map[])
    else if n == 6 then ReplicaState(WarnedNow(), true, Loop(0, {}, ToClear(true)), Loop(0, {}, ToFind), 6, map[])
    else if n == 7 then
      ReplicaState(WarnedNow(), true, Loop(0, {}, ToClear(true)), Loop(0, {}, ToClear(true)), 7, map[])
    else if n == 8 then ReplicaState(UsedUp(), true, Loop(0, {}, ToSuspend), Loop(0, {}, ToClear(true)), 8, map[])
    else if n == 9 then ReplicaState(UsedUp(), false, Loop(1, {7}, ToFind), Loop(0, {}, ToClear(true)), 9, map[7 := 8])
    else if n == 10 then ReplicaState(UsedUp(), true, Loop(1, {7}, ToFind), Loop(0, {}, ToClear(true)), 10, map[7 := 8])
    else if n == 11 then ReplicaState(UsedUp(), true, Loop(1, {7}, ToFind), Loop(0, {}, ToSuspend), 11, map[7 := 8])
    else ReplicaState(UsedUp(), false, Loop(1, {7}, ToFind), Loop(1, {7}, ToFind), 12, map[7 := 11])
  }

  ghost predicate StepsTo(s: State, x: Statement, t: State) {
    Enabled(s, x) && t == Exec(s, x)
  }

  lemma ReplicasWarn()
    ensures StepsTo(ReplicaAt(0), SelectPastDue(1, DAY_MS, [1]), ReplicaAt(1))
    ensures StepsTo(ReplicaAt(1), ClaimNext(1, 0), ReplicaAt(2))
  {
    var rows := map[1 := UnwarnedRow()];
    assert (set id | id in rows && PendingPastDue(rows[id], DayOf(DAY_MS))) == {1};
  }

  lemma ReplicasSelect()
    ensures StepsTo(ReplicaAt(2), SelectPastDue(2, DAY_MS, []), ReplicaAt(3))
    ensures StepsTo(ReplicaAt(3), SelectDue(1, [1]), ReplicaAt(4))
  {
    var rows := map[1 := WarnedNow()];
    assert (set id | id in rows && PendingPastDue(rows[id], DayOf(DAY_MS))) == {};
    assert (set id | id in rows && DueForSuspension(rows[id], DAY_MS)) == {1};
  }

  lemma ReplicasFind()
    ensures StepsTo(ReplicaAt(4), SelectDue(2, [1]), ReplicaAt(5))
    ensures StepsTo(ReplicaAt(5), FindAcademy(1), ReplicaAt(6))
  {
    var rows := map[1 := WarnedNow()];
    assert (set id | id in rows && DueForSuspension(rows[id], DAY_MS)) == {1};
  }

  lemma SecondFinds()
    ensures StepsTo(ReplicaAt(6), FindAcademy(2), ReplicaAt(7))
  {
  }

  lemma FirstClears()
    ensures StepsTo(ReplicaAt(7), ClearSchedule(1), ReplicaAt(8))
  {
  }

  lemma AcademyReactivates()
    ensures StepsTo(ReplicaAt(9), WriteAcademy(7, Academy(Active, None)), ReplicaAt(10))
  {
  }

  lemma FirstSuspends()
    ensures StepsTo(ReplicaAt(8), Suspend(1), ReplicaAt(9))
  {
    var t := Exec(ReplicaAt(8), Suspend(1));
    var nobody: set<int> := {};
    assert nobody + {7} == {7};
    assert t.db == ReplicaAt(9).db;
    assert t.workers == ReplicaAt(9).workers;
    assert t.suspendedAt == ReplicaAt(9).suspendedAt;
  }

  lemma SecondClears()
    ensures StepsTo(ReplicaAt(10), ClearSchedule(2), ReplicaAt(11))
  {
  }

  lemma SecondSuspends()
    ensures StepsTo(ReplicaAt(11), Suspend(2), ReplicaAt(12))
  {
    var t := Exec(ReplicaAt(11), Suspend(2));
    var nobody: set<int> := {};
    assert nobody + {7} == {7};
    assert t.db == ReplicaAt(12).db;
    assert t.workers == ReplicaAt(12).workers;
    assert t.suspendedAt == ReplicaAt(12).suspendedAt;
  }

  /** Two replicas without the lock: the second suspension follows the reactivation with no new claim. */
  lemma ReplicasWithoutLockSuspendTwice()
    ensures var states, xs := seq(13, (n: nat) => ReplicaAt(n)), ReplicaStatements();
      && IsRun(states, xs)
      && xs[8] == Suspend(1) && xs[11] == Suspend(2)
      && AtPoint(states[11], 2, ToSuspend) && CurrentTenant(states[11], states[11].workers[2]) == 7
      && forall id :: !NewlyClaimed(states[11], id, 7)
  {
    ReplicasEnd();
    hide Exec, Enabled, ReplicaAt, ReplicaStatements, AtPoint, CurrentTenant, NewlyClaimed, Initial;
    var states, xs := seq(13, (n: nat) => ReplicaAt(n)), ReplicaStatements();
    forall n | 0 <= n < |xs| ensures Enabled(states[n], xs[n]) && states[n + 1] == Exec(states[n], xs[n]) {
      ReplicasStep(n);
    }
  }

  lemma ReplicasStep(n: nat)
    requires n < 12
    ensures StepsTo(ReplicaAt(n), ReplicaStatements()[n], ReplicaAt(n + 1))
  {
    hide Exec, Enabled, ReplicaAt;
    ReplicasWarn();
    ReplicasSelect();
    ReplicasFind();
    SecondFinds();
    FirstClears();
    FirstSuspends();
    AcademyReactivates();
    SecondClears();
    SecondSuspends();
  }

  lemma ReplicasEnd()
    ensures |ReplicaStatements()| == 12 && ReplicaStatements()[8] == Suspend(1) && ReplicaStatements()[11] == Suspend(2)
    ensures Initial(ReplicaAt(0))
    ensures AtPoint(ReplicaAt(11), 2, ToSuspend) && CurrentTenant(ReplicaAt(11), ReplicaAt(11).workers[2]) == 7
    ensures forall id :: !NewlyClaimed(ReplicaAt(11), id, 7)
  {
  }
}
