/** The tenant lifecycle: scheduling and executing deletion, locking, suspending, and the 30-day grace period. */
module TenantLifecycle {
  import opened Wrappers
  import opened BillingModel
  import Calendar

  datatype Tenant = Tenant(
    status: TenantStatus,
    deletionScheduledAt: Option<int>, deletionReason: Option<string>,
    lockedAt: Option<int>, lockUntil: Option<int>, lockReason: Option<string>)

  type Tenants = map<string, Tenant>

  datatype Refusal = InvalidPassword | NotFound | AlreadyScheduled
    | NotScheduled | GracePeriod | AlreadyLocked | NotLocked

  const GRACE_DAYS := 30

  /** The transitions. `password` is the verdict of the identity service; `clears` says whether fields assigned
      `undefined` are cleared in the store or keep their old values there. */
  datatype Step =
    | Create(id: string, status: TenantStatus)
    | ScheduleDeletion(id: string, password: bool, reason: Option<string>, now: int)
    | CancelDeletion(id: string, password: bool, clears: bool, now: int)
    | ExecuteDeletion(id: string, now: int)
    | Lock(id: string, password: bool, lockUntil: Option<int>, reason: Option<string>, now: int)
    | Unlock(id: string, password: bool, clears: bool, now: int)
    | AutoUnlock(id: string, clears: bool, now: int)
    | Suspend(id: string, now: int)
    | Unsuspend(id: string, now: int)

  function Unlocked(t: Tenant, clears: bool): Tenant {
    if clears then t.(status := Active, lockedAt := None, lockUntil := None, lockReason := None)
    else t.(status := Active)
  }

  function Restored(t: Tenant, clears: bool): Tenant {
    if clears then t.(status := Active, deletionScheduledAt := None, deletionReason := None) else t.(status := Active)
  }

  /** Whole days between two instants, rounded down. */
  function DaysPassed(from: int, now: int): int {
    (now - from) / Calendar.MS_PER_DAY
  }

  function Refused(ts: Tenants, s: Step): Option<Refusal> {
    match s
    case Create(_, _) => None
    case ScheduleDeletion(id, password, _, _) =>
      if !password then Some(InvalidPassword) else if id !in ts then Some(NotFound)
      else if ts[id].status == DeletionScheduled then Some(AlreadyScheduled) else None
    case CancelDeletion(id, password, _, _) =>
      if !password then Some(InvalidPassword) else if id !in ts then Some(NotFound)
      else if ts[id].status != DeletionScheduled then Some(NotScheduled) else None
    case ExecuteDeletion(id, now) =>
      if id !in ts then Some(NotFound)
      else if ts[id].status != DeletionScheduled then Some(NotScheduled)
      else if ts[id].deletionScheduledAt.Some? && DaysPassed(ts[id].deletionScheduledAt.value, now) < GRACE_DAYS then
        Some(GracePeriod)
      else None
    case Lock(id, password, _, _, _) =>
      if !password then Some(InvalidPassword) else if id !in ts then Some(NotFound)
      else if ts[id].status == Locked then Some(AlreadyLocked) else None
    case Unlock(id, password, _, _) =>
      if !password then Some(InvalidPassword) else if id !in ts then Some(NotFound)
      else if ts[id].status != Locked then Some(NotLocked) else None
    case AutoUnlock(id, _, _) => if id !in ts then Some(NotFound) else None
    case Suspend(id, _) => if id !in ts then Some(NotFound) else None
    case Unsuspend(id, _) => if id !in ts then Some(NotFound) else None
  }

  function Next(ts: Tenants, s: Step): Tenants {
    if Refused(ts, s).Some? then ts
    else match s
      case Create(id, status) => if id in ts then ts else ts[id := Tenant(status, None, None, None, None, None)]
      case ScheduleDeletion(id, _, reason, now) =>
        ts[id := ts[id].(status := DeletionScheduled, deletionScheduledAt := Some(now), deletionReason := reason)]
      case CancelDeletion(id, _, clears, _) => ts[id := Restored(ts[id], clears)]
      case ExecuteDeletion(id, _) => ts - {id}
      case Lock(id, _, lockUntil, reason, now) =>
        ts[id := ts[id].(status := Locked, lockedAt := Some(now), lockUntil := lockUntil, lockReason := reason)]
      case Unlock(id, _, clears, _) => ts[id := Unlocked(ts[id], clears)]
      case AutoUnlock(id, clears, _) => if ts[id].status == Locked then ts[id := Unlocked(ts[id], clears)] else ts
      case Suspend(id, _) => ts[id := ts[id].(status := Suspended)]
      case Unsuspend(id, _) => ts[id := ts[id].(status := Active)]
  }

  function Run(steps: seq<Step>): Tenants {
    if |steps| == 0 then map[] else Next(Run(steps[..|steps| - 1]), steps[|steps| - 1])
  }

  // ---------- The services

  class TenantRepository {
    var rows: Tenants

    constructor ()
      ensures rows == map[]
    {
      rows := map[];
    }
  }

  /** Each method keeps what it refuses as it was. */
  class AwareTenantService {
    const repository: TenantRepository

    constructor (repository: TenantRepository)
      ensures this.repository == repository
    {
      this.repository := repository;
    }

    method ScheduleDeletion(id: string, password: bool, reason: Option<string>, now: int)
      returns (refusal: Option<Refusal>)
      modifies repository
      ensures refusal == Refused(old(repository.rows), Step.ScheduleDeletion(id, password, reason, now))
      ensures repository.rows == Next(old(repository.rows), Step.ScheduleDeletion(id, password, reason, now))
    {
      if !password {
        return Some(InvalidPassword);
      }
      if id !in repository.rows {
        return Some(NotFound);
      }
      var tenant := repository.rows[id];
      if tenant.status == DeletionScheduled {
        return Some(AlreadyScheduled);
      }
      tenant := tenant.(status := DeletionScheduled);
      tenant := tenant.(deletionScheduledAt := Some(now));
      tenant := tenant.(deletionReason := reason);
      repository.rows := repository.rows[id := tenant];
      return None;
    }

    method CancelDeletion(id: string, password: bool, clears: bool, now: int) returns (refusal: Option<Refusal>)
      modifies repository
      ensures refusal == Refused(old(repository.rows), Step.CancelDeletion(id, password, clears, now))
      ensures repository.rows == Next(old(repository.rows), Step.CancelDeletion(id, password, clears, now))
    {
      if !password {
        return Some(InvalidPassword);
      }
      if id !in repository.rows {
        return Some(NotFound);
      }
      var tenant := repository.rows[id];
      if tenant.status != DeletionScheduled {
        return Some(NotScheduled);
      }
      tenant := tenant.(status := Active);
      if clears {
        tenant := tenant.(deletionScheduledAt := None, deletionReason := None);
      }
      repository.rows := repository.rows[id := tenant];
      return None;
    }

    method ExecuteDeletion(id: string, now: int) returns (refusal: Option<Refusal>)
      modifies repository
      ensures refusal == Refused(old(repository.rows), Step.ExecuteDeletion(id, now))
      ensures repository.rows == Next(old(repository.rows), Step.ExecuteDeletion(id, now))
    {
      if id !in repository.rows {
        return Some(NotFound);
      }
      var tenant := repository.rows[id];
      if tenant.status != DeletionScheduled {
        return Some(NotScheduled);
      }
      if tenant.deletionScheduledAt.Some? {
        var daysPassed := (now - tenant.deletionScheduledAt.value) / (1000 * 60 * 60 * 24);
        if daysPassed < 30 {
          return Some(GracePeriod);
        }
      }
      repository.rows := repository.rows - {id};
      return None;
    }

    method Lock(id: string, password: bool, lockUntil: Option<int>, reason: Option<string>, now: int)
      returns (refusal: Option<Refusal>)
      modifies repository
      ensures refusal == Refused(old(repository.rows), Step.Lock(id, password, lockUntil, reason, now))
      ensures repository.rows == Next(old(repository.rows), Step.Lock(id, password, lockUntil, reason, now))
    {
      if !password {
        return Some(InvalidPassword);
      }
      if id !in repository.rows {
        return Some(NotFound);
      }
      var tenant := repository.rows[id];
      if tenant.status == Locked {
        return Some(AlreadyLocked);
      }
      tenant := tenant.(status := Locked);
      tenant := tenant.(lockedAt := Some(now), lockUntil := lockUntil, lockReason := reason);
      repository.rows := repository.rows[id := tenant];
      return None;
    }

    method Unlock(id: string, password: bool, clears: bool, now: int) returns (refusal: Option<Refusal>)
      modifies repository
      ensures refusal == Refused(old(repository.rows), Step.Unlock(id, password, clears, now))
      ensures repository.rows == Next(old(repository.rows), Step.Unlock(id, password, clears, now))
    {
      if !password {
        return Some(InvalidPassword);
      }
      if id !in repository.rows {
        return Some(NotFound);
      }
      if repository.rows[id].status != Locked {
        return Some(NotLocked);
      }
      SaveUnlocked(id, clears);
      return None;
    }

    method AutoUnlock(id: string, clears: bool, now: int) returns (refusal: Option<Refusal>)
      modifies repository
      ensures refusal == Refused(old(repository.rows), Step.AutoUnlock(id, clears, now))
      ensures repository.rows == Next(old(repository.rows), Step.AutoUnlock(id, clears, now))
    {
      if id !in repository.rows {
        return Some(NotFound);
      }
      if repository.rows[id].status != Locked {
        return None;
      }
      SaveUnlocked(id, clears);
      return None;
    }

    method SaveUnlocked(id: string, clears: bool)
      requires id in repository.rows
      modifies repository
      ensures repository.rows == old(repository.rows)[id := Unlocked(old(repository.rows)[id], clears)]
    {
      var tenant := repository.rows[id].(status := Active);
      if clears {
        tenant := tenant.(lockedAt := None, lockUntil := None, lockReason := None);
      }
      repository.rows := repository.rows[id := tenant];
    }
  }

  class AgnosticTenantService {
    const repository: TenantRepository

    constructor (repository: TenantRepository)
      ensures this.repository == repository
    {
      this.repository := repository;
    }

    method Suspend(id: string, now: int) returns (refusal: Option<Refusal>)
      modifies repository
      ensures refusal == Refused(old(repository.rows), Step.Suspend(id, now))
      ensures repository.rows == Next(old(repository.rows), Step.Suspend(id, now))
    {
      if id !in repository.rows {
        return Some(NotFound);
      }
      var tenant := repository.rows[id].(status := Suspended);
      repository.rows := repository.rows[id := tenant];
      return None;
    }

    method Unsuspend(id: string, now: int) returns (refusal: Option<Refusal>)
      modifies repository
      ensures refusal == Refused(old(repository.rows), Step.Unsuspend(id, now))
      ensures repository.rows == Next(old(repository.rows), Step.Unsuspend(id, now))
    {
      if id !in repository.rows {
        return Some(NotFound);
      }
      var tenant := repository.rows[id].(status := Active);
      repository.rows := repository.rows[id := tenant];
      return None;
    }
  }

  // ---------- The grace period, over every run

  predicate IsScheduled(ts: Tenants, id: string) {
    id in ts && ts[id].status == DeletionScheduled
  }

  /** New tenants do not start out scheduled for deletion. */
  predicate Legal(steps: seq<Step>) {
    forall k | 0 <= k < |steps| :: steps[k].Create? ==> steps[k].status != DeletionScheduled
  }

  predicate Monotone(steps: seq<Step>) {
    forall i, j | 0 <= i < j < |steps| && !steps[i].Create? && !steps[j].Create? :: steps[i].now <= steps[j].now
  }

  /** Step `k` happened by `from`, and the tenant has been scheduled for deletion after it and ever since. */
  predicate ScheduledThroughout(steps: seq<Step>, id: string, k: nat, from: int) {
    && k < |steps| && !steps[k].Create? && steps[k].now <= from
    && forall j | k < j <= |steps| :: IsScheduled(Run(steps[..j]), id)
  }

  ghost predicate ScheduledSince(steps: seq<Step>, id: string, from: int) {
    exists k: nat :: ScheduledThroughout(steps, id, k, from)
  }

  /** In a scheduled tenant the stored date is that of the step that scheduled it, and it has stayed scheduled. */
  predicate EnteredAt(steps: seq<Step>, id: string, k: nat) {
    && k < |steps| && steps[k].ScheduleDeletion? && steps[k].id == id
    && !IsScheduled(Run(steps[..k]), id)
    && IsScheduled(Run(steps), id)
    && Run(steps)[id].deletionScheduledAt == Some(steps[k].now)
    && forall j | k < j <= |steps| :: IsScheduled(Run(steps[..j]), id)
  }

  lemma StepCases(ts: Tenants, s: Step, id: string)
    requires s.Create? ==> s.status != DeletionScheduled
    requires IsScheduled(Next(ts, s), id)
    ensures || (s.ScheduleDeletion? && s.id == id && !IsScheduled(ts, id)
                && Next(ts, s)[id].deletionScheduledAt == Some(s.now))
            || (IsScheduled(ts, id) && Next(ts, s)[id].deletionScheduledAt == ts[id].deletionScheduledAt)
  {
  }

  lemma {:induction false} DateIsEntry(steps: seq<Step>, id: string)
    requires Legal(steps) && IsScheduled(Run(steps), id)
    ensures exists k: nat :: EnteredAt(steps, id, k)
  {
    if |steps| > 0 {
      var n := |steps| - 1;
      StepCases(Run(steps[..n]), steps[n], id);
      assert steps[..|steps|] == steps;
      assert Run(steps) == Next(Run(steps[..n]), steps[n]);
      assert forall j | 0 <= j <= n :: steps[..n][..j] == steps[..j];
      hide Next;
      if IsScheduled(Run(steps[..n]), id)
          && Run(steps)[id].deletionScheduledAt == Run(steps[..n])[id].deletionScheduledAt
      {
        DateIsEntry(steps[..n], id);
        var k: nat :| EnteredAt(steps[..n], id, k);
        hide Run, IsScheduled;
        assert steps[..n][k] == steps[k];
        forall j | k < j <= |steps| ensures IsScheduled(Run(steps[..j]), id) {
          if j <= n {
            assert steps[..n][..j] == steps[..j];
          }
        }
        assert EnteredAt(steps, id, k);
      } else {
        assert EnteredAt(steps, id, n);
      }
    }
  }

  lemma GraceArithmetic(from: int, now: int)
    ensures DaysPassed(from, now) >= GRACE_DAYS <==> from <= now - GRACE_DAYS * Calendar.MS_PER_DAY
  {
    var d := now - from;
    assert d == Calendar.MS_PER_DAY * (d / Calendar.MS_PER_DAY) + d % Calendar.MS_PER_DAY
      && 0 <= d % Calendar.MS_PER_DAY < Calendar.MS_PER_DAY;
  }

  /** After any run, executing the deletion removes a tenant exactly when the tenant has been scheduled for
      deletion continuously for the last 30 times 24 hours. */
  lemma DeletionNeedsThirtyDaysExactly(steps: seq<Step>, id: string, now: int)
    requires Legal(steps) && Monotone(steps)
    ensures (id in Run(steps) && id !in Next(Run(steps), ExecuteDeletion(id, now))) <==>
            ScheduledSince(steps, id, now - GRACE_DAYS * Calendar.MS_PER_DAY)
  {
    var ts := Run(steps);
    assert steps[..|steps|] == steps;
    var from := now - GRACE_DAYS * Calendar.MS_PER_DAY;
    if ScheduledSince(steps, id, from) {
      var k: nat :| ScheduledThroughout(steps, id, k, from);
      assert IsScheduled(Run(steps[..|steps|]), id);
    }
    if IsScheduled(ts, id) {
      DateIsEntry(steps, id);
      var e: nat :| EnteredAt(steps, id, e);
      GraceArithmetic(steps[e].now, now);
      hide Run;
      if steps[e].now <= from {
        assert ScheduledThroughout(steps, id, e, from);
      }
      if ScheduledSince(steps, id, from) {
        var k: nat :| ScheduledThroughout(steps, id, k, from);
        assert !IsScheduled(Run(steps[..e]), id);
        assert e <= k;
        assert steps[e].now <= steps[k].now;
      }
    }
  }

  // ---------- What the moves do, over every run

  /** The step asks for a password and the identity service turned it down. */
  predicate WrongPassword(s: Step) {
    (s.ScheduleDeletion? || s.CancelDeletion? || s.Lock? || s.Unlock?) && !s.password
  }

  /** A deletion scheduled at `at` has waited its thirty days by `now`. */
  predicate Waited(at: Option<int>, now: int) {
    at.Some? ==> at.value + GRACE_DAYS * Calendar.MS_PER_DAY <= now
  }

  /** The step changes its tenant: the one it names is there in the status the step starts from. */
  predicate Moves(ts: Tenants, s: Step) {
    && (s.id in ts <==> !s.Create?)
    && !WrongPassword(s)
    && (s.ScheduleDeletion? ==> ts[s.id].status != DeletionScheduled)
    && (s.CancelDeletion? ==> ts[s.id].status == DeletionScheduled)
    && (s.ExecuteDeletion? ==>
          ts[s.id].status == DeletionScheduled && Waited(ts[s.id].deletionScheduledAt, s.now))
    && (s.Lock? ==> ts[s.id].status != Locked)
    && (s.Unlock? || s.AutoUnlock? ==> ts[s.id].status == Locked)
  }

  /** The status the step stands for. */
  function Target(s: Step): TenantStatus {
    if s.Create? then s.status
    else if s.ScheduleDeletion? then DeletionScheduled
    else if s.Lock? then Locked
    else if s.Suspend? then Suspended
    else Active
  }

  /** A caller is refused for a wrong password, else for a missing tenant, else for its status, else for the
      grace period; and whoever is not refused gets the move, except that creating a tenant that is there and
      auto-unlocking one that is not locked do nothing. */
  lemma RefusedExactly(ts: Tenants, s: Step)
    ensures Refused(ts, s) == Some(InvalidPassword) <==> WrongPassword(s)
    ensures Refused(ts, s) == Some(NotFound) <==> !WrongPassword(s) && !s.Create? && s.id !in ts
    ensures Refused(ts, s) == Some(GracePeriod) <==>
            s.ExecuteDeletion? && IsScheduled(ts, s.id) && !Waited(ts[s.id].deletionScheduledAt, s.now)
    ensures Refused(ts, s) == Some(AlreadyLocked) <==>
            s.Lock? && s.password && s.id in ts && ts[s.id].status == Locked
    ensures Refused(ts, s) == Some(AlreadyScheduled) <==>
            s.ScheduleDeletion? && s.password && IsScheduled(ts, s.id)
    ensures Refused(ts, s) == Some(NotLocked) <==>
            s.Unlock? && s.password && s.id in ts && ts[s.id].status != Locked
    ensures Refused(ts, s) == Some(NotScheduled) <==>
            (s.ExecuteDeletion? || (s.CancelDeletion? && s.password)) && s.id in ts && !IsScheduled(ts, s.id)
    ensures Refused(ts, s).None? <==>
            Moves(ts, s) || (s.Create? && s.id in ts)
            || (s.AutoUnlock? && s.id in ts && ts[s.id].status != Locked)
  {
    if s.ExecuteDeletion? && IsScheduled(ts, s.id) && ts[s.id].deletionScheduledAt.Some? {
      GraceArithmetic(ts[s.id].deletionScheduledAt.value, s.now);
    }
    hide DaysPassed;
  }

  /** The lock of the row is the one the step sets, is cleared by a clearing unlock, and stays otherwise. */
  predicate LockFollows(before: Tenant, after: Tenant, s: Step) {
    (after.lockedAt, after.lockUntil, after.lockReason) ==
    if s.Lock? then (Some(s.now), s.lockUntil, s.reason)
    else if (s.Unlock? || s.AutoUnlock?) && s.clears then (None, None, None)
    else (before.lockedAt, before.lockUntil, before.lockReason)
  }

  /** The same of the scheduled deletion. */
  predicate DeletionFollows(before: Tenant, after: Tenant, s: Step) {
    (after.deletionScheduledAt, after.deletionReason) ==
    if s.ScheduleDeletion? then (Some(s.now), s.reason)
    else if s.CancelDeletion? && s.clears then (None, None)
    else (before.deletionScheduledAt, before.deletionReason)
  }

  /** A step leaves every other tenant alone. A move removes its tenant or brings it to the status it stands for,
      whatever the status before. */
  lemma MoveExactly(ts: Tenants, s: Step)
    ensures Next(ts, s) - {s.id} == ts - {s.id}
    ensures !Moves(ts, s) ==> Next(ts, s) == ts
    ensures Moves(ts, s) ==> (s.id in Next(ts, s) <==> !s.ExecuteDeletion?)
    ensures Moves(ts, s) && !s.ExecuteDeletion? ==> Next(ts, s)[s.id].status == Target(s)
    ensures Moves(ts, s) && !s.ExecuteDeletion? && !s.Create? ==>
            LockFollows(ts[s.id], Next(ts, s)[s.id], s) && DeletionFollows(ts[s.id], Next(ts, s)[s.id], s)
  {
    RefusedExactly(ts, s);
    hide Refused, Waited;
  }

  /** Step `k` was the last one that moved the tenant. */
  predicate LastMove(steps: seq<Step>, id: string, k: nat) {
    && k < |steps| && steps[k].id == id && Moves(Run(steps[..k]), steps[k])
    && forall j | k < j < |steps| && steps[j].id == id :: !Moves(Run(steps[..j]), steps[j])
  }

  lemma MoveKeepsOthers(ts: Tenants, s: Step, id: string)
    requires s.id != id || !Moves(ts, s)
    ensures id in Next(ts, s) <==> id in ts
    ensures id in ts ==> Next(ts, s)[id] == ts[id]
  {
    MoveExactly(ts, s);
    hide Next, Moves;
    var after := Next(ts, s);
    assert id in after - {s.id} <==> id in ts - {s.id};
    if s.id != id && id in ts {
      assert (after - {s.id})[id] == (ts - {s.id})[id];
    }
  }

  /** In every run, a tenant is there and in the status its last move stands for, unless that move executed its
      deletion; and a tenant that never moved is not there. */
  lemma {:induction false} StatusIsLastMove(steps: seq<Step>, id: string)
    ensures id in Run(steps) <==> exists k: nat :: LastMove(steps, id, k) && !steps[k].ExecuteDeletion?
    ensures forall k: nat | LastMove(steps, id, k) && !steps[k].ExecuteDeletion? ::
              id in Run(steps) && Run(steps)[id].status == Target(steps[k])
  {
    hide Next, Moves;
    if |steps| > 0 {
      var n := |steps| - 1;
      var before := steps[..n];
      StatusIsLastMove(before, id);
      assert Run(steps) == Next(Run(before), steps[n]);
      if steps[n].id == id && Moves(Run(before), steps[n]) {
        MoveExactly(Run(before), steps[n]);
        assert LastMove(steps, id, n);
        forall k: nat | LastMove(steps, id, k) ensures k == n {
        }
      } else {
        MoveKeepsOthers(Run(before), steps[n], id);
        forall k: nat ensures LastMove(steps, id, k) <==> LastMove(before, id, k) && k < n {
          LastMoveEarlier(steps, id, k);
        }
        if k: nat :| LastMove(before, id, k) && !before[k].ExecuteDeletion? {
          assert LastMove(steps, id, k);
        }
      }
    }
  }

  lemma LastMoveEarlier(steps: seq<Step>, id: string, k: nat)
    requires |steps| > 0
    requires steps[|steps| - 1].id != id || !Moves(Run(steps[..|steps| - 1]), steps[|steps| - 1])
    ensures LastMove(steps, id, k) <==> LastMove(steps[..|steps| - 1], id, k) && k < |steps| - 1
  {
    hide Run, Moves;
    var n := |steps| - 1;
    var before := steps[..n];
    assert forall j | 0 <= j <= n :: before[..j] == steps[..j];
    assert forall j | 0 <= j < n :: before[j] == steps[j];
    if LastMove(before, id, k) {
      forall j | k < j < |steps| && steps[j].id == id ensures !Moves(Run(steps[..j]), steps[j]) {
        if j < n {
          assert !Moves(Run(before[..j]), before[j]);
        }
      }
    }
    if LastMove(steps, id, k) {
      forall j | k < j < n && before[j].id == id ensures !Moves(Run(before[..j]), before[j]) {
        assert !Moves(Run(steps[..j]), steps[j]);
      }
    }
  }

  /** Lifting a suspension brings the tenant back exactly when it was active: a lock and a scheduled deletion are
      lifted along with it. */
  lemma UnsuspendUndoesExactly(ts: Tenants, id: string, now: int, later: int)
    requires id in ts
    ensures Next(Next(ts, Suspend(id, now)), Unsuspend(id, later)) == ts <==> ts[id].status == Active
  {
  }

  /** Unlocking undoes a lock exactly when the tenant was active and had no lock left over. Where cleared fields
      are not stored, the lock stays in the row, and it has to have been the same lock. */
  lemma UnlockUndoesExactly(ts: Tenants, lock: Step, clears: bool, later: int)
    requires lock.Lock? && Moves(ts, lock)
    ensures var t := ts[lock.id];
            Next(Next(ts, lock), Unlock(lock.id, true, clears, later)) == ts <==>
            t.status == Active && (t.lockedAt, t.lockUntil, t.lockReason) ==
                                  if clears then (None, None, None) else (Some(lock.now), lock.lockUntil, lock.reason)
  {
  }

  lemma CancelUndoesExactly(ts: Tenants, schedule: Step, clears: bool, later: int)
    requires schedule.ScheduleDeletion? && Moves(ts, schedule)
    ensures var t := ts[schedule.id];
            Next(Next(ts, schedule), CancelDeletion(schedule.id, true, clears, later)) == ts <==>
            t.status == Active && (t.deletionScheduledAt, t.deletionReason) ==
                                  if clears then (None, None) else (Some(schedule.now), schedule.reason)
  {
  }
}
