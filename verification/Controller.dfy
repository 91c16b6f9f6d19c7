/**
  The controller that owns rollback: it snapshots Shield's table, runs one
  mutation, and restores the snapshot when the mutation fails or panics.
 */
module Controller {
  import opened Wrappers
  import opened Clock
  import opened Addresses
  import opened DesiredState
  import opened Kernel
  import opened Compile
  import opened Inspect
  import opened Drift
  import opened Listings
  import opened NftBackend

  datatype ControllerError =
    | EnforcementDisabled
    | InvalidState(cause: StateError)
    | ResolveFailed
    | NameFailed
    | SnapshotFailed
    | SnapshotMismatch
    | OperationFailed            // and the snapshot was restored
    | OperationAndRestoreFailed

  datatype Operation = ReconcileTo(state: State) | CleanUp

  /** What the environment does during one call: the name the backend reports, clocks and faults. */
  datatype Env = Env(name: Outcome<BackendName>, read: ReadEnv, operation: ApplyEnv, restore: ApplyEnv)

  datatype Execution = Execution(error: Option<ControllerError>, ruleset: Ruleset, restores: int)

  ghost function Operated(rs: Ruleset, op: Operation, e: ApplyEnv): (Outcome<()>, Ruleset) {
    match op
    case ReconcileTo(s) => Reconciled(rs, s, e)
    case CleanUp => Applied(rs, CLEANUP, e)
  }

  /** A snapshot was taken and carries the name the backend reports. */
  predicate Taken(snapshot: Outcome<Snapshot>, env: Env) {
    env.name.Returned? && snapshot.Returned? && snapshot.value.backend == env.name.value
  }

  ghost function Executed(rs: Ruleset, op: Operation, snapshot: Outcome<Snapshot>, env: Env): Execution {
    if !env.name.Returned? then Execution(Some(NameFailed), rs, 0)
    else if !snapshot.Returned? then Execution(Some(SnapshotFailed), rs, 0)
    else if snapshot.value.backend != env.name.value then Execution(Some(SnapshotMismatch), rs, 0)
    else
      var (outcome, mid) := Operated(rs, op, env.operation);
      if outcome.Returned? then Execution(None, mid, 0)
      else
        var (undone, end) := Restored(mid, snapshot.value, env.restore);
        Execution(Some(if undone.Returned? then OperationFailed else OperationAndRestoreFailed), end, 1)
  }

  class Controller {
    const backend: Backend
    const enabled: bool

    constructor (b: Backend, enabled: bool)
      ensures this.backend == b && this.enabled == enabled
    {
      this.backend := b;
      this.enabled := enabled;
    }

    method ExecuteWithRollback(op: Operation, env: Env)
      returns (err: Option<ControllerError>, ghost entries: seq<Entry>)
      modifies backend, backend.runner
      ensures env.name.Returned? && env.read.Clean() ==> Prints(old(backend.runner.ruleset), entries, env.read.l)
      ensures var rs := old(backend.runner.ruleset);
              Execution(err, backend.runner.ruleset, backend.restores - old(backend.restores)) ==
              Executed(rs, op, SnapshotWith(rs, entries, env.read), env)
    {
      entries := [];
      if !env.name.Returned? {
        return Some(NameFailed), entries;
      }
      var snapshot := backend.TakeSnapshot(env.read);
      entries :| (env.read.Clean() ==> Prints(backend.runner.ruleset, entries, env.read.l))
                 && snapshot == SnapshotWith(backend.runner.ruleset, entries, env.read);
      if !snapshot.Returned? {
        return Some(SnapshotFailed), entries;
      }
      if snapshot.value.backend != env.name.value {
        return Some(SnapshotMismatch), entries;
      }
      var outcome;
      match op {
        case ReconcileTo(s) => outcome := backend.Reconcile(s, env.operation);
        case CleanUp => outcome := backend.Cleanup(env.operation);
      }
      // the deferred handler: recover, then restore unless the operation returned nil
      if outcome.Returned? {
        return None, entries;
      }
      var undone := backend.Restore(snapshot.value, env.restore);
      err := Some(if undone.Returned? then OperationFailed else OperationAndRestoreFailed);
    }

    method Reconcile(desired: State, now: Time, resolves: bool, env: Env)
      returns (err: Option<ControllerError>, ghost entries: seq<Entry>)
      modifies backend, backend.runner
      ensures !enabled ==> err == Some(EnforcementDisabled)
      ensures enabled && !Valid(desired) ==>
                Normalized(desired, now).Failure? && err == Some(InvalidState(Normalized(desired, now).error))
      ensures enabled && Valid(desired) && !resolves ==> err == Some(ResolveFailed)
      ensures var rs := old(backend.runner.ruleset);
              var ran := Execution(err, backend.runner.ruleset, backend.restores - old(backend.restores));
              if enabled && Valid(desired) && resolves
              then ran == Executed(rs, ReconcileTo(NormalForm(desired, now)), SnapshotWith(rs, entries, env.read), env)
              else ran == Execution(err, rs, 0)
      ensures enabled && Valid(desired) && resolves && env.name.Returned? && env.read.Clean() ==>
                Prints(old(backend.runner.ruleset), entries, env.read.l)
    {
      entries := [];
      if !enabled {
        return Some(EnforcementDisabled), entries;
      }
      var normalized := Normalize(desired, now);
      NormalizeSucceedsIffValid(desired, now);
      if normalized.Failure? {
        return Some(InvalidState(normalized.error)), entries;
      }
      if !resolves {
        return Some(ResolveFailed), entries;
      }
      err, entries := ExecuteWithRollback(ReconcileTo(normalized.value), env);
    }

    method Cleanup(resolves: bool, env: Env) returns (err: Option<ControllerError>, ghost entries: seq<Entry>)
      modifies backend, backend.runner
      ensures !enabled ==> err == Some(EnforcementDisabled)
      ensures enabled && !resolves ==> err == Some(ResolveFailed)
      ensures var rs := old(backend.runner.ruleset);
              var ran := Execution(err, backend.runner.ruleset, backend.restores - old(backend.restores));
              if enabled && resolves
              then ran == Executed(rs, CleanUp, SnapshotWith(rs, entries, env.read), env)
              else ran == Execution(err, rs, 0)
      ensures enabled && resolves && env.name.Returned? && env.read.Clean() ==>
                Prints(old(backend.runner.ruleset), entries, env.read.l)
    {
      entries := [];
      if !enabled {
        return Some(EnforcementDisabled), entries;
      }
      if !resolves {
        return Some(ResolveFailed), entries;
      }
      err, entries := ExecuteWithRollback(CleanUp, env);
    }
  }

  /* ----- Transactions ----- */

  /** Whatever fails, a transaction leaves the ruleset as it was or fully changed. */
  lemma TransactionIsAtomic(rs: Ruleset, batch: seq<Command>, e: ApplyEnv)
    ensures var (o, after) := Applied(rs, batch, e);
            && (after == rs || Run(batch, rs, e.at) == Some(after))
            && (o.Returned? ==> Run(batch, rs, e.at) == Some(after))
            && (e.check != NoFault || e.apply.Before() ==> after == rs)
  {
  }

  lemma CleanupRuns(rs: Ruleset, at: Time)
    ensures Run(CLEANUP, rs, at) == Some(rs - {SHIELD})
  {
    RunSnoc([], DestroyTable(SHIELD), rs, at);
    assert [] + [DestroyTable(SHIELD)] == CLEANUP;
  }

  /** Reconciling touches Shield's table only, and returns nil only with the compiled table in place. */
  lemma ReconciledTable(rs: Ruleset, s: State, e: ApplyEnv)
    ensures var (o, after) := Reconciled(rs, s, e);
            && after - {SHIELD} == rs - {SHIELD}
            && (o.Returned? ==>
                  && Valid(s) && WithinRange(s.temporaryBans, e.now)
                  && after == rs[SHIELD := CompiledTable(NormalForm(s, e.now), e.now, e.at)])
  {
    ReplacedTable(rs, CompiledTable(NormalForm(s, e.now), e.now, e.at));
  }

  lemma ReplacedTable(rs: Ruleset, table: Table)
    ensures rs[SHIELD := table] - {SHIELD} == rs - {SHIELD}
  {
  }

  lemma CleanedTable(rs: Ruleset, e: ApplyEnv)
    ensures var (o, after) := Applied(rs, CLEANUP, e);
            after - {SHIELD} == rs - {SHIELD} && (o.Returned? ==> SHIELD !in after)
  {
    CleanupRuns(rs, e.at);
  }

  lemma OperatedFrame(rs: Ruleset, op: Operation, e: ApplyEnv)
    ensures Operated(rs, op, e).1 - {SHIELD} == rs - {SHIELD}
  {
    match op {
      case ReconcileTo(s) => ReconciledTable(rs, s, e);
      case CleanUp => CleanedTable(rs, e);
    }
  }

  /** After a restore that succeeded, the Shield table is the snapshot's, minus bans expired by then. */
  ghost predicate HoldsSnapshot(rs: Ruleset, snapshot: Snapshot, e: ApplyEnv) {
    && snapshot.data.Data?
    && if !snapshot.data.present then SHIELD !in rs
       else
         var s := snapshot.data.state;
         && Valid(s)
         && SHIELD in rs && rs[SHIELD] == CompiledTable(NormalForm(s, e.now), e.now, e.at)
  }

  lemma RestoredTable(rs: Ruleset, snapshot: Snapshot, e: ApplyEnv)
    ensures var (o, after) := Restored(rs, snapshot, e);
            after - {SHIELD} == rs - {SHIELD} && (o.Returned? ==> HoldsSnapshot(after, snapshot, e))
  {
    CleanedTable(rs, e);
    if snapshot.data.Data? {
      ReconciledTable(rs, snapshot.data.state, e);
    }
  }

  /**
    Rollback under every placement of errors and panics: nil means the operation
    took effect and nothing was restored; an error comes with exactly one restore
    if a snapshot with the backend's name was taken and with none otherwise, in
    which case nothing changed; a restore that succeeds leaves the snapshot's
    table; and tables other than Shield's are never touched.
   */
  lemma RollbackUnderFaults(rs: Ruleset, op: Operation, snapshot: Outcome<Snapshot>, env: Env)
    ensures var x := Executed(rs, op, snapshot, env);
            && x.ruleset - {SHIELD} == rs - {SHIELD}
            && (x.error.None? <==> Taken(snapshot, env) && Operated(rs, op, env.operation).0.Returned?)
            && (x.error.None? ==> x.restores == 0 && x.ruleset == Operated(rs, op, env.operation).1)
            && (x.error.Some? ==> x.restores == if Taken(snapshot, env) then 1 else 0)
            && (x.error.Some? && !Taken(snapshot, env) ==> x.ruleset == rs)
            && (x.error == Some(OperationFailed) ==> HoldsSnapshot(x.ruleset, snapshot.value, env.restore))
  {
    if Taken(snapshot, env) {
      var (outcome, mid) := Operated(rs, op, env.operation);
      OperatedFrame(rs, op, env.operation);
      RestoredTable(mid, snapshot.value, env.restore);
    }
  }

  /* ----- Exactly when each outcome happens ----- */

  /** nft accepts what the operation asks for at `now`. */
  ghost predicate Accepted(op: Operation, now: Time) {
    op.CleanUp? || (Valid(op.state) && WithinRange(op.state.temporaryBans, now))
  }

  ghost predicate Succeeds(op: Operation, e: ApplyEnv) {
    Accepted(op, e.now) && e.check.NoFault? && e.apply.NoFault?
  }

  /** It changes the ruleset, whether or not it then returns nil. */
  ghost predicate TakesEffect(op: Operation, e: ApplyEnv) {
    Accepted(op, e.now) && e.check.NoFault? && !e.apply.FailBefore? && !e.apply.PanicBefore?
  }

  ghost function Effect(rs: Ruleset, op: Operation, e: ApplyEnv): Ruleset {
    if !TakesEffect(op, e) then rs
    else if op.CleanUp? then rs - {SHIELD}
    else rs[SHIELD := CompiledTable(NormalForm(op.state, e.now), e.now, e.at)]
  }

  /** What bringing back the snapshot amounts to: nothing if it is not one of this backend and version. */
  ghost function Undoing(snapshot: Snapshot): Option<Operation> {
    if snapshot.backend != NFTables || snapshot.data.Undecodable? || snapshot.data.version != 1 then None
    else Some(if snapshot.data.present then ReconcileTo(snapshot.data.state) else CleanUp)
  }

  lemma CleanupIs(rs: Ruleset, e: ApplyEnv)
    ensures Applied(rs, CLEANUP, e) == Transact(rs, true, Some(rs - {SHIELD}), e)
  {
    CleanupRuns(rs, e.checkAt);
    CleanupRuns(rs, e.at);
  }

  lemma TransactIs(rs: Ruleset, accepted: bool, after: Option<Ruleset>, e: ApplyEnv)
    requires accepted ==> after.Some?
    ensures var (o, end) := Transact(rs, accepted, after, e);
            && (o.Returned? <==> accepted && e.check.NoFault? && e.apply.NoFault?)
            && end == if accepted && e.check.NoFault? && !e.apply.FailBefore? && !e.apply.PanicBefore? then after.value else rs
  {
  }

  lemma OperatedIs(rs: Ruleset, op: Operation, e: ApplyEnv)
    ensures Operated(rs, op, e).0.Returned? <==> Succeeds(op, e)
    ensures Operated(rs, op, e).1 == Effect(rs, op, e)
  {
    match op {
      case CleanUp =>
        CleanupIs(rs, e);
        TransactIs(rs, true, Some(rs - {SHIELD}), e);
      case ReconcileTo(s) =>
        TransactIs(rs, WithinRange(s.temporaryBans, e.now), Install(rs, s, e.now, e.at), e);
    }
  }

  lemma RestoredIs(rs: Ruleset, snapshot: Snapshot, e: ApplyEnv)
    ensures var undo := Undoing(snapshot);
            && (Restored(rs, snapshot, e).0.Returned? <==> undo.Some? && Succeeds(undo.value, e))
            && Restored(rs, snapshot, e).1 == if undo.Some? then Effect(rs, undo.value, e) else rs
  {
    var undo := Undoing(snapshot);
    if undo.Some? {
      OperatedIs(rs, undo.value, e);
    }
  }

  /**
    When each outcome happens, from the faults, the operation and the snapshot
    alone. In particular a failure counts as undone exactly when a snapshot was
    taken, the operation did not succeed, the restore met no fault, and the
    snapshot was of an absent table or of a valid state with its bans in range.
   */
  lemma OutcomeIff(rs: Ruleset, op: Operation, snapshot: Outcome<Snapshot>, env: Env)
    ensures var error := Executed(rs, op, snapshot, env).error;
            && (error == Some(NameFailed) <==> !env.name.Returned?)
            && (error == Some(SnapshotFailed) <==> env.name.Returned? && !snapshot.Returned?)
            && (error == Some(SnapshotMismatch) <==>
                  env.name.Returned? && snapshot.Returned? && snapshot.value.backend != env.name.value)
            && (error == None <==> Taken(snapshot, env) && Succeeds(op, env.operation))
            && (error == Some(OperationFailed) <==>
                  && Taken(snapshot, env) && !Succeeds(op, env.operation)
                  && env.restore.check.NoFault? && env.restore.apply.NoFault?
                  && snapshot.value.backend == NFTables && snapshot.value.data.Data? && snapshot.value.data.version == 1
                  && (snapshot.value.data.present ==>
                        && Valid(snapshot.value.data.state)
                        && WithinRange(snapshot.value.data.state.temporaryBans, env.restore.now)))
  {
    if Taken(snapshot, env) {
      OperatedIs(rs, op, env.operation);
      RestoredIs(Operated(rs, op, env.operation).1, snapshot.value, env.restore);
    }
  }

  /** And what each leaves: the operation's effect, undone unless it succeeded, as far as the faults let it. */
  lemma RulesetLeft(rs: Ruleset, op: Operation, snapshot: Outcome<Snapshot>, env: Env)
    ensures Executed(rs, op, snapshot, env).ruleset ==
            if !Taken(snapshot, env) then rs
            else
              var mid := Effect(rs, op, env.operation);
              if Succeeds(op, env.operation) || Undoing(snapshot.value).None? then mid
              else Effect(mid, Undoing(snapshot.value).value, env.restore)
  {
    if Taken(snapshot, env) {
      OperatedIs(rs, op, env.operation);
      RestoredIs(Operated(rs, op, env.operation).1, snapshot.value, env.restore);
    }
  }

  /** When a snapshot is taken, and what it holds. */
  lemma SnapshotTakenIff(rs: Ruleset, entries: seq<Entry>, e: ReadEnv)
    ensures var snapshot := SnapshotWith(rs, entries, e);
            var read := Inspected(entries, e.r1, e.r2);
            && (snapshot.Returned? <==>
                  e.tables.NoFault? && (SHIELD in rs ==> e.again.NoFault? && e.listing.NoFault? && read.Some?))
            && (snapshot.Returned? ==>
                  && snapshot.value.backend == NFTables && snapshot.value.data.Data? && snapshot.value.data.version == 1
                  && (snapshot.value.data.present <==> SHIELD in rs)
                  && (SHIELD in rs ==> snapshot.value.data.state == read.value && Valid(read.value)))
  {
    var read := Inspected(entries, e.r1, e.r2);
    if read.Some? {
      NormalizeComposes(ParsedState(entries, e.r1).value, e.r2, e.r2);
    }
  }

  /**
    A restore without faults always undoes a cleanup or reconcile that failed or
    panicked: it leaves the snapshot's table, or its absence. Only a ban that has
    left the range of the 64-bit rounding can keep it from doing so.
   */
  lemma FaultFreeRestore(rs: Ruleset, op: Operation, entries: seq<Entry>, env: Env)
    requires env.name == Returned(NFTables) && SnapshotWith(rs, entries, env.read).Returned?
    requires !Succeeds(op, env.operation) && env.restore.check.NoFault? && env.restore.apply.NoFault?
    ensures var x := Executed(rs, op, SnapshotWith(rs, entries, env.read), env);
            var e := env.restore;
            && x.restores == 1
            && x.ruleset - {SHIELD} == rs - {SHIELD}
            && if SHIELD !in rs then x.error == Some(OperationFailed) && SHIELD !in x.ruleset
               else
                 var s := Inspected(entries, env.read.r1, env.read.r2).value;
                 if WithinRange(s.temporaryBans, e.now)
                 then x.error == Some(OperationFailed) && SHIELD in x.ruleset
                      && x.ruleset[SHIELD] == CompiledTable(NormalForm(s, e.now), e.now, e.at)
                 else x.error == Some(OperationAndRestoreFailed)
                      && x.ruleset == Effect(rs, op, env.operation)
  {
    var snapshot := SnapshotWith(rs, entries, env.read);
    SnapshotTakenIff(rs, entries, env.read);
    OutcomeIff(rs, op, snapshot, env);
    RulesetLeft(rs, op, snapshot, env);
    RollbackUnderFaults(rs, op, snapshot, env);
  }

  /** When there was no Shield table, a failed operation that could be undone leaves no trace at all. */
  lemma RollbackToAbsence(rs: Ruleset, op: Operation, entries: seq<Entry>, env: Env)
    requires SHIELD !in rs
    requires Executed(rs, op, SnapshotWith(rs, entries, env.read), env).error == Some(OperationFailed)
    ensures Executed(rs, op, SnapshotWith(rs, entries, env.read), env).ruleset == rs
  {
    AbsenceSnapshot(rs, entries, env.read);
    UndoneToAbsence(rs, op, SnapshotWith(rs, entries, env.read), env);
  }

  lemma AbsenceSnapshot(rs: Ruleset, entries: seq<Entry>, e: ReadEnv)
    requires SHIELD !in rs && SnapshotWith(rs, entries, e).Returned?
    ensures SnapshotWith(rs, entries, e).value.data == Data(SNAPSHOT_VERSION, false, EMPTY_STATE)
  {
  }

  lemma UndoneToAbsence(rs: Ruleset, op: Operation, snapshot: Outcome<Snapshot>, env: Env)
    requires SHIELD !in rs && Executed(rs, op, snapshot, env).error == Some(OperationFailed)
    requires snapshot.Returned? && snapshot.value.data == Data(SNAPSHOT_VERSION, false, EMPTY_STATE)
    ensures Executed(rs, op, snapshot, env).ruleset == rs
  {
    RollbackUnderFaults(rs, op, snapshot, env);
    SameWithoutShield(Executed(rs, op, snapshot, env).ruleset, rs);
  }

  lemma SameWithoutShield(a: Ruleset, b: Ruleset)
    requires a - {SHIELD} == b - {SHIELD} && SHIELD !in a && SHIELD !in b
    ensures a == b
  {
    assert a == a - {SHIELD} && b == b - {SHIELD};
  }

  /** When a reconcile returns nil. */
  lemma ReconcileReturns(rs: Ruleset, s: State, e: ApplyEnv)
    ensures Reconciled(rs, s, e).0.Returned? <==>
            Valid(s) && WithinRange(s.temporaryBans, e.now) && e.check.NoFault? && e.apply.NoFault?
    ensures Reconciled(rs, s, e).0.Returned? ==>
              Reconciled(rs, s, e) == (Returned(()), rs[SHIELD := CompiledTable(NormalForm(s, e.now), e.now, e.at)])
  {
  }

  /** Reconciling is idempotent, and its result does not depend on what Shield's table held before. */
  lemma ReconcileIdempotent(rs: Ruleset, other: Ruleset, s: State, e: ApplyEnv)
    requires Reconciled(rs, s, e).0.Returned?
    ensures Reconciled(Reconciled(rs, s, e).1, s, e) == Reconciled(rs, s, e)
    ensures var again := Reconciled(other, s, e);
            again.0.Returned? && SHIELD in again.1 && again.1[SHIELD] == Reconciled(rs, s, e).1[SHIELD]
  {
    var table := CompiledTable(NormalForm(s, e.now), e.now, e.at);
    var after := rs[SHIELD := table];
    ReconcileReturns(rs, s, e);
    ReconcileReturns(after, s, e);
    ReconcileReturns(other, s, e);
    assert after[SHIELD := table] == after;
  }

  /**
    A successful reconcile enforces the desired state the caller passed, although
    it was normalised by the controller and again by the renderer.
   */
  lemma ReconcileEnforces(desired: State, now: Time, rs: Ruleset, e: ApplyEnv, src: Addr, t: Time)
    requires Valid(desired) && now <= e.now
    requires Reconciled(rs, NormalForm(desired, now), e).0.Returned?
    ensures InputVerdict(Reconciled(rs, NormalForm(desired, now), e).1, SHIELD, src, t)
            == Policy(desired, e.now, e.at, src, t)
  {
    ReconciledNormalForm(desired, now, rs, e);
    InstalledVerdict(desired, e.now, e.at, Reconciled(rs, NormalForm(desired, now), e).1, src, t);
  }

  /** Reconciling the normal form taken earlier installs the desired state itself. */
  lemma ReconciledNormalForm(desired: State, now: Time, rs: Ruleset, e: ApplyEnv)
    requires Valid(desired) && now <= e.now
    requires Reconciled(rs, NormalForm(desired, now), e).0.Returned?
    ensures WithinRange(desired.temporaryBans, e.now)
    ensures var after := Reconciled(rs, NormalForm(desired, now), e).1;
            SHIELD in after && after[SHIELD] == CompiledTable(NormalForm(desired, e.now), e.now, e.at)
  {
    var d := NormalForm(desired, now);
    NormalizeComposes(desired, now, e.now);
    ReconciledTable(rs, d, e);
    WithinRangeOfInput(d, e.now);
    WithinRangeOfInput(desired, e.now);
  }

  /** Without faults, a snapshot of an installed table is refused exactly in some ban's last second. */
  lemma SnapshotRefusedIff(rs: Ruleset, i: Installed, entries: seq<Entry>, e: ReadEnv)
    requires WellInstalled(i) && SHIELD in rs && rs[SHIELD] == CompiledTable(i.state, i.now, i.at)
    requires i.at <= e.l <= e.r1 && e.Clean() && Prints(rs, entries, e.l)
    ensures SnapshotWith(rs, entries, e).Failed? <==> !NoneInLastSecond(i.state.temporaryBans, i.now, i.at, e.l)
    ensures !SnapshotWith(rs, entries, e).Panicked?
  {
    InspectedRefused(i, entries, e);
    RefusedWhenUnread(Inspected(entries, e.r1, e.r2), e);
  }

  const ONES: Addr := V4(0x0101_0101)

  function OneBan(expiresAt: Time): State {
    State([], [], [TemporaryBan(ONES, expiresAt)])
  }

  function Prompt(now: Time): ApplyEnv {
    ApplyEnv(now, now, now, NftBackend.NoFault, NftBackend.NoFault)
  }

  /**
    The refusal happens: a ban on 1.1.1.1 that expires a nanosecond after it is
    rendered, installed at once by a successful reconcile, makes a fault-free
    snapshot a nanosecond later fail, and with it every mutation of the controller.
   */
  lemma SnapshotCanBeRefused(now: Time, op: Operation, env: Env) returns (rs: Ruleset, entries: seq<Entry>)
    requires now >= 0
    requires env.name == Returned(NFTables) && env.read.Clean() && env.read.l == env.read.r1 == now + 1
    ensures Reconciled(map[], OneBan(now + 1), Prompt(now)) == (Returned(()), rs)
    ensures Prints(rs, entries, now + 1)
    ensures SnapshotWith(rs, entries, env.read).Failed?
    ensures Executed(rs, op, SnapshotWith(rs, entries, env.read), env) == Execution(Some(SnapshotFailed), rs, 0)
  {
    var s := OneBan(now + 1);
    var i := Installed(NormalForm(s, now), now, now);
    ReconcileReturns(map[], s, Prompt(now));
    rs := Reconciled(map[], s, Prompt(now)).1;
    entries := ListingExists(rs[SHIELD], now + 1);
    WellReinstalled(s, now, now);
    ShortBanInstalled(now);
    SnapshotRefusedIff(rs, i, entries, env.read);
  }

  lemma ShortBanInstalled(now: Time)
    requires now >= 0
    ensures !NoneInLastSecond(NormalForm(OneBan(now + 1), now).temporaryBans, now, now, now + 1)
  {
    var c := TemporaryBan(ONES, now + 1);
    assert c in OneBan(now + 1).temporaryBans;
    BansNormalise(OneBan(now + 1).temporaryBans, now);
    LastSecond(NormalForm(OneBan(now + 1), now).temporaryBans, c, now);
  }

  lemma LastSecond(bans: seq<TemporaryBan>, c: TemporaryBan, now: Time)
    requires c in bans && c.expiresAt == now + 1
    ensures !NoneInLastSecond(bans, now, now, now + 1)
  {
    assert RoundedEnd(now + 1, now, now) == now + SECOND;
  }

  lemma RefusedWhenUnread(read: Option<State>, e: ReadEnv)
    requires e.Clean()
    ensures SnapshotAs(true, read, e).Failed? <==> read.None?
    ensures !SnapshotAs(true, read, e).Panicked?
  {
  }

  lemma InspectedRefused(i: Installed, entries: seq<Entry>, e: ReadEnv)
    requires WellInstalled(i) && i.at <= e.l <= e.r1
    requires IsListing(entries, SHIELD, CompiledTable(i.state, i.now, i.at), e.l)
    ensures Inspected(entries, e.r1, e.r2).Some? <==> NoneInLastSecond(i.state.temporaryBans, i.now, i.at, e.l)
  {
    ReadBack(i.state, i.now, i.at, entries, e.l, e.r1, e.r2);
  }

  /** A rollback over an installed table is one snapshot/restore cycle, so drift is bounded by it. */
  lemma RollbackIsOneCycle(rs: Ruleset, i: Installed, op: Operation, entries: seq<Entry>, env: Env) returns (j: Installed)
    requires WellInstalled(i) && SHIELD in rs && rs[SHIELD] == CompiledTable(i.state, i.now, i.at)
    requires i.at <= env.read.l <= env.read.r1 <= env.read.r2 <= env.restore.now <= env.restore.at
    requires env.read.Clean() && Prints(rs, entries, env.read.l)
    requires Executed(rs, op, SnapshotWith(rs, entries, env.read), env).error == Some(OperationFailed)
    ensures var e := env.restore;
            && Cycle(i, CycleTimes(env.read.l, env.read.r1, env.read.r2, e.now, e.at), entries, j)
            && var after := Executed(rs, op, SnapshotWith(rs, entries, env.read), env).ruleset;
               SHIELD in after && after[SHIELD] == CompiledTable(j.state, j.now, j.at)
  {
    var read := Inspected(entries, env.read.r1, env.read.r2);
    UndoneRestored(rs, op, SnapshotAs(true, read, env.read), env);
    TakenOverTable(read, env.read);
    var mid, e := Operated(rs, op, env.operation).1, env.restore;
    RestoredState(mid, read.value, e);
    ReconciledTable(mid, read.value, e);
    WellReinstalled(read.value, e.now, e.at);
    j := Installed(NormalForm(read.value, e.now), e.now, e.at);
  }

  lemma UndoneRestored(rs: Ruleset, op: Operation, snapshot: Outcome<Snapshot>, env: Env)
    requires Executed(rs, op, snapshot, env).error == Some(OperationFailed)
    ensures snapshot.Returned?
    ensures var restored := Restored(Operated(rs, op, env.operation).1, snapshot.value, env.restore);
            restored.0.Returned? && Executed(rs, op, snapshot, env).ruleset == restored.1
  {
  }

  lemma TakenOverTable(read: Option<State>, e: ReadEnv)
    requires e.Clean() && SnapshotAs(true, read, e).Returned?
    ensures read.Some? && SnapshotAs(true, read, e).value == Snapshot(NFTables, Data(SNAPSHOT_VERSION, true, read.value))
  {
  }

  lemma RestoredState(rs: Ruleset, s: State, e: ApplyEnv)
    ensures Restored(rs, Snapshot(NFTables, Data(SNAPSHOT_VERSION, true, s)), e) == Reconciled(rs, s, e)
  {
  }

  /** A valid state in range, installed at `now`, is a well-formed installation. */
  lemma WellReinstalled(s: State, now: Time, at: Time)
    requires Valid(s) && WithinRange(s.temporaryBans, now) && 0 <= now <= at
    ensures WellInstalled(Installed(NormalForm(s, now), now, at))
  {
    NormalizeComposes(s, now, now);
    WithinRangeOfInput(s, now);
  }

  /**
    Rollback restores behaviour: after a failed operation that was undone,
    Shield's verdicts are those of the table before the operation, except around
    the end of a ban, within a second and the delays.
   */
  lemma RollbackKeepsVerdicts(rs: Ruleset, i: Installed, op: Operation, entries: seq<Entry>, env: Env, src: Addr, t: Time)
    requires WellInstalled(i) && SHIELD in rs && rs[SHIELD] == CompiledTable(i.state, i.now, i.at)
    requires i.at <= env.read.l <= env.read.r1 <= env.read.r2 <= env.restore.now <= env.restore.at <= t
    requires env.read.Clean() && Prints(rs, entries, env.read.l)
    requires Executed(rs, op, SnapshotWith(rs, entries, env.read), env).error == Some(OperationFailed)
    ensures var after := Executed(rs, op, SnapshotWith(rs, entries, env.read), env).ruleset;
            var delay := (env.read.r1 - env.read.l) + (env.restore.at - env.restore.now);
            InputVerdict(after, SHIELD, src, t) == InputVerdict(rs, SHIELD, src, t) || NearEnd(i, src, t, delay)
  {
    var j := RollbackIsOneCycle(rs, i, op, entries, env);
    var e := env.restore;
    CycleKeepsVerdicts(rs, i, CycleTimes(env.read.l, env.read.r1, env.read.r2, e.now, e.at), entries,
                       Executed(rs, op, SnapshotWith(rs, entries, env.read), env).ruleset, j, src, t);
  }
}
