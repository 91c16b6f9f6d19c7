/** What every run of configuration changes keeps: revisions, backups, file and runtime. */
module ConfigRevisions {
  import opened Wrappers
  import opened Config
  import opened ConfigManager

  /** configs[i] is the configuration that revision i + 1 made current. */
  ghost predicate RevisionsOk(s: State, configs: seq<Config>, checks: Checks) {
    && s.version == |s.history| == |configs| >= 1
    && configs[|configs| - 1] == s.current
    && forall i :: 0 <= i < |configs| ==> RevisionOk(s, configs[i], i, checks)
  }

  /** Revision i + 1 is numbered, checksummed and, unless its write failed, backed up as c. */
  ghost predicate RevisionOk(s: State, c: Config, i: nat, checks: Checks)
    requires i < |s.history|
  {
    && Valid(c, checks)
    && s.history[i].version == i + 1
    && s.history[i].checksum == Sha256(Encode(c))
    && (i + 1 in s.lost || (i + 1 in s.disk.backups && s.disk.backups[i + 1] == Encode(c)))
  }

  /** The runtime is the one made from the current configuration, and accepts every revision. */
  ghost predicate RuntimeOk(s: State, configs: seq<Config>, checks: Checks) {
    s.runtime.Some? ==>
      && s.runtime.value == NewRuntime(s.current)
      && forall i :: 0 <= i < |configs| ==> Accepts(s.runtime.value, configs[i], checks)
  }

  ghost predicate Inv(s: State, configs: seq<Config>, checks: Checks) {
    RevisionsOk(s, configs, checks) && RuntimeOk(s, configs, checks)
  }

  ghost predicate FileIsCurrent(s: State, checks: Checks) {
    s.disk.file.Some? && LoadFile(s.disk.file.value, checks) == Some(s.current)
  }

  /** A file that encodes a valid configuration decodes to the current one exactly when it is that one. */
  lemma FileHolds(s: State, c: Config, checks: Checks)
    requires Valid(c, checks) && s.disk.file == Some(Encode(c))
    ensures FileIsCurrent(s, checks) <==> c == s.current
  {
    LoadInvertsEncode(c, checks);
  }

  /** The first revision, with or without a runtime made from it. */
  lemma StartedInv(c: Config, disk: Disk, installed: bool, checks: Checks)
    requires Valid(c, checks) && (installed ==> checks.alerts(c.alerts))
    ensures Inv(Started(c, disk).(runtime := if installed then Some(NewRuntime(c)) else None), [c], checks)
  {
  }

  /* ----- One change ----- */

  /** after is s, or s with one more revision. */
  ghost predicate Extends(s: State, configs: seq<Config>, after: State, configs': seq<Config>, checks: Checks) {
    && Inv(after, configs', checks)
    && configs <= configs' && s.history <= after.history
    && (s.runtime.Some? <==> after.runtime.Some?)
  }

  lemma BackupWritten(backups: map<int, Document>, v: int, d: Document, f: BackupFault)
    ensures var w := WrittenBackup(backups, v, d, f);
            && (forall x :: x in backups && x != v ==> x in w && w[x] == backups[x])
            && (f.BackupOk? ==> v in w && w[v] == d)
  {
  }

  lemma ApplyExtends(s: State, configs: seq<Config>, c: Config, summary: Summary, f: BackupFault, checks: Checks)
    returns (configs': seq<Config>)
    requires Inv(s, configs, checks) && Valid(c, checks)
    ensures Extends(s, configs, ApplyTo(s, c, summary, f, checks).1, configs', checks)
    ensures ApplyTo(s, c, summary, f, checks).0 ==> configs' == configs + [c]
  {
    var after := ApplyTo(s, c, summary, f, checks).1;
    if s.runtime.Some? && !Accepts(s.runtime.value, c, checks) {
      configs' := configs;
    } else {
      configs' := configs + [c];
      BackupWritten(s.disk.backups, s.version + 1, Encode(c), f);
      forall i | 0 <= i < |configs'| ensures RevisionOk(after, configs'[i], i, checks) {
        assert i < |configs| ==> configs'[i] == configs[i] && RevisionOk(s, configs[i], i, checks);
      }
      if s.runtime.Some? {
        forall i | 0 <= i < |configs'| ensures Accepts(after.runtime.value, configs'[i], checks) {
          assert i < |configs| ==> configs'[i] == configs[i] && Accepts(s.runtime.value, configs[i], checks);
        }
      }
    }
  }

  lemma FileKeepsInv(s: State, configs: seq<Config>, file: Option<Document>, checks: Checks)
    requires Inv(s, configs, checks)
    ensures Inv(s.(disk := s.disk.(file := file)), configs, checks)
  {
    var t := s.(disk := s.disk.(file := file));
    forall i | 0 <= i < |configs| ensures RevisionOk(t, configs[i], i, checks) {
      assert RevisionOk(s, configs[i], i, checks);
    }
  }

  /** Write a file, apply, and on failure perhaps write another file: what updates and rollbacks share. */
  lemma ChangeExtends(s: State, configs: seq<Config>, d: Document, c: Config, summary: Summary, env: Env, checks: Checks)
    returns (configs': seq<Config>)
    requires Inv(s, configs, checks) && Valid(c, checks)
    ensures var (ok, after) := ApplyTo(WithFile(s, d), c, summary, env.backup, checks);
            && Extends(s, configs, after, configs', checks)
            && Extends(s, configs, Undo(after, s.current, env).1, configs', checks)
  {
    FileKeepsInv(s, configs, Some(d), checks);
    configs' := ApplyExtends(WithFile(s, d), configs, c, summary, env.backup, checks);
    FileKeepsInv(ApplyTo(WithFile(s, d), c, summary, env.backup, checks).1, configs', Some(Encode(s.current)), checks);
  }

  lemma UpdateExtends(s: State, configs: seq<Config>, c: Config, summary: string, env: Env, checks: Checks)
    returns (configs': seq<Config>)
    requires Inv(s, configs, checks)
    ensures Extends(s, configs, Updated(s, c, summary, env, checks).1, configs', checks)
  {
    configs' := configs;
    if Valid(c, checks) && !env.writeFails {
      FileKeepsInv(s, configs, Some(Encode(c)), checks);
      FileKeepsInv(WithFile(s, Encode(c)), configs, Some(Encode(s.current)), checks);
      if !env.readFails {
        configs' := ChangeExtends(s, configs, Encode(c), c, Text(summary), env, checks);
      }
    }
  }

  lemma RollbackExtends(s: State, configs: seq<Config>, v: int, env: Env, checks: Checks) returns (configs': seq<Config>)
    requires Inv(s, configs, checks)
    ensures Extends(s, configs, RolledBack(s, v, env, checks).1, configs', checks)
  {
    configs' := configs;
    if RolledBack(s, v, env, checks).0 != Refused {
      var data := s.disk.backups[v];
      configs' := ChangeExtends(s, configs, data, LoadBytes(data, checks).value, RolledBackTo(v), env, checks);
    }
  }

  lemma ReloadExtends(s: State, configs: seq<Config>, env: Env, checks: Checks) returns (configs': seq<Config>)
    requires Inv(s, configs, checks)
    ensures Extends(s, configs, ReloadedFrom(s, env, checks).1, configs', checks)
  {
    configs' := configs;
    if !env.readFails && s.disk.file.Some? && LoadFile(s.disk.file.value, checks).Some? {
      configs' := ApplyExtends(s, configs, LoadFile(s.disk.file.value, checks).value, Reloaded, env.backup, checks);
    }
  }

  /* ----- Runs ----- */

  datatype Event =
    | Update(candidate: Config, summary: string, env: Env)
    | Rollback(version: int, env: Env)
    | Reload(env: Env)
    | EditFile(file: Option<Document>)  // an operator's edit of the configuration file

  function Next(s: State, e: Event, checks: Checks): State {
    match e
    case Update(c, summary, env) => Updated(s, c, summary, env, checks).1
    case Rollback(v, env) => RolledBack(s, v, env, checks).1
    case Reload(env) => ReloadedFrom(s, env, checks).1
    case EditFile(file) => s.(disk := s.disk.(file := file))
  }

  function AfterAll(s: State, events: seq<Event>, checks: Checks): State {
    if events == [] then s
    else Next(AfterAll(s, events[..|events| - 1], checks), events[|events| - 1], checks)
  }

  lemma NextExtends(s: State, configs: seq<Config>, e: Event, checks: Checks) returns (configs': seq<Config>)
    requires Inv(s, configs, checks)
    ensures Extends(s, configs, Next(s, e, checks), configs', checks)
  {
    match e {
      case Update(c, summary, env) => configs' := UpdateExtends(s, configs, c, summary, env, checks);
      case Rollback(v, env) => configs' := RollbackExtends(s, configs, v, env, checks);
      case Reload(env) => configs' := ReloadExtends(s, configs, env, checks);
      case EditFile(file) =>
        configs' := configs;
        FileKeepsInv(s, configs, file, checks);
    }
  }

  /**
    Over every run of updates, rollbacks, reloads and edits, with any of their
    disk operations failing: history is append-only, version i has number i and
    the checksum of the configuration it made current, and its backup encodes
    that configuration unless the backup's own write failed.
   */
  lemma {:induction false} RunExtends(s: State, configs: seq<Config>, events: seq<Event>, checks: Checks)
    returns (configs': seq<Config>)
    requires Inv(s, configs, checks)
    ensures Extends(s, configs, AfterAll(s, events, checks), configs', checks)
  {
    configs' := configs;
    if events != [] {
      var n := |events| - 1;
      var mid := RunExtends(s, configs, events[..n], checks);
      configs' := NextExtends(AfterAll(s, events[..n], checks), mid, events[n], checks);
    }
  }

  /** A running application, started with the configuration c, after these events. */
  function Running(c: Config, disk: Disk, events: seq<Event>, checks: Checks): State {
    AfterAll(Started(c, disk).(runtime := Some(NewRuntime(c))), events, checks)
  }

  /** Its revisions: the first is c, the last is current. */
  lemma RunningInv(c: Config, disk: Disk, events: seq<Event>, checks: Checks) returns (configs: seq<Config>)
    requires Valid(c, checks) && checks.alerts(c.alerts)
    ensures Inv(Running(c, disk, events, checks), configs, checks)
    ensures Running(c, disk, events, checks).runtime.Some? && configs[0] == c
  {
    StartedInv(c, disk, true, checks);
    configs := RunExtends(Started(c, disk).(runtime := Some(NewRuntime(c))), [c], events, checks);
  }

  /**
    Runtime and manager stay in step over every run: the application runs the
    manager's current configuration, with its threshold and alerts, which passed
    every check that a configuration must; and the restart-only parts keep their
    start-up values.
   */
  lemma RuntimeInStep(c: Config, disk: Disk, events: seq<Event>, checks: Checks)
    requires Valid(c, checks) && checks.alerts(c.alerts)
    ensures var after := Running(c, disk, events, checks);
            var now := after.current;
            && after.runtime == Some(Runtime(now, now.detection.packetThreshold, now.alerts))
            && now.general == c.general && now.firewall == c.firewall
            && now.api == c.api && now.logging == c.logging
            && now.detection.windowSeconds == c.detection.windowSeconds
            && now.detection.packetThreshold > 0 && checks.alerts(now.alerts)
  {
    var configs := RunningInv(c, disk, events, checks);
    var after := Running(c, disk, events, checks);
    assert Accepts(after.runtime.value, configs[0], checks);
    assert Accepts(after.runtime.value, configs[|configs| - 1], checks);
    assert RevisionOk(after, configs[|configs| - 1], |configs| - 1, checks);
  }

  /** What a configuration must satisfy, part by part. */
  lemma ValidIff(c: Config, checks: Checks)
    ensures Valid(c, checks) <==>
            && checks.path(c.general.logDir) && checks.path(c.general.stateDir)
            && checks.backendName(c.firewall.backend)
            && c.firewall.rateLimitPerSecond >= 1 && c.firewall.connectionLimit >= 1
            && c.detection.windowSeconds >= 1 && c.detection.packetThreshold >= 1
            && (!c.api.enabled ||
                (!checks.blank(c.api.token) && c.api.rateLimit >= 1 && c.api.rateBurst >= 1
                 && c.api.bindAddress != "" && checks.bindAddress(c.api.bindAddress)))
  {
  }

  /**
    Which updates a running application takes, whatever happened since its start
    with c: with a working disk, exactly those that are valid, keep the parts that
    need a restart, and have good alert settings. Any other leaves everything the
    manager and the runtime had.
   */
  lemma UpdateTakenIff(c: Config, disk: Disk, events: seq<Event>, candidate: Config, summary: string, env: Env, checks: Checks)
    requires Valid(c, checks) && checks.alerts(c.alerts)
    requires !env.readFails && !env.writeFails && !env.restoreFails && env.backup.BackupOk?
    ensures var before := Running(c, disk, events, checks);
            var (o, after) := Updated(before, candidate, summary, env, checks);
            && (o == Applied <==>
                  && checks.path(candidate.general.logDir) && checks.path(candidate.general.stateDir)
                  && checks.backendName(candidate.firewall.backend)
                  && candidate.firewall.rateLimitPerSecond >= 1 && candidate.firewall.connectionLimit >= 1
                  && candidate.detection.windowSeconds >= 1 && candidate.detection.packetThreshold >= 1
                  && (!candidate.api.enabled ||
                      (!checks.blank(candidate.api.token) && candidate.api.rateLimit >= 1 && candidate.api.rateBurst >= 1
                       && candidate.api.bindAddress != "" && checks.bindAddress(candidate.api.bindAddress)))
                  && candidate.general == c.general && candidate.firewall == c.firewall
                  && candidate.api == c.api && candidate.logging == c.logging
                  && candidate.detection.windowSeconds == c.detection.windowSeconds
                  && checks.alerts(candidate.alerts))
            && (o == Applied ==> after.current == candidate)
            && (o != Applied ==>
                  && after.current == before.current && after.runtime == before.runtime
                  && after.version == before.version && after.history == before.history)
  {
    RuntimeInStep(c, disk, events, checks);
    ValidIff(candidate, checks);
  }

  /* ----- Outcomes ----- */

  lemma BackupDecodes(s: State, configs: seq<Config>, v: int, checks: Checks)
    requires Inv(s, configs, checks) && 1 <= v <= s.version && v !in s.lost
    ensures v in s.disk.backups && s.disk.backups[v] == Encode(configs[v - 1])
    ensures LoadBytes(s.disk.backups[v], checks) == Some(configs[v - 1])
    ensures s.history[v - 1].checksum == Sha256(Encode(configs[v - 1]))
    ensures s.runtime.Some? ==> Accepts(s.runtime.value, configs[v - 1], checks)
    ensures Valid(configs[v - 1], checks)
  {
    assert RevisionOk(s, configs[v - 1], v - 1, checks);
    LoadInvertsEncode(configs[v - 1], checks);
  }

  predicate SameManager(s: State, t: State) {
    && s.current == t.current && s.version == t.version && s.history == t.history
    && s.runtime == t.runtime && s.disk.backups == t.disk.backups
  }

  /** The callback, if installed, accepts the configuration. */
  predicate Passes(s: State, c: Config, checks: Checks) {
    s.runtime.Some? ==> Accepts(s.runtime.value, c, checks)
  }

  /** The rollback got as far as writing the new revision's backup. */
  predicate RollbackReaches(s: State, v: int, env: Env, checks: Checks) {
    && 1 <= v <= |s.history| && !env.readFails && !env.writeFails
    && v in s.disk.backups && LoadBytes(s.disk.backups[v], checks).Some?
    && Passes(s, LoadBytes(s.disk.backups[v], checks).value, checks)
  }

  /**
    Every rollback, to a known version or not, to a good backup or a damaged one:
    a failure leaves the manager and the runtime as they were exactly when it was
    not the backup write that failed; once the restoring write succeeds, the file
    then decodes to the current configuration. A success makes what the backup
    says over zero values current, and the file, which has the backup's own text,
    agrees exactly when its keys are known and no nonzero default is missing.
   */
  lemma RollbackFailures(s: State, configs: seq<Config>, v: int, env: Env, checks: Checks)
    requires Inv(s, configs, checks)
    ensures var (o, after) := RolledBack(s, v, env, checks);
            && (o == Applied <==> RollbackReaches(s, v, env, checks) && env.backup.BackupOk?)
            && (o == Applied ==>
                  var backup := s.disk.backups[v];
                  && Some(after.current) == LoadBytes(backup, checks)
                  && |after.history| == |s.history| + 1
                  && (FileIsCurrent(after, checks) <==> KeysOk(backup) && Complete(backup)))
            && (o == Refused ==> after == s)
            && (o != Applied ==>
                  (SameManager(s, after) <==> !(RollbackReaches(s, v, env, checks) && env.backup.BackupFails?)))
            && (o == Undone && SameManager(s, after) ==> FileIsCurrent(after, checks))
  {
    var (o, after) := RolledBack(s, v, env, checks);
    assert RevisionOk(s, configs[|configs| - 1], |configs| - 1, checks);
    if o == Undone {
      FileHolds(after, s.current, checks);
    } else if o == Applied {
      LoadersAgreeIff(s.disk.backups[v], checks);
    }
  }

  /**
    A damaged backup, with an unknown section behind a good encoding, is rolled
    back to without an error, and leaves a file that the next start refuses.
   */
  lemma DamagedBackupApplied(s: State, v: int, c: Config, name: string, env: Env, checks: Checks)
    requires 1 <= v <= |s.history| && v in s.disk.backups && Valid(c, checks) && Passes(s, c, checks)
    requires s.disk.backups[v] == Root(Encode(c).sections + [(OtherSection(name), NotMapping)])
    requires !env.readFails && !env.writeFails && env.backup.BackupOk?
    ensures var (o, after) := RolledBack(s, v, env, checks);
            && o == Applied && after.current == c
            && after.disk.file.Some? && LoadFile(after.disk.file.value, checks).None?
  {
    UnknownSection(c, name, NotMapping, checks);
  }

  /**
    Rollback to a kept revision, in every reachable state: it is never vetoed,
    makes that configuration current as one new revision with the old checksum,
    and leaves the file decoding to it, unless a disk operation fails.
   */
  lemma RollbackOutcome(s: State, configs: seq<Config>, v: int, env: Env, checks: Checks)
    requires Inv(s, configs, checks) && 1 <= v <= s.version && v !in s.lost
    ensures var (o, after) := RolledBack(s, v, env, checks);
            && (RollbackReaches(s, v, env, checks) <==> !env.readFails && !env.writeFails)
            && (o == Applied <==> !env.readFails && !env.writeFails && env.backup.BackupOk?)
            && (o == Applied ==>
                  && after.current == configs[v - 1] && FileIsCurrent(after, checks)
                  && after.history == s.history + [Change(s.version + 1, s.history[v - 1].checksum, RolledBackTo(v))])
  {
    BackupDecodes(s, configs, v, checks);
    var (o, after) := RolledBack(s, v, env, checks);
    if o == Applied {
      FileHolds(after, configs[v - 1], checks);
    }
  }

  /**
    When only the new revision's backup cannot be written, the rollback reports an
    error but its configuration stays current; the file agrees only if it could
    not be restored either, or the rollback changed nothing.
   */
  lemma FailedRollbackDisagrees(s: State, configs: seq<Config>, v: int, env: Env, checks: Checks)
    requires Inv(s, configs, checks) && 1 <= v <= s.version && v !in s.lost
    requires !env.readFails && !env.writeFails && env.backup.BackupFails?
    ensures var (o, after) := RolledBack(s, v, env, checks);
            && o == (if env.restoreFails then UndoFailed else Undone)
            && after.current == configs[v - 1] && |after.history| == |s.history| + 1
            && (FileIsCurrent(after, checks) <==> env.restoreFails || configs[v - 1] == s.current)
  {
    BackupDecodes(s, configs, v, checks);
    assert RevisionOk(s, configs[|configs| - 1], |configs| - 1, checks);
    var after := RolledBack(s, v, env, checks).1;
    FileHolds(after, if env.restoreFails then configs[v - 1] else s.current, checks);
  }

  /** The update got as far as writing the new revision's backup. */
  predicate ReachesBackup(s: State, c: Config, env: Env, checks: Checks) {
    Valid(c, checks) && !env.writeFails && !env.readFails && Passes(s, c, checks)
  }

  /**
    A nil update makes the candidate current, as one new revision, with the file
    decoding to it. A failed one leaves the manager and the runtime as they were
    exactly when it was not the backup write that failed; once the restoring
    write succeeds, the file then decodes to the current configuration.
   */
  lemma UpdateOutcome(s: State, configs: seq<Config>, c: Config, summary: string, env: Env, checks: Checks)
    requires Inv(s, configs, checks)
    ensures var (o, after) := Updated(s, c, summary, env, checks);
            && (o == Applied <==> ReachesBackup(s, c, env, checks) && env.backup.BackupOk?)
            && (o == Applied ==>
                  && after.current == c && FileIsCurrent(after, checks)
                  && after.history == s.history + [Change(s.version + 1, Sha256(Encode(c)), Text(summary))])
            && (o == Refused ==> after == s)
            && (o != Applied ==>
                  (SameManager(s, after) <==> !(ReachesBackup(s, c, env, checks) && env.backup.BackupFails?)))
            && (o == Undone && SameManager(s, after) ==> FileIsCurrent(after, checks))
  {
    var (o, after) := Updated(s, c, summary, env, checks);
    assert RevisionOk(s, configs[|configs| - 1], |configs| - 1, checks);
    if o == Applied {
      FileHolds(after, c, checks);
    } else if o == Undone {
      FileHolds(after, s.current, checks);
    }
  }

  /**
    A failed backup write breaks the agreement: the update reports an error and
    writes the old configuration back, but the candidate stays current. The file
    then decodes to the current configuration only if it could not be written
    back, or the update changed nothing.
   */
  lemma FailedBackupDisagrees(s: State, configs: seq<Config>, c: Config, summary: string, env: Env, checks: Checks)
    requires Inv(s, configs, checks) && ReachesBackup(s, c, env, checks) && env.backup.BackupFails?
    ensures var (o, after) := Updated(s, c, summary, env, checks);
            && o == (if env.restoreFails then UndoFailed else Undone)
            && after.current == c && |after.history| == |s.history| + 1
            && (FileIsCurrent(after, checks) <==> env.restoreFails || c == s.current)
  {
    assert RevisionOk(s, configs[|configs| - 1], |configs| - 1, checks);
    FileHolds(Updated(s, c, summary, env, checks).1, if env.restoreFails then c else s.current, checks);
  }

  /** The reload got as far as writing the new revision's backup. */
  predicate ReloadReaches(s: State, env: Env, checks: Checks) {
    && !env.readFails && s.disk.file.Some? && LoadFile(s.disk.file.value, checks).Some?
    && Passes(s, LoadFile(s.disk.file.value, checks).value, checks)
  }

  /**
    A reload never writes the file, and a nil one adopts what it says. A failed
    one changes nothing, unless it was the backup write that failed: then the
    file's configuration is current all the same, as one new revision.
   */
  lemma ReloadOutcome(s: State, env: Env, checks: Checks)
    ensures var (o, after) := ReloadedFrom(s, env, checks);
            && (o == Applied <==> ReloadReaches(s, env, checks) && env.backup.BackupOk?)
            && after.disk.file == s.disk.file
            && (o != Applied ==> (after == s <==> !(ReloadReaches(s, env, checks) && env.backup.BackupFails?)))
            && (ReloadReaches(s, env, checks) ==>
                  && FileIsCurrent(after, checks)
                  && after.history == s.history + [Change(s.version + 1, Sha256(Encode(after.current)), Reloaded)])
  {
  }
}
