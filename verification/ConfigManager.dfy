/**
  The versioned configuration manager over its file and numbered backups, and
  the application's apply callback. Each disk operation can fail, as decided by
  the environment record of the call.
 */
module ConfigManager {
  import opened Wrappers
  import opened Config

  /** SHA-256 of an encoding, taken as collision-free. */
  datatype Digest = Sha256(of: Document)

  datatype Summary = Initial | Reloaded | Text(text: string) | RolledBackTo(version: int)

  datatype Change = Change(version: int, checksum: Digest, summary: Summary)

  datatype Disk = Disk(file: Option<Document>, backups: map<int, Document>)

  /* ----- The application's side ----- */

  /** The runtime's copy of the configuration, the detection threshold and the alert settings. */
  datatype Runtime = Runtime(cfg: Config, threshold: int, alerts: Alerts)

  function EngineThreshold(n: int): int {
    if n <= 0 then 1000 else n
  }

  function NewRuntime(c: Config): Runtime {
    Runtime(c, EngineThreshold(c.detection.packetThreshold), c.alerts)
  }

  /** Fields that only a restart may change. */
  datatype RestartOnly = RestartOnly(general: General, firewall: Firewall, api: Api, windowSeconds: int, logging: Logging)

  function RestartFields(c: Config): RestartOnly {
    RestartOnly(c.general, c.firewall, c.api, c.detection.windowSeconds, c.logging)
  }

  predicate Accepts(r: Runtime, c: Config, checks: Checks) {
    RestartFields(c) == RestartFields(r.cfg) && checks.alerts(c.alerts)
  }

  class Application {
    var cfg: Config
    var threshold: int
    var alerts: Alerts

    ghost function View(): Runtime
      reads this
    {
      Runtime(cfg, threshold, alerts)
    }

    constructor (cfg: Config)
      ensures View() == NewRuntime(cfg)
    {
      this.cfg := cfg;
      threshold := EngineThreshold(cfg.detection.packetThreshold);
      alerts := cfg.alerts;
    }

    method ApplyConfiguration(candidate: Config, checks: Checks) returns (ok: bool)
      modifies this
      ensures ok == Accepts(old(View()), candidate, checks)
      ensures ok <==>
                && candidate.general == old(cfg).general && candidate.firewall == old(cfg).firewall
                && candidate.api == old(cfg).api && candidate.logging == old(cfg).logging
                && candidate.detection.windowSeconds == old(cfg).detection.windowSeconds
                && checks.alerts(candidate.alerts)
      ensures ok ==> cfg == candidate && alerts == candidate.alerts
      ensures View() == if ok then NewRuntime(candidate) else old(View())
    {
      if candidate.general != cfg.general { return false; }
      if candidate.firewall != cfg.firewall { return false; }
      if candidate.api != cfg.api { return false; }
      if candidate.detection.windowSeconds != cfg.detection.windowSeconds { return false; }
      if candidate.logging != cfg.logging { return false; }
      if !checks.alerts(candidate.alerts) { return false; }
      threshold := EngineThreshold(candidate.detection.packetThreshold);
      alerts := candidate.alerts;
      cfg := candidate;
      return true;
    }
  }

  /* ----- Specification of the manager ----- */

  /** A manager with a path: its fields, its disk, the installed runtime, and the backups whose write failed. */
  datatype State = State(
    current: Config, version: int, history: seq<Change>, disk: Disk,
    runtime: Option<Runtime>, lost: set<int>)

  /** A failed backup write leaves the old file, or anything else in its place. */
  datatype BackupFault = BackupOk | BackupFails(left: Option<Document>)

  /** The environment of one call: which reads and writes fail. */
  datatype Env = Env(readFails: bool, writeFails: bool, backup: BackupFault, restoreFails: bool)

  /** Applied is a nil result; Refused an error before or without undoing; the others after an undo. */
  datatype Outcome = Applied | Refused | Undone | UndoFailed

  function WrittenBackup(backups: map<int, Document>, version: int, d: Document, f: BackupFault): map<int, Document> {
    match f
    case BackupOk => backups[version := d]
    case BackupFails(None) => backups
    case BackupFails(Some(junk)) => backups[version := junk]
  }

  function ApplyTo(s: State, c: Config, summary: Summary, f: BackupFault, checks: Checks): (bool, State) {
    if s.runtime.Some? && !Accepts(s.runtime.value, c, checks) then (false, s)
    else
      var v := s.version + 1;
      (f.BackupOk?,
       State(c, v, s.history + [Change(v, Sha256(Encode(c)), summary)],
             s.disk.(backups := WrittenBackup(s.disk.backups, v, Encode(c), f)),
             if s.runtime.Some? then Some(NewRuntime(c)) else None,
             if f.BackupOk? then s.lost else s.lost + {v}))
  }

  function WithFile(s: State, d: Document): State {
    s.(disk := s.disk.(file := Some(d)))
  }

  /** The end of a failed change: write the previous configuration back. */
  function Undo(s: State, previous: Config, env: Env): (Outcome, State) {
    if env.restoreFails then (UndoFailed, s) else (Undone, WithFile(s, Encode(previous)))
  }

  /** Writing and reading back gives the candidate itself, unless the read fails. */
  function Updated(s: State, c: Config, summary: string, env: Env, checks: Checks): (Outcome, State) {
    if !Valid(c, checks) || env.writeFails then (Refused, s)
    else
      var written := WithFile(s, Encode(c));
      if env.readFails then Undo(written, s.current, env)
      else
        var (ok, after) := ApplyTo(written, c, Text(summary), env.backup, checks);
        if ok then (Applied, after) else Undo(after, s.current, env)
  }

  function RolledBack(s: State, version: int, env: Env, checks: Checks): (Outcome, State) {
    if version < 1 || version > |s.history| || env.readFails || version !in s.disk.backups then (Refused, s)
    else
      var data := s.disk.backups[version];
      var candidate := LoadBytes(data, checks);
      if candidate.None? || env.writeFails then (Refused, s)
      else
        var (ok, after) := ApplyTo(WithFile(s, data), candidate.value, RolledBackTo(version), env.backup, checks);
        if ok then (Applied, after) else Undo(after, s.current, env)
  }

  function ReloadedFrom(s: State, env: Env, checks: Checks): (Outcome, State) {
    if env.readFails || s.disk.file.None? || LoadFile(s.disk.file.value, checks).None? then (Refused, s)
    else
      var (ok, after) := ApplyTo(s, LoadFile(s.disk.file.value, checks).value, Reloaded, env.backup, checks);
      (if ok then Applied else Refused, after)
  }

  /* ----- The manager ----- */

  class Manager {
    const checks: Checks
    const hasPath: bool
    var current: Config
    var version: int
    var history: seq<Change>
    var disk: Disk
    var app: Application?
    ghost var lost: set<int>

    ghost function View(): State
      reads this, app
    {
      State(current, version, history, disk, if app == null then None else Some(app.View()), lost)
    }

    /** A manager as NewManager leaves it: without a path it has no history. */
    constructor (checks: Checks, hasPath: bool, current: Config, disk: Disk)
      ensures this.checks == checks && this.hasPath == hasPath && app == null
      ensures View() == if hasPath then Started(current, disk) else State(current, 0, [], disk, None, {})
    {
      this.checks, this.hasPath, this.current, app, lost := checks, hasPath, current, null, {};
      version := if hasPath then 1 else 0;
      history := if hasPath then [Change(1, Sha256(Encode(current)), Initial)] else [];
      this.disk := if hasPath then disk.(backups := disk.backups[1 := Encode(current)]) else disk;
    }

    method SetApply(app: Application)
      modifies this
      ensures View() == old(View()).(runtime := Some(app.View())) && this.app == app
    {
      this.app := app;
    }

    /** Atomic replacement of the configuration file: it fails without effect or succeeds. */
    method WriteAtomically(d: Document, fails: bool) returns (ok: bool)
      modifies this
      ensures ok == !fails && app == old(app)
      ensures View() == if ok then WithFile(old(View()), d) else old(View())
    {
      if fails {
        return false;
      }
      disk := disk.(file := Some(d));
      return true;
    }

    method ApplyLocked(candidate: Config, summary: Summary, backup: BackupFault) returns (ok: bool)
      modifies this, app
      ensures app == old(app)
      ensures (ok, View()) == ApplyTo(old(View()), candidate, summary, backup, checks)
    {
      if app != null {
        var accepted := app.ApplyConfiguration(candidate, checks);
        if !accepted {
          return false;
        }
      }
      current := candidate;
      version := version + 1;
      var data := Encode(candidate);
      history := history + [Change(version, Sha256(data), summary)];
      disk := disk.(backups := WrittenBackup(disk.backups, version, data, backup));
      if !backup.BackupOk? {
        lost := lost + {version};
        return false;
      }
      return true;
    }

    method Update(candidate: Config, summary: string, env: Env) returns (o: Outcome)
      modifies this, app
      ensures app == old(app)
      ensures !hasPath ==> o == Refused && View() == old(View())
      ensures hasPath ==> (o, View()) == Updated(old(View()), candidate, summary, env, checks)
    {
      if !Valid(candidate, checks) || !hasPath {
        return Refused;
      }
      var previous := current;
      var written := WriteAtomically(Encode(candidate), env.writeFails);
      if !written {
        return Refused;
      }
      var loaded := None;
      if !env.readFails {
        LoadInvertsEncode(candidate, checks);
        loaded := LoadFromFile(disk.file.value, checks);
      }
      if loaded.Some? {
        var ok := ApplyLocked(loaded.value, Text(summary), env.backup);
        if ok {
          return Applied;
        }
      }
      var restored := WriteAtomically(Encode(previous), env.restoreFails);
      return if restored then Undone else UndoFailed;
    }

    method Rollback(version: int, env: Env) returns (o: Outcome)
      modifies this, app
      ensures app == old(app)
      ensures !hasPath ==> o == Refused && View() == old(View())
      ensures hasPath ==> (o, View()) == RolledBack(old(View()), version, env, checks)
    {
      if !hasPath || version < 1 || version > |history| || env.readFails || version !in disk.backups {
        return Refused;
      }
      var data := disk.backups[version];
      var candidate := LoadBytes(data, checks);
      if candidate.None? {
        return Refused;
      }
      var previous := current;
      var written := WriteAtomically(data, env.writeFails);
      if !written {
        return Refused;
      }
      var ok := ApplyLocked(candidate.value, RolledBackTo(version), env.backup);
      if ok {
        return Applied;
      }
      var restored := WriteAtomically(Encode(previous), env.restoreFails);
      return if restored then Undone else UndoFailed;
    }

    method Reload(env: Env) returns (o: Outcome)
      modifies this, app
      ensures app == old(app)
      ensures !hasPath ==> o == Refused && View() == old(View())
      ensures hasPath ==> (o, View()) == ReloadedFrom(old(View()), env, checks)
    {
      if !hasPath || env.readFails || disk.file.None? {
        return Refused;
      }
      var candidate := LoadFromFile(disk.file.value, checks);
      if candidate.None? {
        return Refused;
      }
      var ok := ApplyLocked(candidate.value, Reloaded, env.backup);
      return if ok then Applied else Refused;
    }
  }

  /** Revision 1: the loaded configuration, its checksum and its backup. */
  function Started(c: Config, disk: Disk): State {
    State(c, 1, [Change(1, Sha256(Encode(c)), Initial)], disk.(backups := disk.backups[1 := Encode(c)]), None, {})
  }

  /** Both configurations must be valid: the given one, and the one loaded from the path if there is one. */
  method NewManager(checks: Checks, hasPath: bool, initial: Config, disk: Disk, readFails: bool, saveFails: bool)
    returns (m: Manager?)
    ensures m != null <==>
              && Valid(initial, checks)
              && (hasPath ==> !readFails && !saveFails && disk.file.Some? && LoadFile(disk.file.value, checks).Some?)
    ensures m != null ==>
              && fresh(m) && m.checks == checks && m.hasPath == hasPath && m.app == null
              && m.View() == if hasPath then Started(LoadFile(disk.file.value, checks).value, disk)
                             else State(initial, 0, [], disk, None, {})
  {
    if !Valid(initial, checks) {
      return null;
    }
    if !hasPath {
      m := new Manager(checks, false, initial, disk);
      return;
    }
    if readFails || disk.file.None? {
      return null;
    }
    var loaded := LoadFromFile(disk.file.value, checks);
    if loaded.None? || saveFails {
      return null;
    }
    m := new Manager(checks, true, loaded.value, disk);
  }
}
