/**
  The durable block and allow lists: crash-consistent replacement of the state
  file (the Linux path), and the mutations that write ahead of memory.
 */
module Storage {
  import opened Orders
  import opened Wrappers

  const CURRENT_VERSION: int := 1

  /** The persisted record; its time stamp plays no role and is left out. */
  datatype Snapshot = Snapshot(version: int, blacklist: seq<string>, whitelist: seq<string>)

  /** What decoding a file finds: a record, or anything the decoder refuses. */
  datatype Content = Json(snapshot: Snapshot) | Garbage

  datatype File = File(content: Content, synced: bool)

  /**
    The directory as the process sees it, and its earlier versions since the last
    directory sync, oldest first: any of their entries can be what a crash leaves.
   */
  datatype Disk = Disk(live: map<string, File>, past: seq<map<string, File>>)

  /* ----- The order of sort.Strings ----- */

  predicate StringLess(a: string, b: string) {
    b != [] && (a == [] || a[0] < b[0] || (a[0] == b[0] && StringLess(a[1..], b[1..])))
  }

  lemma {:induction false} StringLessAsymmetric(a: string, b: string)
    requires StringLess(a, b)
    ensures !StringLess(b, a)
  {
    if a != [] && a[0] == b[0] {
      StringLessAsymmetric(a[1..], b[1..]);
    }
  }

  lemma {:induction false} StringLessTransitive(a: string, b: string, c: string)
    requires StringLess(a, b) && StringLess(b, c)
    ensures StringLess(a, c)
  {
    if a != [] && a[0] == b[0] && b[0] == c[0] {
      StringLessTransitive(a[1..], b[1..], c[1..]);
    }
  }

  lemma {:induction false} StringLessConnected(a: string, b: string)
    ensures a == b || StringLess(a, b) || StringLess(b, a)
  {
    if a != [] && b != [] && a[0] == b[0] {
      StringLessConnected(a[1..], b[1..]);
      assert a == [a[0]] + a[1..] && b == [b[0]] + b[1..];
    }
  }

  /** The first difference decides, and a proper prefix comes first. */
  lemma {:induction false} StringLessIff(a: string, b: string)
    ensures StringLess(a, b) <==>
            exists k: nat :: k <= |a| && k < |b| && a[..k] == b[..k] && (k == |a| || a[k] < b[k])
  {
    if a != [] && b != [] && a[0] == b[0] {
      StringLessIff(a[1..], b[1..]);
      if k: nat :| k <= |a[1..]| && k < |b[1..]| && a[1..][..k] == b[1..][..k] && (k == |a[1..]| || a[1..][k] < b[1..][k]) {
        assert a[..k + 1] == [a[0]] + a[1..][..k] && b[..k + 1] == [b[0]] + b[1..][..k];
      }
      if k: nat :| k <= |a| && k < |b| && a[..k] == b[..k] && (k == |a| || a[k] < b[k]) {
        assert k > 0;
        assert a[1..][..k - 1] == a[..k][1..] && b[1..][..k - 1] == b[..k][1..];
      }
    } else if b != [] {
      assert a[..0] == b[..0];
      if k: nat :| k <= |a| && k < |b| && a[..k] == b[..k] && (k == |a| || a[k] < b[k]) {
        assert k > 0 ==> a[..k][0] == b[..k][0];
      }
    }
  }

  lemma StringLessIsTotal()
    ensures TotalOrder(StringLess)
  {
    forall x, y | StringLess(x, y) ensures !StringLess(y, x) {
      StringLessAsymmetric(x, y);
    }
    forall x, y, z | StringLess(x, y) && StringLess(y, z) ensures StringLess(x, z) {
      StringLessTransitive(x, y, z);
    }
    forall x, y ensures x == y || StringLess(x, y) || StringLess(y, x) {
      StringLessConnected(x, y);
    }
  }

  ghost function CanonicalStrings(all: set<string>): (s: seq<string>)
    ensures Elems(s) == all && Increasing(StringLess, s)
  {
    StringLessIsTotal();
    SortedOf(StringLess, all)
  }

  method UniqueSorted(values: seq<string>) returns (r: seq<string>)
    ensures r == CanonicalStrings(Elems(values))
  {
    var seen: set<string> := {};
    var result := [];
    for i := 0 to |values|
      invariant seen == Elems(values[..i]) == Elems(result) && Distinct(result)
    {
      assert Elems(values[..i + 1]) == Elems(values[..i]) + {values[i]};
      if values[i] in seen {
        continue;
      }
      seen := seen + {values[i]};
      assert forall j :: 0 <= j < |result| ==> result[j] in Elems(result);
      assert Elems(result + [values[i]]) == Elems(result) + {values[i]};
      result := result + [values[i]];
    }
    assert values[..|values|] == values;
    StringLessIsTotal();
    r := SortSlice(result, StringLess);
    SortedDistinct(StringLess, result, r);
    IncreasingUnique(StringLess, r, CanonicalStrings(Elems(values)));
  }

  method Without(values: seq<string>, target: string) returns (result: seq<string>)
    ensures Elems(result) == Elems(values) - {target}
  {
    result := [];
    for i := 0 to |values|
      invariant Elems(result) == Elems(values[..i]) - {target}
    {
      assert Elems(values[..i + 1]) == Elems(values[..i]) + {values[i]};
      if values[i] != target {
        assert Elems(result + [values[i]]) == Elems(result) + {values[i]};
        result := result + [values[i]];
      }
    }
    assert values[..|values|] == values;
  }

  /** A set manager's `List`: every element once, in any order. */
  method ListOf(items: set<string>) returns (out: seq<string>)
    ensures Elems(out) == items
  {
    out := [];
    var rest := items;
    while rest != {}
      invariant rest <= items && Elems(out) == items - rest
    {
      var ip :| ip in rest;
      assert Elems(out + [ip]) == Elems(out) + {ip};
      out := out + [ip];
      rest := rest - {ip};
    }
  }

  /* ----- Saving ----- */

  /** The calls of `Save`, in order, that can fail or be cut off by a crash. */
  datatype SaveStep = Create | Chmod | Encode | Sync | Close | Rename | OpenDir | SyncDir | CloseDir

  datatype Fault = NoFault | ErrorAt(step: SaveStep) | CrashAt(step: SaveStep)

  datatype Outcome = Done | Error | Crashed

  /** What the environment decides for one save: the temporary name, the fault, whether clean-up works. */
  datatype SaveEnv = SaveEnv(temp: string, fault: Fault, removes: bool)

  ghost function Record(blacklist: set<string>, whitelist: set<string>): Content {
    Json(Snapshot(CURRENT_VERSION, CanonicalStrings(blacklist), CanonicalStrings(whitelist)))
  }

  predicate BeforeCommit(step: SaveStep) {
    !(step.OpenDir? || step.SyncDir? || step.CloseDir?)
  }

  /** A rename moves the file as it is, synced or not. */
  function Renamed(live: map<string, File>, from: string, to: string): map<string, File>
    requires from in live
  {
    (live - {from})[to := live[from]]
  }

  /** Creating, renaming or removing a file makes a new version of the directory. */
  function Changed(d: Disk, live: map<string, File>): Disk {
    Disk(live, d.past + [d.live])
  }

  function Versions(d: Disk): seq<map<string, File>> {
    d.past + [d.live]
  }

  function Entry(dir: map<string, File>, path: string): Option<File> {
    if path in dir then Some(dir[path]) else None
  }

  /** The entries of the path in all versions since the last directory sync. */
  function Entries(d: Disk, path: string): set<Option<File>> {
    set v | v in Versions(d) :: Entry(v, path)
  }

  lemma EntriesChanged(d: Disk, live: map<string, File>, path: string)
    ensures Entries(Changed(d, live), path) == Entries(d, path) + {Entry(live, path)}
    ensures Entry(d.live, path) in Entries(d, path)
  {
    var d' := Changed(d, live);
    assert Versions(d') == Versions(d) + [live];
    assert Versions(d)[|d.past|] == d.live;
    forall v ensures v in Versions(d') <==> v in Versions(d) || v == live {
      assert v in [live] <==> v == live;
    }
  }

  lemma EntriesInPlace(d: Disk, live: map<string, File>, path: string)
    requires Entry(live, path) == Entry(d.live, path)
    ensures Entries(d.(live := live), path) == Entries(d, path)
  {
    var d' := d.(live := live);
    forall v ensures v in Versions(d) <==> v in d.past || v == d.live {
    }
    forall v ensures v in Versions(d') <==> v in d.past || v == live {
    }
    assert d.live in Versions(d) && live in Versions(d');
  }

  lemma EntriesSynced(live: map<string, File>, path: string)
    ensures Entries(Disk(live, []), path) == {Entry(live, path)}
  {
    assert Versions(Disk(live, [])) == [live];
  }

  /** The save had renamed the new file into place when it ended. */
  predicate Renames(fault: Fault) {
    fault.NoFault? || !BeforeCommit(fault.step)
  }

  /** And the directory had been synced. */
  predicate Syncs(fault: Fault) {
    fault.NoFault? || fault.step.CloseDir?
  }

  /** Nothing has happened to the path. */
  predicate SameFor(d: Disk, d': Disk, path: string) {
    Entry(d'.live, path) == Entry(d.live, path) && Entries(d', path) == Entries(d, path)
  }

  /** The state file after a save of `content`, in the process's view and in the versions a crash can leave. */
  ghost predicate SavedTo(d: Disk, d': Disk, path: string, content: Content, fault: Fault) {
    var saved := Some(File(content, true));
    && Entry(d'.live, path) == (if Renames(fault) then saved else Entry(d.live, path))
    && Entries(d', path) == if Syncs(fault) then {saved}
                            else if Renames(fault) then Entries(d, path) + {saved}
                            else Entries(d, path)
  }

  function OutcomeOf(fault: Fault): Outcome {
    match fault
    case NoFault => Done
    case ErrorAt(_) => Error
    case CrashAt(_) => Crashed
  }

  class FileStore {
    const path: string
    var disk: Disk

    constructor (path: string, disk: Disk)
      ensures this.path == path && this.disk == disk
    {
      this.path := path;
      this.disk := disk;
    }

    /** Whether this save ends at the given call. */
    predicate Stops(env: SaveEnv, step: SaveStep) {
      env.fault == ErrorAt(step) || env.fault == CrashAt(step)
    }

    /** Gives up before the commit: the deferred clean-up runs unless the process is gone. */
    method Abort(env: SaveEnv)
      requires env.temp != path
      modifies this
      ensures SameFor(old(disk), disk, path)
    {
      if env.fault.ErrorAt? && env.removes {
        EntriesChanged(disk, disk.live - {env.temp}, path);
        disk := Changed(disk, disk.live - {env.temp});
      }
    }

    /** Create, write and sync the temporary file. */
    method WriteTemporary(content: Content, env: SaveEnv) returns (ok: bool)
      requires env.temp != path && env.temp !in disk.live
      modifies this
      ensures SameFor(old(disk), disk, path)
      ensures ok <==> env.fault.NoFault? || env.fault.step !in {Create, Chmod, Encode, Sync}
      ensures ok ==> disk.live == old(disk).live[env.temp := File(content, true)]
    {
      if Stops(env, Create) {
        return false;
      }
      EntriesChanged(disk, disk.live[env.temp := File(Garbage, false)], path);
      disk := Changed(disk, disk.live[env.temp := File(Garbage, false)]);
      if Stops(env, Chmod) || Stops(env, Encode) {
        Abort(env);
        return false;
      }
      EntriesInPlace(disk, disk.live[env.temp := File(content, false)], path);
      disk := disk.(live := disk.live[env.temp := File(content, false)]);
      if Stops(env, Sync) {
        Abort(env);
        return false;
      }
      EntriesInPlace(disk, disk.live[env.temp := File(content, true)], path);
      disk := disk.(live := disk.live[env.temp := File(content, true)]);
      return true;
    }

    method Save(blacklist: seq<string>, whitelist: seq<string>, env: SaveEnv) returns (o: Outcome)
      requires env.temp != path && env.temp !in disk.live
      modifies this
      ensures o == OutcomeOf(env.fault)
      ensures SavedTo(old(disk), disk, path, Record(Elems(blacklist), Elems(whitelist)), env.fault)
      ensures env.fault.NoFault? || env.fault.step in {OpenDir, SyncDir, CloseDir} ==>
                && path in disk.live && disk.live[path].synced && disk.live[path].content.Json?
                && var s := disk.live[path].content.snapshot;
                   && s.version == 1
                   && Elems(s.blacklist) == Elems(blacklist) && Elems(s.whitelist) == Elems(whitelist)
                   && Increasing(StringLess, s.blacklist) && Increasing(StringLess, s.whitelist)
      ensures !env.fault.NoFault? && env.fault.step in {Create, Chmod, Encode, Sync, Close, Rename} ==>
                Entry(disk.live, path) == Entry(old(disk).live, path)
    {
      o := OutcomeOf(env.fault);
      var black := UniqueSorted(blacklist);
      var white := UniqueSorted(whitelist);
      var written := WriteTemporary(Json(Snapshot(CURRENT_VERSION, black, white)), env);
      if !written {
        return;
      }
      if Stops(env, Close) || Stops(env, Rename) {
        Abort(env);
        return;
      }
      Commit(env);
    }

    /** Rename the temporary file into place and sync the directory. */
    method Commit(env: SaveEnv)
      requires env.temp != path && env.temp in disk.live && Renames(env.fault)
      modifies this
      ensures var saved := Some(old(disk).live[env.temp]);
              && Entry(disk.live, path) == saved
              && Entries(disk, path) == if Syncs(env.fault) then {saved} else Entries(old(disk), path) + {saved}
    {
      EntriesChanged(disk, Renamed(disk.live, env.temp, path), path);
      disk := Changed(disk, Renamed(disk.live, env.temp, path));
      if Stops(env, OpenDir) || Stops(env, SyncDir) {
        return;
      }
      EntriesSynced(disk.live, path);
      disk := Disk(disk.live, []);
    }
  }

  /* ----- Loading ----- */

  /** The two lists in memory. */
  datatype Lists = Lists(black: set<string>, white: set<string>)

  ghost predicate GoodLists(l: Lists, valid: string -> bool) {
    l.black !! l.white && (forall ip :: ip in l.black || ip in l.white ==> valid(ip))
  }

  /** What `NewState` makes of an existing file; None is a refusal to start. */
  ghost function Loaded(content: Content, valid: string -> bool): Option<Lists> {
    if content.Garbage? || content.snapshot.version != CURRENT_VERSION then None
    else
      var l := Lists(Elems(content.snapshot.blacklist), Elems(content.snapshot.whitelist));
      if GoodLists(l, valid) then Some(l) else None
  }

  /** Exactly version 1 with valid addresses and no address on both lists is loaded, as the two sets it lists. */
  lemma LoadedIff(content: Content, valid: string -> bool, l: Lists)
    ensures Loaded(content, valid) == Some(l) <==>
            && content.Json? && content.snapshot.version == 1
            && (forall ip :: ip in content.snapshot.blacklist <==> ip in l.black)
            && (forall ip :: ip in content.snapshot.whitelist <==> ip in l.white)
            && (forall ip :: ip in l.black ==> valid(ip) && ip !in l.white)
            && (forall ip :: ip in l.white ==> valid(ip))
  {
    if content.Json? {
      var s := content.snapshot;
      assert Elems(s.blacklist) == l.black <==> forall ip :: ip in s.blacklist <==> ip in l.black;
      assert Elems(s.whitelist) == l.white <==> forall ip :: ip in s.whitelist <==> ip in l.white;
    }
  }

  method Load(content: Content, valid: string -> bool) returns (r: Option<Lists>)
    ensures r == Loaded(content, valid)
  {
    if content.Garbage? || content.snapshot.version != CURRENT_VERSION {
      return None;
    }
    var whitelist := UniqueSorted(content.snapshot.whitelist);
    var blacklist := UniqueSorted(content.snapshot.blacklist);
    var white: set<string> := {};
    for i := 0 to |whitelist|
      invariant white == Elems(whitelist[..i]) && forall ip :: ip in white ==> valid(ip)
    {
      assert whitelist[i] in Elems(whitelist);
      if !valid(whitelist[i]) {
        return None;
      }
      assert Elems(whitelist[..i + 1]) == white + {whitelist[i]};
      white := white + {whitelist[i]};
    }
    assert whitelist[..|whitelist|] == whitelist;
    var black: set<string> := {};
    for i := 0 to |blacklist|
      invariant black == Elems(blacklist[..i]) && black !! white && forall ip :: ip in black ==> valid(ip)
    {
      assert blacklist[i] in Elems(blacklist);
      if blacklist[i] in white || !valid(blacklist[i]) {
        return None;
      }
      assert Elems(blacklist[..i + 1]) == black + {blacklist[i]};
      black := black + {blacklist[i]};
    }
    assert blacklist[..|blacklist|] == blacklist;
    return Some(Lists(black, white));
  }

  /* ----- Mutations ----- */

  datatype Op = AddBlacklist(ip: string) | AddWhitelist(ip: string) | RemoveBlacklist(ip: string)

  /** What a mutation does to the lists when it is neither refused nor a no-op. */
  function Mutated(l: Lists, op: Op): Lists {
    match op
    case AddBlacklist(ip) => l.(black := l.black + {ip})
    case AddWhitelist(ip) => l.(white := l.white + {ip})
    case RemoveBlacklist(ip) => l.(black := l.black - {ip})
  }

  /** Invalid text, or an address on the other list. */
  predicate Refused(l: Lists, op: Op, valid: string -> bool) {
    || !valid(op.ip)
    || (op.AddBlacklist? && op.ip in l.white)
    || (op.AddWhitelist? && op.ip in l.black)
  }

  predicate NoOp(l: Lists, op: Op) {
    Mutated(l, op) == l
  }

  datatype Response = Nil | Err | Died

  /** The contract of one mutation: memory and disk before and after. */
  ghost predicate Mutation(l: Lists, d: Disk, op: Op, env: SaveEnv, path: string, valid: string -> bool,
                           r: Response, l': Lists, d': Disk) {
    if Refused(l, op, valid) then r == Err && l' == l && d' == d
    else if NoOp(l, op) then r == Nil && l' == l && d' == d
    else
      && SavedTo(d, d', path, Record(Mutated(l, op).black, Mutated(l, op).white), env.fault)
      && match env.fault
         case NoFault => r == Nil && l' == Mutated(l, op)
         case ErrorAt(_) => r == Err && l' == l
         case CrashAt(_) => r == Died && l' == l
  }

  class SharedState {
    const store: FileStore
    const valid: string -> bool
    var blacklist: set<string>
    var whitelist: set<string>

    ghost function InMemory(): Lists
      reads this
    {
      Lists(blacklist, whitelist)
    }

    constructor (store: FileStore, valid: string -> bool, l: Lists)
      ensures this.store == store && this.valid == valid && InMemory() == l
    {
      this.store := store;
      this.valid := valid;
      blacklist, whitelist := l.black, l.white;
    }

    method AddBlacklist(ip: string, env: SaveEnv) returns (r: Response)
      requires env.temp != store.path && env.temp !in store.disk.live
      modifies this, store
      ensures Mutation(old(InMemory()), old(store.disk), Op.AddBlacklist(ip), env, store.path, valid,
                       r, InMemory(), store.disk)
    {
      if !valid(ip) {
        return Err;
      }
      if ip in whitelist {
        return Err;
      }
      if ip in blacklist {
        return Nil;
      }
      var black := ListOf(blacklist);
      var white := ListOf(whitelist);
      assert Elems(black + [ip]) == Elems(black) + {ip};
      black := black + [ip];
      var saved := store.Save(black, white, env);
      if saved != Done {
        return if saved.Crashed? then Died else Err;
      }
      blacklist := blacklist + {ip};
      return Nil;
    }

    method AddWhitelist(ip: string, env: SaveEnv) returns (r: Response)
      requires env.temp != store.path && env.temp !in store.disk.live
      modifies this, store
      ensures Mutation(old(InMemory()), old(store.disk), Op.AddWhitelist(ip), env, store.path, valid,
                       r, InMemory(), store.disk)
    {
      if !valid(ip) {
        return Err;
      }
      if ip in blacklist {
        return Err;
      }
      if ip in whitelist {
        return Nil;
      }
      var black := ListOf(blacklist);
      var white := ListOf(whitelist);
      assert Elems(white + [ip]) == Elems(white) + {ip};
      white := white + [ip];
      var saved := store.Save(black, white, env);
      if saved != Done {
        return if saved.Crashed? then Died else Err;
      }
      whitelist := whitelist + {ip};
      return Nil;
    }

    method RemoveBlacklist(ip: string, env: SaveEnv) returns (r: Response)
      requires env.temp != store.path && env.temp !in store.disk.live
      modifies this, store
      ensures Mutation(old(InMemory()), old(store.disk), Op.RemoveBlacklist(ip), env, store.path, valid,
                       r, InMemory(), store.disk)
    {
      if !valid(ip) {
        return Err;
      }
      if ip !in blacklist {
        return Nil;
      }
      var black := ListOf(blacklist);
      var white := ListOf(whitelist);
      black := Without(black, ip);
      var saved := store.Save(black, white, env);
      if saved != Done {
        return if saved.Crashed? then Died else Err;
      }
      blacklist := blacklist - {ip};
      return Nil;
    }
  }

  const NO_LISTS: Lists := Lists({}, {})

  /** A start from the disk d: the lists in memory, None for a refusal, and the disk it leaves. */
  ghost predicate StartedFrom(d: Disk, fault: Fault, path: string, valid: string -> bool, l: Option<Lists>, d': Disk) {
    if path in d.live then d' == d && l == Loaded(d.live[path].content, valid)
    else
      && SavedTo(d, d', path, Record({}, {}), fault)
      && l == if fault.NoFault? then Some(NO_LISTS) else None
  }

  /** Starts from the state file, creating an empty one when there is none; null is a refusal. */
  method NewState(store: FileStore, valid: string -> bool, env: SaveEnv) returns (state: SharedState?)
    requires env.temp != store.path && env.temp !in store.disk.live
    modifies store
    ensures var l := if state == null then None else Some(state.InMemory());
            StartedFrom(old(store.disk), env.fault, store.path, valid, l, store.disk)
    ensures state != null ==> fresh(state) && state.store == store && state.valid == valid
  {
    if store.path !in store.disk.live {
      assert Elems<string>([]) == {};
      var saved := store.Save([], [], env);
      if saved != Done {
        return null;
      }
      state := new SharedState(store, valid, NO_LISTS);
      return;
    }
    var l := Load(store.disk.live[store.path].content, valid);
    if l.None? {
      return null;
    }
    state := new SharedState(store, valid, l.value);
  }

  /**
    Which calls succeed, and what they do: adding is refused exactly for invalid
    text and for an address on the other list, removing exactly for invalid text;
    adding what is there and removing what is not there touch nothing, whatever
    the faults; every other call saves, and answers by how the save ended.
   */
  lemma MutationAnswers(l: Lists, d: Disk, op: Op, env: SaveEnv, path: string, valid: string -> bool,
                        r: Response, l': Lists, d': Disk)
    requires Mutation(l, d, op, env, path, valid, r, l', d')
    ensures var ip := op.ip;
            var allowed :=
              valid(ip) && (op.AddBlacklist? ==> ip !in l.white) && (op.AddWhitelist? ==> ip !in l.black);
            var idle :=
              if op.AddBlacklist? then ip in l.black else if op.AddWhitelist? then ip in l.white else ip !in l.black;
            && (env.fault.NoFault? ==> (r == Nil <==> allowed))
            && (!allowed ==> r == Err && d' == d)
            && (allowed && idle ==> r == Nil && d' == d)
            && (allowed && !idle ==>
                  && (r == Nil <==> env.fault.NoFault?) && (r == Err <==> env.fault.ErrorAt?))
            && (r != Nil ==> l' == l)
            && (r == Nil ==>
                  && l'.black == (match op
                                  case AddBlacklist(_) => l.black + {ip}
                                  case AddWhitelist(_) => l.black
                                  case RemoveBlacklist(_) => l.black - {ip})
                  && l'.white == if op.AddWhitelist? then l.white + {ip} else l.white)
  {
    match op {
      case AddBlacklist(ip) => assert ip !in l.black ==> ip in Mutated(l, op).black;
      case AddWhitelist(ip) => assert ip !in l.white ==> ip in Mutated(l, op).white;
      case RemoveBlacklist(ip) => assert ip in l.black ==> ip !in Mutated(l, op).black;
    }
  }

  /* ----- Crashes and runs ----- */

  /**
    After a crash each entry is one of those since the last directory sync, and
    unsynced contents are lost; a file that was there all along is still there.
   */
  ghost predicate Survives(d: Disk, after: map<string, File>) {
    && (forall p :: p in after ==> exists v :: v in Versions(d) && p in v && MaySurviveAs(v[p], after[p]))
    && (forall p :: (forall v :: v in Versions(d) ==> p in v) ==> p in after)
  }

  predicate MaySurviveAs(f: File, g: File) {
    g.synced && (f.synced ==> g.content == f.content)
  }

  /** The lists a start makes of an entry of the state file, if it is safe: no file means empty lists. */
  ghost function ListsIn(e: Option<File>, valid: string -> bool): Option<Lists> {
    if e.None? then Some(NO_LISTS) else if e.value.synced then Loaded(e.value.content, valid) else None
  }

  /** The lists in all versions since the last directory sync. */
  ghost function ListsOnDisk(d: Disk, path: string, valid: string -> bool): set<Option<Lists>> {
    set e | e in Entries(d, path) :: ListsIn(e, valid)
  }

  /**
    What earlier saves left open, as far as their results tell: the lists last
    renamed into place, all lists in place at some time since the last directory
    sync, and the mutation that failed although its lists are the ones in place.
   */
  datatype Trail = Trail(latest: Lists, unsynced: set<Lists>, failed: Option<Op>)

  function Settled(l: Lists): Trail {
    Trail(l, {l}, None)
  }

  /** After a save of the lists l that ended in this way, for the mutation op. */
  function Wrote(t: Trail, l: Lists, op: Op, fault: Fault): Trail {
    if !Renames(fault) then t
    else Trail(l, if Syncs(fault) then {l} else t.unsynced + {l}, if fault.NoFault? then None else Some(op))
  }

  function WithFailed(m: Lists, failed: Option<Op>): Lists {
    if failed.None? then m else Mutated(m, failed.value)
  }

  /** What is on disk is what the trail says. */
  ghost predicate OnDisk(d: Disk, t: Trail, path: string, valid: string -> bool) {
    && ListsIn(Entry(d.live, path), valid) == Some(t.latest)
    && ListsOnDisk(d, path, valid) == set l | l in t.unsynced :: Some(l)
  }

  datatype System = System(memory: Option<Lists>, disk: Disk)

  /**
    The invariant between calls, with the process up or down: every version on
    disk loads, and while the process is up the state file holds memory, or memory
    with the failed mutation of the trail applied.
   */
  ghost predicate Inv(s: System, t: Trail, path: string, valid: string -> bool) {
    && OnDisk(s.disk, t, path, valid)
    && (forall l :: l in t.unsynced ==> GoodLists(l, valid))
    && (s.memory.Some? ==>
          && path in s.disk.live
          && GoodLists(s.memory.value, valid)
          && t.latest == WithFailed(s.memory.value, t.failed))
  }

  lemma RecordLoads(l: Lists, valid: string -> bool)
    requires GoodLists(l, valid)
    ensures Loaded(Record(l.black, l.white), valid) == Some(l)
  {
  }

  lemma MutatedGood(m: Lists, op: Op, valid: string -> bool)
    requires GoodLists(m, valid) && !Refused(m, op, valid)
    ensures GoodLists(Mutated(m, op), valid)
  {
  }

  /** The mutation goes as far as saving. */
  predicate Saves(m: Lists, op: Op, valid: string -> bool) {
    !Refused(m, op, valid) && !NoOp(m, op)
  }

  /** The trail after a mutation of the lists m. */
  function AfterMutation(t: Trail, m: Lists, op: Op, fault: Fault, valid: string -> bool): Trail {
    if Saves(m, op, valid) then Wrote(t, Mutated(m, op), op, fault) else t
  }

  /** A save moves the disk along the trail. */
  lemma SaveFollowsTrail(d: Disk, d': Disk, t: Trail, l: Lists, op: Op, fault: Fault, path: string, valid: string -> bool)
    requires OnDisk(d, t, path, valid) && GoodLists(l, valid)
    requires SavedTo(d, d', path, Record(l.black, l.white), fault)
    ensures OnDisk(d', Wrote(t, l, op, fault), path, valid)
  {
    RecordLoads(l, valid);
    var saved := Some(File(Record(l.black, l.white), true));
    assert ListsIn(saved, valid) == Some(l);
    var t' := Wrote(t, l, op, fault);
    var unsynced := set x | x in t.unsynced :: Some(x);
    if Syncs(fault) {
      assert ListsOnDisk(d', path, valid) == {Some(l)};
    } else if Renames(fault) {
      assert ListsOnDisk(d', path, valid) == ListsOnDisk(d, path, valid) + {Some(l)};
      assert (set x | x in t'.unsynced :: Some(x)) == unsynced + {Some(l)};
    } else {
      assert ListsOnDisk(d', path, valid) == ListsOnDisk(d, path, valid);
    }
  }

  /**
    Any mutation keeps the invariant. An error leaves memory unchanged; a nil
    mutation that saved leaves memory, the state file and every version equal.
   */
  lemma MutationKeepsInv(m: Lists, d: Disk, t: Trail, op: Op, env: SaveEnv, path: string, valid: string -> bool,
                         r: Response, m': Lists, d': Disk)
    requires Inv(System(Some(m), d), t, path, valid) && Mutation(m, d, op, env, path, valid, r, m', d')
    ensures Inv(System(Some(m'), d'), AfterMutation(t, m, op, env.fault, valid), path, valid)
    ensures r != Nil ==> m' == m
    ensures r.Nil? ==> m' == Mutated(m, op)
    ensures r.Nil? && Saves(m, op, valid) ==> AfterMutation(t, m, op, env.fault, valid) == Settled(m')
  {
    if Saves(m, op, valid) {
      MutatedGood(m, op, valid);
      SaveFollowsTrail(d, d', t, Mutated(m, op), op, env.fault, path, valid);
    }
  }

  lemma EntryInVersions(d: Disk, v: map<string, File>, path: string)
    requires v in Versions(d)
    ensures Entry(v, path) in Entries(d, path)
  {
  }

  /** What a crash leaves of the state file is the entry of some version, intact if it was synced. */
  lemma SurvivingEntry(d: Disk, after: map<string, File>, path: string, valid: string -> bool) returns (e: Option<File>)
    requires Survives(d, after)
    ensures e in Entries(d, path)
    ensures ListsIn(e, valid).Some? ==> ListsIn(Entry(after, path), valid) == ListsIn(e, valid)
  {
    if path in after {
      var v :| v in Versions(d) && path in v && MaySurviveAs(v[path], after[path]);
      EntryInVersions(d, v, path);
      e := Entry(v, path);
    } else {
      var v :| v in Versions(d) && path !in v;
      EntryInVersions(d, v, path);
      e := Entry(v, path);
    }
  }

  /** Whatever a crash leaves, a start finds good lists, and they are among those of the trail. */
  lemma RestartAlwaysLoads(d: Disk, t: Trail, path: string, valid: string -> bool, after: map<string, File>)
    requires OnDisk(d, t, path, valid) && Survives(d, after)
    ensures ListsIn(Entry(after, path), valid).Some?
    ensures ListsIn(Entry(after, path), valid).value in t.unsynced
  {
    var e := SurvivingEntry(d, after, path, valid);
    assert ListsIn(e, valid) in ListsOnDisk(d, path, valid);
  }

  /** And each of them can be what is left. */
  lemma EveryVersionSurvives(d: Disk, t: Trail, path: string, valid: string -> bool, l: Lists) returns (after: map<string, File>)
    requires OnDisk(d, t, path, valid) && l in t.unsynced
    ensures Survives(d, after) && ListsIn(Entry(after, path), valid) == Some(l)
  {
    assert Some(l) in ListsOnDisk(d, path, valid);
    var e :| e in Entries(d, path) && ListsIn(e, valid) == Some(l);
    var v :| v in Versions(d) && Entry(v, path) == e;
    after := AllSynced(v);
  }

  function AllSynced(dir: map<string, File>): map<string, File> {
    map p | p in dir :: File(dir[p].content, true)
  }

  /* ----- Runs ----- */

  datatype Event =
    | Mutate(op: Op, env: SaveEnv, response: Response)
    | DieDuring(op: Op, env: SaveEnv)       // the process ends inside the save
    | Kill                                  // or between calls
    | PowerLoss(after: map<string, File>)   // the machine crashes
    | Start(env: SaveEnv)                   // the process starts from what is on disk

  ghost predicate Step(s: System, e: Event, s': System, path: string, valid: string -> bool) {
    match e
    case Mutate(op, env, r) =>
      && s.memory.Some? && s'.memory.Some? && r != Died
      && Mutation(s.memory.value, s.disk, op, env, path, valid, r, s'.memory.value, s'.disk)
    case DieDuring(op, env) =>
      && s.memory.Some? && s'.memory.None?
      && Mutation(s.memory.value, s.disk, op, env, path, valid, Died, s.memory.value, s'.disk)
    case Kill =>
      s' == System(None, s.disk)
    case PowerLoss(after) =>
      Survives(s.disk, after) && s' == System(None, Disk(after, []))
    case Start(env) =>
      s.memory.None? && StartedFrom(s.disk, env.fault, path, valid, s'.memory, s'.disk)
  }

  /** The trail after one event. */
  ghost function Follow(t: Trail, s: System, e: Event, path: string, valid: string -> bool): Trail {
    match e
    case Mutate(op, env, _) => if s.memory.Some? then AfterMutation(t, s.memory.value, op, env.fault, valid) else t
    case DieDuring(op, env) => if s.memory.Some? then AfterMutation(t, s.memory.value, op, env.fault, valid) else t
    case Kill => t
    case PowerLoss(after) =>
      var l := ListsIn(Entry(after, path), valid);
      if l.Some? then Settled(l.value) else t
    case Start(env) =>
      if path !in s.disk.live && Syncs(env.fault) then Settled(NO_LISTS) else t.(failed := None)
  }

  /**
    A crash leaves lists of the trail, and a start always loads the lists in
    place, unless it has no file yet and fails to create one.
   */
  ghost predicate Recovers(s: System, e: Event, s': System, t: Trail, path: string, valid: string -> bool) {
    && (e.PowerLoss? ==>
          var l := ListsIn(Entry(e.after, path), valid);
          l.Some? && l.value in t.unsynced)
    && (e.Start? ==> if path in s.disk.live || e.env.fault.NoFault? then s'.memory == Some(t.latest) else s'.memory.None?)
  }

  lemma StartKeepsInv(s: System, env: SaveEnv, s': System, t: Trail, path: string, valid: string -> bool)
    requires Inv(s, t, path, valid) && Step(s, Start(env), s', path, valid)
    ensures Inv(s', Follow(t, s, Start(env), path, valid), path, valid)
    ensures Recovers(s, Start(env), s', t, path, valid)
  {
    if path !in s.disk.live {
      SaveFollowsTrail(s.disk, s'.disk, t, NO_LISTS, AddBlacklist(""), env.fault, path, valid);
      assert t.latest == NO_LISTS;
      assert Some(t.latest) in ListsOnDisk(s.disk, path, valid) by {
        EntriesChanged(s.disk, s.disk.live, path);
      }
    }
  }

  lemma PowerLossKeepsInv(s: System, after: map<string, File>, s': System, t: Trail, path: string, valid: string -> bool)
    requires Inv(s, t, path, valid) && Step(s, PowerLoss(after), s', path, valid)
    ensures Inv(s', Follow(t, s, PowerLoss(after), path, valid), path, valid)
    ensures Recovers(s, PowerLoss(after), s', t, path, valid)
  {
    RestartAlwaysLoads(s.disk, t, path, valid, after);
    EntriesSynced(after, path);
  }

  lemma StepKeepsInv(s: System, e: Event, s': System, t: Trail, path: string, valid: string -> bool)
    requires Inv(s, t, path, valid) && Step(s, e, s', path, valid)
    ensures Inv(s', Follow(t, s, e, path, valid), path, valid)
    ensures Recovers(s, e, s', t, path, valid)
  {
    match e {
      case Mutate(op, env, r) =>
        MutationKeepsInv(s.memory.value, s.disk, t, op, env, path, valid, r, s'.memory.value, s'.disk);
      case DieDuring(op, env) =>
        MutationKeepsInv(s.memory.value, s.disk, t, op, env, path, valid, Died, s.memory.value, s'.disk);
      case Kill =>
      case PowerLoss(after) => PowerLossKeepsInv(s, after, s', t, path, valid);
      case Start(env) => StartKeepsInv(s, env, s', t, path, valid);
    }
  }

  ghost predicate IsRun(run: seq<System>, events: seq<Event>, path: string, valid: string -> bool) {
    && |run| == |events| + 1
    && forall i :: 0 <= i < |events| ==> Step(run[i], events[i], run[i + 1], path, valid)
  }

  /** The trail after the first n events. */
  ghost function TrailAt(t: Trail, run: seq<System>, events: seq<Event>, n: nat, path: string, valid: string -> bool): Trail
    requires n <= |events| < |run|
  {
    if n == 0 then t else Follow(TrailAt(t, run, events, n - 1, path, valid), run[n - 1], events[n - 1], path, valid)
  }

  /**
    Over every run of mutations, failures, crashes and starts: the lists are valid
    and disjoint, every version of the state file loads, the file holds memory or
    memory with the last mutation that failed after its rename, a crash leaves
    lists that some save since the last directory sync put there, and a start
    loads what is in place.
   */
  lemma {:induction false} RunKeepsInv(run: seq<System>, events: seq<Event>, n: nat, t: Trail, path: string, valid: string -> bool)
    requires IsRun(run, events, path, valid) && Inv(run[0], t, path, valid) && n <= |events|
    ensures Inv(run[n], TrailAt(t, run, events, n, path, valid), path, valid)
    ensures n < |events| ==> Recovers(run[n], events[n], run[n + 1], TrailAt(t, run, events, n, path, valid), path, valid)
    ensures run[n].memory.Some? ==>
              var l := run[n].memory.value;
              (forall ip :: ip in l.black ==> valid(ip) && ip !in l.white) && (forall ip :: ip in l.white ==> valid(ip))
  {
    if n > 0 {
      RunKeepsInv(run, events, n - 1, t, path, valid);
      StepKeepsInv(run[n - 1], events[n - 1], run[n], TrailAt(t, run, events, n - 1, path, valid), path, valid);
    }
    if n < |events| {
      StepKeepsInv(run[n], events[n], run[n + 1], TrailAt(t, run, events, n, path, valid), path, valid);
    }
  }

  /** A directory that never had a state file satisfies the invariant, as empty lists. */
  lemma FirstStart(d: Disk, path: string, valid: string -> bool)
    requires forall v :: v in Versions(d) ==> path !in v
    ensures Inv(System(None, d), Settled(Lists({}, {})), path, valid)
  {
    EntriesChanged(d, d.live, path);
    assert Entries(d, path) == {None};
    assert ListsOnDisk(d, path, valid) == {Some(NO_LISTS)};
    assert (set l | l in Settled(NO_LISTS).unsynced :: Some(l)) == {Some(NO_LISTS)};
  }

  /* ----- When a mutation is atomic under crashes ----- */

  predicate BeforeOrAfter(l: Lists, m: Lists, op: Op) {
    l == m || l == Mutated(m, op)
  }

  /** Every machine crash during the mutation leaves the lists from before or after it. */
  ghost predicate AtomicUnderCrash(m: Lists, d: Disk, op: Op, path: string, valid: string -> bool) {
    forall env, d', after :: Mutation(m, d, op, env, path, valid, Died, m, d') && Survives(d', after) ==>
      var l := ListsIn(Entry(after, path), valid);
      l.Some? && BeforeOrAfter(l.value, m, op)
  }

  /**
    After any run, a mutation that saves is atomic under crashes exactly when all
    lists that earlier saves have renamed into place since the last directory sync
    are those from before or after it: no other mutation is still pending.
   */
  lemma AtomicUnderCrashIff(run: seq<System>, events: seq<Event>, t: Trail, op: Op, path: string, valid: string -> bool)
    requires IsRun(run, events, path, valid) && Inv(run[0], t, path, valid)
    requires run[|events|].memory.Some? && Saves(run[|events|].memory.value, op, valid)
    ensures var now := run[|events|];
            AtomicUnderCrash(now.memory.value, now.disk, op, path, valid) <==>
            forall l :: l in TrailAt(t, run, events, |events|, path, valid).unsynced ==> BeforeOrAfter(l, now.memory.value, op)
  {
    RunKeepsInv(run, events, |events|, t, path, valid);
    AtomicHereIff(run[|events|].memory.value, run[|events|].disk, TrailAt(t, run, events, |events|, path, valid), op, path, valid);
  }

  lemma AtomicHereIff(m: Lists, d: Disk, t: Trail, op: Op, path: string, valid: string -> bool)
    requires Inv(System(Some(m), d), t, path, valid) && Saves(m, op, valid)
    ensures AtomicUnderCrash(m, d, op, path, valid) <==> forall l :: l in t.unsynced ==> BeforeOrAfter(l, m, op)
  {
    if forall l :: l in t.unsynced ==> BeforeOrAfter(l, m, op) {
      forall env, d', after | Mutation(m, d, op, env, path, valid, Died, m, d') && Survives(d', after)
        ensures var l := ListsIn(Entry(after, path), valid);
                l.Some? && BeforeOrAfter(l.value, m, op)
      {
        MutationKeepsInv(m, d, t, op, env, path, valid, Died, m, d');
        RestartAlwaysLoads(d', AfterMutation(t, m, op, env.fault, valid), path, valid, after);
      }
    } else {
      var l :| l in t.unsynced && !BeforeOrAfter(l, m, op);
      var after := EveryVersionSurvives(d, t, path, valid, l);
      assert Mutation(m, d, op, SaveEnv("", CrashAt(Create), false), path, valid, Died, m, d);
    }
  }

  /** The death of the process alone, anywhere in the mutation, leaves the lists from before or after it. */
  ghost predicate AtomicUnderDeath(m: Lists, d: Disk, op: Op, path: string, valid: string -> bool) {
    forall env, d' :: Mutation(m, d, op, env, path, valid, Died, m, d') ==>
      var l := ListsIn(Entry(d'.live, path), valid);
      l.Some? && BeforeOrAfter(l.value, m, op)
  }

  /** For that it is enough, and necessary, that the lists in place are those from before or after it. */
  lemma AtomicUnderDeathIff(run: seq<System>, events: seq<Event>, t: Trail, op: Op, path: string, valid: string -> bool)
    requires IsRun(run, events, path, valid) && Inv(run[0], t, path, valid)
    requires run[|events|].memory.Some? && Saves(run[|events|].memory.value, op, valid)
    ensures var now := run[|events|];
            AtomicUnderDeath(now.memory.value, now.disk, op, path, valid) <==>
            BeforeOrAfter(TrailAt(t, run, events, |events|, path, valid).latest, now.memory.value, op)
  {
    RunKeepsInv(run, events, |events|, t, path, valid);
    var m, d := run[|events|].memory.value, run[|events|].disk;
    var now := TrailAt(t, run, events, |events|, path, valid);
    if BeforeOrAfter(now.latest, m, op) {
      forall env, d' | Mutation(m, d, op, env, path, valid, Died, m, d')
        ensures var l := ListsIn(Entry(d'.live, path), valid);
                l.Some? && BeforeOrAfter(l.value, m, op)
      {
        MutationKeepsInv(m, d, now, op, env, path, valid, Died, m, d');
      }
    } else {
      assert Mutation(m, d, op, SaveEnv("", CrashAt(Create), false), path, valid, Died, m, d);
    }
  }

  /** Once a save has succeeded or a crash been recovered from, the next mutation is atomic. */
  lemma AtomicWhenSettled(m: Lists, d: Disk, op: Op, path: string, valid: string -> bool)
    requires Inv(System(Some(m), d), Settled(m), path, valid) && Saves(m, op, valid)
    ensures AtomicUnderCrash(m, d, op, path, valid)
  {
    AtomicHereIff(m, d, Settled(m), op, path, valid);
  }

  /** Mutations that save are told apart by what they make of the lists. */
  lemma OnlyTheSame(m: Lists, o: Op, op: Op, valid: string -> bool)
    requires Saves(m, o, valid) && Saves(m, op, valid)
    ensures BeforeOrAfter(Mutated(m, o), m, op) <==> o == op
  {
    assert o.AddBlacklist? ==> o.ip in Mutated(m, o).black && o.ip !in m.black;
    assert o.AddWhitelist? ==> o.ip in Mutated(m, o).white && o.ip !in m.white;
    assert o.RemoveBlacklist? ==> o.ip !in Mutated(m, o).black && o.ip in m.black;
  }

  /** After a mutation that failed past its rename, only another try of the same one is atomic. */
  lemma AtomicAfterFailureIff(m: Lists, d: Disk, o: Op, env: SaveEnv, d': Disk, op: Op, path: string, valid: string -> bool)
    requires Inv(System(Some(m), d), Settled(m), path, valid) && Saves(m, o, valid) && Saves(m, op, valid)
    requires Mutation(m, d, o, env, path, valid, Err, m, d') && Renames(env.fault)
    ensures AtomicUnderCrash(m, d', op, path, valid) <==> o == op
  {
    var t := AfterMutation(Settled(m), m, o, env.fault, valid);
    MutationKeepsInv(m, d, Settled(m), o, env, path, valid, Err, m, d');
    AtomicHereIff(m, d', t, op, path, valid);
    OnlyTheSame(m, o, op, valid);
    assert Mutated(m, o) in t.unsynced;
  }

  function Adding(m: Lists, ip: string): Lists {
    Mutated(m, AddBlacklist(ip))
  }

  /**
    Two additions that fail when the directory is opened for syncing, then a crash
    at the start of a second try of the latter: the lists with the former alone
    can come back, which are neither those before nor those after the interrupted
    mutation.
   */
  lemma FailedSaveCanResurface(d: Disk, d1: Disk, d2: Disk, a: string, b: string, env1: SaveEnv, env2: SaveEnv,
                               path: string, valid: string -> bool)
    returns (after: map<string, File>)
    requires Inv(System(Some(NO_LISTS), d), Settled(NO_LISTS), path, valid)
    requires a != b && env1.fault == env2.fault == ErrorAt(OpenDir)
    requires Mutation(NO_LISTS, d, AddBlacklist(a), env1, path, valid, Err, NO_LISTS, d1) && valid(a)
    requires Mutation(NO_LISTS, d1, AddBlacklist(b), env2, path, valid, Err, NO_LISTS, d2) && valid(b)
    ensures !AtomicUnderCrash(NO_LISTS, d2, AddBlacklist(b), path, valid)
    ensures Survives(d2, after) && ListsIn(Entry(after, path), valid) == Some(Adding(NO_LISTS, a))
    ensures !BeforeOrAfter(Adding(NO_LISTS, a), NO_LISTS, AddBlacklist(b))
  {
    var m := NO_LISTS;
    assert a in Adding(m, a).black && b in Adding(m, b).black && a !in Adding(m, b).black;
    var t1 := AfterMutation(Settled(m), m, AddBlacklist(a), env1.fault, valid);
    var t2 := AfterMutation(t1, m, AddBlacklist(b), env2.fault, valid);
    MutationKeepsInv(m, d, Settled(m), AddBlacklist(a), env1, path, valid, Err, m, d1);
    MutationKeepsInv(m, d1, t1, AddBlacklist(b), env2, path, valid, Err, m, d2);
    assert Adding(m, a) in t2.unsynced;
    AtomicHereIff(m, d2, t2, AddBlacklist(b), path, valid);
    after := EveryVersionSurvives(d2, t2, path, valid, Adding(m, a));
  }
}
