/**
  The nftables backend over a faulty runner. Every runner call can fail or panic
  before or after it takes effect; faults and clock reads are parameters, so the
  contracts hold for every placement of them.
 */
module NftBackend {
  import opened Orders
  import opened Wrappers
  import opened Clock
  import opened DesiredState
  import opened Kernel
  import opened TableLines
  import opened Acceptance
  import opened Render
  import opened Compile
  import opened Inspect

  datatype Fault = NoFault | FailBefore | FailAfter | PanicBefore | PanicAfter {
    predicate Before() {
      FailBefore? || PanicBefore?
    }

    predicate Panics() {
      PanicBefore? || PanicAfter?
    }
  }

  datatype Outcome<+T> = Returned(value: T) | Failed | Panicked

  function AsOutcome<T>(fault: Fault, value: T): Outcome<T> {
    if fault.NoFault? then Returned(value) else if fault.Panics() then Panicked else Failed
  }

  datatype BackendName = NFTables | OtherBackend(name: string)

  const SNAPSHOT_VERSION: int := 1

  /** Snapshot bytes as the record they decode to. */
  datatype SnapshotData = Undecodable | Data(version: int, present: bool, state: State)

  datatype Snapshot = Snapshot(backend: BackendName, data: SnapshotData)

  const EMPTY_STATE: State := State([], [], [])

  /** One check-then-apply transaction: clock read, kernel times, faults of the two calls. */
  datatype ApplyEnv = ApplyEnv(now: Time, checkAt: Time, at: Time, check: Fault, apply: Fault)

  /** One inspection: listing time, two clock reads, faults of the three calls. */
  datatype ReadEnv = ReadEnv(l: Time, r1: Time, r2: Time, tables: Fault, again: Fault, listing: Fault) {
    predicate Clean() {
      tables.NoFault? && again.NoFault? && listing.NoFault?
    }
  }

  /* ----- Specification ----- */

  /**
    Check then apply one batch, when the check accepts it or not and applying it
    gives `after`: the outcome and the ruleset that is left.
   */
  function Transact(rs: Ruleset, accepted: bool, after: Option<Ruleset>, e: ApplyEnv): (Outcome<()>, Ruleset) {
    if !e.check.NoFault? then (AsOutcome(e.check, ()), rs)
    else if !accepted then (Failed, rs)
    else if e.apply.Before() then (AsOutcome(e.apply, ()), rs)
    else
      match after
      case None => (if e.apply.Panics() then Panicked else Failed, rs)
      case Some(done) => (AsOutcome(e.apply, ()), done)
  }

  function Applied(rs: Ruleset, batch: seq<Command>, e: ApplyEnv): (Outcome<()>, Ruleset) {
    Transact(rs, Run(batch, rs, e.checkAt).Some?, Run(batch, rs, e.at), e)
  }

  /** The ruleset after installing a valid state; None when a ban is out of range. */
  ghost function Install(rs: Ruleset, s: State, now: Time, at: Time): Option<Ruleset> {
    if WithinRange(s.temporaryBans, now) then Some(rs[SHIELD := CompiledTable(NormalForm(s, now), now, at)]) else None
  }

  ghost function Reconciled(rs: Ruleset, s: State, e: ApplyEnv): (Outcome<()>, Ruleset) {
    if !Valid(s) then (Failed, rs)
    else Transact(rs, WithinRange(s.temporaryBans, e.now), Install(rs, s, e.now, e.at), e)
  }

  const CLEANUP: seq<Command> := [DestroyTable(SHIELD)]

  ghost function Restored(rs: Ruleset, snapshot: Snapshot, e: ApplyEnv): (Outcome<()>, Ruleset) {
    if snapshot.backend != NFTables || snapshot.data.Undecodable? || snapshot.data.version != SNAPSHOT_VERSION
    then (Failed, rs)
    else if !snapshot.data.present then Applied(rs, CLEANUP, e)
    else Reconciled(rs, snapshot.data.state, e)
  }

  /** The result of inspecting, given whether the table exists and what its listing reads as. */
  function InspectedAs(present: bool, read: Option<State>, tables: Fault, listing: Fault): Outcome<State> {
    if !tables.NoFault? then AsOutcome(tables, EMPTY_STATE)
    else if !present then Returned(EMPTY_STATE)
    else if !listing.NoFault? then AsOutcome(listing, EMPTY_STATE)
    else if read.None? then Failed
    else Returned(read.value)
  }

  function SnapshotAs(present: bool, read: Option<State>, e: ReadEnv): Outcome<Snapshot> {
    if !e.tables.NoFault? then AsOutcome(e.tables, Snapshot(NFTables, Undecodable))
    else if !present then Returned(Snapshot(NFTables, Data(SNAPSHOT_VERSION, false, EMPTY_STATE)))
    else
      match InspectedAs(present, read, e.again, e.listing)
      case Failed => Failed
      case Panicked => Panicked
      case Returned(s) => Returned(Snapshot(NFTables, Data(SNAPSHOT_VERSION, true, s)))
  }

  /** The snapshot of rs when nft prints `entries` for Shield's table. */
  ghost function SnapshotWith(rs: Ruleset, entries: seq<Entry>, e: ReadEnv): Outcome<Snapshot> {
    SnapshotAs(SHIELD in rs, Inspected(entries, e.r1, e.r2), e)
  }

  /** entries is what nft prints for Shield's table, if there is one. */
  ghost predicate Prints(rs: Ruleset, entries: seq<Entry>, at: Time) {
    SHIELD in rs ==> IsListing(entries, SHIELD, rs[SHIELD], at)
  }

  /** Shield's line is printed exactly when Shield's table is there. */
  lemma OwnLine(lines: seq<string>, rs: Ruleset)
    requires PrintsTables(lines, rs)
    ensures TableLine(SHIELD) in lines <==> SHIELD in rs
  {
    assert TableLine(SHIELD) in lines <==> TableLine(SHIELD) in Elems(lines);
    if TableLine(SHIELD) in lines {
      var key :| key in rs && TableLine(key) == TableLine(SHIELD);
      ShieldLine(key);
    }
  }

  /**
    What a nil check gives: nft does not refuse the batch any more, however much
    later it is applied, so only a fault of the run itself can keep it from taking effect.
   */
  lemma CheckPredictsApply(rs: Ruleset, batch: seq<Command>, e: ApplyEnv)
    requires e.check.NoFault? && Run(batch, rs, e.checkAt).Some?
    ensures Run(batch, rs, e.at).Some?
    ensures Applied(rs, batch, e) ==
            (AsOutcome(e.apply, ()), if e.apply.Before() then rs else Run(batch, rs, e.at).value)
  {
    AcceptanceIgnoresTime(batch, rs, e.checkAt, e.at);
  }

  /* ----- The runner ----- */

  class Runner {
    var ruleset: Ruleset

    constructor (rs: Ruleset)
      ensures ruleset == rs
    {
      ruleset := rs;
    }

    /** `nft --check --file -` */
    method Check(batch: seq<Command>, at: Time, fault: Fault) returns (o: Outcome<()>)
      ensures o == if fault.NoFault? && Run(batch, ruleset, at).None? then Failed else AsOutcome(fault, ())
    {
      var trial := Run(batch, ruleset, at);
      o := if fault.NoFault? && trial.None? then Failed else AsOutcome(fault, ());
    }

    /** `nft --file -` */
    method Apply(batch: seq<Command>, at: Time, fault: Fault) returns (o: Outcome<()>)
      modifies this
      ensures var out := Run(batch, old(ruleset), at);
              if fault.Before() then o == AsOutcome(fault, ()) && ruleset == old(ruleset)
              else if out.None? then o == (if fault.Panics() then Panicked else Failed) && ruleset == old(ruleset)
              else o == AsOutcome(fault, ()) && ruleset == out.value
    {
      if fault.Before() {
        return AsOutcome(fault, ());
      }
      var out := Run(batch, ruleset, at);
      if out.None? {
        return if fault.Panics() then Panicked else Failed;
      }
      ruleset := out.value;
      return AsOutcome(fault, ());
    }

    /** `nft list tables`, split into lines */
    method ListTables() returns (lines: seq<string>)
      ensures PrintsTables(lines, ruleset)
    {
      lines := [""];
      var rest := ruleset.Keys;
      while rest != {}
        invariant rest <= ruleset.Keys
        invariant Elems(lines) == (set key | key in ruleset.Keys - rest :: TableLine(key)) + {""}
      {
        var key :| key in rest;
        assert Elems([TableLine(key)] + lines) == {TableLine(key)} + Elems(lines);
        assert ruleset.Keys - (rest - {key}) == (ruleset.Keys - rest) + {key};
        lines := [TableLine(key)] + lines;
        rest := rest - {key};
      }
    }

    /** `nft --json list table inet digitdojo_shield` on an existing table. */
    method ListTable(at: Time) returns (entries: seq<Entry>)
      requires SHIELD in ruleset
      ensures IsListing(entries, SHIELD, ruleset[SHIELD], at)
    {
      var table := ruleset[SHIELD];
      entries := [OtherEntry];
      var rest := table.sets.Keys;
      while rest != {}
        invariant rest <= table.sets.Keys
        invariant forall i :: 0 <= i < |entries| && entries[i].SetEntry? ==>
                    && TableKey(entries[i].family, entries[i].table) == SHIELD
                    && entries[i].name in table.sets && entries[i].name !in rest
                    && ListsSet(entries[i].elem, table.sets[entries[i].name], at)
        invariant forall i, j :: 0 <= i < j < |entries| && entries[i].SetEntry? && entries[j].SetEntry? ==>
                    entries[i].name != entries[j].name
        invariant forall s :: s in table.sets && s !in rest ==>
                    exists i :: 0 <= i < |entries| && entries[i].SetEntry? && entries[i].name == s
      {
        var name :| name in rest;
        var elements := ListElements(table.sets[name], at);
        var entry := SetEntry(SHIELD.family, SHIELD.name, name, elements);
        assert (entries + [entry])[|entries|] == entry;
        forall s | s in table.sets && s !in rest - {name}
          ensures exists i :: && 0 <= i < |entries + [entry]|
                              && (entries + [entry])[i].SetEntry? && (entries + [entry])[i].name == s
        {
          if s != name {
            var i :| 0 <= i < |entries| && entries[i].SetEntry? && entries[i].name == s;
            assert (entries + [entry])[i] == entries[i];
          }
        }
        entries := entries + [entry];
        rest := rest - {name};
      }
    }

    static method ListElements(s: NftSet, at: Time) returns (elements: seq<Element>)
      ensures ListsSet(elements, s, at)
    {
      elements := [];
      var live := LiveElements(s, at);
      var rest := live;
      while rest != {}
        invariant rest <= live
        invariant Elems(elements) == set a | a in live - rest :: Listed(s, a, at)
        invariant Distinct(elements)
      {
        var a :| a in rest;
        var e := Listed(s, a, at);
        assert forall j :: 0 <= j < |elements| ==> elements[j] in Elems(elements);
        assert Elems(elements + [e]) == Elems(elements) + {e};
        assert live - (rest - {a}) == (live - rest) + {a};
        elements := elements + [e];
        rest := rest - {a};
      }
    }
  }

  /* ----- The backend ----- */

  class Backend {
    const runner: Runner
    ghost var restores: nat  // how often Restore was called

    constructor (r: Runner)
      ensures runner == r && restores == 0
    {
      runner := r;
      restores := 0;
    }

    method Transaction(batch: seq<Command>, e: ApplyEnv) returns (o: Outcome<()>)
      modifies runner
      ensures (o, runner.ruleset) == Applied(old(runner.ruleset), batch, e)
    {
      o := runner.Check(batch, e.checkAt, e.check);
      if !o.Returned? {
        return;
      }
      o := runner.Apply(batch, e.at, e.apply);
    }

    method Reconcile(state: State, e: ApplyEnv) returns (o: Outcome<()>)
      modifies runner
      ensures (o, runner.ruleset) == Reconciled(old(runner.ruleset), state, e)
    {
      var program := RenderRuleset(state, e.now);
      NormalizeSucceedsIffValid(state, e.now);
      if program.Failure? {
        return Failed;
      }
      RunRendered(state, e.now, runner.ruleset, e.checkAt);
      RunRendered(state, e.now, runner.ruleset, e.at);
      o := Transaction(program.value, e);
    }

    method Cleanup(e: ApplyEnv) returns (o: Outcome<()>)
      modifies runner
      ensures (o, runner.ruleset) == Applied(old(runner.ruleset), CLEANUP, e)
    {
      o := Transaction(CLEANUP, e);
    }

    method TableExists(fault: Fault) returns (o: Outcome<bool>)
      ensures o == AsOutcome(fault, SHIELD in runner.ruleset)
    {
      if !fault.NoFault? {
        return AsOutcome(fault, false);
      }
      var lines := runner.ListTables();
      OwnLine(lines, runner.ruleset);
      for i := 0 to |lines|
        invariant TableLine(SHIELD) !in lines[..i]
      {
        if lines[i] == TableLine(SHIELD) {
          return Returned(true);
        }
      }
      return Returned(false);
    }

    method Inspect(tables: Fault, listing: Fault, l: Time, r1: Time, r2: Time) returns (o: Outcome<State>)
      ensures exists entries ::
                && (tables.NoFault? && listing.NoFault? ==> Prints(runner.ruleset, entries, l))
                && o == InspectedAs(SHIELD in runner.ruleset, Inspected(entries, r1, r2), tables, listing)
      ensures tables.NoFault? && SHIELD !in runner.ruleset ==> o == Returned(State([], [], []))
      ensures !tables.NoFault? || (SHIELD in runner.ruleset && !listing.NoFault?) ==> !o.Returned?
    {
      ghost var printed: seq<Entry> := [];
      var present := TableExists(tables);
      if !present.Returned? {
        o := if present.Panicked? then Panicked else Failed;
      } else if !present.value {
        o := Returned(EMPTY_STATE);
      } else if !listing.NoFault? {
        o := AsOutcome(listing, EMPTY_STATE);
      } else {
        var output := runner.ListTable(l);
        printed := output;
        var state := ReadState(output, r1, r2);
        o := if state.None? then Failed else Returned(state.value);
      }
      assert tables.NoFault? && listing.NoFault? ==> Prints(runner.ruleset, printed, l);
      assert o == InspectedAs(SHIELD in runner.ruleset, Inspected(printed, r1, r2), tables, listing);
    }

    method TakeSnapshot(e: ReadEnv) returns (o: Outcome<Snapshot>)
      ensures exists entries ::
                && (e.Clean() ==> Prints(runner.ruleset, entries, e.l))
                && o == SnapshotWith(runner.ruleset, entries, e)
    {
      ghost var printed: seq<Entry> := [];
      var present := TableExists(e.tables);
      if !present.Returned? {
        o := if present.Panicked? then Panicked else Failed;
      } else if !present.value {
        o := Returned(Snapshot(NFTables, Data(SNAPSHOT_VERSION, false, EMPTY_STATE)));
      } else {
        var state := Inspect(e.again, e.listing, e.l, e.r1, e.r2);
        printed :| (e.again.NoFault? && e.listing.NoFault? ==> Prints(runner.ruleset, printed, e.l))
                   && state == InspectedAs(true, Inspected(printed, e.r1, e.r2), e.again, e.listing);
        match state {
          case Failed => o := Failed;
          case Panicked => o := Panicked;
          case Returned(s) => o := Returned(Snapshot(NFTables, Data(SNAPSHOT_VERSION, true, s)));
        }
      }
      assert e.Clean() ==> Prints(runner.ruleset, printed, e.l);
      assert o == SnapshotWith(runner.ruleset, printed, e);
    }

    method Restore(snapshot: Snapshot, e: ApplyEnv) returns (o: Outcome<()>)
      modifies this, runner
      ensures (o, runner.ruleset) == Restored(old(runner.ruleset), snapshot, e)
      ensures restores == old(restores) + 1
    {
      restores := restores + 1;
      if snapshot.backend != NFTables || snapshot.data.Undecodable? || snapshot.data.version != SNAPSHOT_VERSION {
        return Failed;
      }
      if !snapshot.data.present {
        o := Cleanup(e);
      } else {
        o := Reconcile(snapshot.data.state, e);
      }
    }
  }
}
