/** How far expiries move when bans are rendered, listed, snapshotted and restored. */
module Drift {
  import opened Orders
  import opened Clock
  import opened Addresses
  import opened DesiredState
  import opened Kernel
  import opened Compile
  import opened Inspect

  /** Render, commit, list and parse move an expiry by the delays and less than a second. */
  lemma ExpiryMoves(b: TemporaryBan, x: TemporaryBan, now: Time, at: Time, l: Time, r: Time)
    requires now < b.expiresAt && ReadsAs(b, x, now, at, l, r)
    ensures var delay := (at - now) + (r - l);
            delay - SECOND < x.expiresAt - b.expiresAt < delay + SECOND
    ensures l == at ==> 0 <= x.expiresAt - b.expiresAt - ((at - now) + (r - l)) < SECOND
  {
  }

  /** What an immediate read-back makes of a ban. */
  function Extended(b: TemporaryBan, now: Time): TemporaryBan {
    TemporaryBan(b.address, RoundedEnd(b.expiresAt, now, now))
  }

  lemma ReadsAsExtended(b: TemporaryBan, x: TemporaryBan, now: Time)
    requires now < b.expiresAt
    ensures ReadsAs(b, x, now, now, now, now) <==> x == Extended(b, now)
    ensures 0 <= Extended(b, now).expiresAt - b.expiresAt < SECOND
    ensures RoundedEnd(b.expiresAt, now, now) - now >= SECOND
  {
  }

  /**
    Without delays, render then read back is the identity up to rounding: it
    succeeds, keeps every list, and each expiry grows by less than a second.
   */
  lemma RenderReadBackIdentity(s: State, now: Time, entries: seq<Entry>)
    requires Valid(s) && WithinRange(s.temporaryBans, now) && 0 <= now
    requires IsListing(entries, SHIELD, CompiledTable(NormalForm(s, now), now, now), now)
    ensures var n := NormalForm(s, now);
            var out := Inspected(entries, now, now);
            && out.Some?
            && out.value.whitelist == n.whitelist
            && out.value.permanentBans == n.permanentBans
            && out.value.temporaryBans == AllExtended(n.temporaryBans, now)
            && forall b :: b in n.temporaryBans ==> 0 <= Extended(b, now).expiresAt - b.expiresAt < SECOND
  {
    var bans := NormalForm(s, now).temporaryBans;
    forall b | b in bans
      ensures now < b.expiresAt && RoundedEnd(b.expiresAt, now, now) - now >= SECOND
      ensures 0 <= Extended(b, now).expiresAt - b.expiresAt < SECOND
    {
      ReadsAsExtended(b, b, now);
    }
    ReadBack(s, now, now, entries, now, now, now);
    var out := Inspected(entries, now, now).value.temporaryBans;
    forall x ensures x in out <==> now < x.expiresAt && ReadFrom(bans, x, now) {
    }
    ExtendedBans(bans, out, now);
  }

  ghost predicate ReadFrom(bans: seq<TemporaryBan>, x: TemporaryBan, now: Time) {
    exists b :: b in bans && ReadsAs(b, x, now, now, now, now)
  }

  function AllExtended(bans: seq<TemporaryBan>, now: Time): seq<TemporaryBan> {
    seq(|bans|, i requires 0 <= i < |bans| => Extended(bans[i], now))
  }

  lemma ReadFromExtended(bans: seq<TemporaryBan>, x: TemporaryBan, now: Time)
    requires forall b :: b in bans ==> now < b.expiresAt
    ensures now < x.expiresAt && ReadFrom(bans, x, now) <==> x in AllExtended(bans, now)
  {
    if now < x.expiresAt && ReadFrom(bans, x, now) {
      var b :| b in bans && ReadsAs(b, x, now, now, now, now);
      ReadsAsExtended(b, x, now);
      var i :| 0 <= i < |bans| && bans[i] == b;
      assert AllExtended(bans, now)[i] == x;
    }
    if x in AllExtended(bans, now) {
      var i :| 0 <= i < |bans| && AllExtended(bans, now)[i] == x;
      assert bans[i] in bans;
      ReadsAsExtended(bans[i], x, now);
    }
  }

  lemma ExtendedBans(bans: seq<TemporaryBan>, out: seq<TemporaryBan>, now: Time)
    requires Increasing(EarlierAddress, bans) && Increasing(EarlierAddress, out)
    requires forall b :: b in bans ==> now < b.expiresAt
    requires forall x :: x in out <==> now < x.expiresAt && ReadFrom(bans, x, now)
    ensures out == AllExtended(bans, now)
  {
    forall x ensures x in AllExtended(bans, now) <==> x in out {
      ReadFromExtended(bans, x, now);
    }
    BansUnique(AllExtended(bans, now), out);
  }

  /* ----- Cycles of snapshot and restore ----- */

  /** A normalised state in the kernel: rendered at now, committed at `at`. */
  datatype Installed = Installed(state: State, now: Time, at: Time)

  /** The clock reads of one snapshot and the restore that follows it. */
  datatype CycleTimes = CycleTimes(l: Time, r1: Time, r2: Time, now: Time, at: Time)

  ghost predicate WellInstalled(i: Installed) {
    && Valid(i.state)
    && NormalForm(i.state, i.now) == i.state
    && WithinRange(i.state.temporaryBans, i.now)
    && 0 <= i.now <= i.at
  }

  /** j is i after its snapshot, listed as `entries`, was restored. */
  ghost predicate Cycle(i: Installed, c: CycleTimes, entries: seq<Entry>, j: Installed) {
    && i.at <= c.l <= c.r1 <= c.r2 <= c.now <= c.at
    && IsListing(entries, SHIELD, CompiledTable(i.state, i.now, i.at), c.l)
    && Inspected(entries, c.r1, c.r2).Some?
    && j == Installed(NormalForm(Inspected(entries, c.r1, c.r2).value, c.now), c.now, c.at)
    && WellInstalled(j)
  }

  datatype CycleStep = CycleStep(times: CycleTimes, listing: seq<Entry>, after: Installed)

  function Last(start: Installed, run: seq<CycleStep>): Installed {
    if run == [] then start else run[|run| - 1].after
  }

  ghost predicate Cycles(start: Installed, run: seq<CycleStep>) {
    if run == [] then WellInstalled(start)
    else
      var n := |run| - 1;
      Cycles(start, run[..n]) && Cycle(Last(start, run[..n]), run[n].times, run[n].listing, run[n].after)
  }

  function DelayOf(c: CycleTimes): int {
    (c.r1 - c.l) + (c.at - c.now)
  }

  function Delay(run: seq<CycleStep>): int {
    if run == [] then 0 else Delay(run[..|run| - 1]) + DelayOf(run[|run| - 1].times)
  }

  /** The kernel deadline of an installed ban. */
  function End(b: TemporaryBan, i: Installed): Time {
    RoundedEnd(b.expiresAt, i.now, i.at)
  }

  lemma DeadlineMoves(end: Time, c: CycleTimes)
    ensures var after := RoundedEnd(ReadExpiry(end, c.l, c.r1), c.now, c.at);
            DelayOf(c) - SECOND < after - end < DelayOf(c) + SECOND
  {
  }

  lemma CycleLists(i: Installed, c: CycleTimes, entries: seq<Entry>, j: Installed)
    requires WellInstalled(i) && Cycle(i, c, entries, j)
    ensures j.state.whitelist == i.state.whitelist && j.state.permanentBans == i.state.permanentBans
  {
    ReadBack(i.state, i.now, i.at, entries, c.l, c.r1, c.r2);
    NormalFormIsClean(i.state, i.now);
    SameAddresses(i.state.whitelist, i.state.whitelist);
    SameAddresses(i.state.permanentBans, i.state.permanentBans);
  }

  /** Where a ban read back from the kernel came from. */
  lemma ReadOrigin(i: Installed, c: CycleTimes, entries: seq<Entry>, x: TemporaryBan) returns (a: TemporaryBan)
    requires WellInstalled(i) && i.at <= c.l && 0 <= c.r1
    requires IsListing(entries, SHIELD, CompiledTable(i.state, i.now, i.at), c.l)
    requires Inspected(entries, c.r1, c.r2).Some? && x in Inspected(entries, c.r1, c.r2).value.temporaryBans
    ensures a in i.state.temporaryBans && x == TemporaryBan(a.address, ReadExpiry(End(a, i), c.l, c.r1))
  {
    ReadBack(i.state, i.now, i.at, entries, c.l, c.r1, c.r2);
    a :| a in i.state.temporaryBans && ReadsAs(a, x, i.now, i.at, c.l, c.r1);
  }

  lemma OneCycle(i: Installed, c: CycleTimes, entries: seq<Entry>, j: Installed, b: TemporaryBan) returns (a: TemporaryBan)
    requires WellInstalled(i) && Cycle(i, c, entries, j) && b in j.state.temporaryBans
    ensures a in i.state.temporaryBans && a.address == b.address
    ensures DelayOf(c) - SECOND < End(b, j) - End(a, i) < DelayOf(c) + SECOND
  {
    var out := Inspected(entries, c.r1, c.r2).value;
    var x := RestoredFrom(out, c.now, b);
    a := ReadOrigin(i, c, entries, x);
    NormalFormIsClean(i.state, i.now);
    DeadlineMoves(End(a, i), c);
  }

  lemma RestoredFrom(out: State, now: Time, b: TemporaryBan) returns (x: TemporaryBan)
    requires b in NormalForm(out, now).temporaryBans
    ensures x in out.temporaryBans && b == TemporaryBan(Unmap(x.address), x.expiresAt)
  {
    NormalBansPromised(out.temporaryBans, now);
    x :| x in out.temporaryBans && b == TemporaryBan(Unmap(x.address), x.expiresAt);
  }

  /**
    Drift over every run of snapshot/restore cycles: the address lists never
    change, no ban appears, and after n cycles a surviving ban's kernel deadline
    has moved by the accumulated delays and less than n seconds either way.
   */
  lemma {:induction false} DriftIsBounded(start: Installed, run: seq<CycleStep>, b: TemporaryBan) returns (a: TemporaryBan)
    requires Cycles(start, run) && b in Last(start, run).state.temporaryBans
    ensures Last(start, run).state.whitelist == start.state.whitelist
    ensures Last(start, run).state.permanentBans == start.state.permanentBans
    ensures a in start.state.temporaryBans && a.address == b.address
    ensures var moved := End(b, Last(start, run)) - End(a, start) - Delay(run);
            if run == [] then moved == 0 else -Seconds(|run|) < moved < Seconds(|run|)
  {
    if run == [] {
      a := b;
    } else {
      var n := |run| - 1;
      var before := Last(start, run[..n]);
      assert WellInstalled(before);
      CycleLists(before, run[n].times, run[n].listing, run[n].after);
      var mid := OneCycle(before, run[n].times, run[n].listing, run[n].after, b);
      a := DriftIsBounded(start, run[..n], mid);
    }
  }

  /* ----- Restoring behaviour ----- */

  /** t is within a second, or the delay, of the end of a ban on src. */
  ghost predicate NearEnd(i: Installed, src: Addr, t: Time, delay: int) {
    exists a :: a in i.state.temporaryBans && a.address == src && End(a, i) - SECOND <= t < End(a, i) + delay + SECOND
  }

  ghost predicate BannedBy(i: Installed, src: Addr, t: Time) {
    exists a :: a in i.state.temporaryBans && a.address == src && t < End(a, i)
  }

  lemma InstalledDecides(rs: Ruleset, i: Installed, src: Addr, t: Time)
    requires WellInstalled(i) && SHIELD in rs && rs[SHIELD] == CompiledTable(i.state, i.now, i.at)
    ensures InputVerdict(rs, SHIELD, src, t) ==
            if src in i.state.whitelist then Accept
            else if src in i.state.permanentBans || BannedBy(i, src, t) then Drop
            else Accept
  {
    NormalFormIsClean(i.state, i.now);
    CompiledVerdict(i.state, i.now, i.at, rs, src, t);
    var bans := i.state.temporaryBans;
    if Banned(bans, i.now, i.at, src, t) {
      var a :| a in bans && Unmap(a.address) == src && a.expiresAt > i.now && t < RoundedEnd(a.expiresAt, i.now, i.at);
      assert a.address == src && t < End(a, i);
    }
    if BannedBy(i, src, t) {
      var a :| a in bans && a.address == src && t < End(a, i);
      assert Unmap(a.address) == src && a.expiresAt > i.now;
    }
  }

  /** A ban with more than a second to run after the restore survives the cycle, and still covers t. */
  lemma LongBanSurvives(i: Installed, c: CycleTimes, entries: seq<Entry>, j: Installed, a: TemporaryBan, t: Time)
    requires WellInstalled(i) && Cycle(i, c, entries, j)
    requires a in i.state.temporaryBans && c.at <= t < End(a, i) - SECOND
    ensures BannedBy(j, a.address, t)
  {
    var out := Inspected(entries, c.r1, c.r2).value;
    var x := TemporaryBan(a.address, ReadExpiry(End(a, i), c.l, c.r1));
    assert t < x.expiresAt;
    ReadKept(i, c, entries, a, x);
    NormalFormIsClean(i.state, i.now);
    RestoredKept(out, c.now, x, j);
    var b :| b in j.state.temporaryBans && b.address == x.address && x.expiresAt <= b.expiresAt;
    BanHoldsUntilExpiry(b.expiresAt, c.now, c.at);
    assert t < End(b, j);
  }

  lemma ReadKept(i: Installed, c: CycleTimes, entries: seq<Entry>, a: TemporaryBan, x: TemporaryBan)
    requires WellInstalled(i) && i.at <= c.l && 0 <= c.r1 && c.r2 < x.expiresAt
    requires IsListing(entries, SHIELD, CompiledTable(i.state, i.now, i.at), c.l)
    requires Inspected(entries, c.r1, c.r2).Some?
    requires a in i.state.temporaryBans && ReadsAs(a, x, i.now, i.at, c.l, c.r1)
    ensures x in Inspected(entries, c.r1, c.r2).value.temporaryBans
  {
    ReadBack(i.state, i.now, i.at, entries, c.l, c.r1, c.r2);
  }

  lemma RestoredKept(out: State, now: Time, x: TemporaryBan, j: Installed)
    requires x in out.temporaryBans && now < x.expiresAt && Unmap(x.address) == x.address
    requires j.state == NormalForm(out, now)
    ensures exists b :: b in j.state.temporaryBans && b.address == x.address && x.expiresAt <= b.expiresAt
  {
    NormalBansKept(out.temporaryBans, now);
  }

  /**
    Restoring a snapshot restores behaviour: at every instant after the restore,
    Shield's verdict on every source address is the one the snapshotted table
    would have given, except around the end of a ban on that address, within a
    second and the delays of the cycle.
   */
  lemma CycleKeepsVerdicts(rs: Ruleset, i: Installed, c: CycleTimes, entries: seq<Entry>, rs': Ruleset, j: Installed,
                           src: Addr, t: Time)
    requires WellInstalled(i) && SHIELD in rs && rs[SHIELD] == CompiledTable(i.state, i.now, i.at)
    requires Cycle(i, c, entries, j) && SHIELD in rs' && rs'[SHIELD] == CompiledTable(j.state, j.now, j.at)
    requires c.at <= t
    ensures InputVerdict(rs', SHIELD, src, t) == InputVerdict(rs, SHIELD, src, t) || NearEnd(i, src, t, DelayOf(c))
  {
    InstalledDecides(rs, i, src, t);
    InstalledDecides(rs', j, src, t);
    CycleLists(i, c, entries, j);
    BansDifferOnlyNearEnd(i, c, entries, j, src, t);
  }

  lemma LostOnlyNearEnd(i: Installed, c: CycleTimes, entries: seq<Entry>, j: Installed, a: TemporaryBan, t: Time)
    requires WellInstalled(i) && Cycle(i, c, entries, j)
    requires a in i.state.temporaryBans && c.at <= t < End(a, i)
    ensures BannedBy(j, a.address, t) || NearEnd(i, a.address, t, DelayOf(c))
  {
    if t < End(a, i) - SECOND {
      LongBanSurvives(i, c, entries, j, a, t);
    } else {
      assert DelayOf(c) >= 0;
    }
  }

  lemma GainedOnlyNearEnd(i: Installed, c: CycleTimes, entries: seq<Entry>, j: Installed, b: TemporaryBan, t: Time)
    requires WellInstalled(i) && Cycle(i, c, entries, j)
    requires b in j.state.temporaryBans && t < End(b, j)
    ensures BannedBy(i, b.address, t) || NearEnd(i, b.address, t, DelayOf(c))
  {
    var a := OneCycle(i, c, entries, j, b);
    assert t < End(a, i) || End(a, i) - SECOND <= t < End(a, i) + DelayOf(c) + SECOND;
  }

  lemma BansDifferOnlyNearEnd(i: Installed, c: CycleTimes, entries: seq<Entry>, j: Installed, src: Addr, t: Time)
    requires WellInstalled(i) && Cycle(i, c, entries, j) && c.at <= t
    ensures BannedBy(i, src, t) == BannedBy(j, src, t) || NearEnd(i, src, t, DelayOf(c))
  {
    if BannedBy(i, src, t) {
      var a :| a in i.state.temporaryBans && a.address == src && t < End(a, i);
      LostOnlyNearEnd(i, c, entries, j, a, t);
    }
    if BannedBy(j, src, t) {
      var b :| b in j.state.temporaryBans && b.address == src && t < End(b, j);
      GainedOnlyNearEnd(i, c, entries, j, b, t);
    }
  }
}
