/** The rendered batch means the desired state: compilation correctness. */
module Compile {
  import opened Orders
  import opened Wrappers
  import opened Clock
  import opened Addresses
  import opened DesiredState
  import opened Kernel
  import opened Render

  /* ----- The table a batch builds ----- */

  function AddressElements(addresses: seq<Addr>, ipv4: bool, at: Time): map<Addr, Option<Time>> {
    Insert(map[], PlainSpecs(OfFamily(addresses, ipv4)), at)
  }

  function TemporaryElements(bans: seq<TemporaryBan>, ipv4: bool, now: Time, at: Time): map<Addr, Option<Time>> {
    Insert(map[], TimedSpecs(bans, ipv4, now), at)
  }

  /** Shield's table for a normalised state rendered at `now` and committed at `at`. */
  function CompiledTable(n: State, now: Time, at: Time): Table {
    WithChains(
      map[
        WhitelistV4 := NftSet(Ipv4Addr, false, AddressElements(n.whitelist, true, at)),
        WhitelistV6 := NftSet(Ipv6Addr, false, AddressElements(n.whitelist, false, at)),
        PermanentV4 := NftSet(Ipv4Addr, false, AddressElements(n.permanentBans, true, at)),
        PermanentV6 := NftSet(Ipv6Addr, false, AddressElements(n.permanentBans, false, at)),
        TemporaryV4 := NftSet(Ipv4Addr, true, TemporaryElements(n.temporaryBans, true, now, at)),
        TemporaryV6 := NftSet(Ipv6Addr, true, TemporaryElements(n.temporaryBans, false, now, at))
      ],
      POLICY_RULES)
  }

  /** A table whose base chain consults a policy chain with the given rules. */
  function WithChains(sets: map<SetName, NftSet>, rules: seq<Rule>): Table {
    Table(sets, map[PolicyChain := Chain(None, rules), BaseChain := Chain(Some(BASE_HOOK), [Jump(PolicyChain)])])
  }

  ghost predicate Clean(n: State) {
    && (forall a :: a in n.whitelist ==> Acceptable(a) && Unmap(a) == a)
    && (forall a :: a in n.permanentBans ==> Acceptable(a) && Unmap(a) == a)
    && (forall b :: b in n.temporaryBans ==> Acceptable(b.address) && Unmap(b.address) == b.address)
    && Increasing(EarlierAddress, n.temporaryBans)
  }

  lemma NormalFormIsClean(s: State, now: Time)
    requires Valid(s)
    ensures Clean(NormalForm(s, now))
  {
    UnmappedCanonical(s.whitelist);
    UnmappedCanonical(s.permanentBans);
    LatestCanonical(s.temporaryBans, now, now);
  }

  /** No ban runs longer than the 64-bit rounding handles. */
  ghost predicate WithinRange(bans: seq<TemporaryBan>, now: Time) {
    forall b :: b in bans && b.expiresAt > now ==> b.expiresAt - now <= MAX_REMAINING
  }

  /* ----- The element lists ----- */

  lemma {:induction false} OfFamilyElements(addresses: seq<Addr>, ipv4: bool)
    ensures forall a :: a in OfFamily(addresses, ipv4) <==> a in addresses && a.V4? == ipv4
  {
    if addresses != [] {
      var n := |addresses| - 1;
      OfFamilyElements(addresses[..n], ipv4);
      assert addresses == addresses[..n] + [addresses[n]];
    }
  }

  lemma {:induction false} PlainInserted(addresses: seq<Addr>, at: Time)
    ensures var m := Insert(map[], PlainSpecs(addresses), at);
            forall a :: (a in m <==> a in addresses) && (a in m ==> m[a].None?)
  {
    if addresses != [] {
      var n := |addresses| - 1;
      PlainInserted(addresses[..n], at);
      assert PlainSpecs(addresses)[..n] == PlainSpecs(addresses[..n]);
      assert addresses == addresses[..n] + [addresses[n]];
    }
  }

  lemma AddressElementsAre(addresses: seq<Addr>, ipv4: bool, at: Time)
    ensures var m := AddressElements(addresses, ipv4, at);
            forall a :: (a in m <==> a in addresses && a.V4? == ipv4) && (a in m ==> m[a].None?)
  {
    OfFamilyElements(addresses, ipv4);
    PlainInserted(OfFamily(addresses, ipv4), at);
  }

  ghost predicate DistinctAddresses(specs: seq<ElementSpec>) {
    forall i, j :: 0 <= i < j < |specs| ==> specs[i].addr != specs[j].addr
  }

  lemma {:induction false} DistinctInserted(specs: seq<ElementSpec>, at: Time)
    requires DistinctAddresses(specs)
    ensures var m := Insert(map[], specs, at);
            && (forall e :: e in specs ==> e.addr in m && m[e.addr] == Deadline(e, at))
            && (forall a :: a in m ==> exists e :: e in specs && e.addr == a)
  {
    if specs != [] {
      var n := |specs| - 1;
      DistinctInserted(specs[..n], at);
      assert forall e :: e in specs <==> e in specs[..n] || e == specs[n];
      var before := Insert(map[], specs[..n], at);
      assert specs[n].addr !in before;
      forall a | a in before ensures exists e :: e in specs && e.addr == a {
        var e :| e in specs[..n] && e.addr == a;
        assert e in specs;
      }
    }
  }

  lemma {:induction false} TimedSpecsAre(bans: seq<TemporaryBan>, ipv4: bool, now: Time)
    ensures forall e :: e in TimedSpecs(bans, ipv4, now) <==>
                        exists b :: b in bans && Written(b, ipv4, now)
                                    && e == SpecOf(b, now)
  {
    if bans != [] {
      var n := |bans| - 1;
      TimedSpecsAre(bans[..n], ipv4, now);
      assert forall b :: b in bans <==> b in bans[..n] || b == bans[n];
    }
  }

  lemma {:induction false} TimedSpecsDistinct(bans: seq<TemporaryBan>, ipv4: bool, now: Time)
    requires Increasing(EarlierAddress, bans)
    ensures DistinctAddresses(TimedSpecs(bans, ipv4, now))
  {
    if bans != [] {
      var n := |bans| - 1;
      TimedSpecsDistinct(bans[..n], ipv4, now);
      TimedSpecsAre(bans[..n], ipv4, now);
      var before := TimedSpecs(bans[..n], ipv4, now);
      forall i | 0 <= i < |before| ensures before[i].addr != bans[n].address {
        assert before[i] in before;
        var b :| b in bans[..n] && before[i].addr == b.address;
        var k :| 0 <= k < n && bans[..n][k] == b;
        assert EarlierAddress(bans[k], bans[n]);
      }
    }
  }

  lemma TemporaryElementsAre(bans: seq<TemporaryBan>, ipv4: bool, now: Time, at: Time)
    requires Increasing(EarlierAddress, bans)
    ensures var m := TemporaryElements(bans, ipv4, now, at);
            && (forall b :: b in bans && Written(b, ipv4, now) ==>
                  b.address in m && m[b.address] == Deadline(SpecOf(b, now), at))
            && (forall a :: a in m ==> exists b :: b in bans && b.address == a && Written(b, ipv4, now))
  {
    var specs := TimedSpecs(bans, ipv4, now);
    TimedSpecsDistinct(bans, ipv4, now);
    TimedSpecsAre(bans, ipv4, now);
    DistinctInserted(specs, at);
    forall b | b in bans && Written(b, ipv4, now)
      ensures SpecOf(b, now) in specs
    {
    }
  }

  lemma AddressSpecsFit(addresses: seq<Addr>, ty: AddrType)
    requires forall a :: a in addresses ==> Acceptable(a)
    ensures forall e :: e in PlainSpecs(OfFamily(addresses, ty.Ipv4Addr?)) ==> WellTyped(e, ty, false)
  {
    var chosen := OfFamily(addresses, ty.Ipv4Addr?);
    OfFamilyElements(addresses, ty.Ipv4Addr?);
    forall e | e in PlainSpecs(chosen) ensures WellTyped(e, ty, false) {
      assert e.addr in chosen && Acceptable(e.addr);
    }
  }

  /** Timed elements fit their set exactly when no written timeout overflows. */
  lemma TimedSpecsFitIff(bans: seq<TemporaryBan>, ty: AddrType, now: Time)
    requires forall b :: b in bans ==> Acceptable(b.address)
    ensures (forall e :: e in TimedSpecs(bans, ty.Ipv4Addr?, now) ==> WellTyped(e, ty, true)) <==>
            (forall b :: b in bans && Written(b, ty.Ipv4Addr?, now) ==> b.expiresAt - now <= MAX_REMAINING)
  {
    var ipv4 := ty.Ipv4Addr?;
    TimedSpecsAre(bans, ipv4, now);
    forall b | b in bans && Written(b, ipv4, now)
      ensures var e := SpecOf(b, now);
              e in TimedSpecs(bans, ipv4, now) && (WellTyped(e, ty, true) <==> b.expiresAt - now <= MAX_REMAINING)
    {
      TimeoutExactIff(b.expiresAt, now);
    }
  }

  /* ----- Running the batch ----- */

  lemma ReplacedTwice(rest: Ruleset, t: Table, u: Table)
    ensures rest[SHIELD := t][SHIELD := u] == rest[SHIELD := u]
  {
  }

  function WithSet(t: Table, c: Command, at: Time): Table
    requires c.AddSet?
  {
    t.(sets := t.sets[c.name := NftSet(c.addrType, c.timed, Insert(map[], c.elements, at))])
  }

  lemma SetAdded(c: Command, rest: Ruleset, t: Table, at: Time)
    requires c.AddSet? && c.key == SHIELD && c.name !in t.sets
    requires forall e :: e in c.elements ==> WellTyped(e, c.addrType, c.timed)
    ensures Exec(c, rest[SHIELD := t], at) == Some(rest[SHIELD := WithSet(t, c, at)])
  {
    ReplacedTwice(rest, t, WithSet(t, c, at));
  }

  lemma SetStep(batch: seq<Command>, c: Command, rest: Ruleset, t: Table, rs: Ruleset, at: Time)
    requires Run(batch, rs, at) == Some(rest[SHIELD := t])
    requires c.AddSet? && c.key == SHIELD && c.name !in t.sets
    requires forall e :: e in c.elements ==> WellTyped(e, c.addrType, c.timed)
    ensures Run(batch + [c], rs, at) == Some(rest[SHIELD := WithSet(t, c, at)])
  {
    RunSnoc(batch, c, rs, at);
    SetAdded(c, rest, t, at);
  }

  lemma Begin(rs: Ruleset, at: Time)
    ensures Run([DestroyTable(SHIELD), AddTable(SHIELD)], rs, at) == Some(rs[SHIELD := Table(map[], map[])])
  {
    RunSnoc([], DestroyTable(SHIELD), rs, at);
    RunSnoc([DestroyTable(SHIELD)], AddTable(SHIELD), rs, at);
    assert [] + [DestroyTable(SHIELD)] == [DestroyTable(SHIELD)];
    assert [DestroyTable(SHIELD)] + [AddTable(SHIELD)] == [DestroyTable(SHIELD), AddTable(SHIELD)];
    assert (rs - {SHIELD})[SHIELD := Table(map[], map[])] == rs[SHIELD := Table(map[], map[])];
  }

  lemma AddressSetsRun(n: State, now: Time, rs: Ruleset, at: Time)
    requires Clean(n)
    ensures Run(SetCommands(n, now)[..6], rs, at) ==
            Some(rs[SHIELD := Table(
                      map[
                        WhitelistV4 := NftSet(Ipv4Addr, false, AddressElements(n.whitelist, true, at)),
                        WhitelistV6 := NftSet(Ipv6Addr, false, AddressElements(n.whitelist, false, at)),
                        PermanentV4 := NftSet(Ipv4Addr, false, AddressElements(n.permanentBans, true, at)),
                        PermanentV6 := NftSet(Ipv6Addr, false, AddressElements(n.permanentBans, false, at))
                      ], map[])])
  {
    var w4, w6 := AddressSet(WhitelistV4, Ipv4Addr, n.whitelist), AddressSet(WhitelistV6, Ipv6Addr, n.whitelist);
    var p4, p6 := AddressSet(PermanentV4, Ipv4Addr, n.permanentBans), AddressSet(PermanentV6, Ipv6Addr, n.permanentBans);
    AddressSpecsFit(n.whitelist, Ipv4Addr);
    AddressSpecsFit(n.whitelist, Ipv6Addr);
    AddressSpecsFit(n.permanentBans, Ipv4Addr);
    AddressSpecsFit(n.permanentBans, Ipv6Addr);
    Begin(rs, at);
    var b2 := [DestroyTable(SHIELD), AddTable(SHIELD)];
    var t2 := Table(map[], map[]);
    SetStep(b2, w4, rs, t2, rs, at);
    var t3 := t2.(sets := t2.sets[WhitelistV4 := NftSet(Ipv4Addr, false, AddressElements(n.whitelist, true, at))]);
    SetStep(b2 + [w4], w6, rs, t3, rs, at);
    var t4 := t3.(sets := t3.sets[WhitelistV6 := NftSet(Ipv6Addr, false, AddressElements(n.whitelist, false, at))]);
    SetStep(b2 + [w4] + [w6], p4, rs, t4, rs, at);
    var t5 := t4.(sets := t4.sets[PermanentV4 := NftSet(Ipv4Addr, false, AddressElements(n.permanentBans, true, at))]);
    SetStep(b2 + [w4] + [w6] + [p4], p6, rs, t5, rs, at);
    assert b2 + [w4] + [w6] + [p4] + [p6] == SetCommands(n, now)[..6];
  }

  lemma SetsRun(n: State, now: Time, rs: Ruleset, at: Time)
    requires Clean(n) && WithinRange(n.temporaryBans, now)
    ensures Run(SetCommands(n, now), rs, at) ==
            Some(rs[SHIELD := Table(CompiledTable(n, now, at).sets, map[])])
  {
    AddressSetsRun(n, now, rs, at);
    var t6 := Run(SetCommands(n, now)[..6], rs, at).value[SHIELD];
    var v4 := TemporarySet(TemporaryV4, Ipv4Addr, n.temporaryBans, now);
    var v6 := TemporarySet(TemporaryV6, Ipv6Addr, n.temporaryBans, now);
    TimedSpecsFitIff(n.temporaryBans, Ipv4Addr, now);
    TimedSpecsFitIff(n.temporaryBans, Ipv6Addr, now);
    var b6 := SetCommands(n, now)[..6];
    SetStep(b6, v4, rs, t6, rs, at);
    var t7 := t6.(sets := t6.sets[TemporaryV4 := NftSet(Ipv4Addr, true, TemporaryElements(n.temporaryBans, true, now, at))]);
    SetStep(b6 + [v4], v6, rs, t7, rs, at);
    assert b6 + [v4] + [v6] == SetCommands(n, now);
  }

  lemma ChainAdded(rest: Ruleset, t: Table, chain: ChainName, base: Option<InputHook>, at: Time)
    requires chain !in t.chains
    ensures Exec(AddChain(SHIELD, chain, base), rest[SHIELD := t], at)
            == Some(rest[SHIELD := t.(chains := t.chains[chain := Chain(base, [])])])
  {
    ReplacedTwice(rest, t, t.(chains := t.chains[chain := Chain(base, [])]));
  }

  lemma JumpAdded(rest: Ruleset, t: Table, at: Time)
    requires PolicyChain in t.chains && t.chains[PolicyChain].base.None?
    requires BaseChain in t.chains && t.chains[BaseChain] == Chain(Some(BASE_HOOK), [])
    ensures Exec(AddRule(SHIELD, BaseChain, Jump(PolicyChain)), rest[SHIELD := t], at)
            == Some(rest[SHIELD := t.(chains := t.chains[BaseChain := Chain(Some(BASE_HOOK), [Jump(PolicyChain)])])])
  {
    assert [] + [Jump(PolicyChain)] == [Jump(PolicyChain)];
    ReplacedTwice(rest, t, t.(chains := t.chains[BaseChain := Chain(Some(BASE_HOOK), [Jump(PolicyChain)])]));
  }

  lemma ChainsRun(batch: seq<Command>, sets: map<SetName, NftSet>, rest: Ruleset, rs: Ruleset, at: Time)
    requires Run(batch, rs, at) == Some(rest[SHIELD := Table(sets, map[])])
    ensures Run(batch + CHAIN_COMMANDS, rs, at) ==
            Some(rest[SHIELD := WithChains(sets, [])])
  {
    var c0, c1, c2 := CHAIN_COMMANDS[0], CHAIN_COMMANDS[1], CHAIN_COMMANDS[2];
    var t0 := Table(sets, map[]);
    var t1 := t0.(chains := t0.chains[PolicyChain := Chain(None, [])]);
    var t2 := t1.(chains := t1.chains[BaseChain := Chain(Some(BASE_HOOK), [])]);
    ChainAdded(rest, t0, PolicyChain, None, at);
    RunSnoc(batch, c0, rs, at);
    ChainAdded(rest, t1, BaseChain, Some(BASE_HOOK), at);
    RunSnoc(batch + [c0], c1, rs, at);
    JumpAdded(rest, t2, at);
    RunSnoc(batch + [c0] + [c1], c2, rs, at);
    assert batch + CHAIN_COMMANDS == batch + [c0] + [c1] + [c2];
    assert t2.chains[BaseChain := Chain(Some(BASE_HOOK), [Jump(PolicyChain)])] == WithChains(sets, []).chains;
  }

  function WithRules(t: Table, rules: seq<Rule>): Table
    requires PolicyChain in t.chains
  {
    t.(chains := t.chains[PolicyChain := t.chains[PolicyChain].(rules := t.chains[PolicyChain].rules + rules)])
  }

  lemma RuleAdded(rest: Ruleset, t: Table, rules: seq<Rule>, rule: Rule, at: Time)
    requires PolicyChain in t.chains && rule.MatchSource? && RuleFits(rule, t)
    ensures Exec(AddRule(SHIELD, PolicyChain, rule), rest[SHIELD := WithRules(t, rules)], at)
            == Some(rest[SHIELD := WithRules(t, rules + [rule])])
  {
    var c, mid, end := t.chains[PolicyChain], WithRules(t, rules), WithRules(t, rules + [rule]);
    assert c.rules + rules + [rule] == c.rules + (rules + [rule]);
    assert mid.chains[PolicyChain := end.chains[PolicyChain]] == end.chains;
    assert rest[SHIELD := mid][SHIELD := end] == rest[SHIELD := end];
  }

  lemma {:induction false} RulesRun(batch: seq<Command>, rules: seq<Rule>, rest: Ruleset, t: Table, rs: Ruleset, at: Time)
    requires PolicyChain in t.chains && Run(batch, rs, at) == Some(rest[SHIELD := t])
    requires forall i :: 0 <= i < |rules| ==> rules[i].MatchSource? && RuleFits(rules[i], t)
    ensures Run(batch + RuleCommands(rules), rs, at) == Some(rest[SHIELD := WithRules(t, rules)])
  {
    if rules == [] {
      var c := t.chains[PolicyChain];
      assert batch + RuleCommands(rules) == batch;
      assert c.rules + rules == c.rules && t.chains[PolicyChain := c] == t.chains;
    } else {
      var n := |rules| - 1;
      var add := AddRule(SHIELD, PolicyChain, rules[n]);
      RulesRun(batch, rules[..n], rest, t, rs, at);
      assert batch + RuleCommands(rules) == batch + RuleCommands(rules[..n]) + [add];
      RunSnoc(batch + RuleCommands(rules[..n]), add, rs, at);
      RuleAdded(rest, t, rules[..n], rules[n], at);
      assert rules == rules[..n] + [rules[n]];
    }
  }

  /** The batch replaces Shield's table by the compiled one and touches no other table. */
  lemma ProgramBuilds(n: State, now: Time, rs: Ruleset, at: Time)
    requires Clean(n) && WithinRange(n.temporaryBans, now)
    ensures Run(Program(n, now), rs, at) == Some(rs[SHIELD := CompiledTable(n, now, at)])
  {
    SetsRun(n, now, rs, at);
    BatchRuns(SetCommands(n, now), CompiledTable(n, now, at).sets, rs, at);
  }

  lemma BatchRuns(batch: seq<Command>, sets: map<SetName, NftSet>, rs: Ruleset, at: Time)
    requires Run(batch, rs, at) == Some(rs[SHIELD := Table(sets, map[])])
    requires PolicySets(sets)
    ensures Run(batch + CHAIN_COMMANDS + RuleCommands(POLICY_RULES), rs, at) == Some(rs[SHIELD := WithChains(sets, POLICY_RULES)])
  {
    ChainsRun(batch, sets, rs, rs, at);
    PolicyRulesRun(batch + CHAIN_COMMANDS, sets, rs, rs, at);
  }

  predicate HasSet(sets: map<SetName, NftSet>, name: SetName, ty: AddrType) {
    name in sets && sets[name].addrType == ty
  }

  /** The sets that the policy rules refer to are there, with the right types. */
  predicate PolicySets(sets: map<SetName, NftSet>) {
    && HasSet(sets, WhitelistV4, Ipv4Addr) && HasSet(sets, WhitelistV6, Ipv6Addr)
    && HasSet(sets, PermanentV4, Ipv4Addr) && HasSet(sets, PermanentV6, Ipv6Addr)
    && HasSet(sets, TemporaryV4, Ipv4Addr) && HasSet(sets, TemporaryV6, Ipv6Addr)
  }

  lemma PolicyFits(sets: map<SetName, NftSet>)
    requires PolicySets(sets)
    ensures forall i :: 0 <= i < |POLICY_RULES| ==>
              POLICY_RULES[i].MatchSource? && RuleFits(POLICY_RULES[i], WithChains(sets, []))
  {
  }

  lemma PolicyRulesRun(batch: seq<Command>, sets: map<SetName, NftSet>, rest: Ruleset, rs: Ruleset, at: Time)
    requires Run(batch, rs, at) == Some(rest[SHIELD := WithChains(sets, [])])
    requires PolicySets(sets)
    ensures Run(batch + RuleCommands(POLICY_RULES), rs, at) == Some(rest[SHIELD := WithChains(sets, POLICY_RULES)])
  {
    var t := WithChains(sets, []);
    PolicyFits(sets);
    RulesRun(batch, POLICY_RULES, rest, t, rs, at);
    assert [] + POLICY_RULES == POLICY_RULES;
    assert t.chains[PolicyChain := Chain(None, POLICY_RULES)] == WithChains(sets, POLICY_RULES).chains;
  }

  /** A ban beyond the 64-bit range makes nft reject the whole batch. */
  lemma ProgramRejected(n: State, now: Time, rs: Ruleset, at: Time)
    requires Clean(n) && !WithinRange(n.temporaryBans, now)
    ensures Run(Program(n, now), rs, at).None?
  {
    var i := RefusedSet(n, now);
    assert Program(n, now)[i] == SetCommands(n, now)[i];
    RunRejects(Program(n, now), i, rs, at);
  }

  /** The set that would hold the ban is refused. */
  lemma RefusedSet(n: State, now: Time) returns (i: nat)
    requires Clean(n) && !WithinRange(n.temporaryBans, now)
    ensures i < |SetCommands(n, now)| && NeverAccepted(SetCommands(n, now)[i])
  {
    var b :| b in n.temporaryBans && b.expiresAt > now && b.expiresAt - now > MAX_REMAINING;
    TimedSpecsFitIff(n.temporaryBans, Ipv4Addr, now);
    TimedSpecsFitIff(n.temporaryBans, Ipv6Addr, now);
    i := if Written(b, true, now) then 6 else 7;
  }

  /* ----- What the table decides ----- */

  /** The instant a ban rendered at `now` and committed at `at` runs out in the kernel. */
  function RoundedEnd(expiresAt: Time, now: Time, at: Time): Time {
    at + Seconds(CeilSeconds(expiresAt - now))
  }

  /** Some ban of the list is in force at t. */
  ghost predicate Banned(bans: seq<TemporaryBan>, now: Time, at: Time, src: Addr, t: Time) {
    exists b :: b in bans && Unmap(b.address) == src && b.expiresAt > now && t < RoundedEnd(b.expiresAt, now, at)
  }

  /** The meaning of a desired state, read directly off its lists. */
  ghost function Policy(s: State, now: Time, at: Time, src: Addr, t: Time): Verdict {
    if src in Unmapped(s.whitelist) then Accept
    else if src in Unmapped(s.permanentBans) then Drop
    else if Banned(s.temporaryBans, now, at, src, t) then Drop
    else Accept
  }

  predicate InSet(table: Table, name: SetName, ty: AddrType, src: Addr, t: Time) {
    name in table.sets && HasType(src, ty) && IsLive(table.sets[name], src, t)
  }

  /** The two chains decide by whitelist first, then permanent, then temporary bans. */
  lemma ChainsDecide(sets: map<SetName, NftSet>, rs: Ruleset, src: Addr, t: Time)
    requires SHIELD in rs && rs[SHIELD] == WithChains(sets, POLICY_RULES)
    ensures var table := rs[SHIELD];
            InputVerdict(rs, SHIELD, src, t) ==
            if InSet(table, WhitelistV4, Ipv4Addr, src, t) || InSet(table, WhitelistV6, Ipv6Addr, src, t) then Accept
            else if InSet(table, PermanentV4, Ipv4Addr, src, t) || InSet(table, PermanentV6, Ipv6Addr, src, t)
                 || InSet(table, TemporaryV4, Ipv4Addr, src, t) || InSet(table, TemporaryV6, Ipv6Addr, src, t) then Drop
            else Accept
  {
    var table := rs[SHIELD];
    assert Traverse(table, BaseChain, 0, src, t, JUMP_STACK) ==
           var inner := Traverse(table, PolicyChain, 0, src, t, JUMP_STACK - 1);
           if inner.Some? then inner else Traverse(table, BaseChain, 1, src, t, JUMP_STACK);
    assert Traverse(table, BaseChain, 1, src, t, JUMP_STACK).None?;
    var d := JUMP_STACK - 1;
    assert Traverse(table, PolicyChain, 6, src, t, d).None?;
    RuleStep(table, 5, src, t, d);
    RuleStep(table, 4, src, t, d);
    RuleStep(table, 3, src, t, d);
    RuleStep(table, 2, src, t, d);
    RuleStep(table, 1, src, t, d);
    RuleStep(table, 0, src, t, d);
  }

  lemma RuleStep(table: Table, i: nat, src: Addr, t: Time, depth: nat)
    requires PolicyChain in table.chains && table.chains[PolicyChain].rules == POLICY_RULES && i < |POLICY_RULES|
    ensures var r := POLICY_RULES[i];
            Traverse(table, PolicyChain, i, src, t, depth) ==
            if InSet(table, r.members, r.addrType, src, t) then Some(r.verdict)
            else Traverse(table, PolicyChain, i + 1, src, t, depth)
  {
  }

  lemma LaterEnd(x: Time, y: Time, now: Time, at: Time)
    requires x <= y
    ensures RoundedEnd(x, now, at) <= RoundedEnd(y, now, at)
  {
  }

  /** Within range, the deadline in the kernel is the rounded end. */
  lemma DeadlineIsEnd(b: TemporaryBan, now: Time, at: Time)
    requires now < b.expiresAt && b.expiresAt - now <= MAX_REMAINING
    ensures Deadline(SpecOf(b, now), at) == Some(RoundedEnd(b.expiresAt, now, at))
  {
    TimeoutExactIff(b.expiresAt, now);
  }

  predicate InEither(v4: NftSet, v6: NftSet, src: Addr, t: Time) {
    (HasType(src, Ipv4Addr) && IsLive(v4, src, t)) || (HasType(src, Ipv6Addr) && IsLive(v6, src, t))
  }

  lemma AddressMember(addresses: seq<Addr>, at: Time, src: Addr, t: Time)
    requires NoAddr !in addresses
    ensures InEither(NftSet(Ipv4Addr, false, AddressElements(addresses, true, at)),
                     NftSet(Ipv6Addr, false, AddressElements(addresses, false, at)), src, t)
            <==> src in addresses
  {
    AddressElementsAre(addresses, true, at);
    AddressElementsAre(addresses, false, at);
  }

  lemma TemporaryMember(bans: seq<TemporaryBan>, now: Time, at: Time, src: Addr, t: Time)
    requires Increasing(EarlierAddress, bans) && WithinRange(bans, now)
    requires forall b :: b in bans ==> b.address != NoAddr && Unmap(b.address) == b.address
    ensures InEither(NftSet(Ipv4Addr, true, TemporaryElements(bans, true, now, at)),
                     NftSet(Ipv6Addr, true, TemporaryElements(bans, false, now, at)), src, t)
            <==> Banned(bans, now, at, src, t)
  {
    var v4 := src.V4?;
    TemporaryElementsAre(bans, v4, now, at);
    var m := TemporaryElements(bans, v4, now, at);
    forall b | b in bans && b.address == src && b.expiresAt > now
      ensures src in m && m[src] == Some(RoundedEnd(b.expiresAt, now, at))
    {
      assert Written(b, v4, now);
      DeadlineIsEnd(b, now, at);
    }
    if src in m {
      var b :| b in bans && b.address == src && Written(b, v4, now);
      assert m[src] == Some(RoundedEnd(b.expiresAt, now, at));
    }
  }

  /** Keeping only the latest expiry of each address changes no verdict. */
  lemma BannedKept(bans: seq<TemporaryBan>, normal: seq<TemporaryBan>, now: Time, at: Time, src: Addr, t: Time)
    requires Kept(bans, normal, now) && Banned(bans, now, at, src, t)
    requires forall b :: b in normal ==> Unmap(b.address) == b.address
    ensures Banned(normal, now, at, src, t)
  {
    var c :| c in bans && Unmap(c.address) == src && c.expiresAt > now && t < RoundedEnd(c.expiresAt, now, at);
    var b :| b in normal && b.address == Unmap(c.address) && c.expiresAt <= b.expiresAt;
    LaterEnd(c.expiresAt, b.expiresAt, now, at);
  }

  lemma BannedPromised(bans: seq<TemporaryBan>, normal: seq<TemporaryBan>, now: Time, at: Time, src: Addr, t: Time)
    requires Promised(bans, normal, now) && Banned(normal, now, at, src, t)
    requires forall b :: b in normal ==> Unmap(b.address) == b.address
    ensures Banned(bans, now, at, src, t)
  {
    var b :| b in normal && Unmap(b.address) == src && b.expiresAt > now && t < RoundedEnd(b.expiresAt, now, at);
    var c :| c in bans && b == TemporaryBan(Unmap(c.address), c.expiresAt);
  }

  lemma BannedNormal(s: State, now: Time, at: Time, src: Addr, t: Time)
    requires Valid(s)
    ensures Banned(NormalForm(s, now).temporaryBans, now, at, src, t) <==> Banned(s.temporaryBans, now, at, src, t)
  {
    var bans, normal := s.temporaryBans, NormalForm(s, now).temporaryBans;
    NormalFormIsClean(s, now);
    if Banned(bans, now, at, src, t) {
      NormalBansKept(bans, now);
      BannedKept(bans, normal, now, at, src, t);
    }
    if Banned(normal, now, at, src, t) {
      NormalBansPromised(bans, now);
      BannedPromised(bans, normal, now, at, src, t);
    }
  }

  lemma CompiledVerdict(n: State, now: Time, at: Time, rs: Ruleset, src: Addr, t: Time)
    requires Clean(n) && WithinRange(n.temporaryBans, now)
    requires SHIELD in rs && rs[SHIELD] == CompiledTable(n, now, at)
    ensures InputVerdict(rs, SHIELD, src, t) ==
            if src in n.whitelist then Accept
            else if src in n.permanentBans || Banned(n.temporaryBans, now, at, src, t) then Drop
            else Accept
  {
    CompiledAddresses(n, now, at, src, t);
    CompiledBans(n, now, at, src, t);
    ChainsDecide(CompiledTable(n, now, at).sets, rs, src, t);
  }

  predicate InOneOf(table: Table, name4: SetName, name6: SetName, src: Addr, t: Time) {
    InSet(table, name4, Ipv4Addr, src, t) || InSet(table, name6, Ipv6Addr, src, t)
  }

  lemma PairOfSets(table: Table, name4: SetName, name6: SetName, v4: NftSet, v6: NftSet, src: Addr, t: Time)
    requires name4 in table.sets && table.sets[name4] == v4 && name6 in table.sets && table.sets[name6] == v6
    ensures InOneOf(table, name4, name6, src, t) <==> InEither(v4, v6, src, t)
  {
  }

  lemma CompiledAddresses(n: State, now: Time, at: Time, src: Addr, t: Time)
    requires Clean(n)
    ensures InOneOf(CompiledTable(n, now, at), WhitelistV4, WhitelistV6, src, t) <==> src in n.whitelist
    ensures InOneOf(CompiledTable(n, now, at), PermanentV4, PermanentV6, src, t) <==> src in n.permanentBans
  {
    var table := CompiledTable(n, now, at);
    AddressMember(n.whitelist, at, src, t);
    PairOfSets(table, WhitelistV4, WhitelistV6, table.sets[WhitelistV4], table.sets[WhitelistV6], src, t);
    AddressMember(n.permanentBans, at, src, t);
    PairOfSets(table, PermanentV4, PermanentV6, table.sets[PermanentV4], table.sets[PermanentV6], src, t);
  }

  lemma CompiledBans(n: State, now: Time, at: Time, src: Addr, t: Time)
    requires Clean(n) && WithinRange(n.temporaryBans, now)
    ensures InOneOf(CompiledTable(n, now, at), TemporaryV4, TemporaryV6, src, t) <==> Banned(n.temporaryBans, now, at, src, t)
  {
    var table := CompiledTable(n, now, at);
    TemporaryMember(n.temporaryBans, now, at, src, t);
    PairOfSets(table, TemporaryV4, TemporaryV6, table.sets[TemporaryV4], table.sets[TemporaryV6], src, t);
  }

  /** The range condition is one the caller can check on the state's own bans. */
  lemma WithinRangeOfInput(s: State, now: Time)
    requires Valid(s)
    ensures WithinRange(NormalForm(s, now).temporaryBans, now) <==> WithinRange(s.temporaryBans, now)
  {
    var bans := NormalForm(s, now).temporaryBans;
    if WithinRange(bans, now) {
      NormalBansKept(s.temporaryBans, now);
      forall c | c in s.temporaryBans && c.expiresAt > now ensures c.expiresAt - now <= MAX_REMAINING {
        var b :| b in bans && b.address == Unmap(c.address) && c.expiresAt <= b.expiresAt;
      }
    } else {
      NormalBansPromised(s.temporaryBans, now);
    }
  }

  lemma InstalledVerdict(s: State, now: Time, at: Time, rs: Ruleset, src: Addr, t: Time)
    requires Valid(s) && WithinRange(s.temporaryBans, now)
    requires SHIELD in rs && rs[SHIELD] == CompiledTable(NormalForm(s, now), now, at)
    ensures InputVerdict(rs, SHIELD, src, t) == Policy(s, now, at, src, t)
  {
    var n := NormalForm(s, now);
    NormalFormIsClean(s, now);
    WithinRangeOfInput(s, now);
    CompiledVerdict(n, now, at, rs, src, t);
    BannedNormal(s, now, at, src, t);
    assert src in n.whitelist <==> src in Elems(n.whitelist);
    assert src in n.permanentBans <==> src in Elems(n.permanentBans);
  }

  /** Running what was rendered: the compiled table replaces Shield's, or the batch is rejected. */
  lemma RunRendered(s: State, now: Time, rs: Ruleset, at: Time)
    requires Valid(s)
    ensures Rendered(s, now).Success?
    ensures Run(Rendered(s, now).value, rs, at) ==
            if WithinRange(s.temporaryBans, now)
            then Some(rs[SHIELD := CompiledTable(NormalForm(s, now), now, at)])
            else None
  {
    NormalizeSucceedsIffValid(s, now);
    NormalFormIsClean(s, now);
    WithinRangeOfInput(s, now);
    var n := NormalForm(s, now);
    if WithinRange(s.temporaryBans, now) {
      ProgramBuilds(n, now, rs, at);
    } else {
      ProgramRejected(n, now, rs, at);
    }
  }

  /**
    Compilation preserves meaning. Running the rendered batch on any ruleset is
    accepted exactly when every unexpired ban is within the 64-bit range; it then
    leaves every other table as it was, and Shield's verdict on every source
    address at every instant is the one the desired state asks for.
   */
  lemma CompilePreservesMeaning(s: State, now: Time, rs: Ruleset, at: Time, src: Addr, t: Time)
    requires Valid(s)
    ensures Rendered(s, now).Success?
    ensures var out := Run(Rendered(s, now).value, rs, at);
            && (out.Some? <==> WithinRange(s.temporaryBans, now))
            && (out.Some? ==>
                  && out.value - {SHIELD} == rs - {SHIELD}
                  && InputVerdict(out.value, SHIELD, src, t) == Policy(s, now, at, src, t))
  {
    RunRendered(s, now, rs, at);
    if WithinRange(s.temporaryBans, now) {
      var out := rs[SHIELD := CompiledTable(NormalForm(s, now), now, at)];
      assert out - {SHIELD} == rs - {SHIELD};
      InstalledVerdict(s, now, at, out, src, t);
    }
  }

  /**
    What a loaded state does to a packet from src, in the words of the lists: the
    whitelist wins, then permanent bans; a temporary ban drops at least until its
    expiry; and an address whose every ban ended a second and the commit delay ago,
    or had expired when it was rendered, is accepted.
   */
  lemma VerdictOfLists(s: State, now: Time, rs: Ruleset, at: Time, src: Addr, t: Time)
    requires Valid(s) && now <= at && Rendered(s, now).Success? && Run(Rendered(s, now).value, rs, at).Some?
    ensures var verdict := InputVerdict(Run(Rendered(s, now).value, rs, at).value, SHIELD, src, t);
            var listed := exists a :: a in s.whitelist && Unmap(a) == src;
            var banned := exists a :: a in s.permanentBans && Unmap(a) == src;
            && (listed ==> verdict == Accept)
            && (!listed && banned ==> verdict == Drop)
            && (!listed && (exists b :: b in s.temporaryBans && Unmap(b.address) == src && now < b.expiresAt && t < b.expiresAt) ==>
                  verdict == Drop)
            && (!banned && (forall b :: b in s.temporaryBans && Unmap(b.address) == src ==>
                              b.expiresAt <= now || b.expiresAt + (at - now) + 1_000_000_000 <= t) ==>
                  verdict == Accept)
  {
    CompilePreservesMeaning(s, now, rs, at, src, t);
    assert src in Unmapped(s.whitelist) <==> exists a :: a in s.whitelist && Unmap(a) == src;
    assert src in Unmapped(s.permanentBans) <==> exists a :: a in s.permanentBans && Unmap(a) == src;
    forall b | b in s.temporaryBans && now < b.expiresAt
      ensures b.expiresAt <= RoundedEnd(b.expiresAt, now, at) < b.expiresAt + (at - now) + SECOND
    {
      BanHoldsUntilExpiry(b.expiresAt, now, at);
    }
  }

  /** The base chain hooks in before the usual filters, and accepts what no rule decides. */
  lemma BaseChainHook(n: State, now: Time, at: Time)
    ensures var chains := CompiledTable(n, now, at).chains;
            && chains.Keys == {BaseChain, PolicyChain}
            && chains[BaseChain] == Chain(Some(InputHook(-10, Accept)), [Jump(PolicyChain)])
            && chains[PolicyChain].base.None?
  {
  }

  /** The refusal happens: one ban on 1.1.1.1 a nanosecond beyond the range, on any ruleset. */
  lemma LongBanRefused(now: Time, rs: Ruleset, at: Time)
    requires now >= 0
    ensures var s := State([], [], [TemporaryBan(V4(0x0101_0101), now + MAX_REMAINING + 1)]);
            Valid(s) && Rendered(s, now).Success? && Run(Rendered(s, now).value, rs, at).None?
  {
    var s := State([], [], [TemporaryBan(V4(0x0101_0101), now + MAX_REMAINING + 1)]);
    assert s.temporaryBans[0] in s.temporaryBans;
    CompilePreservesMeaning(s, now, rs, at, NoAddr, now);
  }

  /** A ban holds until its expiry at least, and less than a second plus the commit delay longer. */
  lemma BanHoldsUntilExpiry(expiresAt: Time, now: Time, at: Time)
    requires now < expiresAt && now <= at
    ensures expiresAt <= RoundedEnd(expiresAt, now, at) < expiresAt + (at - now) + SECOND
  {
  }
}
