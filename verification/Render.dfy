/** Compiling a desired state into one nft batch, and what the batch means. */
module Render {
  import opened Wrappers
  import opened Clock
  import opened Addresses
  import opened DesiredState
  import opened Kernel

  /* ----- 64-bit durations ----- */

  /** `Time.Sub`, which saturates. */
  function DurationBetween(later: Time, earlier: Time): int {
    var d := later - earlier;
    if d > TWO_63 - 1 then TWO_63 - 1 else if d < -TWO_63 then -TWO_63 else d
  }

  /** Go's integer division by a positive constant, truncating toward zero. */
  function WholeSeconds(d: int): int {
    if d >= 0 then FloorSeconds(d) else -FloorSeconds(-d)
  }

  function TimeoutSeconds(expiresAt: Time, now: Time): int {
    WholeSeconds(WrapInt64(DurationBetween(expiresAt, now) + SECOND - 1))
  }

  function CeilSeconds(d: int): int {
    FloorSeconds(d + SECOND - 1)
  }

  /** The longest remaining time the 64-bit rounding handles. */
  const MAX_REMAINING: int := TWO_63 - SECOND

  /**
    The rendered timeout is the exact ceiling of the remaining time, and at least
    one second, precisely up to MAX_REMAINING; beyond it the sum wraps and the
    timeout is not even positive.
   */
  lemma TimeoutExactIff(expiresAt: Time, now: Time)
    requires now < expiresAt
    ensures TimeoutSeconds(expiresAt, now) == CeilSeconds(expiresAt - now) <==> expiresAt - now <= MAX_REMAINING
    ensures expiresAt - now <= MAX_REMAINING ==>
              && 1 <= TimeoutSeconds(expiresAt, now)
              && expiresAt - now <= Seconds(TimeoutSeconds(expiresAt, now)) < expiresAt - now + SECOND
    ensures expiresAt - now > MAX_REMAINING ==> TimeoutSeconds(expiresAt, now) <= 0
  {
    var sum := DurationBetween(expiresAt, now) + SECOND - 1;
    if expiresAt - now <= MAX_REMAINING {
      assert WrapInt64(sum) == sum;
    } else {
      assert WrapInt64(sum) == sum - TWO_64;
    }
  }

  /* ----- The program ----- */

  function OfFamily(addresses: seq<Addr>, ipv4: bool): seq<Addr> {
    if addresses == [] then []
    else
      var n := |addresses| - 1;
      OfFamily(addresses[..n], ipv4) + if addresses[n].V4? == ipv4 then [addresses[n]] else []
  }

  function PlainSpecs(addresses: seq<Addr>): seq<ElementSpec> {
    seq(|addresses|, i requires 0 <= i < |addresses| => ElementSpec(addresses[i], None))
  }

  predicate Written(ban: TemporaryBan, ipv4: bool, now: Time) {
    ban.address.V4? == ipv4 && ban.expiresAt > now
  }

  function TimedSpecs(bans: seq<TemporaryBan>, ipv4: bool, now: Time): seq<ElementSpec> {
    if bans == [] then []
    else
      var n := |bans| - 1;
      TimedSpecs(bans[..n], ipv4, now)
      + if Written(bans[n], ipv4, now)
        then [SpecOf(bans[n], now)]
        else []
  }

  function SpecOf(ban: TemporaryBan, now: Time): ElementSpec {
    ElementSpec(ban.address, Some(TimeoutSeconds(ban.expiresAt, now)))
  }

  const BASE_HOOK: InputHook := InputHook(-10, Accept)

  function AddressSet(name: SetName, ty: AddrType, addresses: seq<Addr>): Command {
    AddSet(SHIELD, name, ty, false, PlainSpecs(OfFamily(addresses, ty.Ipv4Addr?)))
  }

  function TemporarySet(name: SetName, ty: AddrType, bans: seq<TemporaryBan>, now: Time): Command {
    AddSet(SHIELD, name, ty, true, TimedSpecs(bans, ty.Ipv4Addr?, now))
  }

  function SetCommands(n: State, now: Time): seq<Command> {
    [ DestroyTable(SHIELD),
      AddTable(SHIELD),
      AddressSet(WhitelistV4, Ipv4Addr, n.whitelist),
      AddressSet(WhitelistV6, Ipv6Addr, n.whitelist),
      AddressSet(PermanentV4, Ipv4Addr, n.permanentBans),
      AddressSet(PermanentV6, Ipv6Addr, n.permanentBans),
      TemporarySet(TemporaryV4, Ipv4Addr, n.temporaryBans, now),
      TemporarySet(TemporaryV6, Ipv6Addr, n.temporaryBans, now) ]
  }

  const POLICY_RULES: seq<Rule> :=
    [ MatchSource(Ipv4Addr, WhitelistV4, Accept),
      MatchSource(Ipv6Addr, WhitelistV6, Accept),
      MatchSource(Ipv4Addr, PermanentV4, Drop),
      MatchSource(Ipv6Addr, PermanentV6, Drop),
      MatchSource(Ipv4Addr, TemporaryV4, Drop),
      MatchSource(Ipv6Addr, TemporaryV6, Drop) ]

  const CHAIN_COMMANDS: seq<Command> :=
    [ AddChain(SHIELD, PolicyChain, None),
      AddChain(SHIELD, BaseChain, Some(BASE_HOOK)),
      AddRule(SHIELD, BaseChain, Jump(PolicyChain)) ]

  function RuleCommands(rules: seq<Rule>): seq<Command> {
    seq(|rules|, i requires 0 <= i < |rules| => AddRule(SHIELD, PolicyChain, rules[i]))
  }

  /** The batch for an already normalised state. */
  function Program(n: State, now: Time): seq<Command> {
    SetCommands(n, now) + CHAIN_COMMANDS + RuleCommands(POLICY_RULES)
  }

  ghost function Rendered(s: State, now: Time): Result<seq<Command>, StateError> {
    match Normalized(s, now)
    case Failure(e) => Failure(e)
    case Success(n) => Success(Program(n, now))
  }

  /* ----- The operations ----- */

  method FilterAddresses(addresses: seq<Addr>, ipv4: bool) returns (result: seq<Addr>)
    ensures result == OfFamily(addresses, ipv4)
  {
    result := [];
    for i := 0 to |addresses|
      invariant result == OfFamily(addresses[..i], ipv4)
    {
      assert addresses[..i + 1][..i] == addresses[..i];
      if addresses[i].V4? == ipv4 {
        result := result + [addresses[i]];
      }
    }
    assert addresses[..|addresses|] == addresses;
  }

  method WriteAddressSet(program: seq<Command>, name: SetName, ty: AddrType, addresses: seq<Addr>)
    returns (r: seq<Command>)
    ensures r == program + [AddSet(SHIELD, name, ty, false, PlainSpecs(addresses))]
  {
    var elements := [];
    for i := 0 to |addresses|
      invariant elements == PlainSpecs(addresses[..i])
    {
      elements := elements + [ElementSpec(addresses[i], None)];
    }
    assert addresses[..|addresses|] == addresses;
    r := program + [AddSet(SHIELD, name, ty, false, elements)];
  }

  method WriteTemporarySet(program: seq<Command>, name: SetName, ty: AddrType, bans: seq<TemporaryBan>, now: Time)
    returns (r: seq<Command>)
    ensures r == program + [TemporarySet(name, ty, bans, now)]
  {
    var elements := [];
    for i := 0 to |bans|
      invariant elements == TimedSpecs(bans[..i], ty.Ipv4Addr?, now)
    {
      assert bans[..i + 1][..i] == bans[..i];
      if bans[i].address.V4? != ty.Ipv4Addr? || bans[i].expiresAt <= now {
        continue;
      }
      var seconds := TimeoutSeconds(bans[i].expiresAt, now);
      elements := elements + [ElementSpec(bans[i].address, Some(seconds))];
    }
    assert bans[..|bans|] == bans;
    r := program + [AddSet(SHIELD, name, ty, true, elements)];
  }

  method RenderRuleset(state: State, now: Time) returns (r: Result<seq<Command>, StateError>)
    ensures r == Rendered(state, now)
  {
    var normalized := Normalize(state, now);
    if normalized.Failure? {
      return Failure(normalized.error);
    }
    var n := normalized.value;
    var program := [DestroyTable(SHIELD), AddTable(SHIELD)];
    var addresses := FilterAddresses(n.whitelist, true);
    program := WriteAddressSet(program, WhitelistV4, Ipv4Addr, addresses);
    addresses := FilterAddresses(n.whitelist, false);
    program := WriteAddressSet(program, WhitelistV6, Ipv6Addr, addresses);
    addresses := FilterAddresses(n.permanentBans, true);
    program := WriteAddressSet(program, PermanentV4, Ipv4Addr, addresses);
    addresses := FilterAddresses(n.permanentBans, false);
    program := WriteAddressSet(program, PermanentV6, Ipv6Addr, addresses);
    program := WriteTemporarySet(program, TemporaryV4, Ipv4Addr, n.temporaryBans, now);
    program := WriteTemporarySet(program, TemporaryV6, Ipv6Addr, n.temporaryBans, now);
    assert program == SetCommands(n, now);
    program := program + CHAIN_COMMANDS;
    program := program + [
      AddRule(SHIELD, PolicyChain, MatchSource(Ipv4Addr, WhitelistV4, Accept)),
      AddRule(SHIELD, PolicyChain, MatchSource(Ipv6Addr, WhitelistV6, Accept)),
      AddRule(SHIELD, PolicyChain, MatchSource(Ipv4Addr, PermanentV4, Drop)),
      AddRule(SHIELD, PolicyChain, MatchSource(Ipv6Addr, PermanentV6, Drop)),
      AddRule(SHIELD, PolicyChain, MatchSource(Ipv4Addr, TemporaryV4, Drop)),
      AddRule(SHIELD, PolicyChain, MatchSource(Ipv6Addr, TemporaryV6, Drop)) ];
    assert program == Program(n, now);
    return Success(program);
  }
}
