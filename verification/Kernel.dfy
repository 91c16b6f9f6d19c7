/**
  The part of the nftables kernel that Shield relies on: tables with sets, chains
  and rules, atomic batches of commands, verdicts of a table on a packet's source
  address, and the JSON listing of a table.
 */
module Kernel {
  import opened Orders
  import opened Wrappers
  import opened Clock
  import opened Addresses

  datatype Family = Inet | Ip | Ip6 | Arp | Bridge | Netdev

  datatype TableKey = TableKey(family: Family, name: string)

  const SHIELD: TableKey := TableKey(Inet, "digitdojo_shield")

  datatype AddrType = Ipv4Addr | Ipv6Addr

  datatype SetName =
    | WhitelistV4 | WhitelistV6
    | PermanentV4 | PermanentV6
    | TemporaryV4 | TemporaryV6
    | OtherSet(name: string)

  datatype ChainName = BaseChain | PolicyChain | OtherChain(name: string)

  datatype Verdict = Accept | Drop

  /** Each element carries the instant at which the kernel expires it, if any. */
  datatype NftSet = NftSet(addrType: AddrType, timed: bool, elements: map<Addr, Option<Time>>)

  datatype Rule =
    | Jump(chain: ChainName)
    | MatchSource(addrType: AddrType, members: SetName, verdict: Verdict)

  datatype InputHook = InputHook(priority: int, policy: Verdict)

  datatype Chain = Chain(base: Option<InputHook>, rules: seq<Rule>)

  datatype Table = Table(sets: map<SetName, NftSet>, chains: map<ChainName, Chain>)

  type Ruleset = map<TableKey, Table>

  /* ----- Commands ----- */

  /** An element of an `add set` command, with `timeout <seconds>s` when given. */
  datatype ElementSpec = ElementSpec(addr: Addr, timeout: Option<int>)

  datatype Command =
    | DestroyTable(key: TableKey)
    | AddTable(key: TableKey)
    | AddSet(key: TableKey, name: SetName, addrType: AddrType, timed: bool, elements: seq<ElementSpec>)
    | AddChain(key: TableKey, chain: ChainName, base: Option<InputHook>)
    | AddRule(key: TableKey, chain: ChainName, rule: Rule)

  predicate HasType(a: Addr, addrType: AddrType) {
    match addrType
    case Ipv4Addr => a.V4?
    case Ipv6Addr => a.V6?
  }

  predicate WellTyped(e: ElementSpec, addrType: AddrType, timed: bool) {
    && HasType(e.addr, addrType)
    && (e.timeout.Some? ==> timed && e.timeout.value > 0)
  }

  function Deadline(e: ElementSpec, at: Time): Option<Time> {
    if e.timeout.None? then None else Some(at + Seconds(e.timeout.value))
  }

  /** Adding elements one by one; an element that is already there stays as it is. */
  function Insert(elements: map<Addr, Option<Time>>, specs: seq<ElementSpec>, at: Time): map<Addr, Option<Time>> {
    if specs == [] then elements
    else
      var n := |specs| - 1;
      var before := Insert(elements, specs[..n], at);
      if specs[n].addr in before then before else before[specs[n].addr := Deadline(specs[n], at)]
  }

  predicate RuleFits(rule: Rule, table: Table) {
    match rule
    case Jump(c) => c in table.chains && table.chains[c].base.None?
    case MatchSource(ty, s, _) => s in table.sets && table.sets[s].addrType == ty
  }

  /** One command of a batch at kernel time `at`; None is a rejection. */
  function Exec(c: Command, rs: Ruleset, at: Time): Option<Ruleset> {
    match c
    case DestroyTable(key) => Some(rs - {key})
    case AddTable(key) => Some(if key in rs then rs else rs[key := Table(map[], map[])])
    case AddSet(key, s, ty, timed, specs) =>
      if key !in rs || (exists e :: e in specs && !WellTyped(e, ty, timed)) then None
      else
        var was := if s in rs[key].sets then rs[key].sets[s] else NftSet(ty, timed, map[]);
        if was.addrType != ty || was.timed != timed then None
        else Some(rs[key := rs[key].(sets := rs[key].sets[s := was.(elements := Insert(was.elements, specs, at))])])
    case AddChain(key, ch, base) =>
      if key !in rs then None
      else if ch in rs[key].chains then (if rs[key].chains[ch].base == base then Some(rs) else None)
      else Some(rs[key := rs[key].(chains := rs[key].chains[ch := Chain(base, [])])])
    case AddRule(key, ch, rule) =>
      if key !in rs || ch !in rs[key].chains || !RuleFits(rule, rs[key]) then None
      else
        var was := rs[key].chains[ch];
        Some(rs[key := rs[key].(chains := rs[key].chains[ch := was.(rules := was.rules + [rule])])])
  }

  /** A batch is one transaction: every command succeeds, or nothing happens. */
  function Run(batch: seq<Command>, rs: Ruleset, at: Time): Option<Ruleset> {
    if batch == [] then Some(rs)
    else
      var n := |batch| - 1;
      match Run(batch[..n], rs, at)
      case None => None
      case Some(mid) => Exec(batch[n], mid, at)
  }

  lemma RunSnoc(batch: seq<Command>, c: Command, rs: Ruleset, at: Time)
    ensures Run(batch + [c], rs, at) ==
            match Run(batch, rs, at) case None => None case Some(mid) => Exec(c, mid, at)
  {
    assert (batch + [c])[..|batch|] == batch;
  }

  /** A set command with an element that does not fit is refused whatever the ruleset, */
  predicate NeverAccepted(c: Command) {
    c.AddSet? && exists e :: e in c.elements && !WellTyped(e, c.addrType, c.timed)
  }

  /** and with it every batch that contains it. */
  lemma {:induction false} RunRejects(batch: seq<Command>, i: nat, rs: Ruleset, at: Time)
    requires i < |batch| && NeverAccepted(batch[i])
    ensures Run(batch, rs, at).None?
  {
    if i < |batch| - 1 {
      RunRejects(batch[..|batch| - 1], i, rs, at);
    }
  }

  /* ----- Verdicts ----- */

  predicate IsLive(s: NftSet, a: Addr, at: Time) {
    a in s.elements && (s.elements[a].None? || at < s.elements[a].value)
  }

  /** The kernel's limit on nested jumps. */
  const JUMP_STACK: nat := 16

  /** Rules i.. of a chain on a packet from src; None is falling off the end. */
  function Traverse(table: Table, chain: ChainName, i: nat, src: Addr, at: Time, depth: nat): Option<Verdict>
    decreases depth, if chain in table.chains then |table.chains[chain].rules| - i else 0
  {
    if chain !in table.chains || i >= |table.chains[chain].rules| then None
    else
      match table.chains[chain].rules[i]
      case Jump(target) =>
        var inner := if depth == 0 then None else Traverse(table, target, 0, src, at, depth - 1);
        if inner.Some? then inner else Traverse(table, chain, i + 1, src, at, depth)
      case MatchSource(ty, s, verdict) =>
        if s in table.sets && HasType(src, ty) && IsLive(table.sets[s], src, at)
        then Some(verdict)
        else Traverse(table, chain, i + 1, src, at, depth)
  }

  /** What the table at `key` does to an incoming packet from src through its base chain. */
  function InputVerdict(rs: Ruleset, key: TableKey, src: Addr, at: Time): Verdict {
    if key !in rs || BaseChain !in rs[key].chains || rs[key].chains[BaseChain].base.None? then Accept
    else
      match Traverse(rs[key], BaseChain, 0, src, at, JUMP_STACK)
      case Some(verdict) => verdict
      case None => rs[key].chains[BaseChain].base.value.policy
  }

  /* ----- Listings ----- */

  /** A set element in the JSON listing: plain text, wrapped with `expires`, or anything else. */
  datatype Element = Plain(addr: Addr) | Wrapped(addr: Addr, expires: int) | Unsupported

  datatype Entry =
    | SetEntry(family: Family, table: string, name: SetName, elem: seq<Element>)
    | OtherEntry

  function LiveElements(s: NftSet, at: Time): set<Addr> {
    set a | a in s.elements && IsLive(s, a, at)
  }

  /** Remaining time is listed in whole seconds, rounded down. */
  function Listed(s: NftSet, a: Addr, at: Time): Element
    requires a in s.elements
  {
    if s.elements[a].None? then Plain(a) else Wrapped(a, FloorSeconds(s.elements[a].value - at))
  }

  /** elem lists the live elements of s, in any order. */
  ghost predicate ListsSet(elem: seq<Element>, s: NftSet, at: Time) {
    && Distinct(elem)
    && Elems(elem) == set a | a in LiveElements(s, at) :: Listed(s, a, at)
  }

  /** entries is a listing of the table at `key`: each set once, in any order. */
  ghost predicate IsListing(entries: seq<Entry>, key: TableKey, table: Table, at: Time) {
    && (forall i :: 0 <= i < |entries| && entries[i].SetEntry? ==>
          && TableKey(entries[i].family, entries[i].table) == key
          && entries[i].name in table.sets
          && ListsSet(entries[i].elem, table.sets[entries[i].name], at))
    && (forall i, j :: 0 <= i < j < |entries| && entries[i].SetEntry? && entries[j].SetEntry? ==>
          entries[i].name != entries[j].name)
    && (forall s :: s in table.sets ==> exists i :: 0 <= i < |entries| && entries[i].SetEntry? && entries[i].name == s)
  }
}
