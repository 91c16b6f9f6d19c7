/** Reading Shield's table back from its JSON listing. */
module Inspect {
  import opened Orders
  import opened Wrappers
  import opened Clock
  import opened Addresses
  import opened DesiredState
  import opened Kernel
  import opened Render
  import opened Compile

  /* ----- What parsing returns; None is an error ----- */

  function ElementsNamed(entries: seq<Entry>, name: SetName): seq<Element> {
    if entries == [] then []
    else
      var n := |entries| - 1;
      if IsSet(entries[n], name) then entries[n].elem else ElementsNamed(entries[..n], name)
  }

  predicate IsSet(e: Entry, name: SetName) {
    e.SetEntry? && TableKey(e.family, e.table) == SHIELD && e.name == name
  }

  function Expires(e: Element): int {
    if e.Wrapped? then e.expires else 0
  }

  function AddressesOf(elements: seq<Element>): Option<seq<Addr>> {
    if exists e :: e in elements && e.Unsupported? then None
    else Some(seq(|elements|, i requires 0 <= i < |elements| =>
           if elements[i].Unsupported? then NoAddr else elements[i].addr))
  }

  function BanOf(e: Element, now: Time): TemporaryBan
    requires !e.Unsupported?
  {
    TemporaryBan(e.addr, now + WrapInt64(Seconds(Expires(e))))
  }

  predicate Readable(e: Element) {
    !e.Unsupported? && Expires(e) > 0
  }

  function BansOf(elements: seq<Element>, now: Time): Option<seq<TemporaryBan>> {
    if exists e :: e in elements && !Readable(e) then None
    else Some(seq(|elements|, i requires 0 <= i < |elements| =>
           if elements[i].Unsupported? then TemporaryBan(NoAddr, 0) else BanOf(elements[i], now)))
  }

  function Joined<T>(x: Option<seq<T>>, y: Option<seq<T>>): Option<seq<T>> {
    if x.Some? && y.Some? then Some(x.value + y.value) else None
  }

  /** The parsed state, its temporary bans in listing order. */
  function ParsedState(entries: seq<Entry>, now: Time): Option<State> {
    var w := Joined(AddressesOf(ElementsNamed(entries, WhitelistV4)), AddressesOf(ElementsNamed(entries, WhitelistV6)));
    var p := Joined(AddressesOf(ElementsNamed(entries, PermanentV4)), AddressesOf(ElementsNamed(entries, PermanentV6)));
    var t := Joined(BansOf(ElementsNamed(entries, TemporaryV4), now), BansOf(ElementsNamed(entries, TemporaryV6), now));
    if w.Some? && p.Some? && t.Some? then Some(State(w.value, p.value, t.value)) else None
  }

  /** Parsing at r1 and normalising at r2, as `inspect` does with two clock reads. */
  ghost function Inspected(entries: seq<Entry>, r1: Time, r2: Time): Option<State> {
    match ParsedState(entries, r1)
    case None => None
    case Some(s) => if Valid(s) then Some(NormalForm(s, r2)) else None
  }

  /* ----- The operations ----- */

  method ParseAddressElements(elements: seq<Element>) returns (r: Option<seq<Addr>>)
    ensures r == AddressesOf(elements)
  {
    var addresses := [];
    for i := 0 to |elements|
      invariant forall j :: 0 <= j < i ==> !elements[j].Unsupported?
      invariant |addresses| == i && forall j :: 0 <= j < i ==> addresses[j] == elements[j].addr
    {
      assert elements[i] in elements;
      if elements[i].Unsupported? {
        return None;
      }
      addresses := addresses + [elements[i].addr];
    }
    assert forall e :: e in elements ==> !e.Unsupported?;
    assert addresses == AddressesOf(elements).value;
    return Some(addresses);
  }

  method ParseTemporaryElements(elements: seq<Element>, now: Time) returns (r: Option<seq<TemporaryBan>>)
    ensures r == BansOf(elements, now)
  {
    var bans := [];
    for i := 0 to |elements|
      invariant forall j :: 0 <= j < i ==> Readable(elements[j])
      invariant |bans| == i && forall j :: 0 <= j < i ==> bans[j] == BanOf(elements[j], now)
    {
      assert elements[i] in elements;
      assert Readable(elements[i]) <==> !elements[i].Unsupported? && Expires(elements[i]) > 0;
      if elements[i].Unsupported? || Expires(elements[i]) <= 0 {
        return None;
      }
      bans := bans + [TemporaryBan(elements[i].addr, now + WrapInt64(Seconds(Expires(elements[i]))))];
    }
    assert forall e :: e in elements ==> Readable(e);
    assert bans == BansOf(elements, now).value;
    return Some(bans);
  }

  function Found(sets: map<SetName, seq<Element>>, name: SetName): seq<Element> {
    if name in sets then sets[name] else []
  }

  method CollectSets(entries: seq<Entry>) returns (sets: map<SetName, seq<Element>>)
    ensures forall name :: Found(sets, name) == ElementsNamed(entries, name)
  {
    sets := map[];
    for i := 0 to |entries|
      invariant forall name :: Found(sets, name) == ElementsNamed(entries[..i], name)
    {
      assert entries[..i + 1][..i] == entries[..i];
      var entry := entries[i];
      if entry.SetEntry? && TableKey(entry.family, entry.table) == SHIELD {
        sets := sets[entry.name := entry.elem];
      }
    }
    assert entries[..|entries|] == entries;
  }

  method ParseRuleset(entries: seq<Entry>, now: Time) returns (r: Option<State>)
    ensures r.Some? <==> ParsedState(entries, now).Some?
    ensures r.Some? ==>
              var s := ParsedState(entries, now).value;
              && r.value.whitelist == s.whitelist
              && r.value.permanentBans == s.permanentBans
              && multiset(r.value.temporaryBans) == multiset(s.temporaryBans)
              && Ordered(EarlierAddress, r.value.temporaryBans)
  {
    var sets := CollectSets(entries);
    var w4 := ParseAddressElements(Found(sets, WhitelistV4));
    if w4.None? { return None; }
    var w6 := ParseAddressElements(Found(sets, WhitelistV6));
    if w6.None? { return None; }
    var p4 := ParseAddressElements(Found(sets, PermanentV4));
    if p4.None? { return None; }
    var p6 := ParseAddressElements(Found(sets, PermanentV6));
    if p6.None? { return None; }
    var t4 := ParseTemporaryElements(Found(sets, TemporaryV4), now);
    if t4.None? { return None; }
    var t6 := ParseTemporaryElements(Found(sets, TemporaryV6), now);
    if t6.None? { return None; }
    var temporary := SortSlice(t4.value + t6.value, EarlierAddress);
    return Some(State(w4.value + w6.value, p4.value + p6.value, temporary));
  }

  /** `inspect` after the table was found, with the listing nft printed. */
  method ReadState(entries: seq<Entry>, r1: Time, r2: Time) returns (r: Option<State>)
    ensures r == Inspected(entries, r1, r2)
  {
    var parsed := ParseRuleset(entries, r1);
    if parsed.None? {
      return None;
    }
    var normalized := Normalize(parsed.value, r2);
    BanOrderIrrelevant(parsed.value, ParsedState(entries, r1).value, r2);
    NormalizeSucceedsIffValid(parsed.value, r2);
    if normalized.Failure? {
      return None;
    }
    return Some(normalized.value);
  }

  lemma BanOrderIrrelevant(s: State, t: State, now: Time)
    requires s.whitelist == t.whitelist && s.permanentBans == t.permanentBans
    requires multiset(s.temporaryBans) == multiset(t.temporaryBans)
    ensures Valid(s) == Valid(t) && NormalForm(s, now) == NormalForm(t, now)
  {
    forall b ensures b in s.temporaryBans <==> b in t.temporaryBans {
      assert b in s.temporaryBans <==> b in multiset(s.temporaryBans);
      assert b in t.temporaryBans <==> b in multiset(t.temporaryBans);
    }
    assert Promises(s.temporaryBans) == Promises(t.temporaryBans);
  }

  /** An element that parsing refuses in the set with this name. */
  predicate Refused(e: Element, name: SetName) {
    e.Unsupported? || (name in {TemporaryV4, TemporaryV6} && (e.Plain? || e.expires <= 0))
  }

  const SHIELD_SETS: set<SetName> := {WhitelistV4, WhitelistV6, PermanentV4, PermanentV6, TemporaryV4, TemporaryV6}

  /** No element listed under the name is refused. */
  ghost predicate Parses(entries: seq<Entry>, name: SetName) {
    forall e :: e in ElementsNamed(entries, name) ==> !Refused(e, name)
  }

  lemma SetParses(entries: seq<Entry>, name: SetName, now: Time)
    ensures name in {WhitelistV4, WhitelistV6, PermanentV4, PermanentV6} ==>
              (AddressesOf(ElementsNamed(entries, name)).Some? <==> Parses(entries, name))
    ensures name in {TemporaryV4, TemporaryV6} ==>
              (BansOf(ElementsNamed(entries, name), now).Some? <==> Parses(entries, name))
  {
    assert forall e: Element :: name in {TemporaryV4, TemporaryV6} ==> (Refused(e, name) <==> !Readable(e));
  }

  /**
    Parsing fails exactly on an element of one of Shield's sets that is no address,
    or has no remaining expiry in a set of temporary bans.
   */
  lemma ParsedIff(entries: seq<Entry>, now: Time)
    ensures ParsedState(entries, now).Some? <==> forall name :: name in SHIELD_SETS ==> Parses(entries, name)
  {
    forall name | name in SHIELD_SETS
      ensures name in {TemporaryV4, TemporaryV6} ==>
                (BansOf(ElementsNamed(entries, name), now).Some? <==> Parses(entries, name))
      ensures name !in {TemporaryV4, TemporaryV6} ==>
                (AddressesOf(ElementsNamed(entries, name)).Some? <==> Parses(entries, name))
    {
      SetParses(entries, name, now);
    }
    assert WhitelistV4 in SHIELD_SETS && WhitelistV6 in SHIELD_SETS && PermanentV4 in SHIELD_SETS;
    assert PermanentV6 in SHIELD_SETS && TemporaryV4 in SHIELD_SETS && TemporaryV6 in SHIELD_SETS;
  }

  /** Of several sets with one name, the last one counts; sets of other tables do not. */
  lemma LastSetCounts(entries: seq<Entry>, name: SetName, elem: seq<Element>)
    ensures ElementsNamed(entries + [SetEntry(Inet, "digitdojo_shield", name, elem)], name) == elem
    ensures forall family, table :: family != Inet || table != "digitdojo_shield" ==>
              ElementsNamed(entries + [SetEntry(family, table, name, elem)], name) == ElementsNamed(entries, name)
  {
    forall family, table ensures (entries + [SetEntry(family, table, name, elem)])[..|entries|] == entries {
    }
  }

  /* ----- Reading one set ----- */

  lemma {:induction false} ListedOnce(entries: seq<Entry>, name: SetName, i: nat)
    requires i < |entries| && IsSet(entries[i], name)
    requires forall j :: i < j < |entries| ==> !IsSet(entries[j], name)
    ensures ElementsNamed(entries, name) == entries[i].elem
  {
    if i < |entries| - 1 {
      ListedOnce(entries[..|entries| - 1], name, i);
    }
  }

  lemma ListedSet(entries: seq<Entry>, table: Table, at: Time, name: SetName)
    requires IsListing(entries, SHIELD, table, at) && name in table.sets
    ensures ListsSet(ElementsNamed(entries, name), table.sets[name], at)
  {
    var i :| 0 <= i < |entries| && entries[i].SetEntry? && entries[i].name == name;
    ListedOnce(entries, name, i);
  }

  lemma AddressesRead(elements: seq<Element>, s: NftSet, at: Time)
    requires ListsSet(elements, s, at)
    ensures AddressesOf(elements).Some?
    ensures forall a :: a in AddressesOf(elements).value <==> a in LiveElements(s, at)
  {
    forall e | e in elements ensures !e.Unsupported? {
      assert e in Elems(elements);
    }
    var r := AddressesOf(elements).value;
    forall a | a in LiveElements(s, at) ensures a in r {
      assert Listed(s, a, at) in Elems(elements);
      var i :| 0 <= i < |elements| && elements[i] == Listed(s, a, at);
      assert r[i] == a;
    }
    forall a | a in r ensures a in LiveElements(s, at) {
      var i :| 0 <= i < |r| && r[i] == a;
      assert elements[i] in Elems(elements);
    }
  }

  /** The expiry that read-back at r assigns to a deadline listed at l. */
  function ReadExpiry(deadline: Time, l: Time, r: Time): Time {
    r + Seconds(FloorSeconds(deadline - l))
  }

  /** Every element is timed, and its remaining time fits a 64-bit duration. */
  predicate ReadableDeadlines(s: NftSet, l: Time) {
    forall a :: a in LiveElements(s, l) ==> s.elements[a].Some? && s.elements[a].value - l < TWO_63
  }

  lemma BanRead(s: NftSet, a: Addr, l: Time, r: Time)
    requires ReadableDeadlines(s, l) && a in LiveElements(s, l)
    ensures Listed(s, a, l) == Wrapped(a, FloorSeconds(s.elements[a].value - l))
    ensures BanOf(Listed(s, a, l), r) == TemporaryBan(a, ReadExpiry(s.elements[a].value, l, r))
    ensures Readable(Listed(s, a, l)) <==> s.elements[a].value - l >= SECOND
  {
  }

  /** A timed set can be read exactly when no live element is in its last second. */
  lemma BansRead(elements: seq<Element>, s: NftSet, l: Time, r: Time)
    requires ListsSet(elements, s, l) && ReadableDeadlines(s, l)
    ensures BansOf(elements, r).Some? <==> forall a :: a in LiveElements(s, l) ==> s.elements[a].value - l >= SECOND
    ensures BansOf(elements, r).Some? ==>
              forall b :: b in BansOf(elements, r).value <==>
                          && b.address in LiveElements(s, l)
                          && b.expiresAt == ReadExpiry(s.elements[b.address].value, l, r)
  {
    forall a | a in LiveElements(s, l)
      ensures Listed(s, a, l) in elements && (Readable(Listed(s, a, l)) <==> s.elements[a].value - l >= SECOND)
    {
      assert Listed(s, a, l) in Elems(elements);
      BanRead(s, a, l, r);
    }
    forall e | e in elements ensures exists a :: a in LiveElements(s, l) && e == Listed(s, a, l) {
      assert e in Elems(elements);
    }
    if BansOf(elements, r).Some? {
      BansReadBack(elements, s, l, r);
    }
  }

  lemma BansReadBack(elements: seq<Element>, s: NftSet, l: Time, r: Time)
    requires ListsSet(elements, s, l) && ReadableDeadlines(s, l) && BansOf(elements, r).Some?
    ensures forall b :: b in BansOf(elements, r).value <==>
                        && b.address in LiveElements(s, l)
                        && b.expiresAt == ReadExpiry(s.elements[b.address].value, l, r)
  {
    var bans := BansOf(elements, r).value;
    forall b | b in bans
      ensures b.address in LiveElements(s, l) && b.expiresAt == ReadExpiry(s.elements[b.address].value, l, r)
    {
      var i :| 0 <= i < |bans| && bans[i] == b;
      assert elements[i] in Elems(elements);
      BanRead(s, elements[i].addr, l, r);
    }
    forall b: TemporaryBan
      | b.address in LiveElements(s, l) && b.expiresAt == ReadExpiry(s.elements[b.address].value, l, r)
      ensures b in bans
    {
      var e := Listed(s, b.address, l);
      assert e in Elems(elements);
      var i :| 0 <= i < |elements| && elements[i] == e;
      BanRead(s, b.address, l, r);
      assert bans[i] == b;
    }
  }

  /* ----- Reading back a compiled table ----- */

  lemma AddressPairRead(entries: seq<Entry>, table: Table, l: Time, v4: SetName, v6: SetName, addresses: seq<Addr>, at: Time)
    requires IsListing(entries, SHIELD, table, l) && v4 in table.sets && v6 in table.sets
    requires table.sets[v4] == NftSet(Ipv4Addr, false, AddressElements(addresses, true, at))
    requires table.sets[v6] == NftSet(Ipv6Addr, false, AddressElements(addresses, false, at))
    ensures var r := Joined(AddressesOf(ElementsNamed(entries, v4)), AddressesOf(ElementsNamed(entries, v6)));
            r.Some? && forall a :: a in r.value <==> a in addresses
  {
    ListedSet(entries, table, l, v4);
    ListedSet(entries, table, l, v6);
    AddressesRead(ElementsNamed(entries, v4), table.sets[v4], l);
    AddressesRead(ElementsNamed(entries, v6), table.sets[v6], l);
    AddressElementsAre(addresses, true, at);
    AddressElementsAre(addresses, false, at);
  }

  /** x is what read-back makes of the ban b. */
  predicate ReadsAs(b: TemporaryBan, x: TemporaryBan, now: Time, at: Time, l: Time, r: Time) {
    var end := RoundedEnd(b.expiresAt, now, at);
    l < end && x == TemporaryBan(b.address, ReadExpiry(end, l, r))
  }

  /** No ban of the list is in its last second at l. */
  ghost predicate NoneInLastSecond(bans: seq<TemporaryBan>, now: Time, at: Time, l: Time) {
    forall b :: b in bans && l < RoundedEnd(b.expiresAt, now, at) ==> RoundedEnd(b.expiresAt, now, at) - l >= SECOND
  }

  /** The bans of one family, and when they end. */
  lemma TemporarySetHolds(bans: seq<TemporaryBan>, ipv4: bool, ty: AddrType, now: Time, at: Time, l: Time)
    requires Increasing(EarlierAddress, bans) && WithinRange(bans, now) && at <= l
    requires forall b :: b in bans ==> b.expiresAt > now
    ensures var s := NftSet(ty, true, TemporaryElements(bans, ipv4, now, at));
            && ReadableDeadlines(s, l)
            && (forall b :: b in bans && b.address.V4? == ipv4 && l < RoundedEnd(b.expiresAt, now, at) ==>
                  b.address in LiveElements(s, l) && s.elements[b.address] == Some(RoundedEnd(b.expiresAt, now, at)))
            && (forall a :: a in LiveElements(s, l) ==>
                  exists b :: && b in bans && b.address == a && a.V4? == ipv4
                              && l < RoundedEnd(b.expiresAt, now, at)
                              && s.elements[a] == Some(RoundedEnd(b.expiresAt, now, at)))
  {
    TemporaryElementsAre(bans, ipv4, now, at);
    var s := NftSet(ty, true, TemporaryElements(bans, ipv4, now, at));
    forall b | b in bans && b.address.V4? == ipv4
      ensures b.address in s.elements && s.elements[b.address] == Some(RoundedEnd(b.expiresAt, now, at))
      ensures RoundedEnd(b.expiresAt, now, at) - l < TWO_63
    {
      assert Written(b, ipv4, now);
      DeadlineIsEnd(b, now, at);
      TimeoutExactIff(b.expiresAt, now);
    }
    forall a | a in LiveElements(s, l)
      ensures s.elements[a].Some? && s.elements[a].value - l < TWO_63
      ensures exists b :: b in bans && b.address == a && a.V4? == ipv4
                          && l < RoundedEnd(b.expiresAt, now, at) && s.elements[a] == Some(RoundedEnd(b.expiresAt, now, at))
    {
      var b :| b in bans && b.address == a && Written(b, ipv4, now);
    }
  }

  lemma TemporaryRead(bans: seq<TemporaryBan>, ipv4: bool, ty: AddrType, elements: seq<Element>,
                      now: Time, at: Time, l: Time, r: Time)
    requires Increasing(EarlierAddress, bans) && WithinRange(bans, now) && at <= l
    requires forall b :: b in bans ==> b.expiresAt > now
    requires ListsSet(elements, NftSet(ty, true, TemporaryElements(bans, ipv4, now, at)), l)
    ensures var out := BansOf(elements, r);
            && (out.Some? <==> forall b :: b in bans && b.address.V4? == ipv4 && l < RoundedEnd(b.expiresAt, now, at)
                                 ==> RoundedEnd(b.expiresAt, now, at) - l >= SECOND)
            && (out.Some? ==> forall x :: x in out.value <==>
                  exists b :: b in bans && b.address.V4? == ipv4 && ReadsAs(b, x, now, at, l, r))
  {
    var s := NftSet(ty, true, TemporaryElements(bans, ipv4, now, at));
    TemporarySetHolds(bans, ipv4, ty, now, at, l);
    BansRead(elements, s, l, r);
    var out := BansOf(elements, r);
    if out.Some? {
      forall x | x in out.value ensures exists b :: b in bans && b.address.V4? == ipv4 && ReadsAs(b, x, now, at, l, r) {
        var b :| b in bans && b.address == x.address && b.address.V4? == ipv4
                 && l < RoundedEnd(b.expiresAt, now, at) && s.elements[b.address] == Some(RoundedEnd(b.expiresAt, now, at));
        assert ReadsAs(b, x, now, at, l, r);
      }
    }
  }

  /** What parsing the listing of a compiled table returns. */
  lemma CompiledParsed(n: State, now: Time, at: Time, entries: seq<Entry>, l: Time, r: Time)
    requires Clean(n) && WithinRange(n.temporaryBans, now) && at <= l
    requires forall b :: b in n.temporaryBans ==> b.expiresAt > now
    requires IsListing(entries, SHIELD, CompiledTable(n, now, at), l)
    ensures var out := ParsedState(entries, r);
            && (out.Some? <==> NoneInLastSecond(n.temporaryBans, now, at, l))
            && (out.Some? ==>
                  && (forall a :: a in out.value.whitelist <==> a in n.whitelist)
                  && (forall a :: a in out.value.permanentBans <==> a in n.permanentBans)
                  && (forall x :: x in out.value.temporaryBans <==>
                        exists b :: b in n.temporaryBans && ReadsAs(b, x, now, at, l, r)))
  {
    var table := CompiledTable(n, now, at);
    AddressPairRead(entries, table, l, WhitelistV4, WhitelistV6, n.whitelist, at);
    AddressPairRead(entries, table, l, PermanentV4, PermanentV6, n.permanentBans, at);
    ListedSet(entries, table, l, TemporaryV4);
    ListedSet(entries, table, l, TemporaryV6);
    JoinedBans(n.temporaryBans, ElementsNamed(entries, TemporaryV4), ElementsNamed(entries, TemporaryV6), now, at, l, r);
  }

  lemma JoinedBans(bans: seq<TemporaryBan>, e4: seq<Element>, e6: seq<Element>, now: Time, at: Time, l: Time, r: Time)
    requires Increasing(EarlierAddress, bans) && WithinRange(bans, now) && at <= l
    requires forall b :: b in bans ==> b.expiresAt > now
    requires ListsSet(e4, NftSet(Ipv4Addr, true, TemporaryElements(bans, true, now, at)), l)
    requires ListsSet(e6, NftSet(Ipv6Addr, true, TemporaryElements(bans, false, now, at)), l)
    ensures var out := Joined(BansOf(e4, r), BansOf(e6, r));
            && (out.Some? <==> NoneInLastSecond(bans, now, at, l))
            && (out.Some? ==> forall x :: x in out.value <==> exists b :: b in bans && ReadsAs(b, x, now, at, l, r))
  {
    TemporaryRead(bans, true, Ipv4Addr, e4, now, at, l, r);
    TemporaryRead(bans, false, Ipv6Addr, e6, now, at, l, r);
    var out := Joined(BansOf(e4, r), BansOf(e6, r));
    if out.Some? {
      forall x ensures x in out.value <==> exists b :: b in bans && ReadsAs(b, x, now, at, l, r) {
        assert x in out.value <==> x in BansOf(e4, r).value || x in BansOf(e6, r).value;
      }
    }
  }

  /**
    Reading back a compiled table. It fails exactly when some live ban is in its
    last second; otherwise it returns the whitelist and permanent bans as they
    were, and each live ban with its deadline rounded down to the listing.
   */
  lemma ReadBack(s: State, now: Time, at: Time, entries: seq<Entry>, l: Time, r1: Time, r2: Time)
    requires Valid(s) && WithinRange(s.temporaryBans, now) && at <= l && 0 <= r1
    requires IsListing(entries, SHIELD, CompiledTable(NormalForm(s, now), now, at), l)
    ensures var n := NormalForm(s, now);
            var out := Inspected(entries, r1, r2);
            && (out.Some? <==> NoneInLastSecond(n.temporaryBans, now, at, l))
            && (out.Some? ==>
                  && out.value.whitelist == n.whitelist
                  && out.value.permanentBans == n.permanentBans
                  && Increasing(EarlierAddress, out.value.temporaryBans)
                  && (forall x :: x in out.value.temporaryBans <==>
                        r2 < x.expiresAt && exists b :: b in n.temporaryBans && ReadsAs(b, x, now, at, l, r1)))
  {
    var n := NormalForm(s, now);
    NormalFormIsClean(s, now);
    WithinRangeOfInput(s, now);
    CompiledParsed(n, now, at, entries, l, r1);
    var parsed := ParsedState(entries, r1);
    if parsed.Some? {
      ParsedNormalises(n, parsed.value, now, at, l, r1, r2);
    }
  }

  /** What normalising the parsed state makes of it. */
  lemma ParsedNormalises(n: State, p: State, now: Time, at: Time, l: Time, r1: Time, r2: Time)
    requires Clean(n) && Increasing(Before, n.whitelist) && Increasing(Before, n.permanentBans)
    requires 0 <= r1 && NoneInLastSecond(n.temporaryBans, now, at, l)
    requires (forall a :: a in p.whitelist <==> a in n.whitelist) && (forall a :: a in p.permanentBans <==> a in n.permanentBans)
    requires forall x :: x in p.temporaryBans <==> exists b :: b in n.temporaryBans && ReadsAs(b, x, now, at, l, r1)
    ensures Valid(p)
    ensures var out := NormalForm(p, r2);
            && out.whitelist == n.whitelist && out.permanentBans == n.permanentBans
            && Increasing(EarlierAddress, out.temporaryBans)
            && (forall x :: x in out.temporaryBans <==>
                  r2 < x.expiresAt && exists b :: b in n.temporaryBans && ReadsAs(b, x, now, at, l, r1))
  {
    SameAddresses(p.whitelist, n.whitelist);
    SameAddresses(p.permanentBans, n.permanentBans);
    ParsedBansNormalise(n.temporaryBans, p.temporaryBans, now, at, l, r1, r2);
  }

  lemma ParsedBansNormalise(bans: seq<TemporaryBan>, parsed: seq<TemporaryBan>,
                            now: Time, at: Time, l: Time, r1: Time, r2: Time)
    requires Increasing(EarlierAddress, bans) && 0 <= r1 && NoneInLastSecond(bans, now, at, l)
    requires forall b :: b in bans ==> Acceptable(b.address) && Unmap(b.address) == b.address
    requires forall x :: x in parsed <==> exists b :: b in bans && ReadsAs(b, x, now, at, l, r1)
    ensures forall x :: x in parsed ==> Acceptable(x.address) && x.expiresAt != 0
    ensures forall x :: x in CanonicalBans(Latest(Promises(parsed), r2)) <==>
              r2 < x.expiresAt && exists b :: b in bans && ReadsAs(b, x, now, at, l, r1)
  {
    forall x | x in parsed ensures Acceptable(x.address) && Unmap(x.address) == x.address && x.expiresAt > 0 {
      var b :| b in bans && ReadsAs(b, x, now, at, l, r1);
      assert RoundedEnd(b.expiresAt, now, at) - l >= SECOND;
    }
    forall x, y | x in parsed && y in parsed && x.address == y.address ensures x == y {
      var b :| b in bans && ReadsAs(b, x, now, at, l, r1);
      var c :| c in bans && ReadsAs(c, y, now, at, l, r1);
      OneBanEach(bans, b, c);
    }
    BansNormalise(parsed, r2);
  }

  lemma OneBanEach(bans: seq<TemporaryBan>, b: TemporaryBan, c: TemporaryBan)
    requires Increasing(EarlierAddress, bans) && b in bans && c in bans && b.address == c.address
    ensures b == c
  {
    var i :| 0 <= i < |bans| && bans[i] == b;
    var j :| 0 <= j < |bans| && bans[j] == c;
    assert i == j;
  }

  /** A list with the elements of a canonical one normalises to it. */
  lemma SameAddresses(p: seq<Addr>, n: seq<Addr>)
    requires Increasing(Before, n) && forall a :: a in p <==> a in n
    requires forall a :: a in n ==> Unmap(a) == a
    ensures CanonicalAddresses(Unmapped(p)) == n
  {
    forall a ensures a in Unmapped(p) <==> a in Elems(n) {
      assert a in Unmapped(p) <==> exists w :: w in p && a == Unmap(w);
    }
    BeforeIsTotal();
    IncreasingUnique(Before, CanonicalAddresses(Unmapped(p)), n);
  }

  /** One promise per address: normalising only drops what has expired. */
  lemma BansNormalise(bans: seq<TemporaryBan>, r: Time)
    requires forall x :: x in bans ==> Unmap(x.address) == x.address
    requires forall x, y :: x in bans && y in bans && x.address == y.address ==> x == y
    ensures forall x :: x in CanonicalBans(Latest(Promises(bans), r)) <==> x in bans && r < x.expiresAt
  {
    var m := Latest(Promises(bans), r);
    forall x | x in bans && r < x.expiresAt ensures x in CanonicalBans(m) {
      assert (Unmap(x.address), x.expiresAt) in Promises(bans);
      assert (x.address, m[x.address]) in Promises(bans);
    }
    forall x | x in CanonicalBans(m) ensures x in bans && r < x.expiresAt {
      assert (x.address, m[x.address]) in Promises(bans);
    }
  }
}
