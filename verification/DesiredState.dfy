/** The declarative state shared by all firewall backends and its normalisation. */
module DesiredState {
  import opened Orders
  import opened Wrappers
  import opened Clock
  import opened Addresses

  datatype TemporaryBan = TemporaryBan(address: Addr, expiresAt: Time)

  datatype State = State(whitelist: seq<Addr>, permanentBans: seq<Addr>, temporaryBans: seq<TemporaryBan>)

  datatype StateError =
    | BadWhitelist(cause: AddressError)
    | BadPermanentBan(cause: AddressError)
    | BadTemporaryBan(cause: AddressError)
    | NoExpiry(address: Addr)

  /* ----- What a state says, whatever the order and repetition of its entries ----- */

  function Unmapped(addresses: seq<Addr>): set<Addr> {
    set a | a in addresses :: Unmap(a)
  }

  function Promises(bans: seq<TemporaryBan>): set<(Addr, Time)> {
    set b | b in bans :: (Unmap(b.address), b.expiresAt)
  }

  /** m keeps, for each address with an unexpired promise, the latest one. */
  ghost predicate IsLatest(promises: set<(Addr, Time)>, now: Time, m: map<Addr, Time>) {
    && (forall a, e :: (a, e) in promises && e > now ==> a in m && e <= m[a])
    && (forall a :: a in m ==> (a, m[a]) in promises && m[a] > now)
  }

  lemma IsLatestUnique(promises: set<(Addr, Time)>, now: Time, m: map<Addr, Time>, n: map<Addr, Time>)
    requires IsLatest(promises, now, m) && IsLatest(promises, now, n)
    ensures m == n
  {
    forall a | a in m ensures a in n && m[a] <= n[a] {
      assert (a, m[a]) in promises;
    }
    forall a | a in n ensures a in m && n[a] <= m[a] {
      assert (a, n[a]) in promises;
    }
  }

  lemma {:induction false} LatestExists(promises: set<(Addr, Time)>, now: Time)
    ensures exists m :: IsLatest(promises, now, m)
  {
    if promises == {} {
      assert IsLatest(promises, now, map[]);
    } else {
      var p :| p in promises;
      LatestExists(promises - {p}, now);
      var m :| IsLatest(promises - {p}, now, m);
      var n := if p.1 > now && (p.0 in m ==> p.1 > m[p.0]) then m[p.0 := p.1] else m;
      assert p == (p.0, p.1);
      assert IsLatest(promises, now, n);
    }
  }

  ghost function Latest(promises: set<(Addr, Time)>, now: Time): (m: map<Addr, Time>)
    ensures IsLatest(promises, now, m)
  {
    LatestExists(promises, now);
    var m :| IsLatest(promises, now, m);
    m
  }

  /* ----- The canonical form ----- */

  function EarlierAddress(x: TemporaryBan, y: TemporaryBan): bool {
    Before(x.address, y.address)
  }

  ghost function CanonicalAddresses(all: set<Addr>): (s: seq<Addr>)
    ensures Increasing(Before, s) && Elems(s) == all
  {
    BeforeIsTotal();
    SortedOf(Before, all)
  }

  ghost function CanonicalBans(m: map<Addr, Time>): (s: seq<TemporaryBan>)
    ensures Increasing(EarlierAddress, s)
    ensures forall b :: b in s <==> b.address in m && b.expiresAt == m[b.address]
    ensures |s| == |CanonicalAddresses(m.Keys)|
  {
    var keys := CanonicalAddresses(m.Keys);
    assert forall i :: 0 <= i < |keys| ==> keys[i] in Elems(keys);
    var s := seq(|keys|, i requires 0 <= i < |keys| => TemporaryBan(keys[i], m[keys[i]]));
    assert forall b :: b in s <==> b.address in m && b.expiresAt == m[b.address] by {
      forall b: TemporaryBan | b.address in m && b.expiresAt == m[b.address] ensures b in s {
        assert b.address in Elems(keys);
        var i :| 0 <= i < |keys| && keys[i] == b.address;
        assert s[i] == b;
      }
    }
    s
  }

  ghost function NormalForm(s: State, now: Time): State {
    State(
      CanonicalAddresses(Unmapped(s.whitelist)),
      CanonicalAddresses(Unmapped(s.permanentBans)),
      CanonicalBans(Latest(Promises(s.temporaryBans), now)))
  }

  /* ----- Errors, in the order the loops meet them ----- */

  function AddressesError(addresses: seq<Addr>): Option<AddressError> {
    if addresses == [] then None
    else if NormalizeAddress(addresses[0]).Failure? then Some(NormalizeAddress(addresses[0]).error)
    else AddressesError(addresses[1..])
  }

  function BansError(bans: seq<TemporaryBan>): Option<StateError> {
    if bans == [] then None
    else
      match NormalizeAddress(bans[0].address)
      case Failure(e) => Some(BadTemporaryBan(e))
      case Success(a) => if bans[0].expiresAt == 0 then Some(NoExpiry(a)) else BansError(bans[1..])
  }

  predicate Valid(s: State) {
    && (forall a :: a in s.whitelist ==> Acceptable(a))
    && (forall a :: a in s.permanentBans ==> Acceptable(a))
    && (forall b :: b in s.temporaryBans ==> Acceptable(b.address) && b.expiresAt != 0)
  }

  ghost function Normalized(s: State, now: Time): Result<State, StateError> {
    if AddressesError(s.whitelist).Some? then Failure(BadWhitelist(AddressesError(s.whitelist).value))
    else if AddressesError(s.permanentBans).Some? then Failure(BadPermanentBan(AddressesError(s.permanentBans).value))
    else if BansError(s.temporaryBans).Some? then Failure(BansError(s.temporaryBans).value)
    else Success(NormalForm(s, now))
  }

  lemma {:induction false} AddressesErrorNone(addresses: seq<Addr>)
    ensures AddressesError(addresses).None? <==> forall a :: a in addresses ==> Acceptable(a)
  {
    if addresses != [] {
      AddressesErrorNone(addresses[1..]);
      assert Acceptable(addresses[0]) <==> NormalizeAddress(addresses[0]).Success?;
      assert forall a :: a in addresses <==> a == addresses[0] || a in addresses[1..];
    }
  }

  lemma {:induction false} BansErrorNone(bans: seq<TemporaryBan>)
    ensures BansError(bans).None? <==> forall b :: b in bans ==> Acceptable(b.address) && b.expiresAt != 0
  {
    if bans != [] {
      BansErrorNone(bans[1..]);
      assert forall b :: b in bans <==> b == bans[0] || b in bans[1..];
    }
  }

  lemma {:induction false} AddressesErrorFirst(addresses: seq<Addr>, i: nat)
    requires i < |addresses| && AddressesError(addresses[..i]).None?
    requires NormalizeAddress(addresses[i]).Failure?
    ensures AddressesError(addresses) == Some(NormalizeAddress(addresses[i]).error)
  {
    if i > 0 {
      assert addresses[1..][..i - 1] == addresses[..i][1..];
      AddressesErrorFirst(addresses[1..], i - 1);
    }
  }

  lemma {:induction false} BansErrorFirst(bans: seq<TemporaryBan>, i: nat)
    requires i < |bans| && BansError(bans[..i]).None?
    requires BansError([bans[i]]).Some?
    ensures BansError(bans) == BansError([bans[i]])
  {
    if i > 0 {
      assert bans[1..][..i - 1] == bans[..i][1..];
      BansErrorFirst(bans[1..], i - 1);
    }
  }

  /* ----- The operations ----- */

  method NormalizeAddresses(addresses: seq<Addr>) returns (r: Result<seq<Addr>, AddressError>)
    ensures AddressesError(addresses).Some? ==> r == Failure(AddressesError(addresses).value)
    ensures AddressesError(addresses).None? ==> r == Success(CanonicalAddresses(Unmapped(addresses)))
  {
    var unique: set<Addr> := {};
    for i := 0 to |addresses|
      invariant AddressesError(addresses[..i]).None?
      invariant unique == Unmapped(addresses[..i])
    {
      var normalized := NormalizeAddress(addresses[i]);
      if normalized.Failure? {
        AddressesErrorFirst(addresses, i);
        return Failure(normalized.error);
      }
      AddressesErrorNone(addresses[..i]);
      AddressesErrorNone(addresses[..i + 1]);
      unique := unique + {normalized.value};
    }
    assert addresses[..|addresses|] == addresses;
    var listed := [];
    var rest := unique;
    while rest != {}
      invariant Distinct(listed) && Elems(listed) == unique - rest && rest <= unique
    {
      var address :| address in rest;
      assert Elems(listed + [address]) == Elems(listed) + {address};
      assert forall j :: 0 <= j < |listed| ==> listed[j] in Elems(listed);
      listed := listed + [address];
      rest := rest - {address};
    }
    BeforeIsTotal();
    var sorted := SortSlice(listed, Before);
    SortedDistinct(Before, listed, sorted);
    IncreasingUnique(Before, sorted, CanonicalAddresses(unique));
    return Success(sorted);
  }

  lemma GoodBansSnoc(bans: seq<TemporaryBan>, i: nat)
    requires i < |bans| && BansError(bans[..i]).None? && Acceptable(bans[i].address) && bans[i].expiresAt != 0
    ensures BansError(bans[..i + 1]).None?
  {
    BansErrorNone(bans[..i]);
    BansErrorNone(bans[..i + 1]);
    assert bans[..i + 1] == bans[..i] + [bans[i]];
  }

  lemma PromisesSnoc(bans: seq<TemporaryBan>, i: nat)
    requires i < |bans|
    ensures Promises(bans[..i + 1]) == Promises(bans[..i]) + {(Unmap(bans[i].address), bans[i].expiresAt)}
  {
    assert bans[..i + 1] == bans[..i] + [bans[i]];
  }

  /** A new promise replaces an earlier expiry of its address, unless it has expired. */
  lemma OneMorePromise(promises: set<(Addr, Time)>, now: Time, latest: map<Addr, Time>, a: Addr, t: Time)
    requires IsLatest(promises, now, latest)
    ensures IsLatest(promises + {(a, t)}, now,
                     if t > now && (a !in latest || t > latest[a]) then latest[a := t] else latest)
  {
  }

  /** The first loop of `Normalize` over the temporary bans. */
  method LatestOf(bans: seq<TemporaryBan>, now: Time) returns (r: Result<map<Addr, Time>, StateError>)
    ensures BansError(bans).Some? ==> r == Failure(BansError(bans).value)
    ensures BansError(bans).None? ==> r == Success(Latest(Promises(bans), now))
  {
    var latest: map<Addr, Time> := map[];
    for i := 0 to |bans|
      invariant BansError(bans[..i]).None?
      invariant IsLatest(Promises(bans[..i]), now, latest)
    {
      var address := NormalizeAddress(bans[i].address);
      if address.Failure? {
        BansErrorFirst(bans, i);
        return Failure(BadTemporaryBan(address.error));
      }
      if bans[i].expiresAt == 0 {
        BansErrorFirst(bans, i);
        return Failure(NoExpiry(address.value));
      }
      GoodBansSnoc(bans, i);
      PromisesSnoc(bans, i);
      OneMorePromise(Promises(bans[..i]), now, latest, address.value, bans[i].expiresAt);
      if bans[i].expiresAt > now && (address.value !in latest || bans[i].expiresAt > latest[address.value]) {
        latest := latest[address.value := bans[i].expiresAt];
      }
    }
    assert bans[..|bans|] == bans;
    IsLatestUnique(Promises(bans), now, latest, Latest(Promises(bans), now));
    return Success(latest);
  }

  method Normalize(s: State, now: Time) returns (r: Result<State, StateError>)
    ensures r == Normalized(s, now)
  {
    var whitelist := NormalizeAddresses(s.whitelist);
    if whitelist.Failure? {
      return Failure(BadWhitelist(whitelist.error));
    }
    var permanent := NormalizeAddresses(s.permanentBans);
    if permanent.Failure? {
      return Failure(BadPermanentBan(permanent.error));
    }
    var latest := LatestOf(s.temporaryBans, now);
    if latest.Failure? {
      return Failure(latest.error);
    }
    var temporary := ListBans(latest.value);
    return Success(State(whitelist.value, permanent.value, temporary));
  }

  method ListBans(latest: map<Addr, Time>) returns (r: seq<TemporaryBan>)
    ensures r == CanonicalBans(latest)
  {
    var listed: seq<TemporaryBan> := [];
    var rest := latest.Keys;
    while rest != {}
      invariant rest <= latest.Keys
      invariant forall b :: b in listed <==> b.address in latest && b.address !in rest && b.expiresAt == latest[b.address]
      invariant forall i, j :: 0 <= i < j < |listed| ==> listed[i].address != listed[j].address
    {
      var address :| address in rest;
      assert forall j :: 0 <= j < |listed| ==> listed[j] in listed;
      listed := listed + [TemporaryBan(address, latest[address])];
      rest := rest - {address};
    }
    r := SortSlice(listed, EarlierAddress);
    BansOrdered(listed, r);
    BansUnique(r, CanonicalBans(latest));
  }

  lemma BansOrdered(s: seq<TemporaryBan>, r: seq<TemporaryBan>)
    requires forall i, j :: 0 <= i < j < |s| ==> s[i].address != s[j].address
    requires Ordered(EarlierAddress, r) && multiset(r) == multiset(s)
    ensures Increasing(EarlierAddress, r)
    ensures forall b :: b in r <==> b in s
  {
    forall b ensures b in r <==> b in s {
      assert b in r <==> b in multiset(r);
      assert b in s <==> b in multiset(s);
    }
    forall i, j | 0 <= i < j < |r| ensures EarlierAddress(r[i], r[j]) {
      assert r[i] in s && r[j] in s;
      if r[i] == r[j] {
        TwiceInMultiset(r, i, j);
        DistinctMultiplicity(s, r[i]);
      }
    }
  }

  /** A list of bans in strict address order is determined by its elements. */
  lemma {:induction false} BansUnique(s: seq<TemporaryBan>, t: seq<TemporaryBan>)
    requires Increasing(EarlierAddress, s) && Increasing(EarlierAddress, t)
    requires forall b :: b in s <==> b in t
    ensures s == t
  {
    if s != [] && t != [] {
      assert s[0] in t && t[0] in s;
      assert s[0] == t[0];
      assert s == [s[0]] + s[1..] && t == [t[0]] + t[1..];
      forall b ensures b in s[1..] <==> b in t[1..] {
        assert b in s <==> b == s[0] || b in s[1..];
        assert b in t <==> b == t[0] || b in t[1..];
        assert s[0] !in s[1..] && t[0] !in t[1..];
      }
      BansUnique(s[1..], t[1..]);
    } else {
      assert Elems(s) == Elems(t);
      SameElemsBothEmpty(s, t);
    }
  }

  /* ----- Properties of normalisation ----- */

  /** Normalisation fails exactly on invalid states, at every time alike. */
  lemma NormalizeSucceedsIffValid(s: State, now: Time)
    ensures Normalized(s, now).Success? <==> Valid(s)
  {
    AddressesErrorNone(s.whitelist);
    AddressesErrorNone(s.permanentBans);
    BansErrorNone(s.temporaryBans);
  }

  /**
    Which error is reported: that of the first bad whitelist entry; if there is
    none, of the first bad permanent ban; if there is none, of the first temporary
    ban with a bad address or no expiry.
   */
  lemma FirstErrorReported(s: State, now: Time, i: nat)
    ensures i < |s.whitelist| && NormalizeAddress(s.whitelist[i]).Failure?
            && (forall a :: a in s.whitelist[..i] ==> Acceptable(a))
            ==> Normalized(s, now) == Failure(BadWhitelist(NormalizeAddress(s.whitelist[i]).error))
    ensures (forall a :: a in s.whitelist ==> Acceptable(a))
            && i < |s.permanentBans| && NormalizeAddress(s.permanentBans[i]).Failure?
            && (forall a :: a in s.permanentBans[..i] ==> Acceptable(a))
            ==> Normalized(s, now) == Failure(BadPermanentBan(NormalizeAddress(s.permanentBans[i]).error))
    ensures (forall a :: a in s.whitelist || a in s.permanentBans ==> Acceptable(a))
            && i < |s.temporaryBans| && (forall b :: b in s.temporaryBans[..i] ==> Acceptable(b.address) && b.expiresAt != 0)
            ==> var b := s.temporaryBans[i];
                && (NormalizeAddress(b.address).Failure? ==>
                      Normalized(s, now) == Failure(BadTemporaryBan(NormalizeAddress(b.address).error)))
                && (Acceptable(b.address) && b.expiresAt == 0 ==>
                      Normalized(s, now) == Failure(NoExpiry(Unmap(b.address))))
  {
    AddressesErrorNone(s.whitelist);
    AddressesErrorNone(s.permanentBans);
    if i < |s.whitelist| && NormalizeAddress(s.whitelist[i]).Failure? {
      AddressesErrorNone(s.whitelist[..i]);
      if AddressesError(s.whitelist[..i]).None? {
        AddressesErrorFirst(s.whitelist, i);
      }
    }
    if i < |s.permanentBans| && NormalizeAddress(s.permanentBans[i]).Failure? {
      AddressesErrorNone(s.permanentBans[..i]);
      if AddressesError(s.permanentBans[..i]).None? {
        AddressesErrorFirst(s.permanentBans, i);
      }
    }
    if i < |s.temporaryBans| {
      BansErrorNone(s.temporaryBans[..i]);
      if BansError(s.temporaryBans[..i]).None? && BansError([s.temporaryBans[i]]).Some? {
        BansErrorFirst(s.temporaryBans, i);
      }
    }
  }

  /** Every ban of r is an unexpired promise of `bans`. */
  ghost predicate Promised(bans: seq<TemporaryBan>, r: seq<TemporaryBan>, now: Time) {
    forall b :: b in r ==>
                  b.expiresAt > now && exists c :: c in bans && b == TemporaryBan(Unmap(c.address), c.expiresAt)
  }

  /** Every unexpired promise of `bans` is kept in r, at least as long. */
  ghost predicate Kept(bans: seq<TemporaryBan>, r: seq<TemporaryBan>, now: Time) {
    forall c :: c in bans && c.expiresAt > now ==>
                  exists b :: b in r && b.address == Unmap(c.address) && c.expiresAt <= b.expiresAt
  }

  /** The canonical bans are the input's latest unexpired promises, address by address. */
  lemma NormalBansPromised(bans: seq<TemporaryBan>, now: Time)
    ensures Promised(bans, CanonicalBans(Latest(Promises(bans), now)), now)
  {
    var m := Latest(Promises(bans), now);
    forall b | b in CanonicalBans(m)
      ensures b.expiresAt > now && exists c :: c in bans && b == TemporaryBan(Unmap(c.address), c.expiresAt)
    {
      assert (b.address, m[b.address]) in Promises(bans);
    }
  }

  lemma NormalBansKept(bans: seq<TemporaryBan>, now: Time)
    ensures Kept(bans, CanonicalBans(Latest(Promises(bans), now)), now)
  {
    var m := Latest(Promises(bans), now);
    forall c | c in bans && c.expiresAt > now
      ensures exists b :: b in CanonicalBans(m) && b.address == Unmap(c.address) && c.expiresAt <= b.expiresAt
    {
      assert (Unmap(c.address), c.expiresAt) in Promises(bans);
      assert TemporaryBan(Unmap(c.address), m[Unmap(c.address)]) in CanonicalBans(m);
    }
  }

  /**
    The result lists each unmapped input address once, in address order, and for
    each banned address the latest expiry among its unexpired promises.
   */
  lemma NormalizeIsCanonical(s: State, now: Time)
    requires Valid(s)
    ensures var r := NormalForm(s, now);
            && Normalized(s, now) == Success(r)
            && Increasing(Before, r.whitelist)
            && Increasing(Before, r.permanentBans)
            && Increasing(EarlierAddress, r.temporaryBans)
            && (forall a :: a in r.whitelist <==> exists w :: w in s.whitelist && a == Unmap(w))
            && (forall a :: a in r.permanentBans <==> exists w :: w in s.permanentBans && a == Unmap(w))
            && Promised(s.temporaryBans, r.temporaryBans, now)
            && Kept(s.temporaryBans, r.temporaryBans, now)
  {
    NormalizeSucceedsIffValid(s, now);
    var r := NormalForm(s, now);
    NormalBansPromised(s.temporaryBans, now);
    NormalBansKept(s.temporaryBans, now);
    forall a ensures a in r.whitelist <==> exists w :: w in s.whitelist && a == Unmap(w) {
      assert a in r.whitelist <==> a in Elems(r.whitelist);
    }
    forall a ensures a in r.permanentBans <==> exists w :: w in s.permanentBans && a == Unmap(w) {
      assert a in r.permanentBans <==> a in Elems(r.permanentBans);
    }
  }

  ghost predicate SameContent(s: State, t: State, now: Time) {
    && Unmapped(s.whitelist) == Unmapped(t.whitelist)
    && Unmapped(s.permanentBans) == Unmapped(t.permanentBans)
    && Latest(Promises(s.temporaryBans), now) == Latest(Promises(t.temporaryBans), now)
  }

  /** Two valid states normalise alike exactly when they say the same. */
  lemma NormalizeDecidesContent(s: State, t: State, now: Time)
    requires Valid(s) && Valid(t)
    ensures Normalized(s, now) == Normalized(t, now) <==> SameContent(s, t, now)
  {
    NormalizeSucceedsIffValid(s, now);
    NormalizeSucceedsIffValid(t, now);
    var a, b := NormalForm(s, now), NormalForm(t, now);
    if a == b {
      assert Elems(a.whitelist) == Elems(b.whitelist);
      assert Elems(a.permanentBans) == Elems(b.permanentBans);
      var m := Latest(Promises(s.temporaryBans), now);
      var n := Latest(Promises(t.temporaryBans), now);
      forall x | x in m ensures x in n && m[x] == n[x] {
        assert TemporaryBan(x, m[x]) in a.temporaryBans;
      }
      forall x | x in n ensures x in m && m[x] == n[x] {
        assert TemporaryBan(x, n[x]) in b.temporaryBans;
      }
    }
  }

  lemma UnmappedCanonical(addresses: seq<Addr>)
    requires forall a :: a in addresses ==> Acceptable(a)
    ensures var c := CanonicalAddresses(Unmapped(addresses));
            Unmapped(c) == Unmapped(addresses) && forall a :: a in c ==> Acceptable(a) && Unmap(a) == a
  {
    var c := CanonicalAddresses(Unmapped(addresses));
    forall a | a in c ensures Acceptable(a) && Unmap(a) == a {
      assert a in Elems(c);
      var w :| w in addresses && a == Unmap(w);
      NormalizeAddressIdempotent(w);
    }
    forall a ensures a in Unmapped(c) <==> a in Unmapped(addresses) {
      assert a in Unmapped(c) ==> exists w :: w in c && a == Unmap(w);
      assert a in Unmapped(addresses) ==> a in Elems(c) && a in c && Unmap(a) == a;
    }
  }

  lemma LatestCanonical(bans: seq<TemporaryBan>, t1: Time, t2: Time)
    requires t1 <= t2 && forall b :: b in bans ==> Acceptable(b.address) && b.expiresAt != 0
    ensures var c := CanonicalBans(Latest(Promises(bans), t1));
            && (forall b :: b in c ==> Acceptable(b.address) && Unmap(b.address) == b.address && b.expiresAt != 0)
            && Latest(Promises(c), t2) == Latest(Promises(bans), t2)
  {
    var m := Latest(Promises(bans), t1);
    var c := CanonicalBans(m);
    forall b | b in c ensures Acceptable(b.address) && Unmap(b.address) == b.address && b.expiresAt != 0 {
      assert (b.address, m[b.address]) in Promises(bans);
      var w :| w in bans && Unmap(w.address) == b.address && w.expiresAt == b.expiresAt;
      NormalizeAddressIdempotent(w.address);
    }
    var n := Latest(Promises(bans), t2);
    forall a, e | (a, e) in Promises(c) ensures a in m && e == m[a] {
    }
    forall a, e | (a, e) in Promises(c) && e > t2 ensures a in n && e <= n[a] {
      assert (a, m[a]) in Promises(bans);
    }
    forall a | a in n ensures (a, n[a]) in Promises(c) {
      assert (a, n[a]) in Promises(bans);
      assert (a, m[a]) in Promises(bans);
      assert m[a] == n[a];
      var b := TemporaryBan(a, m[a]);
      assert b in c;
      assert (Unmap(b.address), b.expiresAt) in Promises(c);
    }
    IsLatestUnique(Promises(c), t2, Latest(Promises(c), t2), n);
  }

  /** Normalising early and then again later is normalising later: nothing is lost or revived. */
  lemma NormalizeComposes(s: State, t1: Time, t2: Time)
    requires Valid(s) && t1 <= t2
    ensures Valid(NormalForm(s, t1))
    ensures Normalized(NormalForm(s, t1), t2) == Normalized(s, t2) == Success(NormalForm(s, t2))
  {
    var n := NormalForm(s, t1);
    UnmappedCanonical(s.whitelist);
    UnmappedCanonical(s.permanentBans);
    LatestCanonical(s.temporaryBans, t1, t2);
    NormalizeSucceedsIffValid(s, t2);
    NormalizeSucceedsIffValid(n, t2);
  }
}
