/**
  `netip.Addr` values without zones: the zero value, IPv4 and IPv6 addresses by
  their bits, the order of `Addr.Compare`, and the address check of the backend
  contract.
 */
module Addresses {
  import opened Orders
  import opened Wrappers

  const V4_SPACE: int := 0x1_0000_0000
  const V6_SPACE: int := 0x1_0000_0000_0000_0000_0000_0000_0000_0000

  type V4Bits = n: int | 0 <= n < V4_SPACE
  type V6Bits = n: int | 0 <= n < V6_SPACE

  datatype Addr = NoAddr | V4(v4: V4Bits) | V6(v6: V6Bits)

  /** IPv4-mapped IPv6 addresses, `::ffff:0:0/96`: section 2.5.5.2 of RFC 4291. */
  const MAPPED_START: int := 0xffff_0000_0000

  function Unmap(a: Addr): Addr {
    if a.V6? && MAPPED_START <= a.v6 < MAPPED_START + V4_SPACE
    then V4(a.v6 - MAPPED_START)
    else a
  }

  predicate IsUnspecified(a: Addr) {
    a == V4(0) || a == V6(0)
  }

  // 127.0.0.0/8 and ::1
  predicate IsLoopback(a: Addr) {
    match a
    case NoAddr => false
    case V4(b) => 0x7f00_0000 <= b < 0x8000_0000
    case V6(b) => b == 1
  }

  // 224.0.0.0/4 and ff00::/8; the link-local multicast ranges lie inside these
  predicate IsMulticast(a: Addr) {
    match a
    case NoAddr => false
    case V4(b) => 0xe000_0000 <= b < 0xf000_0000
    case V6(b) => 0xff00_0000_0000_0000_0000_0000_0000_0000 <= b
  }

  // 169.254.0.0/16 and fe80::/10
  predicate IsLinkLocalUnicast(a: Addr) {
    match a
    case NoAddr => false
    case V4(b) => 0xa9fe_0000 <= b < 0xa9ff_0000
    case V6(b) =>
      && 0xfe80_0000_0000_0000_0000_0000_0000_0000 <= b
      && b < 0xfec0_0000_0000_0000_0000_0000_0000_0000
  }

  predicate IsUnsafe(a: Addr) {
    IsUnspecified(a) || IsLoopback(a) || IsMulticast(a) || IsLinkLocalUnicast(a)
  }

  /** The order of `netip.Addr.Compare`: by bit length, then by value. */
  predicate Before(a: Addr, b: Addr) {
    match (a, b)
    case (NoAddr, _) => b != NoAddr
    case (V4(x), V4(y)) => x < y
    case (V4(_), V6(_)) => true
    case (V6(x), V6(y)) => x < y
    case _ => false
  }

  lemma BeforeIsTotal()
    ensures TotalOrder(Before)
  {
  }

  datatype AddressError = InvalidAddress | UnsafeAddress

  function NormalizeAddress(address: Addr): (r: Result<Addr, AddressError>) {
    if address.NoAddr? then Failure(InvalidAddress)
    else if IsUnsafe(Unmap(address)) then Failure(UnsafeAddress)
    else Success(Unmap(address))
  }

  /** Addresses the firewall accepts in any of its lists. */
  predicate Acceptable(a: Addr) {
    NormalizeAddress(a).Success?
  }

  /** Normalising twice is normalising once; a normal address is never IPv4-mapped. */
  lemma NormalizeAddressIdempotent(a: Addr)
    requires Acceptable(a)
    ensures NormalizeAddress(Unmap(a)) == Success(Unmap(a))
    ensures Unmap(Unmap(a)) == Unmap(a)
  {
  }

  /* ----- Which addresses are refused, unmapped and ordered ----- */

  type Octet = n: int | 0 <= n < 256
  type Group = n: int | 0 <= n < 65536

  function Ipv4(a: Octet, b: Octet, c: Octet, d: Octet): Addr {
    V4(0x100_0000 * a + 0x1_0000 * b + 0x100 * c + d)
  }

  /** The IPv6 address with these groups: the first two, and the remaining 96 bits. */
  function Ipv6(g0: Group, g1: Group, low: int): Addr
    requires 0 <= low < 0x1_0000_0000_0000_0000_0000_0000
  {
    V6(0x1_0000_0000_0000_0000_0000_0000_0000 * g0 + 0x1_0000_0000_0000_0000_0000_0000 * g1 + low)
  }

  /** The IPv4 address written inside ::ffff:0:0/96. */
  function Mapped(a: Octet, b: Octet, c: Octet, d: Octet): Addr {
    V6(0xffff * 0x1_0000_0000 + 0x100_0000 * a + 0x1_0000 * b + 0x100 * c + d)
  }

  /** 0.0.0.0, loopback 127, link-local 169.254 and multicast 224 to 239 are refused, mapped or not; other IPv4 is accepted. */
  lemma Ipv4Refused(a: Octet, b: Octet, c: Octet, d: Octet)
    ensures var refused :=
              (a == 0 && b == 0 && c == 0 && d == 0) || a == 127 || (a == 169 && b == 254) || 224 <= a <= 239;
            && NormalizeAddress(Ipv4(a, b, c, d)) == (if refused then Failure(UnsafeAddress) else Success(Ipv4(a, b, c, d)))
            && NormalizeAddress(Mapped(a, b, c, d)) == NormalizeAddress(Ipv4(a, b, c, d))
  {
  }

  /** The IPv4-mapped loopback address is refused. */
  lemma MappedLoopbackRefused()
    ensures NormalizeAddress(V6(0xffff_7f00_0001)) == Failure(UnsafeAddress)
  {
    Ipv4Refused(127, 0, 0, 1);
  }

  /** ::, ::1, fe80::/10 and ff00::/8 are refused; every other IPv6 address outside ::ffff:0:0/96 is accepted unchanged. */
  lemma Ipv6Refused(g0: Group, g1: Group, low: int)
    requires 0 <= low < 0x1_0000_0000_0000_0000_0000_0000
    requires !(g0 == 0 && g1 == 0 && 0xffff_0000_0000 <= low <= 0xffff_ffff_ffff)
    ensures var refused := (g0 == 0 && g1 == 0 && low <= 1) || 0xfe80 <= g0 <= 0xfebf || 0xff00 <= g0;
            NormalizeAddress(Ipv6(g0, g1, low)) == if refused then Failure(UnsafeAddress) else Success(Ipv6(g0, g1, low))
  {
  }

  /** The zero value is refused as no address at all. */
  lemma NoAddrRefused()
    ensures NormalizeAddress(NoAddr) == Failure(InvalidAddress)
  {
  }

  /** IPv4 comes before IPv6, and IPv4 addresses are ordered octet by octet. */
  lemma OrderOfOctets(a: Octet, b: Octet, c: Octet, d: Octet, a': Octet, b': Octet, c': Octet, d': Octet, v6: V6Bits)
    ensures Before(Ipv4(a, b, c, d), V6(v6)) && !Before(V6(v6), Ipv4(a, b, c, d))
    ensures Before(Ipv4(a, b, c, d), Ipv4(a', b', c', d')) <==>
            a < a' || (a == a' && (b < b' || (b == b' && (c < c' || (c == c' && d < d')))))
  {
  }
}
