/** Network addresses and the address ranges of blocks, rate limits and access lists. */
module Addresses {
  import opened Wrappers
  import opened Arithmetic

  /** An address by value; what is neither IPv4 nor IPv6 is kept as text.  Whether the source
      takes an IPv6 address for a local one depends on how it is written, so that is given. */
  datatype Address = V4(bits: nat) | V6(bits: nat, local: bool) | Other(text: string)

  /** An address, or a range given by an address and a prefix length. */
  datatype Target = Target(address: Address, prefix: Option<nat>)

  function Exact(ip: Address): Target { Target(ip, None) }

  function Width(a: Address): nat {
    match a
    case V4(_) => 32
    case V6(_, _) => 128
    case Other(_) => 0
  }

  predicate SameFamily(a: Address, b: Address) {
    (a.V4? && b.V4?) || (a.V6? && b.V6?)
  }

  predicate ValidTarget(t: Target) {
    !t.address.Other? && (t.prefix.Some? ==> t.prefix.value <= Width(t.address))
  }

  /** The leading bits of an address, as section 3.1 of RFC 4632 has it. */
  function Prefix(a: Address, length: nat): int
    requires !a.Other? && length <= Width(a)
  {
    a.bits / Pow2(Width(a) - length)
  }

  predicate Contains(t: Target, ip: Address) {
    ValidTarget(t) && SameFamily(t.address, ip) &&
    match t.prefix
    case None => t.address.bits == ip.bits
    case Some(length) => Prefix(t.address, length) == Prefix(ip, length)
  }

  /** Loopback, link-local and private addresses; for IPv4 those of section 3 of RFC 1918
      among them.  Text that is no address counts as private. */
  predicate IsPrivateOrLoopback(ip: Address) {
    match ip
    case V4(bits) =>
      var first, second := bits / 0x100_0000, bits / 0x1_0000 % 256;
      first == 10 || first == 127 || (first == 169 && second == 254) ||
      (first == 172 && 16 <= second <= 31) || (first == 192 && second == 168)
    case V6(_, local) => local
    case Other(_) => true
  }

  function Octets(a: nat, b: nat): Address {
    V4((a * 256 + b) * 65_536)
  }

  /** The IPv4 addresses that get no response are those of five ranges. */
  lemma PrivateRanges(bits: nat)
    requires bits < 0x1_0000_0000
    ensures var ip := V4(bits);
      IsPrivateOrLoopback(ip) <==>
        Contains(Target(Octets(10, 0), Some(8)), ip) || Contains(Target(Octets(127, 0), Some(8)), ip) ||
        Contains(Target(Octets(169, 254), Some(16)), ip) || Contains(Target(Octets(172, 16), Some(12)), ip) ||
        Contains(Target(Octets(192, 168), Some(16)), ip)
  {
    hide Contains, Octets;
    InRange(10, 0, bits);
    InRange(127, 0, bits);
    InRange(169, 254, bits);
    InRange(172, 16, bits);
    InRange(192, 168, bits);
  }

  /** An address against the range of its first octet, of its first two, and of twelve bits. */
  lemma InRange(a: nat, b: nat, bits: nat)
    requires a < 256 && b < 256
    ensures var first, second := bits / 0x100_0000, bits / 0x1_0000 % 256;
      (b == 0 ==> (Contains(Target(Octets(a, b), Some(8)), V4(bits)) <==> first == a)) &&
      (Contains(Target(Octets(a, b), Some(16)), V4(bits)) <==> first == a && second == b) &&
      (b % 16 == 0 ==> (Contains(Target(Octets(a, b), Some(12)), V4(bits)) <==> first == a && b <= second < b + 16))
  {
    HighBits(bits);
    HighBits(Octets(a, b).bits);
    hide Prefix;
    Halves(bits / 65_536, a, b);
  }

  /** The leading bits of an address are those of its leading half. */
  lemma HighBits(bits: nat)
    ensures Prefix(V4(bits), 16) == bits / 65_536 && Prefix(V4(bits), 8) == bits / 65_536 / 256 &&
      Prefix(V4(bits), 12) == bits / 65_536 / 16 && bits / 0x100_0000 == bits / 65_536 / 256
  {
    Powers();
  }

  lemma Halves(high: nat, a: nat, b: nat)
    requires b < 256
    ensures high == a * 256 + b <==> high / 256 == a && high % 256 == b
    ensures b % 16 == 0 ==> (high / 16 == (a * 256 + b) / 16 <==> high / 256 == a && b <= high % 256 < b + 16)
    ensures (a * 256 + b) / 256 == a
  {
    var q, m := high / 256, high % 256;
    assert high == q * 256 + m;
    Sixteenth(q, m);
    Sixteenth(a, b);
    if b % 16 == 0 {
      assert b == b / 16 * 16;
      assert m / 16 == b / 16 <==> b <= m < b + 16;
    }
  }

  lemma Sixteenth(q: nat, m: nat)
    requires m < 256
    ensures (q * 256 + m) / 16 == q * 16 + m / 16 && m / 16 < 16
  {}

  lemma Powers()
    ensures Pow2(16) == 65_536 && Pow2(20) == 1_048_576 && Pow2(24) == 16_777_216
  {
    assert Pow2(4) == 16;
    Pow2Adds(4, 4);
    Pow2Adds(8, 8);
    Pow2Adds(16, 4);
    Pow2Adds(16, 8);
  }

  predicate IsTrusted(ip: Address, trusted: seq<Target>) {
    exists i :: 0 <= i < |trusted| && Contains(trusted[i], ip)
  }

  /** A public address that is not trusted: the only kind that gets a response. */
  predicate Answerable(ip: Address, trusted: seq<Target>) {
    !IsPrivateOrLoopback(ip) && !IsTrusted(ip, trusted)
  }
}
