/**
 * IPv4 addresses and networks as Python's `ipaddress` module reads them:
 * `ip_address(text)` for the client address and `ip_network(text, strict=False)`
 * for an allowed-subnet entry.
 */
module IPv4 {
  import opened Wrappers
  import opened Text
  import opened Decimal

  /** An IPv4 address: its 32 bits, most significant octet first. */
  type Address = bv32

  /** A prefix length, 0 to 32. */
  type Prefix = p: nat | p <= 32

  /** The address whose four octets, most significant first, are a, b, c, d. */
  function FromOctets(a: bv8, b: bv8, c: bv8, d: bv8): Address {
    (a as bv32 << 24) | (b as bv32 << 16) | (c as bv32 << 8) | (d as bv32)
  }

  /** Octet `k` of `ip`, counting from the most significant one. */
  function Octet(ip: Address, k: nat): bv8
    requires k < 4
  {
    match k
    case 0 => (ip >> 24) as bv8
    case 1 => ((ip >> 16) & 0xFF) as bv8
    case 2 => ((ip >> 8) & 0xFF) as bv8
    case _ => (ip & 0xFF) as bv8
  }

  lemma OctetsOfFromOctets(a: bv8, b: bv8, c: bv8, d: bv8)
    ensures Octet(FromOctets(a, b, c, d), 0) == a && Octet(FromOctets(a, b, c, d), 1) == b
    ensures Octet(FromOctets(a, b, c, d), 2) == c && Octet(FromOctets(a, b, c, d), 3) == d
  {
  }

  lemma FromOctetsOfOctets(ip: Address)
    ensures FromOctets(Octet(ip, 0), Octet(ip, 1), Octet(ip, 2), Octet(ip, 3)) == ip
  {
  }

  /**
   * One octet of a dotted quad: one to three ASCII digits, no leading zero unless
   * the octet is "0", value at most 255.
   */
  function ParseOctet(s: string): (r: Option<bv8>)
    ensures r.Some? ==> IsCanonical(s) && r.value as int == DigitsValue(s)
  {
    if s == [] || !AllDigits(s) || |s| > 3 || (s != "0" && s[0] == '0') then None
    else
      var v := DigitsValue(s);
      if v > 255 then None else Some(ByteOf(v))
  }

  /** A number below 256 as eight bits. */
  function ByteOf(v: nat): (b: bv8)
    requires v < 256
    ensures b as int == v
  {
    if v == 0 then 0 else ByteOf(v - 1) + 1
  }

  /** Reading an octet's own value back gives the octet. */
  lemma ByteOfValue(o: bv8)
    ensures ByteOf(o as int) == o
  {
    SameValue(ByteOf(o as int), o);
  }

  lemma SameValue(x: bv8, y: bv8)
    requires x as int == y as int
    ensures x == y
  {
  }

  /** Every canonical spelling of a number below 256 is an octet. */
  lemma ParseOctetAccepts(s: string)
    requires IsCanonical(s) && DigitsValue(s) < 256
    ensures ParseOctet(s).Some?
  {
    FormatOfDigitsValue(s);
    FormatNatShort(DigitsValue(s));
  }

  /** A dotted quad read into its 32 bits: exactly four octets separated by dots. */
  function ParseQuad(s: string): (r: Option<Address>)
  {
    if s == [] then None
    else
      var parts := Split(s, '.');
      if |parts| != 4 then None
      else
        match (ParseOctet(parts[0]), ParseOctet(parts[1]), ParseOctet(parts[2]), ParseOctet(parts[3]))
        case (Some(a), Some(b), Some(c), Some(d)) => Some(FromOctets(a, b, c, d))
        case _ => None
  }

  /** `ipaddress.ip_address(text)` for IPv4: a dotted quad with no '/' in it. */
  function ParseAddress(s: string): Option<Address> {
    if '/' in s then None else ParseQuad(s)
  }

  /** The dotted-quad text of four octets, each in decimal. */
  function DottedQuad(a: bv8, b: bv8, c: bv8, d: bv8): string {
    Join([FormatNat(a as int), FormatNat(b as int), FormatNat(c as int), FormatNat(d as int)], '.')
  }

  /** `str(address)`: the four octets in decimal, separated by dots. */
  function FormatAddress(ip: Address): string {
    DottedQuad(Octet(ip, 0), Octet(ip, 1), Octet(ip, 2), Octet(ip, 3))
  }

  lemma ParseOctetOfFormat(o: bv8)
    ensures ParseOctet(FormatNat(o as int)) == Some(o)
    ensures '.' !in FormatNat(o as int) && '/' !in FormatNat(o as int)
  {
    ReadOctetOfFormat(o);
    DigitsAvoidSeparators(FormatNat(o as int));
  }

  lemma ReadOctetOfFormat(o: bv8)
    ensures ParseOctet(FormatNat(o as int)) == Some(o)
  {
    DigitsValueOfFormat(o as int);
    ParseOctetAccepts(FormatNat(o as int));
    ByteOfValue(o);
  }

  /** Decimal digits contain neither of the separators '.' and '/'. */
  lemma DigitsAvoidSeparators(s: string)
    requires AllDigits(s)
    ensures '.' !in s && '/' !in s
  {
    assert forall x :: x in s ==> IsDigit(x);
  }

  /** Four octet texts joined by dots read as the address of those octets. */
  lemma ParseQuadOfJoin(fs: seq<string>, a: bv8, b: bv8, c: bv8, d: bv8)
    requires |fs| == 4
    requires '.' !in fs[0] && '.' !in fs[1] && '.' !in fs[2] && '.' !in fs[3]
    requires '/' !in fs[0] && '/' !in fs[1] && '/' !in fs[2] && '/' !in fs[3]
    requires ParseOctet(fs[0]) == Some(a) && ParseOctet(fs[1]) == Some(b)
    requires ParseOctet(fs[2]) == Some(c) && ParseOctet(fs[3]) == Some(d)
    ensures ParseAddress(Join(fs, '.')) == Some(FromOctets(a, b, c, d))
  {
    forall k | 0 <= k < 4 ensures '.' !in fs[k] && '/' !in fs[k] {
      if k == 0 {} else if k == 1 {} else if k == 2 {} else {}
    }
    SplitJoin(fs, '.');
    JoinAvoids(fs, '.', '/');
    assert fs[0] != [];
    assert Join(fs, '.') != [];
  }

  lemma ParseDottedQuad(a: bv8, b: bv8, c: bv8, d: bv8)
    ensures ParseAddress(DottedQuad(a, b, c, d)) == Some(FromOctets(a, b, c, d))
  {
    var fs := [FormatNat(a as int), FormatNat(b as int), FormatNat(c as int), FormatNat(d as int)];
    ParseOctetOfFormat(a);
    ParseOctetOfFormat(b);
    ParseOctetOfFormat(c);
    ParseOctetOfFormat(d);
    ParseQuadOfJoin(fs, a, b, c, d);
  }

  /** Every address reads back from its own text. */
  lemma ParseFormatAddress(ip: Address)
    ensures ParseAddress(FormatAddress(ip)) == Some(ip)
  {
    ParseDottedQuad(Octet(ip, 0), Octet(ip, 1), Octet(ip, 2), Octet(ip, 3));
    FromOctetsOfOctets(ip);
  }

  /** The text of an address is unique: whatever reads as `ip` is `ip`'s own text. */
  lemma FormatParseAddress(s: string, ip: Address)
    requires ParseAddress(s) == Some(ip)
    ensures FormatAddress(ip) == s
  {
    var parts := Split(s, '.');
    var a, b, c, d := ParseOctet(parts[0]).value, ParseOctet(parts[1]).value,
                      ParseOctet(parts[2]).value, ParseOctet(parts[3]).value;
    assert ip == FromOctets(a, b, c, d);
    OctetsOfFromOctets(a, b, c, d);
    FormatOfDigitsValue(parts[0]);
    FormatOfDigitsValue(parts[1]);
    FormatOfDigitsValue(parts[2]);
    FormatOfDigitsValue(parts[3]);
    JoinSplit(s, '.');
    assert parts == [parts[0], parts[1], parts[2], parts[3]];
  }

  /** The netmask of a prefix length: `prefix` one bits followed by zero bits. */
  function Netmask(p: Prefix): bv32 {
    if p == 0 then 0 else 0x8000_0000 | (Netmask(p - 1) >> 1)
  }

  /** The hostmask of a prefix length: `32 - prefix` low one bits. */
  function Hostmask(p: Prefix): bv32 {
    if p == 0 then 0xFFFF_FFFF else Hostmask(p - 1) >> 1
  }

  /** Netmask and hostmask of a prefix length are each other's complement. */
  lemma {:induction false} NetmaskComplement(p: Prefix)
    ensures Netmask(p) == !Hostmask(p)
  {
    if p > 0 {
      NetmaskComplement(p - 1);
      NextMaskComplement(p, Netmask(p - 1), Hostmask(p - 1));
    }
  }

  /** One more prefix bit keeps the two masks complementary. */
  lemma NextMaskComplement(p: Prefix, n: bv32, h: bv32)
    requires 0 < p && n == Netmask(p - 1) && h == Hostmask(p - 1) && n == !h
    ensures Netmask(p) == !Hostmask(p)
  {
    ShiftComplement(h);
  }

  /** Setting the top bit after a right shift of the complement is the complement of the shift. */
  lemma ShiftComplement(h: bv32)
    ensures 0x8000_0000 | (!h >> 1) == !(h >> 1)
  {
  }

  /** Below 32 the hostmask keeps at least its lowest bit. */
  lemma {:induction false} HostmaskPositive(p: Prefix)
    requires p < 32
    ensures Hostmask(p) >= 1
    decreases 32 - p
  {
    if p == 31 {
      Hostmask31(p);
    } else {
      HostmaskPositive(p + 1);
    }
  }

  lemma Hostmask31(p: Prefix)
    requires p == 31
    ensures Hostmask(p) == 1
  {
    assert Hostmask(4) == 0x0FFF_FFFF;
    assert Hostmask(8) == 0x00FF_FFFF;
    assert Hostmask(12) == 0x000F_FFFF;
    assert Hostmask(16) == 0x0000_FFFF;
    assert Hostmask(20) == 0x0000_0FFF;
    assert Hostmask(24) == 0x0000_00FF;
    assert Hostmask(28) == 0x0000_000F;
  }

  /** A longer prefix has a strictly smaller hostmask. */
  lemma {:induction false} HostmaskShrinks(p: Prefix, q: Prefix)
    requires p < q
    ensures Hostmask(q) < Hostmask(p)
    decreases q - p
  {
    HostmaskPositive(p);
    if q > p + 1 {
      HostmaskShrinks(p + 1, q);
    }
  }

  /** Different prefix lengths have different netmasks. */
  lemma NetmaskInjective(p: Prefix, q: Prefix)
    requires Netmask(p) == Netmask(q)
    ensures p == q
  {
    NetmaskComplement(p);
    NetmaskComplement(q);
    if p < q {
      HostmaskShrinks(p, q);
    } else if q < p {
      HostmaskShrinks(q, p);
    }
  }

  /** The complement of a netmask is a block of low one bits. */
  predicate IsPrefixMask(m: bv32) {
    !m & (!m + 1) == 0
  }

  lemma {:induction false} NetmaskIsPrefixMask(p: Prefix)
    ensures IsPrefixMask(Netmask(p))
  {
    if p > 0 {
      NetmaskIsPrefixMask(p - 1);
    }
  }

  /** The prefix length, among 0..`p`, whose netmask is `m`, if there is one. */
  function PrefixOfMask(m: bv32, p: Prefix): (r: Option<Prefix>)
    ensures r.Some? ==> r.value <= p && Netmask(r.value) == m
    ensures r.None? ==> forall q: Prefix :: q <= p ==> Netmask(q) != m
  {
    if Netmask(p) == m then Some(p)
    else if p == 0 then None
    else PrefixOfMask(m, p - 1)
  }

  /** The prefix length whose netmask is `m`: "1*0*" read as a regular expression on the bits. */
  function MaskPrefix(m: bv32): (r: Option<Prefix>)
    ensures r.Some? ==> Netmask(r.value) == m
    ensures r.None? ==> forall q: Prefix :: Netmask(q) != m
  {
    PrefixOfMask(m, 32)
  }

  /**
   * The mask part of a network written "address/mask": a prefix length of ASCII
   * digits no greater than 32 (leading zeros allowed), or else a dotted-quad
   * netmask or, failing that, a dotted-quad hostmask.
   */
  function ParseMask(s: string): Option<Prefix> {
    if s != [] && AllDigits(s) && DigitsValue(s) <= 32 then Some(DigitsValue(s))
    else
      match ParseQuad(s)
      case None => None
      case Some(bits) =>
        match MaskPrefix(bits)
        case Some(p) => Some(p)
        case None => MaskPrefix(!bits)
  }

  /** A mask written as a dotted quad is read as a netmask if it is one, and otherwise as a hostmask. */
  lemma ParseDottedMask(bits: bv32)
    ensures ParseMask(FormatAddress(bits)) == if MaskPrefix(bits).Some? then MaskPrefix(bits) else MaskPrefix(!bits)
  {
    DottedNotDigits(bits);
    ParseFormatAddress(bits);
    assert ParseQuad(FormatAddress(bits)) == Some(bits);
  }

  /** The prefix length read from a netmask is the one it belongs to. */
  lemma MaskPrefixOfNetmask(p: Prefix)
    ensures MaskPrefix(Netmask(p)) == Some(p)
  {
    var r := MaskPrefix(Netmask(p));
    if r.Some? {
      NetmaskInjective(r.value, p);
    }
  }

  /** A netmask written as a dotted quad reads as its prefix length. */
  lemma ParseDottedNetmask(p: Prefix)
    ensures ParseMask(FormatAddress(Netmask(p))) == Some(p)
  {
    ParseDottedMask(Netmask(p));
    MaskPrefixOfNetmask(p);
  }

  /**
   * A hostmask written as a dotted quad reads as its prefix length, for lengths
   * 1 to 31. For /0 and /32 the hostmask is also a netmask and is read as one:
   * "255.255.255.255" as /32 and "0.0.0.0" as /0.
   */
  lemma ParseDottedHostmask(p: Prefix)
    requires 0 < p < 32
    ensures ParseMask(FormatAddress(Hostmask(p))) == Some(p)
  {
    var h := Hostmask(p);
    ParseDottedMask(h);
    HostmaskNoNetmask(p);
    assert MaskPrefix(h).None?;
    NetmaskComplement(p);
    MaskPrefixOfNetmask(p);
    assert !h == Netmask(p);
  }

  /** The hostmask of a length 1 to 31 is no netmask: its top bit is clear and it is not zero. */
  lemma HostmaskNoNetmask(p: Prefix)
    requires 0 < p < 32
    ensures forall q: Prefix :: Netmask(q) != Hostmask(p)
  {
    HostmaskPositive(p);
    assert Hostmask(p) & 0x8000_0000 == 0;
    forall q: Prefix
      ensures Netmask(q) != Hostmask(p)
    {
      if q > 0 {
        assert Netmask(q) & 0x8000_0000 != 0;
      }
    }
  }

  /** The text of an address has a dot in it, so it is never a plain prefix length. */
  lemma DottedNotDigits(ip: Address)
    ensures !AllDigits(FormatAddress(ip))
  {
    var a, b, c, d := FormatNat(Octet(ip, 0) as int), FormatNat(Octet(ip, 1) as int),
                      FormatNat(Octet(ip, 2) as int), FormatNat(Octet(ip, 3) as int);
    JoinFour(a, b, c, d, '.');
    assert FormatAddress(ip)[|a|] == '.';
  }

  /**
   * A network as `IPv4Network` keeps it: its address with the host bits cleared,
   * its netmask and its prefix length.
   */
  datatype Network = Network(address: Address, netmask: bv32, prefix: Prefix)

  /** What every parsed network satisfies: the netmask belongs to the prefix and no host bit is set. */
  predicate WellFormed(n: Network) {
    n.netmask == Netmask(n.prefix) && IsPrefixMask(n.netmask) && n.address & n.netmask == n.address
  }

  /** `ip in network`: the network bits of `ip` are those of the network. */
  predicate Contains(n: Network, ip: Address) {
    ip & n.netmask == n.address
  }

  /** The last address of a network: its address with every host bit set. */
  function Broadcast(n: Network): Address {
    n.address | !n.netmask
  }

  /** The network of prefix length `p` that `raw` lies in: `raw` with its host bits cleared. */
  function NetworkOf(raw: Address, p: Prefix): Network {
    var m := Netmask(p);
    Network(raw & m, m, p)
  }

  /** The network around an address is well formed. */
  lemma NetworkOfWellFormed(raw: Address, p: Prefix)
    ensures WellFormed(NetworkOf(raw, p))
  {
    NetmaskIsPrefixMask(p);
    MaskTwice(raw, Netmask(p));
  }

  /**
   * `ipaddress.ip_network(text, strict=False)` for IPv4: "address" or
   * "address/mask" with at most one '/'; host bits set in the address are cleared
   * rather than refused.
   */
  function ParseNetwork(text: string): Option<Network> {
    var parts := Split(text, '/');
    if |parts| > 2 then None
    else
      match ParseQuad(parts[0])
      case None => None
      case Some(raw) =>
        var prefix := if |parts| == 1 then Some(32) else ParseMask(parts[1]);
        match prefix
        case None => None
        case Some(p) => Some(NetworkOf(raw, p))
  }

  /** Whatever reads as a network is well formed. */
  lemma ParseNetworkWellFormed(text: string)
    requires ParseNetwork(text).Some?
    ensures WellFormed(ParseNetwork(text).value)
  {
    var n := ParseNetwork(text).value;
    NetworkOfWellFormed(n.address, n.prefix);
    var parts := Split(text, '/');
    var raw := ParseQuad(parts[0]).value;
    NetworkOfWellFormed(raw, n.prefix);
  }

  /**
   * Membership in a network written with host bits set compares the network bits
   * of both addresses: `(ip & mask) == (net & mask)`.
   */
  lemma ContainsMasked(raw: Address, p: Prefix, ip: Address)
    ensures Contains(NetworkOf(raw, p), ip) ==> ip & Netmask(p) == raw & Netmask(p)
    ensures ip & Netmask(p) == raw & Netmask(p) ==> Contains(NetworkOf(raw, p), ip)
  {
  }

  lemma MaskTwice(raw: bv32, m: bv32)
    ensures (raw & m) & m == raw & m
  {
  }

  /** Membership is the range from the network address to the broadcast address. */
  lemma ContainsIsRange(n: Network, ip: Address)
    requires IsPrefixMask(n.netmask) && n.address & n.netmask == n.address
    ensures Contains(n, ip) <==> n.address <= ip <= Broadcast(n)
  {
    if Contains(n, ip) { ContainedInRange(n, ip); }
    if n.address <= ip <= Broadcast(n) { InRangeContained(n, ip); }
  }

  lemma ContainedInRange(n: Network, ip: Address)
    requires IsPrefixMask(n.netmask) && n.address & n.netmask == n.address
    requires Contains(n, ip)
    ensures n.address <= ip <= Broadcast(n)
  {
    MaskedInBlock(ip, n.address, n.netmask);
  }

  lemma InRangeContained(n: Network, ip: Address)
    requires IsPrefixMask(n.netmask) && n.address & n.netmask == n.address
    requires n.address <= ip <= Broadcast(n)
    ensures Contains(n, ip)
  {
    if ip & n.netmask != n.address {
      OutsideBlock(ip, n.address, n.netmask);
    }
  }

  lemma MaskedInBlock(ip: bv32, lo: bv32, m: bv32)
    requires IsPrefixMask(m) && lo & m == lo && ip & m == lo
    ensures lo <= ip && ip <= lo | !m
  {
    MaskedAtLeast(ip, lo, m);
    MaskedAtMost(ip, lo, m);
  }

  lemma MaskedAtLeast(ip: bv32, lo: bv32, m: bv32)
    requires IsPrefixMask(m) && lo & m == lo && ip & m == lo
    ensures lo <= ip
  {
  }

  lemma MaskedAtMost(ip: bv32, lo: bv32, m: bv32)
    requires IsPrefixMask(m) && lo & m == lo && ip & m == lo
    ensures ip <= lo | !m
  {
  }

  lemma OutsideBlock(ip: bv32, lo: bv32, m: bv32)
    requires IsPrefixMask(m) && lo & m == lo && ip & m != lo
    ensures !(lo <= ip <= lo | !m)
  {
  }

  /** `str(network)`: the network address, a '/', and the prefix length in decimal. */
  function FormatNetwork(n: Network): string {
    FormatAddress(n.address) + "/" + FormatNat(n.prefix)
  }

  /** The text of an address has no '/' in it and reads as a dotted quad. */
  lemma FormatAddressQuad(ip: Address)
    ensures '/' !in FormatAddress(ip) && ParseQuad(FormatAddress(ip)) == Some(ip)
  {
    ParseFormatAddress(ip);
  }

  /** A prefix length written in decimal reads back as itself. */
  lemma ParseMaskOfFormat(p: Prefix)
    ensures ParseMask(FormatNat(p)) == Some(p)
    ensures '/' !in FormatNat(p)
  {
    DigitsValueOfFormat(p);
    var s := FormatNat(p);
    assert forall x :: x in s ==> IsDigit(x);
  }

  /** "address/prefix" reads as the network of that prefix length around the address. */
  lemma ParseNetworkOfCidr(raw: Address, p: Prefix)
    ensures ParseNetwork(FormatAddress(raw) + "/" + FormatNat(p)) == Some(NetworkOf(raw, p))
  {
    var a := FormatAddress(raw);
    var b := FormatNat(p);
    FormatAddressQuad(raw);
    ParseMaskOfFormat(p);
    SplitPair(a, b, '/');
    assert a + "/" + b == a + ['/'] + b;
    ParseNetworkOfParts(a + "/" + b, a, b, raw, p);
  }

  lemma ParseNetworkOfParts(text: string, a: string, b: string, raw: Address, p: Prefix)
    requires Split(text, '/') == [a, b] && ParseQuad(a) == Some(raw) && ParseMask(b) == Some(p)
    ensures ParseNetwork(text) == Some(NetworkOf(raw, p))
  {
  }

  /** A network written out by `str` reads back as the same network. */
  lemma ParseFormatNetwork(n: Network)
    requires WellFormed(n)
    ensures ParseNetwork(FormatNetwork(n)) == Some(n)
  {
    ParseNetworkOfCidr(n.address, n.prefix);
    assert NetworkOf(n.address, n.prefix) == n;
  }
}
