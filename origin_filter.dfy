/**
 * The origin filter: a request is served only when the client's address lies in
 * one of the configured subnets.
 */
module OriginFilter {
  import opened Wrappers
  import opened IPv4
  import opened Decimal

  /** One configured entry admits `ip`: it reads as a network and `ip` lies in it. */
  predicate EntryAdmits(cidr: string, ip: Address) {
    match ParseNetwork(cidr)
    case Some(n) => Contains(n, ip)
    case None => false
  }

  /** Some entry of the list admits `ip`. */
  predicate SomeEntryAdmits(subnets: seq<string>, ip: Address) {
    exists k :: 0 <= k < |subnets| && EntryAdmits(subnets[k], ip)
  }

  /**
   * What `client_allowed` decides: the client text must read as an address, and
   * then some entry must admit it; an entry that does not read as a network
   * admits nothing.
   */
  predicate Allowed(subnets: seq<string>, clientIp: string) {
    match ParseAddress(clientIp)
    case None => false
    case Some(ip) => SomeEntryAdmits(subnets, ip)
  }

  /** `client_allowed(client_ip)`: the entries are tried in order and the first that admits wins. */
  method ClientAllowed(subnets: seq<string>, clientIp: string) returns (allowed: bool)
    ensures allowed == Allowed(subnets, clientIp)
  {
    var parsed := ParseAddress(clientIp);
    if parsed.None? {
      return false;
    }
    var ip := parsed.value;
    var i := 0;
    while i < |subnets|
      invariant 0 <= i <= |subnets|
      invariant NoneAdmits(subnets, i, ip)
    {
      if EntryAdmits(subnets[i], ip) {
        assert SomeEntryAdmits(subnets, ip);
        return true;
      }
      NoneAdmitsStep(subnets, i, ip);
      i := i + 1;
    }
    NoneAdmitsAll(subnets, ip);
    return false;
  }

  /** None of the first `n` entries admits `ip`. */
  predicate NoneAdmits(subnets: seq<string>, n: nat, ip: Address)
    requires n <= |subnets|
  {
    forall j :: 0 <= j < n ==> !EntryAdmits(subnets[j], ip)
  }

  lemma NoneAdmitsStep(subnets: seq<string>, i: nat, ip: Address)
    requires i < |subnets| && NoneAdmits(subnets, i, ip) && !EntryAdmits(subnets[i], ip)
    ensures NoneAdmits(subnets, i + 1, ip)
  {
  }

  lemma NoneAdmitsAll(subnets: seq<string>, ip: Address)
    requires NoneAdmits(subnets, |subnets|, ip)
    ensures !SomeEntryAdmits(subnets, ip)
  {
  }

  /** With no subnets configured every client is refused. */
  lemma EmptyListRefuses(clientIp: string)
    ensures !Allowed([], clientIp)
  {
  }

  /** A client text that is not an IPv4 address is refused whatever the list holds. */
  lemma UnreadableClientRefused(subnets: seq<string>, clientIp: string)
    requires ParseAddress(clientIp).None?
    ensures !Allowed(subnets, clientIp)
  {
  }

  /** The list acts as the union of its parts. */
  lemma SomeEntryAdmitsConcat(a: seq<string>, b: seq<string>, ip: Address)
    ensures SomeEntryAdmits(a + b, ip) <==> SomeEntryAdmits(a, ip) || SomeEntryAdmits(b, ip)
  {
    if SomeEntryAdmits(a + b, ip) {
      ConcatAdmitsSplit(a, b, ip);
    }
    if SomeEntryAdmits(a, ip) {
      var k :| 0 <= k < |a| && EntryAdmits(a[k], ip);
      AdmitsInConcat(a, b, k, ip);
    }
    if SomeEntryAdmits(b, ip) {
      var k :| 0 <= k < |b| && EntryAdmits(b[k], ip);
      AdmitsInConcat(a, b, |a| + k, ip);
    }
  }

  lemma ConcatAdmitsSplit(a: seq<string>, b: seq<string>, ip: Address)
    requires SomeEntryAdmits(a + b, ip)
    ensures SomeEntryAdmits(a, ip) || SomeEntryAdmits(b, ip)
  {
    var k :| 0 <= k < |a + b| && EntryAdmits((a + b)[k], ip);
    if k < |a| {
      assert (a + b)[k] == a[k];
    } else {
      assert (a + b)[k] == b[k - |a|];
    }
  }

  lemma AdmitsInConcat(a: seq<string>, b: seq<string>, k: nat, ip: Address)
    requires k < |a + b|
    requires if k < |a| then EntryAdmits(a[k], ip) else EntryAdmits(b[k - |a|], ip)
    ensures SomeEntryAdmits(a + b, ip)
  {
    if k < |a| {
      assert (a + b)[k] == a[k];
    } else {
      assert (a + b)[k] == b[k - |a|];
    }
  }

  /** An entry that does not read as a network is skipped: it neither admits nor blocks. */
  lemma UnreadableEntrySkipped(a: seq<string>, bad: string, b: seq<string>, clientIp: string)
    requires ParseNetwork(bad).None?
    ensures Allowed(a + [bad] + b, clientIp) == Allowed(a + b, clientIp)
  {
    if ParseAddress(clientIp).Some? {
      var ip := ParseAddress(clientIp).value;
      SomeEntryAdmitsConcat(a + [bad], b, ip);
      SomeEntryAdmitsConcat(a, [bad], ip);
      SomeEntryAdmitsConcat(a, b, ip);
      assert !SomeEntryAdmits([bad], ip);
    }
  }

  /** Adding a subnet never refuses a client that was allowed before. */
  lemma AddingEntryKeepsAllowed(subnets: seq<string>, extra: string, clientIp: string)
    requires Allowed(subnets, clientIp)
    ensures Allowed(subnets + [extra], clientIp)
  {
    var ip := ParseAddress(clientIp).value;
    SomeEntryAdmitsConcat(subnets, [extra], ip);
  }

  /**
   * An entry written "address/prefix" admits exactly the addresses that agree
   * with its address on the first `prefix` bits, host bits in the entry notwithstanding.
   */
  lemma CidrEntryAdmits(raw: Address, p: Prefix, ip: Address)
    ensures EntryAdmits(FormatAddress(raw) + "/" + FormatNat(p), ip) ==> ip & Netmask(p) == raw & Netmask(p)
    ensures ip & Netmask(p) == raw & Netmask(p) ==> EntryAdmits(FormatAddress(raw) + "/" + FormatNat(p), ip)
  {
    ParseNetworkOfCidr(raw, p);
    ContainsMasked(raw, p, ip);
  }

  /** The client's own text of an address is read back, so it is judged by the address alone. */
  lemma FormattedClient(subnets: seq<string>, ip: Address)
    ensures Allowed(subnets, FormatAddress(ip)) == SomeEntryAdmits(subnets, ip)
  {
    ParseFormatAddress(ip);
  }
}
