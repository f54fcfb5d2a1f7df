/**
 * Worked requests against a relay that admits the one network 10.0.0.0/24 and
 * expects the token "t1": the listed client gets its URL handed to `open`, while an
 * outside client, a wrong token and a `file:` URL are turned away before
 * any launch is attempted.
 */
module Scenarios {
  import opened Wrappers
  import opened Text
  import opened Decimal
  import opened IPv4
  import opened Configuration
  import opened OriginFilter
  import opened Opener
  import opened Router

  /** The dotted quad of four octets whose decimal spellings are known. */
  lemma DottedQuadText(a: bv8, b: bv8, c: bv8, d: bv8, sa: string, sb: string, sc: string, sd: string)
    requires FormatNat(a as int) == sa && FormatNat(b as int) == sb
    requires FormatNat(c as int) == sc && FormatNat(d as int) == sd
    ensures DottedQuad(a, b, c, d) == sa + "." + sb + "." + sc + "." + sd
  {
    JoinFour(sa, sb, sc, sd, '.');
  }

  /** The netmask of a /24 network. */
  lemma Netmask24(p: Prefix)
    requires p == 24
    ensures Netmask(p) == 0xFFFF_FF00
  {
    assert Netmask(4) == 0xF000_0000;
    assert Netmask(8) == 0xFF00_0000;
    assert Netmask(12) == 0xFFF0_0000;
    assert Netmask(16) == 0xFFFF_0000;
    assert Netmask(20) == 0xFFFF_F000;
  }

  /** "10.0.0.0/24" spelled out the way `CidrEntryAdmits` reads an entry. */
  lemma LabEntryText(entry: string, raw: Address, p: Prefix)
    requires entry == "10.0.0.0/24" && raw == FromOctets(10, 0, 0, 0) && p == 24
    ensures FormatAddress(raw) + "/" + FormatNat(p) == entry && raw & 0xFFFF_FF00 == 0x0A00_0000
  {
    OctetsOfFromOctets(10, 0, 0, 0);
    assert FormatAddress(raw) == DottedQuad(10, 0, 0, 0);
    assert (10 as bv8) as int == 10 && (0 as bv8) as int == 0;
    assert FormatNat(10) == "10" && FormatNat(0) == "0" && FormatNat(24) == "24";
    DottedQuadText(10, 0, 0, 0, "10", "0", "0", "0");
    assert FormatAddress(raw) == "10.0.0.0";
  }

  /** The entry "10.0.0.0/24" admits exactly the addresses 10.0.0.0 to 10.0.0.255. */
  lemma LabEntryAdmits(entry: string, ip: Address)
    requires entry == "10.0.0.0/24"
    ensures EntryAdmits(entry, ip) <==> ip & 0xFFFF_FF00 == 0x0A00_0000
  {
    LabEntryText(entry, FromOctets(10, 0, 0, 0), 24);
    Netmask24(24);
    MaskedEntry(entry, FromOctets(10, 0, 0, 0), 24, ip);
  }

  /** An entry whose network is 10.0.0.0 under the mask 255.255.255.0. */
  lemma MaskedEntry(entry: string, raw: Address, p: Prefix, ip: Address)
    requires entry == FormatAddress(raw) + "/" + FormatNat(p)
    requires Netmask(p) == 0xFFFF_FF00 && raw & 0xFFFF_FF00 == 0x0A00_0000
    ensures EntryAdmits(entry, ip) <==> ip & 0xFFFF_FF00 == 0x0A00_0000
  {
    CidrEntryAdmits(raw, p, ip);
  }

  /** The text "10.0.0.5" reads as the address 10.0.0.5. */
  lemma InsideAddress(text: string)
    requires text == "10.0.0.5"
    ensures ParseAddress(text) == Some(FromOctets(10, 0, 0, 5))
  {
    assert (10 as bv8) as int == 10 && (0 as bv8) as int == 0 && (5 as bv8) as int == 5;
    assert FormatNat(10) == "10" && FormatNat(0) == "0" && FormatNat(5) == "5";
    DottedQuadText(10, 0, 0, 5, "10", "0", "0", "5");
    assert DottedQuad(10, 0, 0, 5) == text;
    ParseDottedQuad(10, 0, 0, 5);
  }

  /** The text "192.168.1.5" reads as the address 192.168.1.5. */
  lemma OutsideAddress(text: string)
    requires text == "192.168.1.5"
    ensures ParseAddress(text) == Some(FromOctets(192, 168, 1, 5))
  {
    assert (192 as bv8) as int == 192 && (168 as bv8) as int == 168;
    assert (1 as bv8) as int == 1 && (5 as bv8) as int == 5;
    assert FormatNat(192) == "192" && FormatNat(168) == "168" && FormatNat(1) == "1" && FormatNat(5) == "5";
    DottedQuadText(192, 168, 1, 5, "192", "168", "1", "5");
    assert DottedQuad(192, 168, 1, 5) == text;
    ParseDottedQuad(192, 168, 1, 5);
  }

  /** The client address 10.0.0.5 is admitted by the list ["10.0.0.0/24"]. */
  lemma InsideClient(subnets: seq<string>, clientIp: string)
    requires subnets == ["10.0.0.0/24"] && clientIp == "10.0.0.5"
    ensures Allowed(subnets, clientIp)
  {
    var ip := FromOctets(10, 0, 0, 5);
    InsideAddress(clientIp);
    LabEntryAdmits(subnets[0], ip);
    assert ip & 0xFFFF_FF00 == 0x0A00_0000;
    assert EntryAdmits(subnets[0], ip);
  }

  /** The client address 192.168.1.5 is refused by the list ["10.0.0.0/24"]. */
  lemma OutsideClient(subnets: seq<string>, clientIp: string)
    requires subnets == ["10.0.0.0/24"] && clientIp == "192.168.1.5"
    ensures !Allowed(subnets, clientIp)
  {
    var ip := FromOctets(192, 168, 1, 5);
    OutsideAddress(clientIp);
    LabEntryAdmits(subnets[0], ip);
    assert ip & 0xFFFF_FF00 != 0x0A00_0000;
  }

  /** The relay of these scenarios: one network, token "t1", dry-run mode off. */
  predicate LabRelay(settings: Settings) {
    settings.allowedSubnets == ["10.0.0.0/24"] && settings.sharedToken == "t1" && !settings.dryRun
  }

  /** "https://example.com" is requested: it uses a permitted scheme and has no surrounding whitespace. */
  lemma ExampleUrl(req: Request)
    requires req.url == Some("https://example.com")
    ensures RequestedUrl(req) == "https://example.com" && PermittedScheme(RequestedUrl(req))
  {
    var url := req.url.value;
    assert url[..8] == "https://";
    StripUnpadded(url);
  }

  /** "file:///etc/passwd" is requested: it has no surrounding whitespace and no permitted scheme. */
  lemma FileUrl(req: Request)
    requires req.url == Some("file:///etc/passwd")
    ensures RequestedUrl(req) == "file:///etc/passwd" && !PermittedScheme(RequestedUrl(req))
  {
    var url := req.url.value;
    assert url[0] == 'f' && url[..7][0] == url[0] && url[..8][0] == url[0];
    StripUnpadded(url);
  }

  /** A POST to "/open" from 10.0.0.5 with the token "t1" passes every gate of the relay. */
  lemma ListedRequest(settings: Settings, req: Request)
    requires LabRelay(settings)
    requires req.clientIp == "10.0.0.5" && req.path == "/open" && req.tokenHeader == Some("t1")
    ensures PostGatesPass(settings, req)
  {
    InsideClient(settings.allowedSubnets, req.clientIp);
    PrefixOfItself(req.path);
  }

  lemma PrefixOfItself(s: string)
    ensures StartsWith(s, s)
  {
    assert s[..|s|] == s;
  }

  /** The listed client with the right token gets a launch attempted for its URL, and 200 when `open` succeeds. */
  lemma ListedClientOpens(settings: Settings, req: Request, launch: Launch)
    requires LabRelay(settings)
    requires req == Request("10.0.0.5", "/open", Some("t1"), Some("https://example.com"))
    ensures var r := HandlePost(settings, req, launch);
      r.launched == Some("https://example.com") && (r.status == 200 <==> Succeeded(launch))
  {
    ListedRequest(settings, req);
    ExampleUrl(req);
    LaunchRequiresEveryGate(settings, req, launch);
    PostOkExactly(settings, req, launch);
  }

  /** The same request from outside the network is refused with 403 and attempts no launch. */
  lemma OutsideClientRefused(settings: Settings, req: Request, launch: Launch)
    requires LabRelay(settings)
    requires req == Request("192.168.1.5", "/open", Some("t1"), Some("https://example.com"))
    ensures var r := HandlePost(settings, req, launch);
      r.status == 403 && r.launched.None?
  {
    OutsideClient(settings.allowedSubnets, req.clientIp);
  }

  /** The listed client with the wrong token is refused with 401 and attempts no launch. */
  lemma WrongTokenRefused(settings: Settings, req: Request, launch: Launch)
    requires LabRelay(settings)
    requires req == Request("10.0.0.5", "/open", Some("wrong"), Some("https://example.com"))
    ensures var r := HandlePost(settings, req, launch);
      r.status == 401 && r.launched.None?
  {
    InsideClient(settings.allowedSubnets, req.clientIp);
    assert ExtractToken(req) != settings.sharedToken;
  }

  /** A `file:` URL from the listed client with the right token is refused and never reaches `open`. */
  lemma FileUrlRefused(settings: Settings, req: Request, launch: Launch)
    requires LabRelay(settings)
    requires req == Request("10.0.0.5", "/open", Some("t1"), Some("file:///etc/passwd"))
    ensures var r := HandlePost(settings, req, launch);
      r.status == 500 && r.launched.None? && r.body == Failure(SchemeRefused)
  {
    ListedRequest(settings, req);
    FileUrl(req);
    SchemeRefusedAsServerError(settings, req, launch);
  }
}
