/** IPv4 addresses as text, the net0 setting of a container, and the scanner
    that reads addresses back out of it. */
module Addresses {
  import opened Common
  import opened Text

  // --------------------------------------------------------------- addresses

  const MAX_ADDRESS := 0xFFFF_FFFF

  predicate IsAddress(a: int) {
    0 <= a <= MAX_ADDRESS
  }

  function Octets(a: nat): seq<string>
    requires IsAddress(a)
  {
    [Decimal(a / 0x100_0000), Decimal(a / 0x1_0000 % 256), Decimal(a / 256 % 256), Decimal(a % 256)]
  }

  /** The dotted decimal form. */
  function ToString(a: nat): string
    requires IsAddress(a)
  {
    Join(Octets(a), '.')
  }

  lemma AddressOfOctets(a: nat)
    requires IsAddress(a)
    ensures a == ((a / 0x100_0000 * 256 + a / 0x1_0000 % 256) * 256 + a / 256 % 256) * 256 + a % 256
  {
  }

  /** Different addresses are written differently. */
  lemma ToStringInjective(a: nat, b: nat)
    requires IsAddress(a) && IsAddress(b) && ToString(a) == ToString(b)
    ensures a == b
  {
    hide Split, Join, Decimal;
    SplitJoin(Octets(a), '.');
    SplitJoin(Octets(b), '.');
    assert Octets(a) == Octets(b);
    assert Octets(a)[0] == Octets(b)[0] && Octets(a)[1] == Octets(b)[1] && Octets(a)[2] == Octets(b)[2] &&
           Octets(a)[3] == Octets(b)[3];
    DecimalInjective(a / 0x100_0000, b / 0x100_0000);
    DecimalInjective(a / 0x1_0000 % 256, b / 0x1_0000 % 256);
    DecimalInjective(a / 256 % 256, b / 256 % 256);
    DecimalInjective(a % 256, b % 256);
    AddressOfOctets(a);
    AddressOfOctets(b);
  }

  predicate IsDigitOrDot(c: char) {
    '0' <= c <= '9' || c == '.'
  }

  lemma ToStringChars(a: nat)
    requires IsAddress(a)
    ensures ToString(a) != "" && forall i :: 0 <= i < |ToString(a)| ==> IsDigitOrDot(ToString(a)[i])
  {
    hide Decimal;
    var o := Octets(a);
    assert Join(o[3..], '.') == o[3];
    assert o[2..][1..] == o[3..] && o[1..][1..] == o[2..];
    assert Join(o[2..], '.') == o[2] + ['.'] + o[3];
    assert Join(o[1..], '.') == o[1] + ['.'] + Join(o[2..], '.');
    assert ToString(a) == o[0] + ['.'] + Join(o[1..], '.');
  }

  // ---------------------------------------------------------------- stripping

  predicate IsSpace(c: char) {
    '\t' <= c <= '\r' || '\U{1C}' <= c <= ' ' || c == '\U{85}' || c == '\U{A0}' || c == '\U{1680}' ||
    '\U{2000}' <= c <= '\U{200A}' || c == '\U{2028}' || c == '\U{2029}' || c == '\U{202F}' ||
    c == '\U{205F}' || c == '\U{3000}'
  }

  function StripLeft(s: string): string {
    if s != "" && IsSpace(s[0]) then StripLeft(s[1..]) else s
  }

  function StripRight(s: string): string {
    if s != "" && IsSpace(s[|s| - 1]) then StripRight(s[..|s| - 1]) else s
  }

  function Strip(s: string): string {
    StripRight(StripLeft(s))
  }

  /** Text that does not begin with a space keeps its beginning. */
  lemma {:induction false} StripRightAfter(head: string, tail: string)
    requires head != "" && forall i :: 0 <= i < |head| ==> !IsSpace(head[i])
    ensures StripRight(head + tail) == head + StripRight(tail)
  {
    var s := head + tail;
    if tail == "" {
      assert s == head;
    } else {
      assert s[|s| - 1] == tail[|tail| - 1] && s[..|s| - 1] == head + tail[..|tail| - 1];
      StripRightAfter(head, tail[..|tail| - 1]);
    }
  }

  lemma StripAfter(head: string, tail: string)
    requires head != "" && forall i :: 0 <= i < |head| ==> !IsSpace(head[i])
    ensures Strip(head + tail) == head + StripRight(tail)
  {
    assert (head + tail)[0] == head[0];
    StripRightAfter(head, tail);
  }

  // -------------------------------------------------------------------- net0

  datatype LxcSpec = LxcSpec(bridge: string, vlanTag: Option<nat>, ip: Option<string>, gateway: Option<string>)

  predicate Present(s: Option<string>) {
    s.Some? && s.value != ""
  }

  function TagParts(spec: LxcSpec): seq<string> {
    if spec.vlanTag.Some? && spec.vlanTag.value != 0 then ["tag=" + Decimal(spec.vlanTag.value)] else []
  }

  function IpParts(spec: LxcSpec): seq<string> {
    if Present(spec.ip) then ["ip=" + spec.ip.value] else []
  }

  function GatewayParts(spec: LxcSpec): seq<string> {
    if Present(spec.gateway) then ["gw=" + spec.gateway.value] else []
  }

  function Parts(spec: LxcSpec): (parts: seq<string>)
    ensures parts != []
  {
    ["name=eth0", "bridge=" + spec.bridge] + TagParts(spec) + IpParts(spec) + GatewayParts(spec)
  }

  function Net0(spec: LxcSpec): string {
    Join(Parts(spec), ',')
  }

  method Net0Config(spec: LxcSpec) returns (net0: string)
    ensures net0 == Net0(spec)
  {
    var parts := ["name=eth0", "bridge=" + spec.bridge];
    if spec.vlanTag.Some? && spec.vlanTag.value != 0 {
      parts := parts + ["tag=" + Decimal(spec.vlanTag.value)];
    }
    if spec.ip.Some? && spec.ip.value != "" {
      parts := parts + ["ip=" + spec.ip.value];
    }
    if spec.gateway.Some? && spec.gateway.value != "" {
      parts := parts + ["gw=" + spec.gateway.value];
    }
    assert parts == Parts(spec);
    net0 := Join(parts, ',');
  }

  // ----------------------------------------------------------------- scanning

  /** The part before the first slash. */
  function Bare(ip: string): string {
    Split(ip, '/')[0]
  }

  function FromPart(part: string): seq<string> {
    var p := Strip(part);
    if StartsWith(p, "ip=") && Bare(p[3..]) != "" && Bare(p[3..]) != "dhcp" then [Bare(p[3..])] else []
  }

  function Extracted(parts: seq<string>): seq<string> {
    if parts == [] then [] else FromPart(parts[0]) + Extracted(parts[1..])
  }

  lemma {:induction false} ExtractedConcat(a: seq<string>, b: seq<string>)
    ensures Extracted(a + b) == Extracted(a) + Extracted(b)
  {
    if a == [] {
      assert a + b == b;
    } else {
      assert (a + b)[1..] == a[1..] + b;
      ExtractedConcat(a[1..], b);
    }
  }

  lemma {:induction false} NoSlash(s: string)
    requires '/' !in s
    ensures Bare(s) == s
  {
    SplitFirst(s, '/', "");
  }

  method ExtractIpsFromNet0(net0: string) returns (ips: seq<string>)
    ensures ips == Extracted(Split(net0, ','))
  {
    ips := [];
    var parts := Split(net0, ',');
    assert parts[..0] == [] && parts[..|parts|] == parts;
    for k := 0 to |parts|
      invariant ips == Extracted(parts[..k])
    {
      assert parts[..k + 1] == parts[..k] + [parts[k]];
      ExtractedConcat(parts[..k], [parts[k]]);
      assert Extracted([parts[k]]) == FromPart(parts[k]);
      var part := Strip(parts[k]);
      if StartsWith(part, "ip=") {
        var ip := part[3..];
        if '/' in ip {
          ip := Split(ip, '/')[0];
        } else {
          NoSlash(ip);
        }
        if ip != "" && ip != "dhcp" {
          ips := ips + [ip];
        }
      }
    }
  }

  /** A part that starts with any letter but 'i' holds no address. */
  lemma OtherPart(head: string, tail: string)
    requires head != "" && head[0] != 'i' && forall i :: 0 <= i < |head| ==> !IsSpace(head[i])
    ensures FromPart(head + tail) == []
  {
    StripAfter(head, tail);
    assert Strip(head + tail)[0] == head[0];
  }

  lemma IpPart(ip: string)
    ensures FromPart("ip=" + ip) ==
            var b := Bare(StripRight(ip)); if b == "" || b == "dhcp" then [] else [b]
  {
    StripAfter("ip=", ip);
    assert ("ip=" + StripRight(ip))[3..] == StripRight(ip);
  }

  predicate CommaFree(spec: LxcSpec) {
    ',' !in spec.bridge && (spec.ip.Some? ==> ',' !in spec.ip.value) &&
    (spec.gateway.Some? ==> ',' !in spec.gateway.value)
  }

  lemma ExtractedParts(spec: LxcSpec)
    ensures Extracted(Parts(spec)) == Extracted(IpParts(spec))
  {
    hide Split, Strip, Bare, FromPart, Decimal;
    var a := ["name=eth0", "bridge=" + spec.bridge];
    ExtractedConcat(a + TagParts(spec) + IpParts(spec), GatewayParts(spec));
    ExtractedConcat(a + TagParts(spec), IpParts(spec));
    ExtractedConcat(a, TagParts(spec));
    OtherPart("name=eth0", "");
    assert "name=eth0" + "" == "name=eth0";
    OtherPart("bridge=", spec.bridge);
    assert a[1..] == ["bridge=" + spec.bridge];
    assert Extracted(a) == [];
    if TagParts(spec) != [] {
      OtherPart("tag=", Decimal(spec.vlanTag.value));
    }
    if GatewayParts(spec) != [] {
      OtherPart("gw=", spec.gateway.value);
    }
  }

  /** Scanning a container's own setting finds its bare address and nothing else. */
  lemma ScannerReadsNet0(spec: LxcSpec)
    requires CommaFree(spec)
    ensures Extracted(Split(Net0(spec), ',')) ==
            if !Present(spec.ip) then []
            else var b := Bare(StripRight(spec.ip.value)); if b == "" || b == "dhcp" then [] else [b]
  {
    hide Split, Strip, Bare, FromPart, Decimal;
    SplitJoin(Parts(spec), ',');
    ExtractedParts(spec);
    if Present(spec.ip) {
      IpPart(spec.ip.value);
      assert Extracted(IpParts(spec)) == FromPart("ip=" + spec.ip.value);
    }
  }

  /** An address with its prefix length, as the allocator hands it out. */
  function Cidr(a: nat, bits: nat): string
    requires IsAddress(a)
  {
    ToString(a) + "/" + Decimal(bits)
  }

  lemma StripRightKeeps(s: string)
    requires s != "" ==> !IsSpace(s[|s| - 1])
    ensures StripRight(s) == s
  {
  }

  lemma CidrIsPlain(a: nat, bits: nat)
    requires IsAddress(a)
    ensures ',' !in Cidr(a, bits) && Bare(StripRight(Cidr(a, bits))) == ToString(a) &&
            Bare(Cidr(a, bits)) == ToString(a)
  {
    hide Split, Join;
    ToStringChars(a);
    var s, d := ToString(a), Decimal(bits);
    var c := s + "/" + d;
    assert c == s + ['/'] + d;
    assert '/' !in s;
    SplitFirst(s, '/', d);
    assert c[|c| - 1] == d[|d| - 1];
    StripRightKeeps(c);
    assert ',' !in c by {
      assert ',' !in s && ',' !in d;
    }
  }

  /** Allocator and scanner agree on what an address looks like. */
  lemma ScannerReadsAddress(spec: LxcSpec, a: nat, bits: nat)
    requires IsAddress(a) && spec.ip == Some(Cidr(a, bits))
    requires ',' !in spec.bridge && (spec.gateway.Some? ==> ',' !in spec.gateway.value)
    ensures Extracted(Split(Net0(spec), ',')) == [ToString(a)]
  {
    hide Split, Join, Net0, Extracted;
    CidrIsPlain(a, bits);
    ScannerReadsNet0(spec);
    ToStringChars(a);
    assert ToString(a)[0] != 'd' by {
      assert IsDigitOrDot(ToString(a)[0]);
    }
  }

  lemma {:induction false} ExtractedHas(parts: seq<string>, part: string, ip: string)
    requires part in parts && ip in FromPart(part)
    ensures ip in Extracted(parts)
  {
    if part != parts[0] {
      assert part in parts[1..];
      ExtractedHas(parts[1..], part, ip);
    }
  }

  lemma AddressPart(a: nat, bits: nat)
    requires IsAddress(a)
    ensures FromPart("ip=" + Cidr(a, bits)) == [ToString(a)]
  {
    hide Split, Join, FromPart;
    CidrIsPlain(a, bits);
    IpPart(Cidr(a, bits));
    ToStringChars(a);
    assert IsDigitOrDot(ToString(a)[0]);
  }

  /** Whatever other fields the setting has, and in whatever order, the scanner
      finds the address in it. */
  lemma ScannerFindsAddress(parts: seq<string>, a: nat, bits: nat)
    requires IsAddress(a) && "ip=" + Cidr(a, bits) in parts && forall p :: p in parts ==> ',' !in p
    ensures ToString(a) in Extracted(Split(Join(parts, ','), ','))
  {
    hide Split, Join, Cidr, ToString, FromPart, Extracted;
    SplitJoin(parts, ',');
    AddressPart(a, bits);
    ExtractedHas(parts, "ip=" + Cidr(a, bits), ToString(a));
  }
}
