/** What addresses, settings and tags look like, spelled out. */
module AddressLaws {
  import opened Common
  import opened Addresses
  import DeployModel
  import opened FlatIp
  import opened Text

  // ------------------------------------------------------------------- addresses

  lemma BytesOf(w: nat, x: nat, y: nat, z: nat, a: nat)
    requires w < 256 && x < 256 && y < 256 && z < 256 && a == ((w * 256 + x) * 256 + y) * 256 + z
    ensures IsAddress(a) && Octets(a) == [Decimal(w), Decimal(x), Decimal(y), Decimal(z)]
  {
    hide Decimal;
    var b := w * 256 + x;
    var c := b * 256 + y;
    assert a % 256 == z && a / 256 == c;
    assert c % 256 == y && a / 0x1_0000 == b;
    assert b % 256 == x && a / 0x100_0000 == w;
  }

  /** An address is written with its bytes from the most significant to the least. */
  lemma DottedDecimal(w: nat, x: nat, y: nat, z: nat, a: nat)
    requires w < 256 && x < 256 && y < 256 && z < 256 && a == ((w * 256 + x) * 256 + y) * 256 + z
    ensures IsAddress(a) && ToString(a) == Decimal(w) + "." + Decimal(x) + "." + Decimal(y) + "." + Decimal(z)
  {
    BytesOf(w, x, y, z, a);
    hide Decimal, Octets, Join;
    JoinFour(Decimal(w), Decimal(x), Decimal(y), Decimal(z));
  }

  lemma JoinFour(a: string, b: string, c: string, d: string)
    ensures Join([a, b, c, d], '.') == a + "." + b + "." + c + "." + d
  {
    assert [a, b, c, d][1..] == [b, c, d] && [b, c, d][1..] == [c, d] && [c, d][1..] == [d];
    assert Join([d], '.') == d && Join([c, d], '.') == c + "." + d;
    assert Join([b, c, d], '.') == b + "." + (c + "." + d);
    assert Join([a, b, c, d], '.') == a + "." + (b + "." + (c + "." + d));
  }

  // -------------------------------------------------------------------- settings

  lemma {:induction false} JoinMore(parts: seq<string>, more: seq<string>, c: char)
    requires parts != [] && more != []
    ensures Join(parts + more, c) == Join(parts, c) + [c] + Join(more, c)
  {
    if |parts| == 1 {
      assert (parts + more)[1..] == more;
    } else {
      assert (parts + more)[1..] == parts[1..] + more;
      JoinMore(parts[1..], more, c);
    }
  }

  lemma JoinOption(parts: seq<string>, more: seq<string>, c: char)
    requires parts != [] && |more| <= 1
    ensures Join(parts + more, c) == Join(parts, c) + if more == [] then "" else [c] + more[0]
  {
    if more == [] {
      assert parts + more == parts;
    } else {
      JoinMore(parts, more, c);
    }
  }

  /** The setting of a container, field by field. */
  lemma Net0Is(spec: LxcSpec)
    ensures Net0(spec) ==
            "name=eth0,bridge=" + spec.bridge +
            (if spec.vlanTag.Some? && spec.vlanTag.value != 0 then ",tag=" + Decimal(spec.vlanTag.value) else "") +
            (if spec.ip.Some? && spec.ip.value != "" then ",ip=" + spec.ip.value else "") +
            (if spec.gateway.Some? && spec.gateway.value != "" then ",gw=" + spec.gateway.value else "")
  {
    hide Decimal;
    var a := ["name=eth0", "bridge=" + spec.bridge];
    JoinOption(a + TagParts(spec) + IpParts(spec), GatewayParts(spec), ',');
    JoinOption(a + TagParts(spec), IpParts(spec), ',');
    JoinOption(a, TagParts(spec), ',');
    assert a[1..] == ["bridge=" + spec.bridge];
    assert Join(a, ',') == "name=eth0,bridge=" + spec.bridge;
    if spec.vlanTag.Some? {
      Glued("tag=", Decimal(spec.vlanTag.value));
    }
    if spec.ip.Some? {
      Glued("ip=", spec.ip.value);
    }
    if spec.gateway.Some? {
      Glued("gw=", spec.gateway.value);
    }
    assert "," + "tag=" == ",tag=" && "," + "ip=" == ",ip=" && "," + "gw=" == ",gw=";
  }

  lemma Glued(prefix: string, value: string)
    ensures [','] + (prefix + value) == ("," + prefix) + value
  {
  }

  // ----------------------------------------------------------------- white space

  /** What str.strip() removes. */
  const WHITE_SPACE := "\t\n\U{B}\U{C}\r\U{1C}\U{1D}\U{1E}\U{1F} \U{85}\U{A0}\U{1680}\U{2000}\U{2001}\U{2002}\U{2003}"
    + "\U{2004}\U{2005}\U{2006}\U{2007}\U{2008}\U{2009}\U{200A}\U{2028}\U{2029}\U{202F}\U{205F}\U{3000}"

  predicate Blank(s: string) {
    forall i :: 0 <= i < |s| ==> s[i] in WHITE_SPACE
  }

  lemma SpaceIsListed(c: char)
    ensures IsSpace(c) <==> c in WHITE_SPACE
  {
  }

  lemma {:induction false} StripLeftIs(s: string) returns (a: string)
    ensures s == a + StripLeft(s) && Blank(a) && (StripLeft(s) != "" ==> StripLeft(s)[0] !in WHITE_SPACE)
  {
    hide WHITE_SPACE, IsSpace;
    a := "";
    if s != "" {
      SpaceIsListed(s[0]);
      if IsSpace(s[0]) {
        var rest := StripLeftIs(s[1..]);
        a := [s[0]] + rest;
        assert s == [s[0]] + s[1..];
      }
    }
  }

  lemma {:induction false} StripRightIs(s: string) returns (b: string)
    ensures s == StripRight(s) + b && Blank(b)
    ensures StripRight(s) != "" ==> StripRight(s)[|StripRight(s)| - 1] !in WHITE_SPACE
  {
    hide WHITE_SPACE, IsSpace;
    b := "";
    if s != "" {
      var last := s[|s| - 1];
      SpaceIsListed(last);
      if IsSpace(last) {
        var rest := StripRightIs(s[..|s| - 1]);
        b := rest + [last];
        assert s == s[..|s| - 1] + [last];
      }
    }
  }

  lemma {:induction false} StripLeftDrops(a: string, s: string)
    requires Blank(a) && (s != "" ==> s[0] !in WHITE_SPACE)
    ensures StripLeft(a + s) == s
  {
    hide WHITE_SPACE, IsSpace;
    if a != "" {
      SpaceIsListed(a[0]);
      assert (a + s)[1..] == a[1..] + s;
      StripLeftDrops(a[1..], s);
    } else {
      assert a + s == s;
      if s != "" {
        SpaceIsListed(s[0]);
      }
    }
  }

  lemma {:induction false} StripRightDrops(s: string, b: string)
    requires Blank(b) && (s != "" ==> s[|s| - 1] !in WHITE_SPACE)
    ensures StripRight(s + b) == s
  {
    hide WHITE_SPACE, IsSpace;
    if b != "" {
      SpaceIsListed(b[|b| - 1]);
      assert (s + b)[..|s + b| - 1] == s + b[..|b| - 1];
      StripRightDrops(s, b[..|b| - 1]);
    } else {
      assert s + b == s;
      if s != "" {
        SpaceIsListed(s[|s| - 1]);
      }
    }
  }

  /** The text stands between white space. */
  ghost predicate Padded(s: string, core: string) {
    exists a, b :: Blank(a) && Blank(b) && s == a + core + b
  }

  /** Stripping leaves a text exactly when it stands between white space. */
  lemma StripIff(s: string, core: string)
    requires core != "" && core[0] !in WHITE_SPACE && core[|core| - 1] !in WHITE_SPACE
    ensures Strip(s) == core <==> Padded(s, core)
  {
    hide WHITE_SPACE;
    if Strip(s) == core {
      var a := StripLeftIs(s);
      var b := StripRightIs(StripLeft(s));
      assert s == a + (core + b) == a + core + b;
    }
    forall a, b | Blank(a) && Blank(b) && s == a + core + b
      ensures Strip(s) == core
    {
      assert s == a + (core + b);
      StripLeftDrops(a, core + b);
      StripRightDrops(core, b);
    }
  }

  // --------------------------------------------------------------------- scanning

  /** A field of a setting yields an address exactly when, stripped, it is "ip="
      and the address, with or without a slash and anything after it. */
  lemma ScannedIff(part: string, ip: string)
    ensures ip in FromPart(part) <==>
            ip != "" && ip != "dhcp" && '/' !in ip &&
            (Strip(part) == "ip=" + ip || exists rest :: Strip(part) == "ip=" + ip + "/" + rest)
  {
    hide Strip;
    var p := Strip(part);
    if StartsWith(p, "ip=") {
      var text := p[3..];
      assert p == "ip=" + text;
      BareIff(text, ip);
      assert p == "ip=" + ip <==> text == ip;
      forall rest
        ensures p == "ip=" + ip + "/" + rest <==> text == ip + "/" + rest
      {
        assert "ip=" + ip + "/" + rest == "ip=" + (ip + "/" + rest);
        assert ("ip=" + (ip + "/" + rest))[3..] == ip + "/" + rest;
      }
      assert ("ip=" + ip)[3..] == ip;
    } else {
      assert ("ip=" + ip)[..3] == "ip=";
      forall rest
        ensures p != "ip=" + ip + "/" + rest
      {
        assert ("ip=" + ip + "/" + rest)[..3] == "ip=";
      }
    }
  }

  lemma BareIff(text: string, ip: string)
    ensures Bare(text) == ip <==> '/' !in ip && (text == ip || exists rest :: text == ip + "/" + rest)
  {
    SplitIs(text, '/');
    var parts := Split(text, '/');
    hide Split;
    if |parts| > 1 {
      assert text == parts[0] + "/" + Join(parts[1..], '/');
    }
    if '/' !in ip {
      if text == ip {
        SplitFirst(ip, '/', "");
      }
      forall rest | text == ip + "/" + rest
        ensures Bare(text) == ip
      {
        SplitFirst(ip, '/', rest);
      }
    }
  }

  /** A container is the platform's exactly when, of the tags that semicolons
      separate, one is "tbd" between white space. */
  lemma TaggedIff(tags: seq<string>)
    requires tags != [] && forall t :: t in tags ==> ';' !in t
    ensures Tagged(Join(tags, ';')) <==> exists t :: t in tags && Padded(t, "tbd")
  {
    hide Strip, WHITE_SPACE, Padded;
    SplitJoin(tags, ';');
    LettersAreNoSpace();
    forall t | t in tags
      ensures Strip(t) == "tbd" <==> Padded(t, "tbd")
    {
      StripIff(t, "tbd");
    }
    hide Split;
    if Join(tags, ';') == "" {
      EmptyHasOnePart();
      NotPadded();
    }
  }

  lemma NotPadded()
    ensures !Padded("", "tbd")
  {
    forall a, b
      ensures "" != a + "tbd" + b
    {
      assert |a + "tbd" + b| >= 3;
    }
  }

  lemma EmptyHasOnePart()
    ensures Split("", ';') == [""]
  {
  }

  lemma LettersAreNoSpace()
    ensures 't' !in WHITE_SPACE && 'd' !in WHITE_SPACE
  {
  }

  /** A scan sees a setting exactly when a node that has a name, is online and can
      be listed has a container with such tags and that setting, a setting that
      cannot be read counting as empty. */
  lemma ScanSeesIff(nodes: seq<Node>, s: string)
    ensures s in Seen(nodes) <==>
            exists n, c :: n in nodes && n.name != "" && n.online && n.containers.Some? && c in n.containers.value &&
                           Tagged(c.tags) && (c.net0 == Some(s) || (c.net0 == None && s == ""))
  {
    hide Tagged;
    SeenIff(nodes, s);
  }
  // -------------------------------------------------------------------- first fit

  /** The search has exactly one outcome: an error for a reversed range and for one
      entirely used, another one when it ends at 255.255.255.255, and otherwise the
      least address not used. */
  lemma {:induction false} FirstFitIs(start: nat, end: nat, used: set<string>) returns (r: Result<nat, AllocationError>)
    requires IsAddress(start) && IsAddress(end)
    ensures FirstFit(start, end, used, r) && forall other :: FirstFit(start, end, used, other) ==> other == r
    ensures start > end <==> r == Err(BadRange)
    ensures r == Err(AddressOverflow) ==> end == 0xFFFF_FFFF
    ensures r == Err(NoFreeAddress) ==> end != 0xFFFF_FFFF
    ensures start <= end ==> (r.Err? <==> forall a :: start <= a <= end ==> ToString(a) in used)
    decreases end - start
  {
    hide ToString;
    if start > end {
      r := Err(BadRange);
    } else if ToString(start) !in used {
      r := Ok(start);
    } else if start == end {
      r := if end == MAX_ADDRESS then Err(AddressOverflow) else Err(NoFreeAddress);
    } else {
      r := FirstFitIs(start + 1, end, used);
      forall other
        ensures FirstFit(start, end, used, other) <==> FirstFit(start + 1, end, used, other)
      {
      }
    }
  }

  /** What counts as used: the stored address of a deploy that is not superseded,
      rolled back or failed, and what a field of a scanned setting yields; either
      source only when it answers. */
  lemma UsedIff(t: DeployModel.Table, answered: bool, nodes: Option<seq<Node>>, ip: string)
    ensures ip in Used(t, answered, nodes) <==>
            (answered && exists i :: i in t && t[i].container.ip == Some(ip) && t[i].status != DeployModel.Superseded &&
                                     t[i].status != DeployModel.RolledBack && t[i].status != DeployModel.Failed) ||
            (nodes.Some? && exists s, part :: s in Seen(nodes.value) && part in Split(s, ',') && ip in FromPart(part))
  {
    hide Seen, Split, FromPart, Scanned;
    if nodes.Some? {
      ScannedFieldIff(Seen(nodes.value), ip);
    }
    if answered && ip in Claimed(t) {
      var i :| i in t && InFilter(t[i]) && t[i].container.ip.value == ip;
    }
  }

  lemma ScannedFieldIff(net0s: seq<string>, ip: string)
    ensures ip in Scanned(net0s) <==> exists s, part :: s in net0s && part in Split(s, ',') && ip in FromPart(part)
  {
    hide Split, FromPart, Extracted;
    forall s | s in net0s
      ensures ip in Extracted(Split(s, ',')) <==> exists part :: part in Split(s, ',') && ip in FromPart(part)
    {
      ExtractedIff(Split(s, ','), ip);
    }
    if s, part :| s in net0s && part in Split(s, ',') && ip in FromPart(part) {
      var k :| 0 <= k < |net0s| && net0s[k] == s;
      assert ip in Extracted(Split(net0s[k], ','));
    }
  }

  lemma {:induction false} ExtractedIff(parts: seq<string>, ip: string)
    ensures ip in Extracted(parts) <==> exists part :: part in parts && ip in FromPart(part)
  {
    hide FromPart;
    if parts != [] {
      ExtractedIff(parts[1..], ip);
      assert forall p :: p in parts <==> p == parts[0] || p in parts[1..];
    }
  }
}
