/** The flat address pool: what a cluster scan sees, what the database has
    claimed, and the first-fit search for a free address. */
module FlatIp {
  import opened Common
  import opened Addresses
  import opened Text
  import opened DeployModel

  // -------------------------------------------------------- the cluster scan

  /** A container as a node lists it; its setting is None when reading its
      configuration is refused. */
  datatype Listed = Listed(tags: string, net0: Option<string>)

  /** A node of the cluster; its containers are None when listing is refused. */
  datatype Node = Node(name: string, online: bool, containers: Option<seq<Listed>>)

  predicate Tagged(tags: string) {
    tags != "" && exists k :: 0 <= k < |Split(tags, ';')| && Strip(Split(tags, ';')[k]) == "tbd"
  }

  function Setting(c: Listed): string {
    if c.net0.Some? then c.net0.value else ""
  }

  predicate Listable(n: Node) {
    n.name != "" && n.online && n.containers.Some?
  }

  function SeenOf(cs: seq<Listed>): seq<string> {
    if cs == [] then [] else (if Tagged(cs[0].tags) then [Setting(cs[0])] else []) + SeenOf(cs[1..])
  }

  function Seen(nodes: seq<Node>): seq<string> {
    if nodes == [] then []
    else (if Listable(nodes[0]) then SeenOf(nodes[0].containers.value) else []) + Seen(nodes[1..])
  }

  lemma {:induction false} SeenOfConcat(a: seq<Listed>, b: seq<Listed>)
    ensures SeenOf(a + b) == SeenOf(a) + SeenOf(b)
  {
    if a == [] {
      assert a + b == b;
    } else {
      assert (a + b)[1..] == a[1..] + b;
      SeenOfConcat(a[1..], b);
    }
  }

  lemma {:induction false} SeenConcat(a: seq<Node>, b: seq<Node>)
    ensures Seen(a + b) == Seen(a) + Seen(b)
  {
    if a == [] {
      assert a + b == b;
    } else {
      assert (a + b)[1..] == a[1..] + b;
      SeenConcat(a[1..], b);
    }
  }

  /** Walks the online nodes and keeps the settings of the tagged containers. */
  method ListAllTbdContainers(nodes: seq<Node>) returns (results: seq<string>)
    ensures results == Seen(nodes)
  {
    results := [];
    assert nodes[..|nodes|] == nodes;
    for i := 0 to |nodes|
      invariant results == Seen(nodes[..i])
    {
      var node := nodes[i];
      assert nodes[..i + 1] == nodes[..i] + [node];
      SeenConcat(nodes[..i], [node]);
      if node.name == "" || !node.online || node.containers.None? {
        continue;
      }
      var cs := node.containers.value;
      ghost var before := results;
      assert cs[..|cs|] == cs;
      for j := 0 to |cs|
        invariant results == before + SeenOf(cs[..j])
      {
        assert cs[..j + 1] == cs[..j] + [cs[j]];
        SeenOfConcat(cs[..j], [cs[j]]);
        if Tagged(cs[j].tags) {
          results := results + [if cs[j].net0.Some? then cs[j].net0.value else ""];
        }
      }
      assert Seen([node]) == SeenOf(cs);
    }
  }

  /** A scan sees a setting exactly when some tagged container on a node that is
      online and can be listed has it. */
  lemma {:induction false} SeenIff(nodes: seq<Node>, s: string)
    ensures s in Seen(nodes) <==>
            exists n, c :: n in nodes && Listable(n) && c in n.containers.value && Tagged(c.tags) && Setting(c) == s
  {
    if nodes != [] {
      SeenIff(nodes[1..], s);
      if Listable(nodes[0]) {
        SeenOfIff(nodes[0].containers.value, s);
      }
      assert nodes == [nodes[0]] + nodes[1..];
    }
  }

  lemma {:induction false} SeenOfIff(cs: seq<Listed>, s: string)
    ensures s in SeenOf(cs) <==> exists c :: c in cs && Tagged(c.tags) && Setting(c) == s
  {
    if cs != [] {
      SeenOfIff(cs[1..], s);
      assert cs == [cs[0]] + cs[1..];
    }
  }

  // ------------------------------------------------------------ used addresses

  /** The rows the partial unique index, and the allocator's query, cover. */
  predicate InFilter(d: Deploy) {
    d.container.ip.Some? && d.status !in {Superseded, RolledBack, Failed}
  }

  function Claimed(t: Table): set<string> {
    set i | i in t && InFilter(t[i]) :: t[i].container.ip.value
  }

  /** The partial unique index. */
  ghost predicate IndexHolds(t: Table) {
    forall i, j :: i in t && j in t && i != j && InFilter(t[i]) && InFilter(t[j]) ==>
      t[i].container.ip.value != t[j].container.ip.value
  }

  function Scanned(net0s: seq<string>): set<string> {
    set k, ip | 0 <= k < |net0s| && ip in Extracted(Split(net0s[k], ',')) :: ip
  }

  /** A failed query or scan only costs its own source. */
  function Used(t: Table, answered: bool, nodes: Option<seq<Node>>): set<string> {
    (if answered then Claimed(t) else {}) + if nodes.Some? then Scanned(Seen(nodes.value)) else {}
  }

  // ---------------------------------------------------------------- first fit

  datatype AllocationError = BadRange | NoFreeAddress | AddressOverflow

  ghost predicate AllUsed(start: nat, end: nat, used: set<string>)
    requires IsAddress(start) && IsAddress(end)
  {
    forall a :: start <= a <= end ==> ToString(a) in used
  }

  /** The least address of the range that is not used. When there is none the
      search fails, and it fails differently if the range ends at the last
      address there is, since it then steps over it. */
  ghost predicate FirstFit(start: nat, end: nat, used: set<string>, r: Result<nat, AllocationError>)
    requires IsAddress(start) && IsAddress(end)
  {
    match r
    case Ok(a) => start <= a <= end && ToString(a) !in used && forall b :: start <= b < a ==> ToString(b) in used
    case Err(BadRange) => start > end
    case Err(NoFreeAddress) => start <= end < MAX_ADDRESS && AllUsed(start, end, used)
    case Err(AddressOverflow) => start <= end == MAX_ADDRESS && AllUsed(start, end, used)
  }

  method AllocateFlatIp(t: Table, answered: bool, nodes: Option<seq<Node>>, start: nat, end: nat)
    returns (r: Result<nat, AllocationError>)
    requires IsAddress(start) && IsAddress(end)
    ensures FirstFit(start, end, Used(t, answered, nodes), r)
  {
    hide Claimed, Scanned, Seen, ToString;
    if start > end {
      return Err(BadRange);
    }
    var used: set<string> := {};
    if answered {
      used := CollectClaimed(t);
    }
    if nodes.Some? {
      var scanned := CollectScanned(nodes.value);
      used := used + scanned;
    }
    assert used == Used(t, answered, nodes);
    var current := start;
    while current <= end
      invariant start <= current <= end + 1 && current <= MAX_ADDRESS
      invariant forall b :: start <= b < current ==> ToString(b) in used
    {
      if ToString(current) !in used {
        return Ok(current);
      }
      if current == MAX_ADDRESS {
        return Err(AddressOverflow);
      }
      current := current + 1;
    }
    return Err(NoFreeAddress);
  }

  lemma ScannedNext(net0s: seq<string>, k: nat)
    requires k < |net0s|
    ensures Scanned(net0s[..k + 1]) == Scanned(net0s[..k]) + set ip | ip in Extracted(Split(net0s[k], ','))
  {
    hide Split, Extracted;
    forall ip
      ensures ip in Scanned(net0s[..k + 1]) <==> ip in Scanned(net0s[..k]) || ip in Extracted(Split(net0s[k], ','))
    {
      if ip in Scanned(net0s[..k]) {
        var i :| 0 <= i < k && ip in Extracted(Split(net0s[..k][i], ','));
        assert net0s[..k + 1][i] == net0s[..k][i];
      }
      assert net0s[..k + 1][k] == net0s[k];
      if ip in Scanned(net0s[..k + 1]) && ip !in Extracted(Split(net0s[k], ',')) {
        var i :| 0 <= i < k + 1 && ip in Extracted(Split(net0s[..k + 1][i], ','));
        assert net0s[..k][i] == net0s[..k + 1][i];
      }
    }
  }

  method CollectScanned(nodes: seq<Node>) returns (used: set<string>)
    ensures used == Scanned(Seen(nodes))
  {
    hide Seen, Extracted, Split;
    var net0s := ListAllTbdContainers(nodes);
    used := {};
    for k := 0 to |net0s|
      invariant used == Scanned(net0s[..k])
    {
      var ips := ExtractIpsFromNet0(net0s[k]);
      ScannedNext(net0s, k);
      used := used + set ip | ip in ips;
    }
    assert net0s[..|net0s|] == net0s;
  }

  method CollectClaimed(t: Table) returns (used: set<string>)
    ensures used == Claimed(t)
  {
    var rows := set i | i in t && t[i].container.ip.Some? && t[i].status !in {Superseded, RolledBack, Failed};
    var remaining := rows;
    used := {};
    while remaining != {}
      invariant remaining <= rows
      invariant used == set i | i in rows - remaining :: t[i].container.ip.value
      decreases remaining
    {
      var i :| i in remaining;
      used := used + {t[i].container.ip.value};
      remaining := remaining - {i};
    }
  }

  // ---------------------------------------------------------------- agreement

  /** The address allocated is never one that a scanned container has in its
      setting, whatever else the setting says and in whatever order, nor one that
      a row in the filter claims. */
  lemma NeverHeld(t: Table, nodes: seq<Node>, start: nat, end: nat, r: Result<nat, AllocationError>,
                  parts: seq<string>, a: nat, bits: nat)
    requires IsAddress(start) && IsAddress(end) && FirstFit(start, end, Used(t, true, Some(nodes)), r) && r.Ok?
    requires IsAddress(a) && "ip=" + Cidr(a, bits) in parts && forall p :: p in parts ==> ',' !in p
    requires exists n, c ::
               n in nodes && Listable(n) && c in n.containers.value && Tagged(c.tags) &&
               c.net0 == Some(Join(parts, ','))
    ensures r.value != a
    ensures forall i :: i in t && InFilter(t[i]) ==> t[i].container.ip != Some(ToString(r.value))
  {
    hide Split, Join, Extracted, Seen, ToString, Cidr;
    ScannerFindsAddress(parts, a, bits);
    var net0 := Join(parts, ',');
    SeenIff(nodes, net0);
    var k :| 0 <= k < |Seen(nodes)| && Seen(nodes)[k] == net0;
    assert ToString(a) in Extracted(Split(Seen(nodes)[k], ','));
    assert ToString(a) in Scanned(Seen(nodes));
    forall i | i in t && InFilter(t[i])
      ensures t[i].container.ip != Some(ToString(r.value))
    {
      assert t[i].container.ip.value in Claimed(t);
    }
  }

  /** When the used strings are the addresses of a set, the search is first fit
      on addresses: it returns the least one of the range outside the set, and
      fails exactly when the set covers the range. */
  lemma FirstFitOnAddresses(start: nat, end: nat, taken: set<nat>, r: Result<nat, AllocationError>)
    requires IsAddress(start) && IsAddress(end) && forall a :: a in taken ==> IsAddress(a)
    requires FirstFit(start, end, set a | a in taken && IsAddress(a) :: ToString(a), r)
    ensures r.Ok? <==> exists a :: start <= a <= end && a !in taken
    ensures r.Ok? ==> start <= r.value <= end && r.value !in taken && forall b :: start <= b < r.value ==> b in taken
  {
    hide ToString;
    var used := set a | a in taken && IsAddress(a) :: ToString(a);
    forall a: nat | IsAddress(a)
      ensures ToString(a) in used <==> a in taken
    {
      if ToString(a) in used {
        var b :| b in taken && IsAddress(b) && ToString(b) == ToString(a);
        ToStringInjective(a, b);
      }
    }
  }
}
