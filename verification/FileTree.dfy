/** File trees as values: objects that refer to one another, the paths that lead
    to them, and what linking and unlinking does to every path. */
module FileTree {
  import opened Common

  type Path = seq<string>

  datatype Obj =
    | File(content: string, mtime: int, mode: string)
    | Dir(children: map<string, Node>, mtime: int, mode: string)

  type Heap = map<Node, Obj>

  class Node {
    const isDir: bool
    var content: string
    var children: map<string, Node>
    var mtime: int
    var mode: string

    constructor MakeFile(content: string, mtime: int, mode: string)
      ensures Value() == File(content, mtime, mode)
    {
      isDir, this.content, children, this.mtime, this.mode := false, content, map[], mtime, mode;
    }

    constructor MakeDir(children: map<string, Node>, mtime: int, mode: string)
      ensures Value() == Dir(children, mtime, mode)
    {
      isDir, content, this.children, this.mtime, this.mode := true, "", children, mtime, mode;
    }

    ghost function Value(): Obj
      reads this
    {
      if isDir then Dir(children, mtime, mode) else File(content, mtime, mode)
    }
  }

  /** What a path shows of an object: all but its children. */
  datatype Entry = FileEntry(content: string, mtime: int, mode: string) | DirEntry(mtime: int, mode: string)

  ghost function EntryOf(o: Obj): Entry {
    match o
    case File(content, mtime, mode) => FileEntry(content, mtime, mode)
    case Dir(_, mtime, mode) => DirEntry(mtime, mode)
  }

  ghost function Child(h: Heap, n: Node, name: string): Option<Node> {
    if n in h && h[n].Dir? && name in h[n].children then Some(h[n].children[name]) else None
  }

  /** The object that a path leads to. */
  ghost function Walk(h: Heap, n: Node, p: Path): Option<Node> {
    if p == [] then Some(n)
    else
      match Child(h, n, p[0])
      case None => None
      case Some(c) => Walk(h, c, p[1..])
  }

  ghost function View(h: Heap, n: Node, p: Path): Option<Entry> {
    match Walk(h, n, p)
    case None => None
    case Some(x) => if x in h then Some(EntryOf(h[x])) else None
  }

  ghost predicate Closed(h: Heap) {
    forall n, name :: n in h && h[n].Dir? && name in h[n].children ==> h[n].children[name] in h
  }

  /** No two paths from here lead to the same object. */
  ghost predicate Injective(h: Heap, n: Node) {
    forall p, q :: Walk(h, n, p).Some? && Walk(h, n, p) == Walk(h, n, q) ==> p == q
  }

  ghost predicate Tree(h: Heap, root: Node) {
    root in h && h[root].Dir? && Closed(h) && Injective(h, root)
  }

  /** No object can be reached from both. */
  ghost predicate Apart(h: Heap, a: Node, b: Node) {
    forall p, q :: Walk(h, a, p).Some? ==> Walk(h, a, p) != Walk(h, b, q)
  }

  // --------------------------------------------------------------------- walks

  lemma {:induction false} WalkConcat(h: Heap, n: Node, p: Path, q: Path)
    ensures Walk(h, n, p + q) == match Walk(h, n, p) case None => None case Some(x) => Walk(h, x, q)
  {
    if p == [] {
      assert p + q == q;
    } else {
      assert (p + q)[0] == p[0] && (p + q)[1..] == p[1..] + q;
      match Child(h, n, p[0])
      case None =>
      case Some(c) => WalkConcat(h, c, p[1..], q);
    }
  }

  lemma WalkSnoc(h: Heap, n: Node, p: Path, name: string)
    ensures Walk(h, n, p + [name]) == match Walk(h, n, p) case None => None case Some(x) => Child(h, x, name)
  {
    WalkConcat(h, n, p, [name]);
    assert forall x ::
             Walk(h, x, [name]) == match Child(h, x, name) case None => None case Some(c) => Walk(h, c, []) by {
      assert [name][1..] == [];
    }
  }

  /** Walks that look up the same children go the same way. */
  lemma {:induction false} WalkSame(h: Heap, h': Heap, n: Node, q: Path)
    requires forall k :: 0 <= k < |q| && Walk(h, n, q[..k]).Some? ==>
               var x := Walk(h, n, q[..k]).value; Child(h', x, q[k]) == Child(h, x, q[k])
    ensures Walk(h', n, q) == Walk(h, n, q)
  {
    if q != [] {
      assert q[..0] == [];
      assert Child(h', n, q[0]) == Child(h, n, q[0]);
      match Child(h, n, q[0])
      case None =>
      case Some(c) =>
        forall k | 0 <= k < |q[1..]| && Walk(h, c, q[1..][..k]).Some?
          ensures var x := Walk(h, c, q[1..][..k]).value; Child(h', x, q[1..][k]) == Child(h, x, q[1..][k])
        {
          assert q[..k + 1][0] == q[0] && q[..k + 1][1..] == q[1..][..k];
          assert Walk(h, n, q[..k + 1]) == Walk(h, c, q[1..][..k]);
        }
        WalkSame(h, h', c, q[1..]);
    }
  }

  lemma {:induction false} WalkStays(h: Heap, n: Node, p: Path)
    requires Closed(h) && n in h
    ensures Walk(h, n, p).Some? ==> Walk(h, n, p).value in h
  {
    if p != [] && Child(h, n, p[0]).Some? {
      WalkStays(h, Child(h, n, p[0]).value, p[1..]);
    }
  }

  ghost predicate Extends(h: Heap, h': Heap) {
    forall n :: n in h ==> n in h' && h'[n] == h[n]
  }

  /** More objects change nothing that can be reached already. */
  lemma WalkExtends(h: Heap, h': Heap, n: Node, q: Path)
    requires Closed(h) && n in h && Extends(h, h')
    ensures Walk(h', n, q) == Walk(h, n, q) && View(h', n, q) == View(h, n, q)
  {
    forall k | 0 <= k < |q| && Walk(h, n, q[..k]).Some?
      ensures var x := Walk(h, n, q[..k]).value; Child(h', x, q[k]) == Child(h, x, q[k])
    {
      WalkStays(h, n, q[..k]);
    }
    WalkSame(h, h', n, q);
    WalkStays(h, n, q);
  }

  // ------------------------------------------------------- changing one child

  /** Only one child of one object is different. */
  ghost predicate Patched(h: Heap, h': Heap, d: Node, name: string) {
    h'.Keys == h.Keys &&
    (forall x :: x in h ==> EntryOf(h'[x]) == EntryOf(h[x])) &&
    forall x, s :: x in h && (x != d || s != name) ==> Child(h', x, s) == Child(h, x, s)
  }

  ghost function Link(h: Heap, d: Node, name: string, c: Node): Heap
    requires d in h && h[d].Dir?
  {
    h[d := h[d].(children := h[d].children[name := c])]
  }

  ghost function Unlink(h: Heap, d: Node, name: string): Heap
    requires d in h && h[d].Dir?
  {
    h[d := h[d].(children := h[d].children - {name})]
  }

  lemma NotThrough(dp: Path, name: string, q: Path, k: nat)
    requires !(dp + [name] <= q) && k < |q|
    ensures q[..k] != dp || q[k] != name
  {
    assert q[..k + 1] == q[..k] + [q[k]];
  }

  /** Paths that do not go through the changed child are as they were. */
  lemma PatchElsewhere(h: Heap, h': Heap, root: Node, dp: Path, d: Node, name: string, q: Path)
    requires Tree(h, root) && Patched(h, h', d, name) && Walk(h, root, dp) == Some(d) && !(dp + [name] <= q)
    ensures Walk(h', root, q) == Walk(h, root, q) && View(h', root, q) == View(h, root, q)
  {
    forall k | 0 <= k < |q| && Walk(h, root, q[..k]).Some?
      ensures var x := Walk(h, root, q[..k]).value; Child(h', x, q[k]) == Child(h, x, q[k])
    {
      WalkStays(h, root, q[..k]);
      NotThrough(dp, name, q, k);
    }
    WalkSame(h, h', root, q);
    WalkStays(h, root, q);
  }

  /** Paths that go through it continue from the child. */
  lemma PatchThrough(h: Heap, h': Heap, root: Node, dp: Path, d: Node, name: string, r: Path)
    requires Tree(h, root) && Patched(h, h', d, name) && Walk(h, root, dp) == Some(d)
    ensures Walk(h', root, dp + [name] + r) == match Child(h', d, name) case None => None case Some(c) => Walk(h', c, r)
  {
    PatchElsewhere(h, h', root, dp, d, name, dp);
    WalkSnoc(h', root, dp, name);
    WalkConcat(h', root, dp + [name], r);
  }

  /** What cannot reach the changed object does not notice. */
  lemma PatchApart(h: Heap, h': Heap, d: Node, name: string, c: Node, r: Path)
    requires Closed(h) && c in h && Patched(h, h', d, name)
    requires forall k :: 0 <= k <= |r| ==> Walk(h, c, r[..k]) != Some(d)
    ensures Walk(h', c, r) == Walk(h, c, r) && View(h', c, r) == View(h, c, r)
  {
    forall k | 0 <= k < |r| && Walk(h, c, r[..k]).Some?
      ensures var x := Walk(h, c, r[..k]).value; Child(h', x, r[k]) == Child(h, x, r[k])
    {
      WalkStays(h, c, r[..k]);
    }
    WalkSame(h, h', c, r);
    WalkStays(h, c, r);
  }

  lemma ClosedAfterLink(h: Heap, d: Node, name: string, c: Node)
    requires Closed(h) && d in h && h[d].Dir? && c in h
    ensures Closed(Link(h, d, name, c)) && Patched(h, Link(h, d, name, c), d, name)
    ensures Child(Link(h, d, name, c), d, name) == Some(c)
  {
  }

  lemma ClosedAfterUnlink(h: Heap, d: Node, name: string)
    requires Closed(h) && d in h && h[d].Dir?
    ensures Closed(Unlink(h, d, name)) && Patched(h, Unlink(h, d, name), d, name)
    ensures Child(Unlink(h, d, name), d, name) == None
  {
  }

  /** Hanging a separate subtree under a directory, replacing what was there,
      shows the subtree below the new path and nothing else anew. */
  lemma LinkWalks(h: Heap, root: Node, dp: Path, d: Node, name: string, c: Node, q: Path)
    requires Tree(h, root) && Walk(h, root, dp) == Some(d) && d in h && h[d].Dir? && c in h && Apart(h, root, c)
    ensures var h' := Link(h, d, name, c);
            if dp + [name] <= q
            then Walk(h', root, q) == Walk(h, c, q[|dp| + 1..]) && View(h', root, q) == View(h, c, q[|dp| + 1..])
            else Walk(h', root, q) == Walk(h, root, q) && View(h', root, q) == View(h, root, q)
  {
    var h' := Link(h, d, name, c);
    ClosedAfterLink(h, d, name, c);
    if dp + [name] <= q {
      var r := q[|dp| + 1..];
      assert q == dp + [name] + r;
      PatchThrough(h, h', root, dp, d, name, r);
      assert forall k :: 0 <= k <= |r| ==> Walk(h, c, r[..k]) != Some(d);
      PatchApart(h, h', d, name, c, r);
    } else {
      PatchElsewhere(h, h', root, dp, d, name, q);
    }
  }

  lemma LinkKeepsTree(h: Heap, root: Node, dp: Path, d: Node, name: string, c: Node)
    requires Tree(h, root) && Walk(h, root, dp) == Some(d) && d in h && h[d].Dir? && c in h
    requires Apart(h, root, c) && Injective(h, c)
    ensures Tree(Link(h, d, name, c), root)
  {
    var h', e := Link(h, d, name, c), dp + [name];
    ClosedAfterLink(h, d, name, c);
    forall p, q | Walk(h', root, p).Some? && Walk(h', root, p) == Walk(h', root, q)
      ensures p == q
    {
      LinkWalks(h, root, dp, d, name, c, p);
      LinkWalks(h, root, dp, d, name, c, q);
      if e <= p && e <= q {
        assert p[|e|..] == q[|e|..];
        assert p == e + p[|e|..] && q == e + q[|e|..];
      }
    }
  }

  lemma UnlinkWalks(h: Heap, root: Node, dp: Path, d: Node, name: string, q: Path)
    requires Tree(h, root) && Walk(h, root, dp) == Some(d) && d in h && h[d].Dir?
    ensures var h' := Unlink(h, d, name);
            if dp + [name] <= q then Walk(h', root, q) == None && View(h', root, q) == None
            else Walk(h', root, q) == Walk(h, root, q) && View(h', root, q) == View(h, root, q)
  {
    var h' := Unlink(h, d, name);
    ClosedAfterUnlink(h, d, name);
    if dp + [name] <= q {
      assert q == dp + [name] + q[|dp| + 1..];
      PatchThrough(h, h', root, dp, d, name, q[|dp| + 1..]);
    } else {
      PatchElsewhere(h, h', root, dp, d, name, q);
    }
  }

  lemma UnlinkKeepsTree(h: Heap, root: Node, dp: Path, d: Node, name: string)
    requires Tree(h, root) && Walk(h, root, dp) == Some(d) && d in h && h[d].Dir?
    ensures Tree(Unlink(h, d, name), root)
  {
    var h' := Unlink(h, d, name);
    ClosedAfterUnlink(h, d, name);
    forall p, q | Walk(h', root, p).Some? && Walk(h', root, p) == Walk(h', root, q)
      ensures p == q
    {
      UnlinkWalks(h, root, dp, d, name, p);
      UnlinkWalks(h, root, dp, d, name, q);
    }
  }

  lemma InjectiveBelow(h: Heap, root: Node, p: Path, n: Node)
    requires Injective(h, root) && Walk(h, root, p) == Some(n)
    ensures Injective(h, n)
  {
    forall a, b | Walk(h, n, a).Some? && Walk(h, n, a) == Walk(h, n, b)
      ensures a == b
    {
      WalkConcat(h, root, p, a);
      WalkConcat(h, root, p, b);
      assert p + a == p + b;
      assert a == (p + a)[|p|..] && b == (p + b)[|p|..];
    }
  }

  /** A subtree that has been unlinked is whole, and apart from the rest. */
  lemma Detached(h: Heap, root: Node, dp: Path, d: Node, name: string, s: Node)
    requires Tree(h, root) && Walk(h, root, dp) == Some(d) && d in h && h[d].Dir? && Child(h, d, name) == Some(s)
    ensures var h' := Unlink(h, d, name);
            Apart(h', root, s) && Injective(h', s) && s in h' &&
            forall r :: Walk(h', s, r) == Walk(h, s, r) && View(h', s, r) == View(h, s, r)
  {
    var h', e := Unlink(h, d, name), dp + [name];
    ClosedAfterUnlink(h, d, name);
    WalkSnoc(h, root, dp, name);
    forall r
      ensures Walk(h', s, r) == Walk(h, s, r) && View(h', s, r) == View(h, s, r)
    {
      forall k | 0 <= k <= |r|
        ensures Walk(h, s, r[..k]) != Some(d)
      {
        WalkConcat(h, root, e, r[..k]);
        assert |e + r[..k]| > |dp|;
      }
      PatchApart(h, h', d, name, s, r);
    }
    InjectiveBelow(h, root, e, s);
    forall p, q | Walk(h', root, p).Some?
      ensures Walk(h', root, p) != Walk(h', s, q)
    {
      UnlinkWalks(h, root, dp, d, name, p);
      WalkConcat(h, root, e, q);
      assert e <= e + q;
    }
  }

  // ------------------------------------------------------------------- depth

  ghost function Along(h: Heap, n: Node, p: Path): (s: set<Node>)
    requires Closed(h) && n in h && Walk(h, n, p).Some?
    ensures s <= h.Keys
  {
    WalkStays(h, n, p);
    if p == [] then {n}
    else {n} + Along(h, Child(h, n, p[0]).value, p[1..])
  }

  lemma {:induction false} AlongIs(h: Heap, n: Node, p: Path, x: Node)
    requires Closed(h) && n in h && Walk(h, n, p).Some? && x in Along(h, n, p)
    ensures exists k :: 0 <= k <= |p| && Walk(h, n, p[..k]) == Some(x)
  {
    assert p[..0] == [];
    if x != n {
      var c := Child(h, n, p[0]).value;
      AlongIs(h, c, p[1..], x);
      var k :| 0 <= k <= |p[1..]| && Walk(h, c, p[1..][..k]) == Some(x);
      assert p[..k + 1][0] == p[0] && p[..k + 1][1..] == p[1..][..k];
      assert Walk(h, n, p[..k + 1]) == Some(x);
    }
  }

  lemma {:induction false} AlongSize(h: Heap, n: Node, p: Path)
    requires Closed(h) && n in h && Walk(h, n, p).Some? && Injective(h, n)
    ensures |Along(h, n, p)| == |p| + 1
  {
    if p != [] {
      var c := Child(h, n, p[0]).value;
      assert [p[0]][1..] == [];
      assert Walk(h, n, [p[0]]) == Some(c);
      InjectiveBelow(h, n, [p[0]], c);
      AlongSize(h, c, p[1..]);
      forall k | 0 <= k <= |p[1..]|
        ensures Walk(h, c, p[1..][..k]) != Some(n)
      {
        WalkConcat(h, n, [p[0]], p[1..][..k]);
        assert |[p[0]] + p[1..][..k]| > 0 && Walk(h, n, []) == Some(n);
      }
      if n in Along(h, c, p[1..]) {
        AlongIs(h, c, p[1..], n);
      }
    }
  }

  /** In a finite tree no path is longer than there are objects. */
  lemma DepthBound(h: Heap, n: Node, p: Path)
    requires Closed(h) && n in h && Walk(h, n, p).Some? && Injective(h, n)
    ensures |p| < |h.Keys|
  {
    AlongSize(h, n, p);
    SubsetSize(Along(h, n, p), h.Keys);
  }
}
