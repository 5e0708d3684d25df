/** What the file operations do to a tree, and what every path shows after. */
module FileOps {
  import opened Common
  import opened Paths
  import opened FileTree

  const FILE_MODE := "-rw-r--r--"
  const DIR_MODE := "drwxr-xr-x"

  datatype Error = NotFound | NoParent | NotADirectory | IsADirectory | Omitting | StackOverflow

  // ------------------------------------------------------------------ addresses

  /** The last name of a resolved path; the home directory's own is "~". */
  ghost function NameOf(p: Path): string {
    if p == [] then HOME else p[|p| - 1]
  }

  ghost function ParentOf(p: Path): Path {
    if p == [] then [] else p[..|p| - 1]
  }

  /** The slot an operation on `p` works on: for the home directory itself, a
      child of it that is called "~". */
  ghost function Slot(p: Path): (e: Path)
    ensures p != [] ==> e == p
  {
    ParentOf(p) + [NameOf(p)]
  }

  ghost predicate IsDirAt(h: Heap, root: Node, p: Path) {
    Walk(h, root, p).Some? && Walk(h, root, p).value in h && h[Walk(h, root, p).value].Dir?
  }

  /** The directory that holds the slot of `p`. */
  ghost function ParentAt(h: Heap, root: Node, p: Path): (r: Option<Node>)
    ensures r.Some? ==> r.value in h && h[r.value].Dir? && Walk(h, root, ParentOf(p)) == r
  {
    if IsDirAt(h, root, ParentOf(p)) then Walk(h, root, ParentOf(p)) else None
  }

  // -------------------------------------------------------------------- writing

  ghost function WriteError(h: Heap, root: Node, p: Path): Option<Error> {
    match ParentAt(h, root, p)
    case None => Some(NoParent)
    case Some(d) =>
      match Child(h, d, NameOf(p))
      case Some(e) => if e in h && h[e].Dir? then Some(IsADirectory) else None
      case None => None
  }

  /** An existing file is changed in place; otherwise `f` is a new one. */
  ghost function Written(h: Heap, root: Node, p: Path, content: string, append: bool, now: int, f: Node): Heap
    requires WriteError(h, root, p) == None
  {
    var d := ParentAt(h, root, p).value;
    match Child(h, d, NameOf(p))
    case Some(e) =>
      if e in h then h[e := File(if append then h[e].content + content else content, now, h[e].mode)] else h
    case None =>
      var h1 := h[f := File(content, now, FILE_MODE)];
      if d in h1 && h1[d].Dir? then Link(h1, d, NameOf(p), f) else h1
  }

  ghost predicate IsNew(h: Heap, root: Node, p: Path) {
    ParentAt(h, root, p).Some? && Child(h, ParentAt(h, root, p).value, NameOf(p)) == None
  }

  ghost function WrittenEntry(h: Heap, root: Node, p: Path, content: string, append: bool, now: int): Entry {
    match View(h, root, Slot(p))
    case Some(FileEntry(was, _, mode)) => FileEntry(if append then was + content else content, now, mode)
    case _ => FileEntry(content, now, FILE_MODE)
  }

  lemma NewLeaf(h: Heap, root: Node, f: Node, o: Obj)
    requires Tree(h, root) && f !in h && (o.Dir? ==> o.children == map[])
    ensures var h1 := h[f := o];
            Tree(h1, root) && Apart(h1, root, f) && Injective(h1, f) &&
            (forall q :: Walk(h1, root, q) == Walk(h, root, q) && View(h1, root, q) == View(h, root, q)) &&
            (forall r :: View(h1, f, r) == if r == [] then Some(EntryOf(o)) else None)
  {
    var h1 := h[f := o];
    forall q
      ensures Walk(h1, root, q) == Walk(h, root, q) && View(h1, root, q) == View(h, root, q) &&
              Walk(h1, root, q) != Some(f)
    {
      WalkExtends(h, h1, root, q);
      WalkStays(h, root, q);
    }
    assert forall r :: r != [] ==> Walk(h1, f, r) == None;
    assert Walk(h1, f, []) == Some(f);
  }

  /** A new leaf shows at its path only. */
  lemma LinkLeafView(h: Heap, root: Node, dp: Path, d: Node, name: string, f: Node, o: Obj, q: Path)
    requires Tree(h, root) && f !in h && (o.Dir? ==> o.children == map[])
    requires Walk(h, root, dp) == Some(d) && d in h && h[d].Dir? && (Child(h, d, name) == None)
    ensures View(Link(h[f := o], d, name, f), root, q) ==
            if q == dp + [name] then Some(EntryOf(o)) else View(h, root, q)
  {
    var e := dp + [name];
    NewLeaf(h, root, f, o);
    hide Apart, Injective;
    LinkWalks(h[f := o], root, dp, d, name, f, q);
    WalkSnoc(h, root, dp, name);
    if e <= q {
      assert q == e + q[|e|..];
      WalkConcat(h, root, e, q[|e|..]);
    }
  }

  /** The file that is already in the slot. */
  lemma ExistingFile(h: Heap, root: Node, p: Path) returns (e: Node)
    requires Tree(h, root) && WriteError(h, root, p) == None && !IsNew(h, root, p)
    ensures Child(h, ParentAt(h, root, p).value, NameOf(p)) == Some(e) && e in h && h[e].File?
    ensures Walk(h, root, Slot(p)) == Some(e) && View(h, root, Slot(p)) == Some(EntryOf(h[e]))
  {
    var d := ParentAt(h, root, p).value;
    WalkSnoc(h, root, ParentOf(p), NameOf(p));
    hide Injective;
    e := Child(h, d, NameOf(p)).value;
  }

  lemma WriteExistingView(h: Heap, root: Node, p: Path, content: string, append: bool, now: int, f: Node, q: Path)
    requires Tree(h, root) && WriteError(h, root, p) == None && !IsNew(h, root, p)
    ensures var h' := Written(h, root, p, content, append, now, f);
            View(h', root, q) ==
            if q == Slot(p) then Some(WrittenEntry(h, root, p, content, append, now)) else View(h, root, q)
  {
    hide Walk, View, Injective, Closed, Tree, Slot;
    var e := ExistingFile(h, root, p);
    EditView(h, root, Slot(p), e, File(if append then h[e].content + content else content, now, h[e].mode), q);
  }

  lemma WriteNewView(h: Heap, root: Node, p: Path, content: string, append: bool, now: int, f: Node, q: Path)
    requires Tree(h, root) && WriteError(h, root, p) == None && IsNew(h, root, p) && f !in h
    ensures var h' := Written(h, root, p, content, append, now, f);
            View(h', root, q) ==
            if q == Slot(p) then Some(WrittenEntry(h, root, p, content, append, now)) else View(h, root, q)
  {
    var d, name := ParentAt(h, root, p).value, NameOf(p);
    WalkSnoc(h, root, ParentOf(p), name);
    hide Walk, Link, Injective;
    LinkLeafView(h, root, ParentOf(p), d, name, f, File(content, now, FILE_MODE), q);
  }

  /** Writing changes what one path shows, and nothing else. */
  lemma WriteView(h: Heap, root: Node, p: Path, content: string, append: bool, now: int, f: Node, q: Path)
    requires Tree(h, root) && WriteError(h, root, p) == None && (IsNew(h, root, p) ==> f !in h)
    ensures var h' := Written(h, root, p, content, append, now, f);
            View(h', root, q) ==
            if q == Slot(p) then Some(WrittenEntry(h, root, p, content, append, now)) else View(h, root, q)
  {
    hide Tree, Written, WrittenEntry, View, Slot;
    if IsNew(h, root, p) {
      WriteNewView(h, root, p, content, append, now, f, q);
    } else {
      WriteExistingView(h, root, p, content, append, now, f, q);
    }
  }

  lemma WriteKeepsTree(h: Heap, root: Node, p: Path, content: string, append: bool, now: int, f: Node)
    requires Tree(h, root) && WriteError(h, root, p) == None && (IsNew(h, root, p) ==> f !in h)
    ensures Tree(Written(h, root, p, content, append, now, f), root)
  {
    var d, name := ParentAt(h, root, p).value, NameOf(p);
    WalkSnoc(h, root, ParentOf(p), name);
    WalkStays(h, root, Slot(p));
    match Child(h, d, name)
    case Some(e) => EditKeepsTree(h, root, e, Written(h, root, p, content, append, now, f)[e]);
    case None =>
      var o: Obj := File(content, now, FILE_MODE);
      NewLeaf(h, root, f, o);
      LinkKeepsTree(h[f := o], root, ParentOf(p), d, name, f);
  }

  lemma EditWalks(h: Heap, root: Node, e: Node, o: Obj, q: Path)
    requires e in h && h[e].File? && o.File?
    ensures Walk(h[e := o], root, q) == Walk(h, root, q)
  {
    WalkSame(h, h[e := o], root, q);
  }

  lemma EditView(h: Heap, root: Node, ep: Path, e: Node, o: Obj, q: Path)
    requires Tree(h, root) && e in h && h[e].File? && o.File? && Walk(h, root, ep) == Some(e)
    ensures View(h[e := o], root, q) == if q == ep then Some(EntryOf(o)) else View(h, root, q)
  {
    EditWalks(h, root, e, o, q);
  }

  lemma EditKeepsTree(h: Heap, root: Node, e: Node, o: Obj)
    requires Tree(h, root) && e in h && h[e].File? && o.File?
    ensures Tree(h[e := o], root)
  {
    var h' := h[e := o];
    forall p, q | Walk(h', root, p).Some? && Walk(h', root, p) == Walk(h', root, q)
      ensures p == q
    {
      EditWalks(h, root, e, o, p);
      EditWalks(h, root, e, o, q);
    }
  }

  // ---------------------------------------------------------- making directories

  /** Going down from the directory `n`. */
  ghost function MakeError(h: Heap, n: Node, p: Path, recursive: bool): Option<Error> {
    if p == [] then None
    else
      match Child(h, n, p[0])
      case None => if !recursive && |p| != 1 then Some(NotFound) else None
      case Some(c) => if c in h && h[c].Dir? then MakeError(h, c, p[1..], recursive) else Some(NotADirectory)
  }

  /** What a path shows once every directory on `b` is there. */
  ghost function MadeSoFar(h: Heap, root: Node, b: Path, now: int, q: Path): Option<Entry> {
    if q != [] && q <= b && View(h, root, q) == None then Some(DirEntry(now, DIR_MODE)) else View(h, root, q)
  }

  ghost predicate MadeUpTo(h: Heap, hi: Heap, root: Node, b: Path, now: int) {
    forall q :: View(hi, root, q) == MadeSoFar(h, root, b, now, q)
  }

  lemma NothingMade(h: Heap, root: Node, now: int)
    ensures MadeUpTo(h, h, root, [], now)
  {
  }

  /** Passing through a directory that is there. */
  lemma PassExisting(h: Heap, hi: Heap, root: Node, b: Path, name: string, now: int)
    requires Tree(hi, root) && MadeUpTo(h, hi, root, b, now) && Walk(hi, root, b + [name]).Some?
    ensures MadeUpTo(h, hi, root, b + [name], now)
  {
    var b1 := b + [name];
    WalkStays(hi, root, b1);
    assert View(hi, root, b1).Some? && View(hi, root, b1) == MadeSoFar(h, root, b, now, b1);
    forall q
      ensures View(hi, root, q) == MadeSoFar(h, root, b1, now, q)
    {
      assert View(hi, root, q) == MadeSoFar(h, root, b, now, q);
      assert q <= b1 <==> q <= b || q == b1 by {
        assert q <= b ==> q <= b1;
      }
    }
  }

  /** Adding a directory that is missing. */
  lemma AddMissing(h: Heap, hi: Heap, root: Node, b: Path, d: Node, name: string, f: Node, now: int)
    requires Tree(hi, root) && MadeUpTo(h, hi, root, b, now) && f !in hi
    requires Walk(hi, root, b) == Some(d) && d in hi && hi[d].Dir? && Child(hi, d, name) == None
    ensures var h2 := Link(hi[f := Dir(map[], now, DIR_MODE)], d, name, f);
            Tree(h2, root) && Walk(h2, root, b + [name]) == Some(f) && MadeUpTo(h, h2, root, b + [name], now)
  {
    var o := Dir(map[], now, DIR_MODE);
    var h1, b1 := hi[f := o], b + [name];
    var h2 := Link(h1, d, name, f);
    NewLeaf(hi, root, f, o);
    LinkKeepsTree(h1, root, b, d, name, f);
    LinkWalks(h1, root, b, d, name, f, b1);
    assert b1[|b| + 1..] == [];
    WalkSnoc(hi, root, b, name);
    assert View(hi, root, b1) == None && View(hi, root, b1) == MadeSoFar(h, root, b, now, b1);
    forall q
      ensures View(h2, root, q) == MadeSoFar(h, root, b1, now, q)
    {
      LinkLeafView(hi, root, b, d, name, f, o, q);
      assert View(hi, root, q) == MadeSoFar(h, root, b, now, q);
      assert q <= b1 <==> q <= b || q == b1 by {
        assert q <= b ==> q <= b1;
      }
    }
  }

  /** A file somewhere on the path. */
  ghost predicate FileOn(h: Heap, n: Node, p: Path) {
    exists k :: 1 <= k <= |p| && View(h, n, p[..k]).Some? && View(h, n, p[..k]).value.FileEntry?
  }

  /** Something missing before the end of the path. */
  ghost predicate GapOn(h: Heap, n: Node, p: Path) {
    exists k :: 1 <= k < |p| && View(h, n, p[..k]) == None
  }

  lemma ViewPrefix(h: Heap, n: Node, p: Path, k: nat)
    requires 1 <= k <= |p|
    ensures View(h, n, p[..k]) == match Child(h, n, p[0]) case None => None case Some(c) => View(h, c, p[1..][..k - 1])
  {
    assert p[..k][0] == p[0] && p[..k][1..] == p[1..][..k - 1];
  }

  lemma PathSteps(h: Heap, n: Node, p: Path)
    requires p != []
    ensures Child(h, n, p[0]) == None ==> !FileOn(h, n, p) && (GapOn(h, n, p) <==> |p| > 1)
    ensures Child(h, n, p[0]).Some? ==>
              var c := Child(h, n, p[0]).value;
              (c in h && h[c].File? ==> FileOn(h, n, p)) &&
              (c in h && h[c].Dir? ==>
                (FileOn(h, n, p) <==> FileOn(h, c, p[1..])) && (GapOn(h, n, p) <==> GapOn(h, c, p[1..])))
  {
    forall k | 1 <= k <= |p|
      ensures View(h, n, p[..k]) ==
              match Child(h, n, p[0]) case None => None case Some(c) => View(h, c, p[1..][..k - 1])
    {
      ViewPrefix(h, n, p, k);
    }
    match Child(h, n, p[0])
    case None =>
      assert |p| > 1 ==> View(h, n, p[..1]) == None;
    case Some(c) =>
      assert p[1..][..0] == [];
      assert c in h ==> View(h, n, p[..1]) == Some(EntryOf(h[c]));
      if c in h && h[c].Dir? {
        if k :| 1 <= k <= |p[1..]| && View(h, c, p[1..][..k]).Some? && View(h, c, p[1..][..k]).value.FileEntry? {
          assert View(h, n, p[..k + 1]) == View(h, c, p[1..][..k]);
        }
        if k :| 1 <= k < |p[1..]| && View(h, c, p[1..][..k]) == None {
          assert View(h, n, p[..k + 1]) == View(h, c, p[1..][..k]);
        }
      }
  }

  /** It is refused exactly when some part of the path is a file, or when missing
      parts are not wanted and one before the last is missing. */
  lemma {:induction false} MakeRefusedIff(h: Heap, n: Node, p: Path, recursive: bool)
    requires Closed(h) && n in h && h[n].Dir?
    ensures MakeError(h, n, p, recursive) == Some(NotADirectory) <==> FileOn(h, n, p)
    ensures MakeError(h, n, p, recursive).Some? <==> FileOn(h, n, p) || (!recursive && GapOn(h, n, p))
  {
    hide View, FileOn, GapOn;
    if p != [] {
      PathSteps(h, n, p);
      if Child(h, n, p[0]).Some? && h[Child(h, n, p[0]).value].Dir? {
        MakeRefusedIff(h, Child(h, n, p[0]).value, p[1..], recursive);
      }
    } else {
      NothingOnEmpty(h, n);
    }
  }

  lemma NothingOnEmpty(h: Heap, n: Node)
    ensures !FileOn(h, n, []) && !GapOn(h, n, [])
  {
  }

  // ------------------------------------------------------------------- removing

  ghost function RemoveError(h: Heap, root: Node, p: Path, recursive: bool): Option<Error> {
    match ParentAt(h, root, p)
    case None => Some(NotFound)
    case Some(d) =>
      match Child(h, d, NameOf(p))
      case None => Some(NotFound)
      case Some(c) => if c in h && h[c].Dir? && !recursive then Some(IsADirectory) else None
  }

  ghost function Removed(h: Heap, root: Node, p: Path): Heap
    requires ParentAt(h, root, p).Some?
  {
    Unlink(h, ParentAt(h, root, p).value, NameOf(p))
  }

  /** Removing drops a path with all that is below it, and nothing else. */
  lemma RemoveView(h: Heap, root: Node, p: Path, q: Path)
    requires Tree(h, root) && ParentAt(h, root, p).Some?
    ensures Tree(Removed(h, root, p), root)
    ensures View(Removed(h, root, p), root, q) == if Slot(p) <= q then None else View(h, root, q)
  {
    var d := ParentAt(h, root, p).value;
    UnlinkWalks(h, root, ParentOf(p), d, NameOf(p), q);
    UnlinkKeepsTree(h, root, ParentOf(p), d, NameOf(p));
  }

  // -------------------------------------------------------------------- cloning

  /** `m` is a separate tree below `c` that shows what `h` shows below `n`. */
  ghost predicate IsClone(h: Heap, n: Node, m: Heap, c: Node) {
    c in m && Closed(m) && Injective(m, c) && forall r :: View(m, c, r) == View(h, n, r)
  }

  /** Clones of some of the children, separate from one another. */
  ghost predicate IsForest(h: Heap, orig: map<string, Node>, m: Heap, done: map<string, Node>) {
    Closed(m) && done.Keys <= orig.Keys &&
    (forall s :: s in done ==> IsClone(h, orig[s], m, done[s])) &&
    forall s, t :: s in done && t in done && s != t ==> Apart(m, done[s], done[t])
  }

  lemma LeafIsClone(h: Heap, n: Node, c: Node, o: Obj)
    requires n in h && h[n].File? && o == h[n]
    ensures IsClone(h, n, map[c := o], c)
  {
    var m := map[c := o];
    assert forall r :: r != [] ==> Walk(m, c, r) == None && Walk(h, n, r) == None;
  }

  lemma CloneInBigger(h: Heap, n: Node, m: Heap, c: Node, m': Heap)
    requires IsClone(h, n, m, c) && Extends(m, m')
    ensures IsCloneBut(h, n, m', c)
  {
    forall r
      ensures Walk(m', c, r) == Walk(m, c, r) && View(m', c, r) == View(h, n, r)
    {
      WalkExtends(m, m', c, r);
    }
  }

  ghost predicate IsCloneBut(h: Heap, n: Node, m: Heap, c: Node) {
    c in m && Injective(m, c) && forall r :: View(m, c, r) == View(h, n, r)
  }

  /** One more clone, made of other objects. */
  lemma ForestGrows(h: Heap, orig: map<string, Node>, m: Heap, done: map<string, Node>, name: string, m1: Heap, c: Node)
    requires IsForest(h, orig, m, done) && name in orig && name !in done && IsClone(h, orig[name], m1, c) &&
             m.Keys !! m1.Keys
    ensures IsForest(h, orig, m + m1, done[name := c])
  {
    var m', done' := m + m1, done[name := c];
    assert Extends(m, m') && Extends(m1, m');
    hide View, Injective;
    CloneInBigger(h, orig[name], m1, c, m');
    forall s | s in done
      ensures IsCloneBut(h, orig[s], m', done[s])
    {
      CloneInBigger(h, orig[s], m, done[s], m');
    }
    forall s, t | s in done' && t in done' && s != t
      ensures Apart(m', done'[s], done'[t])
    {
      ApartInUnion(m, m1, done'[s], done'[t]);
    }
  }

  lemma ApartInUnion(m: Heap, m1: Heap, a: Node, b: Node)
    requires Closed(m) && Closed(m1) && m.Keys !! m1.Keys
    requires (a in m && b in m1) || (a in m1 && b in m) || (a in m && b in m && Apart(m, a, b))
    ensures Apart(m + m1, a, b)
  {
    var m' := m + m1;
    forall p, q | Walk(m', a, p).Some?
      ensures Walk(m', a, p) != Walk(m', b, q)
    {
      WalkInPart(m, m1, a, p);
      WalkInPart(m, m1, b, q);
    }
  }

  lemma WalkInPart(m: Heap, m1: Heap, a: Node, p: Path)
    requires Closed(m) && Closed(m1) && m.Keys !! m1.Keys && (a in m || a in m1)
    ensures a in m ==> Walk(m + m1, a, p) == Walk(m, a, p) && (Walk(m, a, p).Some? ==> Walk(m, a, p).value in m)
    ensures a in m1 ==> Walk(m + m1, a, p) == Walk(m1, a, p) && (Walk(m1, a, p).Some? ==> Walk(m1, a, p).value in m1)
  {
    if a in m {
      WalkExtends(m, m + m1, a, p);
      WalkStays(m, a, p);
    } else {
      WalkExtends(m1, m + m1, a, p);
      WalkStays(m1, a, p);
    }
  }

  /** A new directory over clones of all the children is a clone. */
  lemma ForestIsClone(h: Heap, n: Node, m: Heap, done: map<string, Node>, c: Node)
    requires n in h && h[n].Dir? && IsForest(h, h[n].children, m, done) && done.Keys == h[n].children.Keys && c !in m
    ensures IsClone(h, n, m[c := h[n].(children := done)], c)
  {
    var m' := m[c := h[n].(children := done)];
    forall r
      ensures View(m', c, r) == View(h, n, r)
    {
      if r != [] && r[0] in done {
        WalkExtends(m, m', done[r[0]], r[1..]);
        assert View(m, done[r[0]], r[1..]) == View(h, h[n].children[r[0]], r[1..]);
      }
    }
    forall p, q | Walk(m', c, p).Some? && Walk(m', c, p) == Walk(m', c, q)
      ensures p == q
    {
      if p != [] {
        WalkExtends(m, m', done[p[0]], p[1..]);
        WalkStays(m, done[p[0]], p[1..]);
      }
      if q != [] {
        WalkExtends(m, m', done[q[0]], q[1..]);
        WalkStays(m, done[q[0]], q[1..]);
      }
      if p != [] && q != [] {
        assert p[0] == q[0];
        assert p == [p[0]] + p[1..] && q == [q[0]] + q[1..];
      }
    }
  }

  // -------------------------------------------------------------------- copying

  /** Copying or moving to a directory goes into it. */
  ghost function Target(h: Heap, root: Node, src: Path, dest: Path): Path {
    if IsDirAt(h, root, dest) then dest + [NameOf(src)] else dest
  }

  ghost function CopyError(h: Heap, root: Node, src: Path, dest: Path, recursive: bool): Option<Error> {
    match Walk(h, root, src)
    case None => Some(NotFound)
    case Some(s) =>
      if s in h && h[s].Dir? && !recursive then Some(Omitting)
      else if ParentAt(h, root, dest) == None then Some(NoParent)
      else if src == [] && dest == [] then Some(StackOverflow)
      else None
  }

  /** The tree after a copy that made the clone `c` of objects `m`. A copy to the
      home directory also makes that directory its own child. */
  ghost function Copied(h: Heap, root: Node, src: Path, dest: Path, m: Heap, c: Node): Heap
    requires root in h && h[root].Dir? && h.Keys !! m.Keys
    requires IsDirAt(h, root, dest) || ParentAt(h, root, dest).Some?
  {
    var h0 := CopyBase(h, root, dest);
    var d := if IsDirAt(h, root, dest) then Walk(h, root, dest).value else ParentAt(h, root, dest).value;
    Link(h0 + m, d, if IsDirAt(h, root, dest) then NameOf(src) else NameOf(dest), c)
  }

  ghost function CopyBase(h: Heap, root: Node, dest: Path): Heap
    requires root in h && h[root].Dir?
  {
    if dest == [] then Link(h, root, HOME, root) else h
  }

  /** Tying the knot at the root does not touch what is below the source. */
  lemma SourceIsIntact(h: Heap, root: Node, src: Path, s: Node, dest: Path)
    requires Tree(h, root) && Walk(h, root, src) == Some(s) && (src != [] || dest != [])
    ensures var h0 := CopyBase(h, root, dest);
            h0.Keys == h.Keys && s in h0 && Closed(h0) && Injective(h0, s) &&
            forall r :: View(h0, s, r) == View(h, s, r)
  {
    var h0 := CopyBase(h, root, dest);
    WalkStays(h, root, src);
    InjectiveBelow(h, root, src, s);
    if dest == [] {
      ClosedAfterLink(h, root, HOME, root);
      forall r
        ensures Walk(h0, s, r) == Walk(h, s, r) && View(h0, s, r) == View(h, s, r)
      {
        forall k | 0 <= k <= |r|
          ensures Walk(h, s, r[..k]) != Some(root)
        {
          WalkConcat(h, root, src, r[..k]);
          assert Walk(h, root, []) == Some(root) && src + r[..k] != [];
        }
        PatchApart(h, h0, root, HOME, s, r);
      }
    }
  }

  lemma CloneOfSame(h: Heap, h0: Heap, n: Node, m: Heap, c: Node)
    requires IsClone(h0, n, m, c) && forall r :: View(h0, n, r) == View(h, n, r)
    ensures IsClone(h, n, m, c)
  {
  }

  lemma LinkSame(h: Heap, d: Node, name: string, c: Node)
    requires d in h && h[d].Dir? && Child(h, d, name) == Some(c)
    ensures Link(h, d, name, c) == h
  {
    var ch := h[d].children;
    assert ch[name := c] == ch;
  }

  /** The slot a directory is found in already holds it, unless it is the root's own. */
  lemma DestIsChild(h: Heap, root: Node, dest: Path)
    requires Tree(h, root) && IsDirAt(h, root, dest) && ParentAt(h, root, dest).Some?
    ensures Link(h, ParentAt(h, root, dest).value, NameOf(dest), Walk(h, root, dest).value) == CopyBase(h, root, dest)
  {
    if dest != [] {
      WalkSnoc(h, root, ParentOf(dest), NameOf(dest));
      assert dest == ParentOf(dest) + [NameOf(dest)];
      LinkSame(h, ParentAt(h, root, dest).value, NameOf(dest), Walk(h, root, dest).value);
    }
  }

  lemma UnionKeepsTree(h: Heap, root: Node, m: Heap, c: Node)
    requires Tree(h, root) && Closed(m) && c in m && Injective(m, c) && h.Keys !! m.Keys
    ensures Tree(h + m, root) && Apart(h + m, root, c) && Injective(h + m, c)
    ensures forall q :: Walk(h + m, root, q) == Walk(h, root, q) && View(h + m, root, q) == View(h, root, q)
    ensures forall r :: View(h + m, c, r) == View(m, c, r)
  {
    var h1 := h + m;
    assert Extends(h, h1) && Extends(m, h1);
    forall q
      ensures Walk(h1, root, q) == Walk(h, root, q) && View(h1, root, q) == View(h, root, q)
      ensures Walk(h1, root, q).Some? ==> Walk(h1, root, q).value in h
    {
      WalkExtends(h, h1, root, q);
      WalkStays(h, root, q);
    }
    forall r
      ensures Walk(h1, c, r) == Walk(m, c, r) && View(h1, c, r) == View(m, c, r)
      ensures Walk(h1, c, r).Some? ==> Walk(h1, c, r).value in m
    {
      WalkExtends(m, h1, c, r);
      WalkStays(m, c, r);
    }
  }

  lemma CopyLinks(h: Heap, root: Node, src: Path, dest: Path, recursive: bool, m: Heap, c: Node)
    requires Tree(h, root) && dest != [] && CopyError(h, root, src, dest, recursive) == None && h.Keys !! m.Keys
    ensures var e := Target(h, root, src, dest);
            e != [] && Walk(h, root, e[..|e| - 1]).Some? &&
            var d := Walk(h, root, e[..|e| - 1]).value;
            d in h && h[d].Dir? && (h + m)[d] == h[d] &&
            Copied(h, root, src, dest, m, c) == Link(h + m, d, e[|e| - 1], c)
  {
    hide Link;
  }

  /** A copy shows the source, as it was, below the target, and changes nothing
      else; this also holds when the target is inside the source. */
  lemma CopyView(h: Heap, root: Node, src: Path, dest: Path, recursive: bool, m: Heap, c: Node, q: Path)
    requires Tree(h, root) && dest != [] && CopyError(h, root, src, dest, recursive) == None
    requires h.Keys !! m.Keys && IsClone(h, Walk(h, root, src).value, m, c)
    ensures var h', e := Copied(h, root, src, dest, m, c), Target(h, root, src, dest);
            Tree(h', root) &&
            View(h', root, q) == if e <= q then View(h, root, src + q[|e|..]) else View(h, root, q)
  {
    hide Apart, Injective, Link, Target, Copied, Walk, View;
    var e := Target(h, root, src, dest);
    UnionKeepsTree(h, root, m, c);
    CopyLinks(h, root, src, dest, recursive, m, c);
    var dp, name := e[..|e| - 1], e[|e| - 1];
    var d := Walk(h, root, dp).value;
    assert dp + [name] == e;
    LinkWalks(h + m, root, dp, d, name, c, q);
    LinkKeepsTree(h + m, root, dp, d, name, c);
    if e <= q {
      ViewBelow(h, root, src, Walk(h, root, src).value, q[|e|..]);
    }
  }

  /** Copying to the home directory itself ties a knot: the tree is a tree
      afterwards exactly when the destination is another. */
  lemma CopyKeepsTreeIff(h: Heap, root: Node, src: Path, dest: Path, recursive: bool, m: Heap, c: Node)
    requires Tree(h, root) && Clean(src) && CopyError(h, root, src, dest, recursive) == None
    requires h.Keys !! m.Keys && IsClone(h, Walk(h, root, src).value, m, c)
    ensures Tree(Copied(h, root, src, dest, m, c), root) <==> dest != []
  {
    if dest != [] {
      CopyView(h, root, src, dest, recursive, m, c, []);
    } else {
      var h' := Copied(h, root, src, dest, m, c);
      assert IsName(NameOf(src));
      assert Child(h', root, HOME) == Some(root);
      assert [HOME][1..] == [];
      assert Walk(h', root, [HOME]) == Some(root) == Walk(h', root, []);
      assert [HOME] != [];
    }
  }

  // --------------------------------------------------------------------- moving

  ghost function MoveError(h: Heap, root: Node, src: Path, dest: Path): Option<Error> {
    if Walk(h, root, src) == None then Some(NotFound)
    else if ParentAt(h, root, src) == None then Some(NoParent)
    else if !IsDirAt(h, root, dest) && ParentAt(h, root, dest) == None then Some(NoParent)
    else None
  }

  ghost function MoveInto(h: Heap, root: Node, dest: Path): Node
    requires IsDirAt(h, root, dest) || ParentAt(h, root, dest).Some?
  {
    if IsDirAt(h, root, dest) then Walk(h, root, dest).value else ParentAt(h, root, dest).value
  }

  ghost function MoveName(h: Heap, root: Node, src: Path, dest: Path): string {
    if IsDirAt(h, root, dest) then NameOf(src) else NameOf(dest)
  }

  /** Linked in the new place first, then unlinked from the old. */
  ghost function Moved(h: Heap, root: Node, src: Path, dest: Path): Heap
    requires MoveError(h, root, src, dest) == None
  {
    var s, sd := Walk(h, root, src).value, ParentAt(h, root, src).value;
    Unlink(Link(h, MoveInto(h, root, dest), MoveName(h, root, src, dest), s), sd, NameOf(src))
  }

  lemma MoveSlot(h: Heap, root: Node, src: Path, dest: Path)
    requires Tree(h, root) && MoveError(h, root, src, dest) == None
    ensures var e := Target(h, root, src, dest);
            e != [] && e[|e| - 1] == MoveName(h, root, src, dest) &&
            Walk(h, root, e[..|e| - 1]) == Some(MoveInto(h, root, dest))
  {
  }

  lemma LinkUnlinkCommute(h: Heap, d: Node, name: string, s: Node, sd: Node, sname: string)
    requires d in h && h[d].Dir? && sd in h && h[sd].Dir? && (d != sd || name != sname)
    ensures Unlink(Link(h, d, name, s), sd, sname) == Link(Unlink(h, sd, sname), d, name, s)
  {
    if d == sd {
      var ch := h[d].children;
      assert ch[name := s] - {sname} == (ch - {sname})[name := s];
    }
  }

  lemma UnlinkAfterLink(h: Heap, d: Node, name: string, s: Node)
    requires d in h && h[d].Dir?
    ensures Unlink(Link(h, d, name, s), d, name) == Unlink(h, d, name)
  {
    var ch := h[d].children;
    assert ch[name := s] - {name} == ch - {name};
  }

  /** A move is an unlink and a link of a part that stands alone in between. */
  lemma MoveRelinks(h: Heap, root: Node, src: Path, dest: Path)
    requires Tree(h, root) && src != [] && MoveError(h, root, src, dest) == None
    requires !(src <= Target(h, root, src, dest))
    ensures var s, sd, d := Walk(h, root, src).value, ParentAt(h, root, src).value, MoveInto(h, root, dest);
            var h1, e := Unlink(h, sd, NameOf(src)), Target(h, root, src, dest);
            e != [] && Tree(h1, root) && Walk(h1, root, e[..|e| - 1]) == Some(d) && d in h1 && h1[d].Dir? &&
            s in h1 && Apart(h1, root, s) && Injective(h1, s) &&
            Moved(h, root, src, dest) == Link(h1, d, e[|e| - 1], s)
  {
    hide Injective, Apart, Link, Unlink;
    var e := Target(h, root, src, dest);
    var s, sd := Walk(h, root, src).value, ParentAt(h, root, src).value;
    var d, name := MoveInto(h, root, dest), MoveName(h, root, src, dest);
    MoveSlot(h, root, src, dest);
    SameSlot(h, root, src, e);
    LinkUnlinkCommute(h, d, name, s, sd, NameOf(src));
    SourceChild(h, root, src);
    Detached(h, root, ParentOf(src), sd, NameOf(src), s);
    UnlinkKeepsTree(h, root, ParentOf(src), sd, NameOf(src));
    UnlinkWalks(h, root, ParentOf(src), sd, NameOf(src), e[..|e| - 1]);
    ShorterIsOutside(src, e);
    DirStaysDir(h, sd, NameOf(src), d);
  }

  /** Moving takes the whole subtree along, as long as the target is neither the
      source nor inside it; everything else stays, but for what was in the way. */
  lemma MoveView(h: Heap, root: Node, src: Path, dest: Path, q: Path)
    requires Tree(h, root) && src != [] && MoveError(h, root, src, dest) == None
    requires !(src <= Target(h, root, src, dest))
    ensures var h', e := Moved(h, root, src, dest), Target(h, root, src, dest);
            Tree(h', root) &&
            View(h', root, q) ==
            if e <= q then View(h, root, src + q[|e|..]) else if src <= q then None else View(h, root, q)
  {
    hide Injective, Apart, Link, Unlink, Target, Moved, MoveInto, Walk;
    var e := Target(h, root, src, dest);
    MoveRelinks(h, root, src, dest);
    var s, sd, d := Walk(h, root, src).value, ParentAt(h, root, src).value, MoveInto(h, root, dest);
    var h1, dp, name := Unlink(h, sd, NameOf(src)), e[..|e| - 1], e[|e| - 1];
    LinkWalks(h1, root, dp, d, name, s, q);
    LinkKeepsTree(h1, root, dp, d, name, s);
    UnlinkWalks(h, root, ParentOf(src), sd, NameOf(src), q);
    assert dp + [name] == e && ParentOf(src) + [NameOf(src)] == src;
    SourceChild(h, root, src);
    Detached(h, root, ParentOf(src), sd, NameOf(src), s);
    if e <= q {
      ViewBelow(h, root, src, s, q[|e|..]);
    }
  }

  lemma ViewBelow(h: Heap, root: Node, p: Path, n: Node, r: Path)
    requires Walk(h, root, p) == Some(n)
    ensures View(h, root, p + r) == View(h, n, r)
  {
    WalkConcat(h, root, p, r);
  }

  lemma SourceChild(h: Heap, root: Node, src: Path)
    requires src != [] && Walk(h, root, src).Some? && ParentAt(h, root, src).Some?
    ensures Child(h, ParentAt(h, root, src).value, NameOf(src)) == Walk(h, root, src)
  {
    WalkSnoc(h, root, ParentOf(src), NameOf(src));
    assert src == ParentOf(src) + [NameOf(src)];
  }

  lemma ShorterIsOutside(src: Path, e: Path)
    requires src != [] && e != [] && !(src <= e)
    ensures !(ParentOf(src) + [NameOf(src)] <= e[..|e| - 1])
  {
    assert ParentOf(src) + [NameOf(src)] == src;
  }

  lemma DirStaysDir(h: Heap, sd: Node, name: string, d: Node)
    requires sd in h && h[sd].Dir? && d in h && h[d].Dir?
    ensures d in Unlink(h, sd, name) && Unlink(h, sd, name)[d].Dir?
  {
  }

  /** Different paths are different slots. */
  lemma SameSlot(h: Heap, root: Node, src: Path, e: Path)
    requires Tree(h, root) && src != [] && e != []
    requires Walk(h, root, ParentOf(src)).Some? && Walk(h, root, e[..|e| - 1]).Some?
    ensures Walk(h, root, ParentOf(src)) == Walk(h, root, e[..|e| - 1]) && NameOf(src) == e[|e| - 1] <==> src == e
  {
    assert src == ParentOf(src) + [NameOf(src)] && e == e[..|e| - 1] + [e[|e| - 1]];
  }

  /** Otherwise the subtree is lost, and only it. */
  lemma MoveIntoItselfLoses(h: Heap, root: Node, src: Path, dest: Path, q: Path)
    requires Tree(h, root) && src != [] && MoveError(h, root, src, dest) == None
    requires src <= Target(h, root, src, dest)
    ensures var h' := Moved(h, root, src, dest);
            Tree(h', root) && View(h', root, q) == if src <= q then None else View(h, root, q)
  {
    hide Injective, Apart, Link, Unlink;
    var e := Target(h, root, src, dest);
    var s, sd := Walk(h, root, src).value, ParentAt(h, root, src).value;
    var d, name := MoveInto(h, root, dest), MoveName(h, root, src, dest);
    MoveSlot(h, root, src, dest);
    SameSlot(h, root, src, e);
    assert ParentOf(src) + [NameOf(src)] == src;
    UnlinkWalks(h, root, ParentOf(src), sd, NameOf(src), q);
    UnlinkKeepsTree(h, root, ParentOf(src), sd, NameOf(src));
    if src == e {
      UnlinkAfterLink(h, d, name, s);
    } else {
      LinkUnlinkCommute(h, d, name, s, sd, NameOf(src));
      SourceChild(h, root, src);
      Detached(h, root, ParentOf(src), sd, NameOf(src), s);
      var h1, dp := Unlink(h, sd, NameOf(src)), e[..|e| - 1];
      assert src <= dp && dp == src + dp[|src|..];
      WalkConcat(h, root, src, dp[|src|..]);
      DirStaysDir(h, sd, NameOf(src), d);
      LinkElsewhere(h1, root, s, dp[|src|..], d, name, q);
    }
  }

  /** Linking inside a part that the root cannot reach is not noticed. */
  lemma LinkElsewhere(h: Heap, root: Node, s: Node, p: Path, d: Node, name: string, q: Path)
    requires Tree(h, root) && Apart(h, root, s) && s in h && Walk(h, s, p) == Some(d) && d in h && h[d].Dir?
    ensures var h' := Link(h, d, name, s);
            Tree(h', root) && View(h', root, q) == View(h, root, q)
  {
    var h' := Link(h, d, name, s);
    ClosedAfterLink(h, d, name, s);
    forall a
      ensures Walk(h', root, a) == Walk(h, root, a) && View(h', root, a) == View(h, root, a)
    {
      assert forall k :: 0 <= k <= |a| ==> Walk(h, root, a[..k]) != Some(d);
      PatchApart(h, h', d, name, root, a);
    }
    forall a, b | Walk(h', root, a).Some? && Walk(h', root, a) == Walk(h', root, b)
      ensures a == b
    {
      assert Walk(h, root, a) == Walk(h, root, b);
    }
  }

  /** Moving the home directory anywhere but onto itself ties a knot. */
  lemma MoveHomeKeepsTreeIff(h: Heap, root: Node, dest: Path)
    requires Tree(h, root) && Clean(dest) && MoveError(h, root, [], dest) == None
    ensures Tree(Moved(h, root, [], dest), root) <==> dest == []
  {
    var d, name := MoveInto(h, root, dest), MoveName(h, root, [], dest);
    var h' := Moved(h, root, [], dest);
    MoveSlot(h, root, [], dest);
    var e := Target(h, root, [], dest);
    var dp := e[..|e| - 1];
    assert Walk(h, root, []) == Some(root);
    if dest == [] {
      UnlinkAfterLink(h, root, HOME, root);
      UnlinkKeepsTree(h, root, [], root, HOME);
    } else {
      assert dp != [] || name != HOME;
      assert d == root ==> dp == [];
      assert IsName(dest[0]) && (dp != [] ==> dp[0] == dest[0]);
      assert !([HOME] <= dp);
      LinkUnlinkCommute(h, d, name, root, root, HOME);
      KnotIsNoTree(h, root, dp, d, name);
    }
  }

  lemma KnotIsNoTree(h: Heap, root: Node, dp: Path, d: Node, name: string)
    requires Tree(h, root) && Walk(h, root, dp) == Some(d) && d in h && h[d].Dir? && !([HOME] <= dp)
    ensures var h1 := Unlink(h, root, HOME);
            d in h1 && h1[d].Dir? && !Tree(Link(h1, d, name, root), root)
  {
    var h1 := Unlink(h, root, HOME);
    assert Walk(h, root, []) == Some(root) && [] + [HOME] == [HOME];
    UnlinkWalks(h, root, [], root, HOME, dp);
    UnlinkKeepsTree(h, root, [], root, HOME);
    DirStaysDir(h, root, HOME, d);
    var h' := Link(h1, d, name, root);
    ClosedAfterLink(h1, d, name, root);
    PatchElsewhere(h1, h', root, dp, d, name, dp);
    WalkSnoc(h', root, dp, name);
    assert Walk(h', root, dp + [name]) == Some(root) == Walk(h', root, []);
    assert dp + [name] != [];
  }
}
