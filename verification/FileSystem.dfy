/** The simulated file system: objects that are changed in place, and what every
    path shows before and after each operation. */
module FileSystem {
  import opened Common
  import opened Text
  import opened Paths
  import opened FileTree
  import opened FileOps

  ghost function Snapshot(ns: set<Node>): (h: Heap)
    reads ns
    ensures h.Keys == ns
  {
    map n | n in ns :: n.Value()
  }

  // -------------------------------------------------------------------- cloning

  lemma Below(h: Heap, top: Node, p: Path, n: Node)
    requires top in h && Closed(h) && Injective(h, top) && Walk(h, top, p) == Some(n)
    ensures n in h && |p| < |h.Keys|
    ensures h[n].Dir? ==> forall name :: name in h[n].children ==> Walk(h, top, p + [name]) == Some(h[n].children[name])
  {
    DepthBound(h, top, p);
    WalkStays(h, top, p);
    forall name
      ensures Walk(h, top, p + [name]) == Child(h, n, name)
    {
      WalkSnoc(h, top, p, name);
    }
  }

  /** A copy of everything below `n`, made of new objects only. The path `p` from
      `top` to `n` bounds the depth of the recursion. */
  method CloneNode(n: Node, ghost base: set<Node>, ghost top: Node, ghost p: Path)
    returns (c: Node, ghost made: set<Node>)
    requires top in base && Closed(Snapshot(base)) && Injective(Snapshot(base), top)
    requires Walk(Snapshot(base), top, p) == Some(n)
    ensures fresh(made) && IsClone(Snapshot(base), n, Snapshot(made), c)
    decreases |base| - |p|, 1
  {
    Below(Snapshot(base), top, p, n);
    if !n.isDir {
      c, made := CloneFile(n, base);
    } else {
      var children, below := CloneChildren(n, base, top, p);
      c, made := CloneDir(n, base, children, below);
    }
  }

  method CloneFile(n: Node, ghost base: set<Node>) returns (c: Node, ghost made: set<Node>)
    requires n in base && !n.isDir
    ensures fresh(made) && IsClone(Snapshot(base), n, Snapshot(made), c)
  {
    ghost var h := Snapshot(base);
    c := new Node.MakeFile(n.content, n.mtime, n.mode);
    made := {c};
    LeafIsClone(h, n, c, n.Value());
    assert Snapshot(made) == map[c := n.Value()];
    assert Snapshot(base) == h;
  }

  method CloneDir(n: Node, ghost base: set<Node>, children: map<string, Node>, ghost below: set<Node>)
    returns (c: Node, ghost made: set<Node>)
    requires n in base && n.isDir && children.Keys == n.children.Keys
    requires IsForest(Snapshot(base), n.children, Snapshot(below), children)
    ensures fresh(made - below) && IsClone(Snapshot(base), n, Snapshot(made), c)
  {
    ghost var h, m := Snapshot(base), Snapshot(below);
    c := new Node.MakeDir(children, n.mtime, n.mode);
    ForestIsClone(h, n, m, children, c);
    made := below + {c};
    ghost var whole: Heap := m[c := h[n].(children := children)];
    assert whole == Snapshot(made);
    assert Snapshot(base) == h;
  }

  method CloneChildren(n: Node, ghost base: set<Node>, ghost top: Node, ghost p: Path)
    returns (children: map<string, Node>, ghost made: set<Node>)
    requires top in base && Closed(Snapshot(base)) && Injective(Snapshot(base), top)
    requires Walk(Snapshot(base), top, p) == Some(n) && n in base && n.isDir && |p| < |base|
    ensures fresh(made) && children.Keys == n.children.Keys
    ensures IsForest(Snapshot(base), n.children, Snapshot(made), children)
    decreases |base| - |p|, 0
  {
    hide Walk, Injective, Closed, IsForest, IsClone;
    ghost var h := Snapshot(base);
    children := map[];
    var remaining := n.children.Keys;
    made := {};
    EmptyForest(h, n.children);
    ghost var m: Heap := Snapshot(made);
    assert m == map[];
    while remaining != {}
      invariant fresh(made) && remaining <= n.children.Keys && children.Keys == n.children.Keys - remaining
      invariant m == Snapshot(made) && h == Snapshot(base) && IsForest(h, n.children, m, children)
      decreases remaining
    {
      var name :| name in remaining;
      remaining := remaining - {name};
      Below(h, top, p, n);
      var child, part := CloneNode(n.children[name], base, top, p + [name]);
      assert Snapshot(base) == h;
      ghost var clone := Snapshot(part);
      ForestGrows(h, n.children, m, children, name, clone, child);
      children := children[name := child];
      made := made + part;
      m := m + clone;
      assert m == Snapshot(made);
    }
  }

  lemma EmptyForest(h: Heap, orig: map<string, Node>)
    ensures IsForest(h, orig, map[], map[])
  {
  }

  class FileSystem {
    const root: Node
    ghost var nodes: set<Node>

    ghost predicate Valid()
      reads this, nodes
    {
      Tree(Snapshot(nodes), root)
    }

    ghost function Shows(q: Path): Option<Entry>
      reads this, nodes
    {
      View(Snapshot(nodes), root, q)
    }

    constructor ()
      ensures Valid() && fresh(nodes)
      ensures forall q :: Shows(q) == if q == [] then Some(DirEntry(0, DIR_MODE)) else None
    {
      root := new Node.MakeDir(map[], 0, DIR_MODE);
      nodes := {root};
      new;
      var h := Snapshot(nodes);
      assert h[root] == Dir(map[], 0, DIR_MODE);
      assert forall q :: q != [] ==> Walk(h, root, q) == None;
    }

    // ------------------------------------------------------------------- lookup

    method GetNode(path: string, ghost p: Path) returns (node: Option<Node>)
      requires Valid() && Clean(p) && path == PathOf(p)
      ensures node == Walk(Snapshot(nodes), root, p)
      ensures node.Some? ==> node.value in nodes
    {
      ghost var h := Snapshot(nodes);
      var parts := SplitPath(path);
      SplitPathOf(p);
      if |parts| == 0 || parts[0] != HOME {
        return None;
      }
      assert parts[1..] == p && p[0..] == p;
      var current := root;
      for i := 1 to |parts|
        invariant current in nodes && Walk(h, current, p[i - 1..]) == Walk(h, root, p)
      {
        assert p[i - 1..] != [] && p[i - 1..][0] == parts[i] && p[i - 1..][1..] == p[i..];
        assert h[current] == current.Value();
        if !current.isDir {
          return None;
        }
        if parts[i] !in current.children {
          return None;
        }
        assert Child(h, current, parts[i]) == Some(current.children[parts[i]]);
        current := current.children[parts[i]];
      }
      assert p[|p|..] == [];
      node := Some(current);
    }

    method GetParent(path: string, ghost p: Path) returns (parent: Option<Node>, name: string)
      requires Valid() && Clean(p) && path == PathOf(p)
      ensures parent == ParentAt(Snapshot(nodes), root, p) && name == NameOf(p)
    {
      var parts := SplitPath(path);
      SplitPathOf(p);
      name := parts[|parts| - 1];
      parts := parts[..|parts| - 1];
      assert p != [] ==> parts == [HOME] + ParentOf(p);
      EmptyPath();
      var parentPath := if parts != [] then Join(parts, '/') else HOME;
      assert parentPath == PathOf(ParentOf(p));
      parent := GetNode(parentPath, ParentOf(p));
      if parent.Some? {
        assert Snapshot(nodes)[parent.value] == parent.value.Value();
      }
      if parent.Some? && !parent.value.isDir {
        parent := None;
      }
    }

    /** Looks a name up in a directory's children. */
    method Lookup(d: Node, name: string) returns (child: Option<Node>)
      requires Valid() && d in nodes && d.isDir
      ensures child == Child(Snapshot(nodes), d, name)
      ensures child.Some? ==> child.value in nodes && Snapshot(nodes)[child.value] == child.value.Value()
    {
      ghost var h := Snapshot(nodes);
      assert h[d] == d.Value();
      child := if name in d.children then Some(d.children[name]) else None;
      if child.Some? {
        assert h[child.value] == child.value.Value();
      }
    }

    // ------------------------------------------------------------ single changes

    method PutChild(d: Node, name: string, c: Node)
      requires d in nodes && d.isDir
      modifies d
      ensures Snapshot(nodes) == Link(old(Snapshot(nodes)), d, name, c)
    {
      d.children := d.children[name := c];
    }

    method DropChild(d: Node, name: string)
      requires d in nodes && d.isDir
      modifies d
      ensures Snapshot(nodes) == Unlink(old(Snapshot(nodes)), d, name)
    {
      d.children := d.children - {name};
    }

    method ChangeFile(f: Node, content: string, append: bool, now: int)
      requires f in nodes && !f.isDir
      modifies f
      ensures var was := old(f.Value());
              Snapshot(nodes) ==
                old(Snapshot(nodes))[f := File(if append then was.content + content else content, now, was.mode)]
    {
      f.content := if append then f.content + content else content;
      f.mtime := now;
    }

    method AddFile(content: string, now: int) returns (f: Node)
      modifies this`nodes
      ensures fresh(f) && nodes == old(nodes) + {f} && !f.isDir
      ensures Snapshot(nodes) == old(Snapshot(nodes))[f := File(content, now, FILE_MODE)]
    {
      f := new Node.MakeFile(content, now, FILE_MODE);
      nodes := nodes + {f};
    }

    method AddDir(now: int) returns (d: Node)
      modifies this`nodes
      ensures fresh(d) && nodes == old(nodes) + {d} && d.isDir
      ensures Snapshot(nodes) == old(Snapshot(nodes))[d := Dir(map[], now, DIR_MODE)]
    {
      d := new Node.MakeDir(map[], now, DIR_MODE);
      nodes := nodes + {d};
    }

    // ------------------------------------------------------------------ writing

    method WriteFile(path: string, ghost p: Path, content: string, append: bool, now: int) returns (err: Option<Error>)
      requires Valid() && Clean(p) && path == PathOf(p)
      modifies this`nodes, nodes
      ensures Valid() && fresh(nodes - old(nodes))
      ensures err == WriteError(old(Snapshot(nodes)), root, p)
      ensures forall q :: Shows(q) ==
                if err.None? && q == Slot(p)
                then Some(WrittenEntry(old(Snapshot(nodes)), root, p, content, append, now)) else old(Shows(q))
    {
      hide Walk, Injective, View, Tree, WrittenEntry;
      ghost var h := Snapshot(nodes);
      err := None;
      var parent, name := GetParent(path, p);
      if parent.None? {
        return Some(NoParent);
      }
      var d := parent.value;
      var existing := Lookup(d, name);
      if existing.Some? && existing.value.isDir {
        return Some(IsADirectory);
      }
      if existing.Some? {
        ChangeFile(existing.value, content, append, now);
        assert Snapshot(nodes) == Written(h, root, p, content, append, now, root);
        WriteShows(h, p, content, append, now, root);
      } else {
        var f := AddFile(content, now);
        PutChild(d, name, f);
        assert Snapshot(nodes) == Written(h, root, p, content, append, now, f);
        WriteShows(h, p, content, append, now, f);
      }
    }

    lemma WriteShows(h: Heap, p: Path, content: string, append: bool, now: int, f: Node)
      requires Tree(h, root) && WriteError(h, root, p) == None && (IsNew(h, root, p) ==> f !in h)
      requires Snapshot(nodes) == Written(h, root, p, content, append, now, f)
      ensures Valid()
      ensures forall q :: Shows(q) ==
                if q == Slot(p) then Some(WrittenEntry(h, root, p, content, append, now)) else View(h, root, q)
    {
      WriteKeepsTree(h, root, p, content, append, now, f);
      forall q
        ensures Shows(q) ==
                if q == Slot(p) then Some(WrittenEntry(h, root, p, content, append, now)) else View(h, root, q)
      {
        WriteView(h, root, p, content, append, now, f, q);
      }
    }

    // -------------------------------------------------------- making directories

    method AddSubDir(d: Node, name: string, now: int, ghost h: Heap, ghost b: Path) returns (made: Node)
      requires Valid() && d in nodes && d.isDir && MadeUpTo(h, Snapshot(nodes), root, b, now)
      requires Walk(Snapshot(nodes), root, b) == Some(d) && Child(Snapshot(nodes), d, name) == None
      modifies this`nodes, d
      ensures Valid() && fresh(made) && nodes == old(nodes) + {made} && made.isDir && made.children == map[]
      ensures Walk(Snapshot(nodes), root, b + [name]) == Some(made) &&
              MadeUpTo(h, Snapshot(nodes), root, b + [name], now)
    {
      hide View, Walk, MadeUpTo, Injective;
      ghost var hi := Snapshot(nodes);
      made := AddDir(now);
      PutChild(d, name, made);
      AddMissing(h, hi, root, b, d, name, made, now);
    }

    method MakeDirAt(path: string, ghost p: Path, recursive: bool, now: int) returns (err: Option<Error>)
      requires Valid() && Clean(p) && path == PathOf(p)
      modifies this`nodes, nodes
      ensures Valid() && fresh(nodes - old(nodes))
      ensures err == MakeError(old(Snapshot(nodes)), root, p, recursive)
      ensures err.Some? ==> Snapshot(nodes) == old(Snapshot(nodes))
      ensures forall q :: Shows(q) ==
                if err.None? && q != [] && q <= p && old(Shows(q)) == None then Some(DirEntry(now, DIR_MODE))
                else old(Shows(q))
    {
      hide Injective, View, Walk, MadeUpTo, MadeSoFar, Tree, NonEmpty, Split, Join;
      ghost var h := Snapshot(nodes);
      var parts := SplitPath(path);
      SplitPathOf(p);
      var node := root;
      ghost var created := false;
      assert p[0..] == p && p[..0] == [];
      NothingMade(h, root, now);
      HomeIsRoot(h);
      for i := 1 to |parts|
        invariant Valid() && fresh(nodes - old(nodes))
        invariant node in nodes && node.isDir && Walk(Snapshot(nodes), root, p[..i - 1]) == Some(node)
        invariant MadeUpTo(h, Snapshot(nodes), root, p[..i - 1], now)
        invariant !created ==>
                    Snapshot(nodes) == h &&
                    MakeError(h, root, p, recursive) == MakeError(h, node, p[i - 1..], recursive)
        invariant created ==>
                    node.children == map[] && MakeError(h, root, p, recursive) == None && (recursive || i == |parts|)
      {
        var name := parts[i];
        assert p[i - 1..][0] == name && p[i - 1..][1..] == p[i..] && p[..i - 1] + [name] == p[..i];
        var existing := Lookup(node, name);
        WalkSnoc(Snapshot(nodes), root, p[..i - 1], name);
        if existing.None? {
          if !recursive && i != |parts| - 1 {
            return Some(NotFound);
          }
          node := AddSubDir(node, name, now, h, p[..i - 1]);
          created := true;
        } else {
          if !existing.value.isDir {
            return Some(NotADirectory);
          }
          PassExisting(h, Snapshot(nodes), root, p[..i - 1], name, now);
          node := existing.value;
        }
      }
      assert p[..|p|] == p;
      MadeShows(h, p, now);
      err := None;
    }

    lemma HomeIsRoot(h: Heap)
      requires Tree(h, root)
      ensures Walk(h, root, []) == Some(root) && root in h && (Snapshot(nodes) == h ==> root in nodes && root.isDir)
    {
    }

    lemma MadeShows(h: Heap, p: Path, now: int)
      requires MadeUpTo(h, Snapshot(nodes), root, p, now)
      ensures forall q :: Shows(q) ==
                if q != [] && q <= p && View(h, root, q) == None then Some(DirEntry(now, DIR_MODE))
                else View(h, root, q)
    {
      assert forall q :: Shows(q) == View(Snapshot(nodes), root, q);
    }

    // ----------------------------------------------------------------- removing

    method RemoveNode(path: string, ghost p: Path, recursive: bool) returns (err: Option<Error>)
      requires Valid() && Clean(p) && path == PathOf(p)
      modifies nodes
      ensures Valid()
      ensures err == RemoveError(old(Snapshot(nodes)), root, p, recursive)
      ensures forall q :: Shows(q) == if err.None? && Slot(p) <= q then None else old(Shows(q))
    {
      hide View, Walk, Injective;
      ghost var h := Snapshot(nodes);
      err := None;
      var parent, name := GetParent(path, p);
      if parent.None? {
        return Some(NotFound);
      }
      var node := Lookup(parent.value, name);
      if node.None? {
        return Some(NotFound);
      }
      if node.value.isDir && !recursive {
        return Some(IsADirectory);
      }
      DropChild(parent.value, name);
      RemoveView(h, root, p, []);
      forall q
        ensures Shows(q) == if Slot(p) <= q then None else View(h, root, q)
      {
        RemoveView(h, root, p, q);
      }
    }

    // ------------------------------------------------------------------ copying

    /** The last part of a resolved path. */
    method LastPart(path: string, ghost p: Path, name: string) returns (last: string)
      requires Clean(p) && path == PathOf(p)
      ensures last == NameOf(p)
    {
      var parts := Split(path, '/');
      SplitPathOf(p);
      assert p != [] ==> IsName(p[|p| - 1]);
      last := if parts[|parts| - 1] != "" then parts[|parts| - 1] else name;
    }

    /** A copy of the home directory into itself never ends: the directory is
        made its own child before it is cloned. */
    method CopyNode(src: string, ghost sp: Path, dest: string, ghost dp: Path, recursive: bool)
      returns (err: Option<Error>)
      requires Valid() && Clean(sp) && src == PathOf(sp) && Clean(dp) && dest == PathOf(dp)
      modifies this`nodes, nodes
      ensures fresh(nodes - old(nodes))
      ensures err == CopyError(old(Snapshot(nodes)), root, sp, dp, recursive)
      ensures err.Some? && err != Some(StackOverflow) ==> Snapshot(nodes) == old(Snapshot(nodes))
      ensures Valid() <==> (err.Some? && err != Some(StackOverflow)) || dp != []
      ensures err.None? && dp != [] ==>
                var e := Target(old(Snapshot(nodes)), root, sp, dp);
                forall q :: Shows(q) == if e <= q then old(Shows(sp + q[|e|..])) else old(Shows(q))
    {
      hide View, Walk, Injective, Closed;
      ghost var h := Snapshot(nodes);
      err := None;
      var srcNode := GetNode(src, sp);
      if srcNode.None? {
        return Some(NotFound);
      }
      if srcNode.value.isDir && !recursive {
        return Some(Omitting);
      }
      var destNode := GetNode(dest, dp);
      var parent, name := GetParent(dest, dp);
      if parent.None? {
        return Some(NoParent);
      }
      IsHome(h, sp);
      IsHome(h, dp);
      var into := destNode.Some? && destNode.value.isDir;
      if into {
        PutChild(parent.value, name, destNode.value);
        DestIsChild(h, root, dp);
        if destNode.value == root && srcNode.value == root {
          HomeKnot(h);
          return Some(StackOverflow);
        }
      }
      assert Snapshot(nodes) == CopyBase(h, root, dp);
      var last := LastPart(src, sp, name);
      Paste(srcNode.value, if into then destNode.value else parent.value, if into then last else name,
            h, sp, dp, recursive);
    }

    /** Clones the node and hangs the clone in the given slot. */
    method Paste(n: Node, d: Node, name: string, ghost h: Heap, ghost sp: Path, ghost dp: Path, ghost recursive: bool)
      requires Tree(h, root) && Clean(sp) && CopyError(h, root, sp, dp, recursive) == None &&
               Walk(h, root, sp) == Some(n)
      requires Snapshot(nodes) == CopyBase(h, root, dp) && d in nodes && d.isDir
      requires d == if IsDirAt(h, root, dp) then Walk(h, root, dp).value else ParentAt(h, root, dp).value
      requires name == if IsDirAt(h, root, dp) then NameOf(sp) else NameOf(dp)
      modifies this`nodes, d
      ensures fresh(nodes - old(nodes)) && (Valid() <==> dp != [])
      ensures dp != [] ==>
                var e := Target(h, root, sp, dp);
                forall q :: Shows(q) == if e <= q then View(h, root, sp + q[|e|..]) else View(h, root, q)
    {
      hide View, Walk, Injective, Closed, Target, IsClone;
      var clone := AddClone(n, h, sp, dp);
      ghost var m := Snapshot(nodes - old(nodes));
      PutChild(d, name, clone);
      assert Snapshot(nodes) == Copied(h, root, sp, dp, m, clone);
      CopyShows(h, sp, dp, recursive, m, clone);
    }

    lemma IsHome(h: Heap, p: Path)
      requires Tree(h, root)
      ensures Walk(h, root, p) == Some(root) <==> p == []
    {
      assert Walk(h, root, []) == Some(root);
    }

    lemma HomeKnot(h: Heap)
      requires Tree(h, root)
      ensures !Tree(CopyBase(h, root, []), root)
    {
      var h' := CopyBase(h, root, []);
      assert Child(h', root, HOME) == Some(root) && [HOME][1..] == [];
      assert Walk(h', root, [HOME]) == Some(root) == Walk(h', root, []);
    }

    /** Adds a clone of a node to the objects, not yet linked anywhere. */
    method AddClone(n: Node, ghost h: Heap, ghost sp: Path, ghost dp: Path) returns (c: Node)
      requires Tree(h, root) && Walk(h, root, sp) == Some(n) && (sp != [] || dp != [])
      requires Snapshot(nodes) == CopyBase(h, root, dp)
      modifies this`nodes
      ensures fresh(nodes - old(nodes)) && old(nodes) <= nodes
      ensures var m := Snapshot(nodes - old(nodes)); Snapshot(nodes) == old(Snapshot(nodes)) + m && IsClone(h, n, m, c)
    {
      hide View, Injective, Closed;
      ghost var h0 := Snapshot(nodes);
      SourceIsIntact(h, root, sp, n, dp);
      ghost var made;
      c, made := CloneNode(n, nodes, n, []);
      CloneOfSame(h, h0, n, Snapshot(made), c);
      nodes := nodes + made;
      assert nodes - old(nodes) == made;
    }

    lemma CopyShows(h: Heap, sp: Path, dp: Path, recursive: bool, m: Heap, c: Node)
      requires Tree(h, root) && Clean(sp) && CopyError(h, root, sp, dp, recursive) == None && h.Keys !! m.Keys
      requires IsClone(h, Walk(h, root, sp).value, m, c) && Snapshot(nodes) == Copied(h, root, sp, dp, m, c)
      ensures Valid() <==> dp != []
      ensures dp != [] ==>
                var e := Target(h, root, sp, dp);
                forall q :: Shows(q) == if e <= q then View(h, root, sp + q[|e|..]) else View(h, root, q)
    {
      CopyKeepsTreeIff(h, root, sp, dp, recursive, m, c);
      if dp != [] {
        var e := Target(h, root, sp, dp);
        forall q
          ensures Shows(q) == if e <= q then View(h, root, sp + q[|e|..]) else View(h, root, q)
        {
          CopyView(h, root, sp, dp, recursive, m, c, q);
        }
      }
    }

    // ------------------------------------------------------------------- moving

    /** Links the node in its new place, then deletes it from the old one. */
    method MoveNode(src: string, ghost sp: Path, dest: string, ghost dp: Path) returns (err: Option<Error>)
      requires Valid() && Clean(sp) && src == PathOf(sp) && Clean(dp) && dest == PathOf(dp)
      modifies nodes
      ensures err == MoveError(old(Snapshot(nodes)), root, sp, dp)
      ensures err.Some? ==> Snapshot(nodes) == old(Snapshot(nodes))
      ensures Valid() <==> err.Some? || sp != [] || dp == []
      ensures err.None? && sp != [] ==>
                var e := Target(old(Snapshot(nodes)), root, sp, dp);
                forall q :: Shows(q) ==
                  if sp <= e then (if sp <= q then None else old(Shows(q)))
                  else if e <= q then old(Shows(sp + q[|e|..]))
                  else if sp <= q then None
                  else old(Shows(q))
    {
      hide View, Walk, Injective, Closed;
      ghost var h := Snapshot(nodes);
      err := None;
      var srcNode := GetNode(src, sp);
      if srcNode.None? {
        return Some(NotFound);
      }
      var parent, name := GetParent(src, sp);
      if parent.None? {
        return Some(NoParent);
      }
      var destNode := GetNode(dest, dp);
      var into := destNode.Some? && destNode.value.isDir;
      var destParent, destLast := GetParent(dest, dp);
      if into {
        destParent := destNode;
      }
      if destParent.None? {
        return Some(NoParent);
      }
      var last := LastPart(dest, dp, name);
      PutChild(destParent.value, if into then name else last, srcNode.value);
      DropChild(parent.value, name);
      assert Snapshot(nodes) == Moved(h, root, sp, dp);
      MoveShows(h, sp, dp);
    }

    lemma MoveShows(h: Heap, sp: Path, dp: Path)
      requires Tree(h, root) && Clean(dp) && MoveError(h, root, sp, dp) == None
      requires Snapshot(nodes) == Moved(h, root, sp, dp)
      ensures Valid() <==> sp != [] || dp == []
      ensures sp != [] ==>
                var e := Target(h, root, sp, dp);
                forall q :: Shows(q) ==
                  if sp <= e then (if sp <= q then None else View(h, root, q))
                  else if e <= q then View(h, root, sp + q[|e|..])
                  else if sp <= q then None
                  else View(h, root, q)
    {
      if sp == [] {
        MoveHomeKeepsTreeIff(h, root, dp);
      } else {
        var e := Target(h, root, sp, dp);
        if sp <= e {
          MoveIntoItselfLoses(h, root, sp, dp, []);
        } else {
          MoveView(h, root, sp, dp, []);
        }
        forall q
          ensures Shows(q) ==
                  if sp <= e then (if sp <= q then None else View(h, root, q))
                  else if e <= q then View(h, root, sp + q[|e|..])
                  else if sp <= q then None
                  else View(h, root, q)
        {
          if sp <= e {
            MoveIntoItselfLoses(h, root, sp, dp, q);
          } else {
            MoveView(h, root, sp, dp, q);
          }
        }
      }
    }
  }
}
