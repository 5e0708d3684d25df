/** The file operations told from what paths show: when each is refused, with what
    error, and what a path shows after it. */
module FileLaws {
  import opened Common
  import opened Paths
  import opened FileTree
  import opened FileOps

  ghost predicate ShowsDir(h: Heap, root: Node, p: Path) {
    View(h, root, p).Some? && View(h, root, p).value.DirEntry?
  }

  /** A path shows a file's content, time and mode or a directory's time and mode,
      and goes on through the children of directories only. */
  lemma ViewIs(h: Heap, n: Node, name: string, rest: Path)
    requires n in h
    ensures View(h, n, []) == Some(if h[n].File? then FileEntry(h[n].content, h[n].mtime, h[n].mode)
                                   else DirEntry(h[n].mtime, h[n].mode))
    ensures View(h, n, [name] + rest) ==
            if h[n].Dir? && name in h[n].children then View(h, h[n].children[name], rest) else None
  {
    assert ([name] + rest)[1..] == rest;
  }

  lemma WalksWhereShown(h: Heap, root: Node, p: Path)
    requires Closed(h) && root in h
    ensures Walk(h, root, p).Some? <==> View(h, root, p).Some?
    ensures IsDirAt(h, root, p) <==> ShowsDir(h, root, p)
    ensures Walk(h, root, p).Some? ==> Walk(h, root, p).value in h &&
                                       (h[Walk(h, root, p).value].Dir? <==> ShowsDir(h, root, p))
  {
    WalkStays(h, root, p);
  }

  /** The slot of a path other than the root's own, and what its parent knows of it. */
  lemma SlotIs(h: Heap, root: Node, dir: Path, name: string)
    requires Closed(h) && root in h
    ensures var p := dir + [name];
            ParentAt(h, root, p).Some? == ShowsDir(h, root, dir) && NameOf(p) == name && Slot(p) == p &&
            (ParentAt(h, root, p).Some? ==> Child(h, ParentAt(h, root, p).value, name) == Walk(h, root, p)) &&
            (ParentAt(h, root, p).None? ==> Walk(h, root, p) == None)
  {
    var p := dir + [name];
    assert ParentOf(p) == dir;
    WalksWhereShown(h, root, dir);
    WalkSnoc(h, root, dir, name);
    if Walk(h, root, dir).Some? {
      assert ParentAt(h, root, p).None? ==> Child(h, Walk(h, root, dir).value, name) == None;
    }
  }

  /** Writing is refused when the path's directory is none, and when the path is one. */
  lemma WriteRefusedIff(h: Heap, root: Node, dir: Path, name: string)
    requires Tree(h, root)
    ensures WriteError(h, root, dir + [name]) ==
            if !ShowsDir(h, root, dir) then Some(NoParent)
            else if ShowsDir(h, root, dir + [name]) then Some(IsADirectory) else None
  {
    SlotIs(h, root, dir, name);
    WalksWhereShown(h, root, dir + [name]);
  }

  /** Written text replaces a file's or follows it and keeps its mode; a new file may
      be written by its owner and read by all. Nothing else shows any change. */
  lemma WrittenShows(h: Heap, root: Node, dir: Path, name: string, content: string, append: bool, now: int,
                     f: Node, q: Path)
    requires Tree(h, root) && WriteError(h, root, dir + [name]) == None && f !in h
    ensures var h', p := Written(h, root, dir + [name], content, append, now, f), dir + [name];
            View(h', root, q) ==
            if q != p then View(h, root, q)
            else match View(h, root, p)
                 case Some(FileEntry(was, _, mode)) =>
                   Some(FileEntry(if append then was + content else content, now, mode))
                 case _ => Some(FileEntry(content, now, "-rw-r--r--"))
  {
    SlotIs(h, root, dir, name);
    hide Written, Tree, Walk, IsNew, WriteError, View;
    WriteView(h, root, dir + [name], content, append, now, f, q);
  }

  /** Once every directory of a path is there, the ones that were missing show as
      new, for their owner to change and for all to enter. */
  lemma MadeShows(h: Heap, h': Heap, root: Node, p: Path, now: int, q: Path)
    requires MadeUpTo(h, h', root, p, now)
    ensures View(h', root, q) ==
            if q != [] && q <= p && View(h, root, q) == None then Some(DirEntry(now, "drwxr-xr-x"))
            else View(h, root, q)
  {
    assert View(h', root, q) == MadeSoFar(h, root, p, now, q);
  }

  /** Removing is refused when the path shows nothing, and when it shows a directory
      and that was not asked for. */
  lemma RemoveRefusedIff(h: Heap, root: Node, dir: Path, name: string, recursive: bool)
    requires Tree(h, root)
    ensures RemoveError(h, root, dir + [name], recursive) ==
            if View(h, root, dir + [name]) == None then Some(NotFound)
            else if ShowsDir(h, root, dir + [name]) && !recursive then Some(IsADirectory) else None
  {
    SlotIs(h, root, dir, name);
    WalksWhereShown(h, root, dir + [name]);
  }

  /** Copying and moving are refused when the source shows nothing, and when the
      target, taken for a new name, is in no directory; copying also when the source
      is a directory and that was not asked for. */
  lemma CopyAndMoveRefusedIff(h: Heap, root: Node, src: Path, dir: Path, name: string, recursive: bool)
    requires Tree(h, root)
    ensures CopyError(h, root, src, dir + [name], recursive) ==
            if View(h, root, src) == None then Some(NotFound)
            else if ShowsDir(h, root, src) && !recursive then Some(Omitting)
            else if !ShowsDir(h, root, dir) then Some(NoParent) else None
    ensures MoveError(h, root, src, dir + [name]) ==
            if View(h, root, src) == None then Some(NotFound)
            else if !ShowsDir(h, root, dir) then Some(NoParent) else None
  {
    SlotIs(h, root, dir, name);
    WalksWhereShown(h, root, src);
    WalksWhereShown(h, root, dir + [name]);
    if Walk(h, root, src).Some? {
      SourceHasParent(h, root, src);
    }
  }

  lemma SourceHasParent(h: Heap, root: Node, src: Path)
    requires Tree(h, root) && Walk(h, root, src).Some?
    ensures ParentAt(h, root, src).Some?
  {
    if src != [] {
      SlotIs(h, root, src[..|src| - 1], src[|src| - 1]);
      assert src[..|src| - 1] + [src[|src| - 1]] == src;
    }
  }

  /** The home directory can be the target of a copy of anything but itself, and of
      any move; to write or remove it is to write or remove "~" in it. */
  lemma HomeAsTarget(h: Heap, root: Node, src: Path, recursive: bool)
    requires Tree(h, root)
    ensures CopyError(h, root, src, [], recursive) ==
            if View(h, root, src) == None then Some(NotFound)
            else if ShowsDir(h, root, src) && !recursive then Some(Omitting)
            else if src == [] then Some(StackOverflow) else None
    ensures MoveError(h, root, src, []) == if View(h, root, src) == None then Some(NotFound) else None
    ensures WriteError(h, root, []) == WriteError(h, root, ["~"]) && Slot([]) == ["~"]
    ensures RemoveError(h, root, [], recursive) == RemoveError(h, root, ["~"], recursive)
  {
    WalksWhereShown(h, root, src);
    WalksWhereShown(h, root, []);
    if Walk(h, root, src).Some? {
      SourceHasParent(h, root, src);
    }
    assert ParentOf(["~"]) == [] == ParentOf([]);
  }

  /** What is copied or moved to a directory keeps its name in it, and otherwise
      gets the name it is given. */
  lemma TargetIs(h: Heap, root: Node, src: Path, name: string, dest: Path)
    requires Tree(h, root)
    ensures Target(h, root, src + [name], dest) == if ShowsDir(h, root, dest) then dest + [name] else dest
    ensures Target(h, root, [], dest) == if ShowsDir(h, root, dest) then dest + ["~"] else dest
  {
    WalksWhereShown(h, root, dest);
  }
}
