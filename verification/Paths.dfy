/** Paths of the simulated shell: how they are split, and how a target is
    resolved against the working directory. */
module Paths {
  import opened Common
  import opened Text

  const HOME := "~"

  function NonEmpty(parts: seq<string>): (r: seq<string>)
    ensures forall p :: p in r ==> p != "" && p in parts
  {
    if parts == [] then []
    else (if parts[0] == "" then [] else [parts[0]]) + NonEmpty(parts[1..])
  }

  function SplitPath(path: string): (parts: seq<string>)
    ensures forall p :: p in parts ==> p != ""
  {
    NonEmpty(Split(path, '/'))
  }

  /** A part that means itself: neither empty, nor '.', '..' or '~', nor with a slash in it. */
  predicate IsName(p: string) {
    p != "" && p != "." && p != ".." && p != HOME && '/' !in p
  }

  predicate Clean(p: seq<string>) {
    forall i :: 0 <= i < |p| ==> IsName(p[i])
  }

  /** The text of the home directory followed by the parts. */
  function PathOf(p: seq<string>): string {
    Join([HOME] + p, '/')
  }

  // ------------------------------------------------------------------ splitting

  lemma {:induction false} NonEmptyKeeps(parts: seq<string>)
    requires forall i :: 0 <= i < |parts| ==> parts[i] != ""
    ensures NonEmpty(parts) == parts
  {
    if parts != [] {
      NonEmptyKeeps(parts[1..]);
      assert parts == [parts[0]] + parts[1..];
    }
  }

  lemma {:induction false} SplitNoSlash(s: string)
    ensures forall p :: p in Split(s, '/') ==> '/' !in p
  {
    if s != "" {
      SplitNoSlash(s[1..]);
      var rest := Split(s[1..], '/');
      assert rest == [rest[0]] + rest[1..];
    }
  }

  lemma SplitPathParts(path: string)
    ensures forall p :: p in SplitPath(path) ==> p != "" && '/' !in p
  {
    SplitNoSlash(path);
  }

  /** Joining and splitting again changes nothing. */
  lemma SplitPathJoin(parts: seq<string>)
    requires parts != [] && forall p :: p in parts ==> p != "" && '/' !in p
    ensures SplitPath(Join(parts, '/')) == parts && Split(Join(parts, '/'), '/') == parts
  {
    hide Join, Split;
    SplitJoin(parts, '/');
    assert forall i :: 0 <= i < |parts| ==> parts[i] in parts;
    NonEmptyKeeps(parts);
  }

  lemma SplitPathOf(p: seq<string>)
    requires Clean(p)
    ensures SplitPath(PathOf(p)) == [HOME] + p && Split(PathOf(p), '/') == [HOME] + p
  {
    hide Join, Split;
    var parts := [HOME] + p;
    forall x | x in parts
      ensures x != "" && '/' !in x
    {
      if x != HOME {
        var i :| 0 <= i < |p| && p[i] == x;
      }
    }
    SplitPathJoin(parts);
  }

  // ------------------------------------------------------------------ resolving

  function Step(resolved: seq<string>, p: string): seq<string> {
    if p == "." then resolved
    else if p == ".." then (if |resolved| > 1 then resolved[..|resolved| - 1] else resolved)
    else if p == HOME then [HOME]
    else resolved + [p]
  }

  function Walked(resolved: seq<string>, parts: seq<string>): seq<string>
    decreases |parts|
  {
    if parts == [] then resolved else Walked(Step(resolved, parts[0]), parts[1..])
  }

  function Rooted(resolved: seq<string>): seq<string> {
    if resolved != [] && resolved[0] == HOME then resolved[1..] else resolved
  }

  function StartsAt(cwd: string, target: string): seq<string> {
    if StartsWith(target, "~/") then [HOME] + SplitPath(target[2..])
    else if StartsWith(target, "/") then [HOME] + SplitPath(target[1..])
    else SplitPath(cwd) + SplitPath(target)
  }

  /** The parts below the home directory that a target means. */
  function Resolved(cwd: string, target: string): seq<string> {
    if target == "" || target == HOME || target == "/" then [] else Rooted(Walked([], StartsAt(cwd, target)))
  }

  /** Goes through the parts, editing what is resolved so far. */
  method WalkParts(parts: seq<string>) returns (resolved: seq<string>)
    ensures resolved == Walked([], parts)
  {
    resolved := [];
    assert parts[0..] == parts;
    for k := 0 to |parts|
      invariant Walked(resolved, parts[k..]) == Walked([], parts)
    {
      var p := parts[k];
      assert parts[k..][0] == p && parts[k..][1..] == parts[k + 1..];
      if p == "." {
        continue;
      }
      if p == ".." {
        if |resolved| > 1 {
          resolved := resolved[..|resolved| - 1];
        }
        continue;
      }
      if p == HOME {
        resolved := [HOME];
        continue;
      }
      resolved := resolved + [p];
    }
    assert parts[|parts|..] == [];
  }

  method ResolvePath(cwd: string, target: string) returns (path: string)
    ensures path == PathOf(Resolved(cwd, target))
  {
    if target == "" || target == HOME {
      return HOME;
    }
    if target == "/" {
      return HOME;
    }
    var parts;
    if StartsWith(target, "~/") {
      parts := [HOME] + SplitPath(target[2..]);
    } else if StartsWith(target, "/") {
      parts := [HOME] + SplitPath(target[1..]);
    } else {
      parts := SplitPath(cwd) + SplitPath(target);
    }
    hide SplitPath, Join, Walked;
    var resolved := WalkParts(parts);
    EmptyPath();
    if |resolved| == 0 {
      return HOME;
    }
    if resolved[0] != HOME {
      resolved := [HOME] + resolved;
    }
    assert resolved == [HOME] + Rooted(Walked([], parts));
    path := Join(resolved, '/');
  }

  lemma EmptyPath()
    ensures PathOf([]) == HOME
  {
    assert [HOME] + [] == [HOME];
  }

  // --------------------------------------------------------------- main results

  /** Only the first part can be the home directory. */
  predicate Tidy(r: seq<string>) {
    forall i :: 0 <= i < |r| ==> IsName(r[i]) || (i == 0 && r[i] == HOME)
  }

  lemma {:induction false} WalkedIsTidy(r: seq<string>, parts: seq<string>)
    requires Tidy(r) && forall p :: p in parts ==> p != "" && '/' !in p
    ensures Tidy(Walked(r, parts))
    ensures r != [] && r[0] == HOME ==> Walked(r, parts) != [] && Walked(r, parts)[0] == HOME
    decreases |parts|
  {
    if parts != [] {
      assert parts[0] in parts;
      WalkedIsTidy(Step(r, parts[0]), parts[1..]);
    }
  }

  /** Whatever is typed, the path resolved has only names below the home directory. */
  lemma ResolvedIsClean(cwd: string, target: string)
    ensures Clean(Resolved(cwd, target))
  {
    hide SplitPath;
    SplitPathParts(cwd);
    SplitPathParts(target);
    if StartsWith(target, "~/") {
      SplitPathParts(target[2..]);
    } else if StartsWith(target, "/") {
      SplitPathParts(target[1..]);
    }
    var parts := StartsAt(cwd, target);
    assert forall p :: p in parts ==> p != "" && '/' !in p;
    WalkedIsTidy([], parts);
  }

  lemma {:induction false} WalkedNames(r: seq<string>, p: seq<string>)
    requires Clean(p)
    ensures Walked(r, p) == r + p
    decreases |p|
  {
    if p != [] {
      assert IsName(p[0]);
      WalkedNames(r + [p[0]], p[1..]);
      assert r + [p[0]] + p[1..] == r + p;
    } else {
      assert r + p == r;
    }
  }

  /** Resolving a resolved path again, from anywhere, changes nothing. */
  lemma ResolvedAgain(cwd: string, p: seq<string>)
    requires Clean(p)
    ensures Resolved(cwd, PathOf(p)) == p
  {
    hide Split;
    if p == [] {
      EmptyPath();
    } else {
      var rest := Join(p, '/');
      assert ([HOME] + p)[1..] == p;
      assert PathOf(p) == "~/" + rest;
      assert StartsWith(PathOf(p), "~/") && PathOf(p)[2..] == rest;
      assert forall x :: x in p ==> IsName(x);
      SplitPathJoin(p);
      hide Join;
      WalkedNames([HOME], p);
      assert ([HOME] + p)[1..] == p;
      assert StartsAt(cwd, PathOf(p)) == [HOME] + p;
      assert ([HOME] + p)[0] == HOME;
      assert Walked([], [HOME] + p) == Walked([HOME], p);
    }
  }

  lemma {:induction false} WalkedConcat(r: seq<string>, a: seq<string>, b: seq<string>)
    ensures Walked(r, a + b) == Walked(Walked(r, a), b)
    decreases |a|
  {
    if a == [] {
      assert a + b == b;
    } else {
      assert (a + b)[0] == a[0] && (a + b)[1..] == a[1..] + b;
      WalkedConcat(Step(r, a[0]), a[1..], b);
    }
  }

  /** A relative target: neither empty nor anchored at the home directory or the root. */
  predicate Relative(target: string) {
    target != "" && target != HOME && !StartsWith(target, "~/") && !StartsWith(target, "/")
  }

  lemma RelativeWalks(p: seq<string>, target: string)
    requires Clean(p) && Relative(target)
    ensures Walked([], [HOME] + p + SplitPath(target)) == [HOME] + Resolved(PathOf(p), target)
  {
    hide Split, Join, SplitPath;
    SplitPathOf(p);
    SplitPathParts(target);
    var parts := [HOME] + p + SplitPath(target);
    WalkedConcat([], [HOME] + p, SplitPath(target));
    assert ([HOME] + p)[1..] == p;
    WalkedNames([HOME], p);
    assert Walked([], [HOME] + p) == [HOME] + p;
    WalkedIsTidy([HOME] + p, SplitPath(target));
    assert StartsAt(PathOf(p), target) == parts;
  }

  /** Going somewhere in two relative steps is going there in one. */
  lemma TwoStepsAreOne(p: seq<string>, a: string, b: string, both: string)
    requires Clean(p) && Relative(a) && Relative(b) && Relative(both) && SplitPath(both) == SplitPath(a) + SplitPath(b)
    ensures Resolved(PathOf(Resolved(PathOf(p), a)), b) == Resolved(PathOf(p), both)
  {
    hide Split, Join, SplitPath, Resolved;
    ResolvedIsClean(PathOf(p), a);
    var q := Resolved(PathOf(p), a);
    RelativeWalks(p, a);
    RelativeWalks(p, both);
    RelativeWalks(q, b);
    assert [HOME] + p + SplitPath(both) == ([HOME] + p + SplitPath(a)) + SplitPath(b);
    WalkedConcat([], [HOME] + p + SplitPath(a), SplitPath(b));
    assert [HOME] + q == Walked([], [HOME] + p + SplitPath(a));
    hide Walked;
    WalkedHome(q, SplitPath(b));
    assert ([HOME] + Resolved(PathOf(q), b))[1..] == Resolved(PathOf(q), b);
    assert ([HOME] + Resolved(PathOf(p), both))[1..] == Resolved(PathOf(p), both);
  }

  lemma WalkedHome(q: seq<string>, parts: seq<string>)
    requires Clean(q)
    ensures Walked([], [HOME] + q + parts) == Walked([HOME] + q, parts)
  {
    WalkedConcat([], [HOME] + q, parts);
    assert ([HOME] + q)[1..] == q;
    WalkedNames([HOME], q);
  }

  /** Going down to a name and up again leads back. */
  lemma UpUndoesDown(p: seq<string>, name: string)
    requires Clean(p) && IsName(name)
    ensures Resolved(PathOf(p), name + "/..") == p
  {
    hide Join, Split;
    var target := name + "/..";
    assert target == name + ['/'] + "..";
    SplitFirst(name, '/', "..");
    SplitFirst("..", '/', "");
    NonEmptyKeeps([name, ".."]);
    assert SplitPath(target) == [name, ".."];
    assert target[0] == name[0];
    assert !StartsWith(target, "~/") by {
      if |name| == 1 {
        assert name == [name[0]] && target[..2][0] == name[0];
      } else {
        assert name[1] in name && target[..2][1] == name[1];
      }
    }
    RelativeWalks(p, target);
    WalkedHome(p, [name, ".."]);
    assert [name, ".."][1..] == [".."] && [".."][1..] == [];
    assert Step([HOME] + p, name) == [HOME] + p + [name];
    assert Step([HOME] + p + [name], "..") == [HOME] + p;
    assert Walked([HOME] + p, [name, ".."]) == [HOME] + p;
    assert ([HOME] + Resolved(PathOf(p), target))[1..] == Resolved(PathOf(p), target);
    assert ([HOME] + p)[1..] == p;
  }
}
