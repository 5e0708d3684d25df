/** What a target means, told part by part. */
module PathLaws {
  import opened Common
  import opened Text
  import opened Paths

  /** From the directory `p` below home: a dot stays, two dots go up as long as
      there is something to leave, a tilde goes home, and a name goes down. */
  function Meant(p: seq<string>, parts: seq<string>): seq<string>
    decreases |parts|
  {
    if parts == [] then p
    else
      var next := if parts[0] == "." then p
                  else if parts[0] == ".." then if p == [] then [] else p[..|p| - 1]
                  else if parts[0] == "~" then []
                  else p + [parts[0]];
      Meant(next, parts[1..])
  }

  lemma {:induction false} WalkedIs(p: seq<string>, parts: seq<string>)
    requires Clean(p) && forall x :: x in parts ==> x != "" && '/' !in x
    ensures Walked([HOME] + p, parts) == [HOME] + Meant(p, parts)
    decreases |parts|
  {
    if parts != [] {
      var x := parts[0];
      var next := if x == "." then p
                  else if x == ".." then if p == [] then [] else p[..|p| - 1] else if x == "~" then [] else p + [x];
      assert x in parts;
      assert Step([HOME] + p, x) == [HOME] + next;
      WalkedIs(next, parts[1..]);
    }
  }

  predicate Parts(parts: seq<string>) {
    parts != [] && forall x :: x in parts ==> x != "" && '/' !in x
  }

  /** Parts separated by slashes are followed from where one is, or from home when
      a slash, or a tilde and a slash, comes before them. */
  lemma ResolvedIs(p: seq<string>, cwd: string, parts: seq<string>)
    requires Clean(p) && Parts(parts)
    ensures Resolved(PathOf(p), Join(parts, '/')) == Meant(p, parts)
    ensures Resolved(cwd, "/" + Join(parts, '/')) == Meant([], parts)
    ensures Resolved(cwd, "~/" + Join(parts, '/')) == Meant([], parts)
  {
    hide Split, Join;
    SplitPathJoin(parts);
    FromHome(cwd, "/" + Join(parts, '/'), parts);
    FromHome(cwd, "~/" + Join(parts, '/'), parts);
    FromHere(p, parts);
  }

  lemma FromHome(cwd: string, target: string, parts: seq<string>)
    requires Parts(parts) && SplitPath(Join(parts, '/')) == parts
    requires target == "/" + Join(parts, '/') || target == "~/" + Join(parts, '/')
    ensures Resolved(cwd, target) == Meant([], parts)
  {
    hide Split, Join, SplitPath;
    var text := Join(parts, '/');
    assert text != "" by {
      JoinIsNotEmpty(parts);
    }
    assert if target[0] == '/' then target[1..] == text else target[2..] == text;
    assert StartsAt(cwd, target) == [HOME] + parts;
    HomeThen(parts);
  }

  lemma JoinIsNotEmpty(parts: seq<string>)
    requires Parts(parts)
    ensures Join(parts, '/') != ""
  {
    assert parts[0] in parts;
  }

  lemma HomeThen(parts: seq<string>)
    requires Parts(parts)
    ensures Rooted(Walked([], [HOME] + parts)) == Meant([], parts)
  {
    assert ([HOME] + parts)[1..] == parts;
    assert [HOME] + [] == [HOME];
    WalkedIs([], parts);
    assert ([HOME] + Meant([], parts))[1..] == Meant([], parts);
  }

  lemma FromHere(p: seq<string>, parts: seq<string>)
    requires Clean(p) && Parts(parts) && SplitPath(Join(parts, '/')) == parts
    ensures Resolved(PathOf(p), Join(parts, '/')) == Meant(p, parts)
  {
    var target := Join(parts, '/');
    JoinIsNotEmpty(parts);
    if target == "~" {
      assert parts == ["~"] by {
        SplitPathJoin(parts);
        SplitPathJoin(["~"]);
        assert Join(["~"], '/') == "~";
      }
    } else if StartsWith(target, "~/") {
      TildeFirst(parts);
      HomeThen(parts[1..]);
      SplitPathJoin(parts[1..]);
      assert target[2..] == Join(parts[1..], '/');
    } else {
      SlashIsNotFirst(parts);
      hide Split, Join, SplitPath;
      SplitPathOf(p);
      RelativeWalks(p, target);
      WalkedHome(p, parts);
      WalkedIs(p, parts);
      assert ([HOME] + Meant(p, parts))[1..] == Meant(p, parts);
      assert ([HOME] + Resolved(PathOf(p), target))[1..] == Resolved(PathOf(p), target);
    }
  }

  lemma TildeFirst(parts: seq<string>)
    requires Parts(parts) && StartsWith(Join(parts, '/'), "~/")
    ensures |parts| > 1 && parts[0] == "~" && Join(parts, '/')[2..] == Join(parts[1..], '/')
  {
    hide Split, Join;
    SplitJoin(parts, '/');
    TildeThen(Join(parts, '/'));
    assert parts[1..] == Split(Join(parts, '/')[2..], '/');
  }

  lemma TildeThen(target: string)
    requires StartsWith(target, "~/")
    ensures Split(target, '/') == ["~"] + Split(target[2..], '/') && Join(Split(target[2..], '/'), '/') == target[2..]
  {
    hide Split, Join;
    assert target == target[..2] + target[2..] && target[..2] == "~" + ['/'];
    SplitFirst("~", '/', target[2..]);
    SplitIs(target[2..], '/');
  }

  lemma SlashIsNotFirst(parts: seq<string>)
    requires Parts(parts)
    ensures !StartsWith(Join(parts, '/'), "/")
  {
    assert parts[0] in parts && parts[0][0] in parts[0];
    assert Join(parts, '/')[0] == parts[0][0];
  }

  /** A dot before a name means nothing, a slash before it starts at home from
      anywhere, and two dots leave a directory but not home. */
  lemma DotsAndSlashes(p: seq<string>, cwd: string, x: string)
    requires Clean(p) && IsName(x)
    ensures Resolved(PathOf(p), x) == p + [x] && Resolved(PathOf(p), "./" + x) == p + [x]
    ensures Resolved(cwd, "/" + x) == [x] && Resolved(cwd, "~/" + x) == [x]
    ensures Resolved(PathOf(p + [x]), "..") == p && Resolved(PathOf([]), "..") == []
    ensures Resolved(cwd, "/") == Resolved(cwd, "~") == Resolved(cwd, "") == []
  {
    hide Resolved, Split;
    ResolvedIs(p, cwd, [x]);
    ResolvedIs(p, cwd, [".", x]);
    assert [".", x][1..] == [x] && Join([x], '/') == x && Join([".", x], '/') == "./" + x;
    assert Meant(p, [x]) == p + [x] && Meant([], [x]) == [x];
    ResolvedIs(p + [x], cwd, [".."]);
    ResolvedIs([], cwd, [".."]);
    assert Join([".."], '/') == ".." && (p + [x])[..|p|] == p;
    HomeItself(cwd);
  }

  lemma HomeItself(cwd: string)
    ensures Resolved(cwd, "/") == Resolved(cwd, "~") == Resolved(cwd, "") == []
  {
  }

  /** One more character in front. */
  function SplitMore(x: char, rest: seq<string>): seq<string>
    requires rest != []
  {
    if x == '/' then [""] + rest else [[x] + rest[0]] + rest[1..]
  }

  lemma SplitMoreConcat(x: char, head: seq<string>, tail: seq<string>)
    requires head != []
    ensures SplitMore(x, head + tail) == SplitMore(x, head) + tail
  {
    if x == '/' {
      assert [""] + (head + tail) == [""] + head + tail;
    } else {
      assert (head + tail)[1..] == head[1..] + tail;
    }
  }

  lemma SplitUnfolds(s: string)
    requires s != ""
    ensures Split(s, '/') == SplitMore(s[0], Split(s[1..], '/'))
  {
  }

  lemma SplitStart(b: string)
    ensures Split("", '/') == [""] && Split("/" + b, '/') == [""] + Split(b, '/')
  {
    assert ("/" + b)[1..] == b;
  }

  lemma {:induction false} SplitConcat(a: string, b: string)
    ensures Split(a + "/" + b, '/') == Split(a, '/') + Split(b, '/')
  {
    hide Split, SplitMore;
    var s := a + "/" + b;
    if a == "" {
      SplitStart(b);
      assert s == "/" + b;
    } else {
      SplitConcat(a[1..], b);
      assert s[0] == a[0] && s[1..] == a[1..] + "/" + b;
      SplitUnfolds(a);
      SplitUnfolds(s);
      SplitMoreConcat(a[0], Split(a[1..], '/'), Split(b, '/'));
    }
  }

  lemma {:induction false} NonEmptyConcat(a: seq<string>, b: seq<string>)
    ensures NonEmpty(a + b) == NonEmpty(a) + NonEmpty(b)
  {
    if a == [] {
      assert a + b == b;
    } else {
      assert (a + b)[1..] == a[1..] + b;
      NonEmptyConcat(a[1..], b);
    }
  }

  /** Slashes separate, and nothing else does; doubled and trailing ones mean
      nothing. */
  lemma SlashesSeparate(a: string, b: string, x: string)
    requires x != "" && '/' !in x
    ensures SplitPath(a + "/" + b) == SplitPath(a) + SplitPath(b) && SplitPath("") == [] && SplitPath(x) == [x]
  {
    SplitConcat(a, b);
    NonEmptyConcat(Split(a, '/'), Split(b, '/'));
    SplitFirst(x, '/', "");
    assert [x][1..] == [];
  }
}
