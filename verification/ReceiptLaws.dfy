/** What makes a receipt, spelled out. */
module ReceiptLaws {
  import opened Common
  import opened Receipts
  import Text

  predicate Hex(s: string) {
    forall c :: c in s ==> c in "0123456789abcdef"
  }

  lemma HexIs(s: string)
    ensures Hex(s) <==> forall i :: 0 <= i < |s| ==> IsHex(s[i])
  {
    if Hex(s) {
      forall i | 0 <= i < |s|
        ensures IsHex(s[i])
      {
        assert s[i] in s;
      }
    }
  }

  /** A commit is forty hexadecimal digits, a digest sixty-four after "sha256:". */
  lemma FormatsAre(s: string)
    ensures IsSha(s) <==> |s| == 40 && Hex(s)
    ensures IsDigest(s) <==> exists h :: |h| == 64 && Hex(h) && s == "sha256:" + h
  {
    hide Hex;
    HexIs(s);
    if IsDigest(s) {
      var h := s[7..];
      HexIs(h);
      assert s == "sha256:" + h;
    }
    forall h | |h| == 64 && Hex(h) && s == "sha256:" + h
      ensures IsDigest(s)
    {
      HexIs(h);
      assert forall i :: 7 <= i < |s| ==> s[i] == h[i - 7];
    }
  }

  /** In ASCII, a run number is decimal digits that are worth more than zero. */
  lemma RunIdIs(s: string)
    requires forall i :: 0 <= i < |s| ==> s[i] as int < 0x80
    ensures IsRunId(s) <==>
            s != "" && (forall i :: 0 <= i < |s| ==> '0' <= s[i] <= '9') && Text.InBaseTen(s) > 0
  {
    forall i | 0 <= i < |s|
      ensures IsDigit(s[i]) <==> '0' <= s[i] <= '9'
      ensures IsZero(s[i] as int) <==> s[i] == '0'
    {
      AsciiDigit(s[i]);
    }
    hide IsZero, IsDigit;
    if forall i :: 0 <= i < |s| ==> '0' <= s[i] <= '9' {
      WorthSomething(s);
    }
  }

  lemma AsciiDigit(c: char)
    requires c as int < 0x80
    ensures IsDigit(c) <==> '0' <= c <= '9'
    ensures IsZero(c as int) <==> c == '0'
  {
    assert IsZero(0x30);
  }

  lemma {:induction false} WorthSomething(s: string)
    requires forall i :: 0 <= i < |s| ==> '0' <= s[i] <= '9'
    ensures Text.InBaseTen(s) > 0 <==> exists i :: 0 <= i < |s| && s[i] != '0'
  {
    if s != "" {
      WorthSomething(s[..|s| - 1]);
      assert forall i :: 0 <= i < |s| - 1 ==> s[..|s| - 1][i] == s[i];
    }
  }

  // ------------------------------------------------------------------ completeness

  function Kinds(items: seq<ImageDigest>): set<string> {
    set i | 0 <= i < |items| :: items[i].kind
  }

  lemma {:induction false} KindsCount(items: seq<ImageDigest>)
    ensures |Kinds(items)| <= |items|
    ensures |Kinds(items)| == |items| <==> forall i, j :: 0 <= i < j < |items| ==> items[i].kind != items[j].kind
    decreases |items|
  {
    if items == [] {
      assert Kinds(items) == {};
    } else {
      var n := |items| - 1;
      KindsCount(items[..n]);
      assert Kinds(items) == Kinds(items[..n]) + {items[n].kind};
      if items[n].kind in Kinds(items[..n]) {
        var i :| 0 <= i < n && items[..n][i].kind == items[n].kind;
        assert items[i].kind == items[n].kind;
      }
    }
  }

  /** As many files as configured kinds, of exactly these kinds, all of the commit
      and with a digest. */
  lemma CompleteIff(allowed: map<string, string>, source: Sha, items: seq<ImageDigest>)
    ensures Complete(allowed, source, items) <==>
            Kinds(items) == allowed.Keys && |items| == |allowed| &&
            forall i :: 0 <= i < |items| ==>
              items[i].source == source && items[i].digest.Some? && IsDigest(items[i].digest.value)
  {
    hide IsDigest;
    KindsCount(items);
    if Complete(allowed, source, items) {
      assert Kinds(items) == allowed.Keys;
    }
    if Kinds(items) == allowed.Keys {
      forall k | k in allowed
        ensures exists i :: 0 <= i < |items| && items[i].kind == k
      {
        assert k in Kinds(items);
      }
      forall i | 0 <= i < |items|
        ensures items[i].kind in allowed
      {
        assert items[i].kind in Kinds(items);
      }
    }
  }

  /** The receipt lists, for every configured kind and no other, its image at the
      digest of its file. */
  lemma ImagesAre(allowed: map<string, string>, source: Sha, items: seq<ImageDigest>, images: map<string, string>)
    requires Complete(allowed, source, items) && ImagesOf(allowed, items, images)
    ensures images.Keys == allowed.Keys
    ensures forall i :: 0 <= i < |items| ==>
              items[i].kind in images && images[items[i].kind] == allowed[items[i].kind] + "@" + items[i].digest.value
  {
    hide IsDigest;
  }
}
