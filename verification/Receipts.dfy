/** Building one complete receipt from the digest files of a build. */
module Receipts {
  import opened Common

  type Sha = string

  /** One digest file: which image kind it is for, which commit it was built
      from, and the digest, absent when it is not a string. */
  datatype ImageDigest = ImageDigest(kind: string, source: Sha, digest: Option<string>)

  datatype Receipt = Receipt(repository: string, branch: string, source: Sha, images: map<string, string>,
                             runId: string)

  datatype ReceiptError =
    | BadTarget | BadRunId | UnknownOrDuplicateKind | MixedSource | BadDigest | Incomplete

  predicate IsHex(c: char) {
    '0' <= c <= '9' || 'a' <= c <= 'f'
  }

  /** The code points of the zeros among the decimal digits of Unicode 14; the other
      nine follow each. */
  predicate IsZero(n: int) {
    n == 0x30 || n == 0x660 || n == 0x6F0 || n == 0x7C0 || n == 0x966 || n == 0x9E6 ||
    n == 0xA66 || n == 0xAE6 || n == 0xB66 || n == 0xBE6 || n == 0xC66 || n == 0xCE6 ||
    n == 0xD66 || n == 0xDE6 || n == 0xE50 || n == 0xED0 || n == 0xF20 || n == 0x1040 ||
    n == 0x1090 || n == 0x17E0 || n == 0x1810 || n == 0x1946 || n == 0x19D0 || n == 0x1A80 ||
    n == 0x1A90 || n == 0x1B50 || n == 0x1BB0 || n == 0x1C40 || n == 0x1C50 || n == 0xA620 ||
    n == 0xA8D0 || n == 0xA900 || n == 0xA9D0 || n == 0xA9F0 || n == 0xAA50 || n == 0xABF0 ||
    n == 0xFF10 || n == 0x104A0 || n == 0x10D30 || n == 0x11066 || n == 0x110F0 || n == 0x11136 ||
    n == 0x111D0 || n == 0x112F0 || n == 0x11450 || n == 0x114D0 || n == 0x11650 || n == 0x116C0 ||
    n == 0x11730 || n == 0x118E0 || n == 0x11950 || n == 0x11C50 || n == 0x11D50 || n == 0x11DA0 ||
    n == 0x16A60 || n == 0x16AC0 || n == 0x16B50 || n == 0x1D7CE || n == 0x1D7D8 || n == 0x1D7E2 ||
    n == 0x1D7EC || n == 0x1D7F6 || n == 0x1E140 || n == 0x1E2F0 || n == 0x1E950 || n == 0x1FBF0
  }

  /** A decimal digit in some script. A character that str.isdigit takes and that
      is none of these, such as a superscript, makes int() fail. */
  predicate IsDigit(c: char) {
    exists zero :: c as int - 9 <= zero <= c as int && IsZero(zero)
  }

  predicate IsSha(s: string) {
    |s| == 40 && forall i :: 0 <= i < |s| ==> IsHex(s[i])
  }

  predicate IsDigest(s: string) {
    |s| == 71 && s[..7] == "sha256:" && forall i :: 7 <= i < |s| ==> IsHex(s[i])
  }

  /** Decimal digits that do not all stand for zero. */
  predicate IsRunId(s: string) {
    s != [] && (forall i :: 0 <= i < |s| ==> IsDigit(s[i])) && exists i :: 0 <= i < |s| && !IsZero(s[i] as int)
  }

  predicate GoodItem(allowed: map<string, string>, source: Sha, item: ImageDigest) {
    item.kind in allowed && item.source == source && item.digest.Some? && IsDigest(item.digest.value)
  }

  /** Every file is good and no kind appears twice. */
  ghost predicate Distinct(allowed: map<string, string>, source: Sha, items: seq<ImageDigest>) {
    (forall i :: 0 <= i < |items| ==> GoodItem(allowed, source, items[i])) &&
    (forall i, j :: 0 <= i < j < |items| ==> items[i].kind != items[j].kind)
  }

  /** When a build's files make a receipt: one good file for each configured
      kind and none besides. */
  ghost predicate Complete(allowed: map<string, string>, source: Sha, items: seq<ImageDigest>) {
    Distinct(allowed, source, items) && forall k :: k in allowed ==> exists i :: 0 <= i < |items| && items[i].kind == k
  }

  ghost predicate ImagesOf(allowed: map<string, string>, items: seq<ImageDigest>, images: map<string, string>) {
    (forall i :: 0 <= i < |items| ==>
      items[i].kind in allowed && items[i].digest.Some? && items[i].kind in images &&
      images[items[i].kind] == allowed[items[i].kind] + "@" + items[i].digest.value) &&
    (forall k :: k in images ==> exists i :: 0 <= i < |items| && items[i].kind == k)
  }

  /** One more file either extends the images or spoils the whole set. */
  lemma OneMore(allowed: map<string, string>, source: Sha, items: seq<ImageDigest>, n: nat, images: map<string, string>)
    requires n < |items| && Distinct(allowed, source, items[..n]) && ImagesOf(allowed, items[..n], images)
    ensures var item := items[n];
            if GoodItem(allowed, source, item) && item.kind !in images
            then Distinct(allowed, source, items[..n + 1]) &&
                 ImagesOf(allowed, items[..n + 1], images[item.kind := allowed[item.kind] + "@" + item.digest.value])
            else !Distinct(allowed, source, items)
  {
    var item, done, grown := items[n], items[..n], items[..n + 1];
    assert grown == done + [item];
    if item.kind in images {
      var i :| 0 <= i < n && done[i].kind == item.kind;
      assert items[i].kind == items[n].kind;
    } else if GoodItem(allowed, source, item) {
      ImagesGrow(allowed, done, item, images);
    }
  }

  lemma ImagesGrow(allowed: map<string, string>, done: seq<ImageDigest>, item: ImageDigest, images: map<string, string>)
    requires ImagesOf(allowed, done, images) && item.kind in allowed && item.digest.Some? && item.kind !in images
    ensures ImagesOf(allowed, done + [item], images[item.kind := allowed[item.kind] + "@" + item.digest.value])
  {
    var grown, next := done + [item], images[item.kind := allowed[item.kind] + "@" + item.digest.value];
    assert grown[|done|] == item;
    forall k | k in next
      ensures exists i :: 0 <= i < |grown| && grown[i].kind == k
    {
      if k in images {
        var i :| 0 <= i < |done| && done[i].kind == k;
        assert grown[i].kind == k;
      }
    }
  }

  /** A set without repeats is complete exactly when every kind got an image. */
  lemma CompleteWhenCovered(allowed: map<string, string>, source: Sha, items: seq<ImageDigest>,
                            images: map<string, string>)
    requires Distinct(allowed, source, items) && ImagesOf(allowed, items, images)
    ensures Complete(allowed, source, items) <==> images.Keys == allowed.Keys
  {
  }

  method MakeReceipt(repository: string, allowed: map<string, string>, items: seq<ImageDigest>,
                     branch: string, source: Sha, runId: string) returns (r: Result<Receipt, ReceiptError>)
    ensures r.Ok? <==>
            (branch == "dev" || branch == "main") && IsSha(source) && IsRunId(runId) && Complete(allowed, source, items)
    ensures r.Ok? ==> r.value == Receipt(repository, branch, source, r.value.images, runId) &&
                      ImagesOf(allowed, items, r.value.images) && r.value.images.Keys == allowed.Keys
  {
    if (branch != "dev" && branch != "main") || !IsSha(source) {
      return Err(BadTarget);
    }
    if !IsRunId(runId) {
      return Err(BadRunId);
    }
    var images: map<string, string> := map[];
    for n := 0 to |items|
      invariant Distinct(allowed, source, items[..n]) && ImagesOf(allowed, items[..n], images)
    {
      var item := items[n];
      OneMore(allowed, source, items, n, images);
      if item.kind !in allowed || item.kind in images {
        return Err(UnknownOrDuplicateKind);
      }
      if item.source != source {
        return Err(MixedSource);
      }
      if item.digest.None? || !IsDigest(item.digest.value) {
        return Err(BadDigest);
      }
      images := images[item.kind := allowed[item.kind] + "@" + item.digest.value];
    }
    assert items[..|items|] == items;
    CompleteWhenCovered(allowed, source, items, images);
    if images.Keys != allowed.Keys {
      return Err(Incomplete);
    }
    return Ok(Receipt(repository, branch, source, images, runId));
  }

  /** A set of files fixes the receipt: two receipts made from the same files
      list the same images. */
  lemma ImagesDetermined(allowed: map<string, string>, items: seq<ImageDigest>, a: map<string, string>,
                         b: map<string, string>)
    requires ImagesOf(allowed, items, a) && ImagesOf(allowed, items, b)
    ensures a == b
  {
    forall k | k in a.Keys + b.Keys
      ensures k in a && k in b && a[k] == b[k]
    {
      var i :| 0 <= i < |items| && items[i].kind == k;
    }
    assert a.Keys == b.Keys;
  }
}
