/** Decimal numbers, and splitting and joining of text. */
module Text {

  function Digit(n: nat): (c: char)
    requires n < 10
    ensures '0' <= c <= '9'
  {
    ('0' as int + n) as char
  }

  function Decimal(n: nat): (s: string)
    ensures s != "" && forall i :: 0 <= i < |s| ==> '0' <= s[i] <= '9'
  {
    if n < 10 then [Digit(n)] else Decimal(n / 10) + [Digit(n % 10)]
  }

  lemma {:induction false} DecimalInjective(m: nat, n: nat)
    requires Decimal(m) == Decimal(n)
    ensures m == n
  {
    var a, b := Decimal(m), Decimal(n);
    assert a[|a| - 1] == Digit(m % 10) && b[|b| - 1] == Digit(n % 10);
    assert m % 10 == n % 10;
    assert (m >= 10 <==> |a| >= 2) && (n >= 10 <==> |b| >= 2);
    if m >= 10 {
      assert a[..|a| - 1] == Decimal(m / 10) && b[..|b| - 1] == Decimal(n / 10);
      DecimalInjective(m / 10, n / 10);
    }
  }

  function Split(s: string, c: char): (parts: seq<string>)
    ensures parts != []
  {
    if s == "" then [""]
    else
      var rest := Split(s[1..], c);
      if s[0] == c then [""] + rest else [[s[0]] + rest[0]] + rest[1..]
  }

  function Join(parts: seq<string>, c: char): string {
    if parts == [] then ""
    else if |parts| == 1 then parts[0]
    else parts[0] + [c] + Join(parts[1..], c)
  }

  lemma {:induction false} SplitFirst(part: string, c: char, rest: string)
    requires c !in part
    ensures Split(part, c) == [part]
    ensures Split(part + [c] + rest, c) == [part] + Split(rest, c)
  {
    var s := part + [c] + rest;
    if part == "" {
      assert s[0] == c && s[1..] == rest;
    } else {
      SplitFirst(part[1..], c, rest);
      assert s[0] == part[0] && s[1..] == part[1..] + [c] + rest;
      assert [part[0]] + part[1..] == part;
    }
  }

  /** Splitting undoes joining. */
  lemma {:induction false} SplitJoin(parts: seq<string>, c: char)
    requires parts != [] && forall p :: p in parts ==> c !in p
    ensures Split(Join(parts, c), c) == parts
  {
    if |parts| == 1 {
      SplitFirst(parts[0], c, "");
    } else {
      SplitFirst(parts[0], c, Join(parts[1..], c));
      SplitJoin(parts[1..], c);
    }
  }

  predicate StartsWith(s: string, prefix: string) {
    |prefix| <= |s| && s[..|prefix|] == prefix
  }
  // -------------------------------------------------------------------- meaning

  /** Digits read in base ten, each worth its distance from '0'. */
  function InBaseTen(s: string): nat
    requires forall i :: 0 <= i < |s| ==> '0' <= s[i] <= '9'
  {
    if s == "" then 0 else 10 * InBaseTen(s[..|s| - 1]) + (s[|s| - 1] as int - '0' as int)
  }

  /** The decimal form of a number is read as that number, and has no leading zero. */
  lemma {:induction false} DecimalMeans(n: nat)
    ensures InBaseTen(Decimal(n)) == n && (Decimal(n)[0] == '0' <==> n == 0) && (|Decimal(n)| == 1 <==> n < 10)
  {
    var s := Decimal(n);
    if n < 10 {
      assert s[..0] == "";
    } else {
      DecimalMeans(n / 10);
      assert s[..|s| - 1] == Decimal(n / 10);
    }
  }

  lemma {:induction false} InBaseTenGrows(s: string)
    requires s != "" && s[0] != '0' && forall i :: 0 <= i < |s| ==> '0' <= s[i] <= '9'
    ensures InBaseTen(s) > 0
  {
    if |s| > 1 {
      InBaseTenGrows(s[..|s| - 1]);
    } else {
      assert s[..0] == "";
    }
  }

  /** And there is no other such form. */
  lemma {:induction false} OnlyDecimal(s: string)
    requires s != "" && forall i :: 0 <= i < |s| ==> '0' <= s[i] <= '9'
    requires s[0] == '0' ==> |s| == 1
    ensures Decimal(InBaseTen(s)) == s
  {
    var begin, last := s[..|s| - 1], s[|s| - 1];
    assert s == begin + [last];
    if begin != "" {
      InBaseTenGrows(begin);
      OnlyDecimal(begin);
    }
  }

  /** The parts have no separator in them, and joined again they are the text. */
  lemma {:induction false} SplitIs(s: string, c: char)
    ensures Join(Split(s, c), c) == s && forall p :: p in Split(s, c) ==> c !in p
  {
    if s != "" {
      var rest := Split(s[1..], c);
      SplitIs(s[1..], c);
      assert s == [s[0]] + s[1..];
      if s[0] == c {
        assert Split(s, c)[1..] == rest;
      } else {
        assert Split(s, c)[1..] == rest[1..];
        assert forall p :: p in Split(s, c) ==> p == [s[0]] + rest[0] || p in rest;
      }
    }
  }
}
