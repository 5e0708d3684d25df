/** The printed secrets and what becomes of them, spelled out character by character. */
module SecretsLaws {
  import opened Common
  import opened SecretsFile

  /** One of the eight characters that make a value be quoted. */
  predicate HasSpecial(value: string) {
    ' ' in value || '"' in value || '\'' in value || '\n' in value || '\t' in value || '#' in value ||
    '\\' in value || '$' in value
  }

  lemma SpecialIs(value: string)
    ensures HasSpecial(value) <==> NeedsQuotes(value)
    ensures !HasSpecial(value) ==> ' ' !in value && '\t' !in value
  {
    assert SPECIAL == {' ', '"', '\'', '\n', '\t', '#', '\\', '$'};
  }

  /** A value with one of them is written between quotes, with a backslash before
      every quote and backslash, and any other as it is. */
  lemma LineIs(key: string, value: string)
    ensures Line(key, value) == key + "=" + if HasSpecial(value) then "\"" + Escaped(value) + "\"" else value
    ensures Escaped("") == ""
    ensures value != "" ==>
              Escaped(value) ==
              (if value[0] == '"' then ['\\', '"'] else if value[0] == '\\' then ['\\', '\\'] else [value[0]]) +
              Escaped(value[1..])
  {
    SpecialIs(value);
    if value != "" {
      EscapedUnfolds(value);
    }
  }

  /** Up to some place the strings agree, and there the first ends or has the
      smaller character. */
  lemma {:induction false} SortedBefore(a: string, b: string)
    ensures LexLeq(a, b) <==>
            exists n: nat :: n <= |a| && n <= |b| && a[..n] == b[..n] && (n == |a| || (n < |b| && a[n] < b[n]))
  {
    if a == "" {
      assert a[..0] == b[..0];
    } else if b != "" && a[0] == b[0] {
      SortedBefore(a[1..], b[1..]);
      if n: nat :| n <= |a[1..]| && n <= |b[1..]| && a[1..][..n] == b[1..][..n] &&
                   (n == |a[1..]| || (n < |b[1..]| && a[1..][n] < b[1..][n]))
      {
        assert a[..n + 1] == [a[0]] + a[1..][..n] && b[..n + 1] == [b[0]] + b[1..][..n];
      }
      if n: nat :| n <= |a| && n <= |b| && a[..n] == b[..n] && (n == |a| || (n < |b| && a[n] < b[n])) {
        assert a[1..][..n - 1] == a[..n][1..] && b[1..][..n - 1] == b[..n][1..];
      }
    } else if b != "" {
      assert a[..0] == b[..0];
      forall n: nat | 0 < n <= |a| && n <= |b|
        ensures a[..n] != b[..n]
      {
        assert a[..n][0] == a[0] && b[..n][0] == b[0];
      }
    }
  }

  lemma {:induction false} LinesConcat(a: seq<string>, b: seq<string>, secrets: map<string, string>)
    requires forall k :: k in a + b ==> k in secrets
    ensures (forall k :: k in a ==> k in secrets) && forall k :: k in b ==> k in secrets
    ensures Lines(a + b, secrets) == Lines(a, secrets) + Lines(b, secrets)
  {
    assert forall k :: k in a || k in b ==> k in a + b;
    if a == [] {
      assert a + b == b;
    } else {
      assert (a + b)[1..] == a[1..] + b;
      LinesConcat(a[1..], b, secrets);
    }
  }

  lemma {:induction false} LinesSame(keys: seq<string>, a: map<string, string>, b: map<string, string>)
    requires forall k :: k in keys ==> k in a && k in b && a[k] == b[k]
    ensures Lines(keys, a) == Lines(keys, b)
  {
    if keys != [] {
      LinesSame(keys[1..], a, b);
    }
  }

  lemma SortedUnfolds(keys: set<string>, first: string)
    requires IsLeast(first, keys)
    ensures SortedKeys(keys) == [first] + SortedKeys(keys - {first})
  {
    hide LexLeq;
    LeastIsUnique(keys);
  }

  lemma OnlyKey(keys: set<string>, key: string)
    requires IsLeast(key, keys) && forall k :: k in keys ==> LexLeq(k, key)
    ensures keys == {key}
  {
    forall k | k in keys
      ensures k == key
    {
      LexTotal(k, key);
    }
  }

  /** The key after all others is the last. */
  lemma {:induction false} LastIsLast(keys: set<string>, last: string)
    requires last in keys && forall k :: k in keys ==> LexLeq(k, last)
    ensures SortedKeys(keys) == SortedKeys(keys - {last}) + [last]
    decreases |keys|
  {
    hide SortedKeys, LexLeq;
    var first := Least(keys);
    SortedUnfolds(keys, first);
    if first == last {
      OnlyKey(keys, last);
      assert keys - {last} == {};
      NoKeys();
    } else {
      SortedUnfolds(keys - {last}, first);
      LastIsLast(keys - {first}, last);
      assert keys - {first} - {last} == keys - {last} - {first};
    }
  }

  lemma NoKeys()
    ensures SortedKeys({}) == []
  {
  }

  lemma OneLine(key: string, secrets: map<string, string>)
    requires key in secrets
    ensures Lines([key], secrets) == Line(key, secrets[key]) + "\n"
  {
    assert [key][1..] == [];
  }

  lemma LinesOfLast(secrets: map<string, string>, last: string)
    requires last in secrets && forall k :: k in secrets ==> LexLeq(k, last)
    ensures var others := secrets - {last};
            Lines(SortedKeys(secrets.Keys), secrets) ==
            Lines(SortedKeys(others.Keys), others) + (Line(last, secrets[last]) + "\n")
  {
    var others := secrets - {last};
    assert others.Keys == secrets.Keys - {last};
    var keys := SortedKeys(others.Keys);
    LastIsLast(secrets.Keys, last);
    OneLine(last, secrets);
    hide Line, LexLeq, SortedKeys, Lines;
    LinesConcat(keys, [last], secrets);
    LinesSame(keys, secrets, others);
  }

  lemma Regrouped(a: string, b: string, c: string, d: string)
    ensures a + (b + (c + d)) == a + b + c + d
  {
  }

  /** The secret whose key comes after all others has the last line. */
  lemma LastLine(secrets: map<string, string>, last: string)
    requires last in secrets && forall k :: k in secrets ==> LexLeq(k, last)
    ensures Content(secrets) == Content(secrets - {last}) + Line(last, secrets[last]) + "\n"
  {
    hide Line, LexLeq, SortedKeys, Lines;
    LinesOfLast(secrets, last);
    var others := secrets - {last};
    Regrouped(HEADER[0] + "\n" + HEADER[1] + "\n", Lines(SortedKeys(others.Keys), others),
              Line(last, secrets[last]), "\n");
  }

  /** Without secrets the file is two comment lines. */
  lemma NoSecrets()
    ensures Content(map[]) ==
            "# TBD Platform - injected secrets" + "\n" + "# Auto-generated \U{2014} do not edit" + "\n"
  {
    NoKeys();
    var none: map<string, string> := map[];
    assert none.Keys == {} && Lines([], none) == "";
  }

  // ---------------------------------------------------------------- its readers

  /** A reader that drops blanks and carriage returns at the ends of unquoted
      values recovers the secrets exactly when no value without a special character
      begins or ends with a carriage return. */
  lemma ReadsBackIff(secrets: map<string, string>)
    requires KeysOk(secrets)
    ensures Read(Content(secrets), {' ', '\t', '\r'}, map[]) == secrets <==>
            forall k :: k in secrets && !HasSpecial(secrets[k]) && secrets[k] != "" ==>
              secrets[k][0] != '\r' && secrets[k][|secrets[k]| - 1] != '\r'
  {
    hide Read, Content, HasSpecial, NeedsQuotes, IsKey;
    RoundTripIff(secrets, {' ', '\t', '\r'});
    forall k | k in secrets
      ensures HasSpecial(secrets[k]) <==> NeedsQuotes(secrets[k])
      ensures !HasSpecial(secrets[k]) ==> ' ' !in secrets[k] && '\t' !in secrets[k]
    {
      SpecialIs(secrets[k]);
    }
  }

  /** A tilde at `i`, at the start of the value or after a colon, and a name that
      stands for a directory between it and `j`, the next slash, colon or end. */
  predicate TildeAt(value: string, i: nat, j: nat, homes: set<string>) {
    i < j <= |value| && value[i] == '~' && (i == 0 || value[i - 1] == ':') &&
    (j == |value| || value[j] == '/' || value[j] == ':') &&
    (forall n :: i < n < j ==> value[n] != '/' && value[n] != ':') && value[i + 1..j] in homes
  }

  ghost predicate TildeExpands(value: string, homes: set<string>) {
    exists i, j :: TildeAt(value, i, j, homes)
  }

  lemma {:induction false} TildeNameIs(s: string)
    ensures var n := |TildeName(s)|;
            n <= |s| && TildeName(s) == s[..n] && (n == |s| || s[n] == '/' || s[n] == ':') &&
            forall i :: 0 <= i < n ==> s[i] != '/' && s[i] != ':'
  {
    if s != "" && s[0] != '/' && s[0] != ':' {
      TildeNameIs(s[1..]);
      assert s == [s[0]] + s[1..];
    }
  }

  lemma TildeFrom(value: string, i: nat, homes: set<string>)
    requires i < |value|
    ensures value[i] == '~' && (i == 0 || value[i - 1] == ':') && TildeName(value[i + 1..]) in homes <==>
            exists j :: TildeAt(value, i, j, homes)
  {
    var rest := value[i + 1..];
    TildeNameIs(rest);
    hide TildeName;
    var j := i + 1 + |TildeName(rest)|;
    assert value[i + 1..j] == TildeName(rest);
    assert forall n :: i < n < |value| ==> value[n] == rest[n - i - 1];
    forall j' | TildeAt(value, i, j', homes)
      ensures j' == j
    {
    }
    assert TildeAt(value, i, j, homes) <==>
             value[i] == '~' && (i == 0 || value[i - 1] == ':') && TildeName(rest) in homes;
  }

  lemma TildeIff(value: string, homes: set<string>)
    ensures HasTilde(value, homes) <==> TildeExpands(value, homes)
  {
    hide TildeName, TildeAt;
    if HasTilde(value, homes) {
      var i :| 0 <= i < |value| && value[i] == '~' && (i == 0 || value[i - 1] == ':') &&
        TildeName(value[i + 1..]) in homes;
      TildeFrom(value, i, homes);
    }
    if i: nat, j: nat :| TildeAt(value, i, j, homes) {
      TildeInside(value, i, j, homes);
      TildeFrom(value, i, homes);
    }
  }

  lemma TildeInside(value: string, i: nat, j: nat, homes: set<string>)
    requires TildeAt(value, i, j, homes)
    ensures i < |value|
  {
  }

  /** A shell takes the printed value as it is. */
  ghost predicate TakenAsIs(value: string, sh: Shell) {
    if HasSpecial(value) then
      '`' !in value && forall i :: 0 <= i < |value| - 1 && value[i] == '$' ==> value[i + 1] !in sh.expands
    else
      (forall i :: 0 <= i < |value| ==> value[i] !in ";&|<>()`") && !TildeExpands(value, sh.homes)
  }

  /** Sourcing the file recovers the secrets exactly when no value with a special
      character has a backtick or a dollar that starts an expansion, and no other an
      operator or a tilde that expands; and it assigns nothing else. */
  lemma SourcesBackIff(secrets: map<string, string>, sh: Shell)
    requires KeysOk(secrets) && sh.expands !! {'"', '\\'}
    ensures Source(Content(secrets), sh, map[]) ==
            if forall k :: k in secrets ==> TakenAsIs(secrets[k], sh) then Some(secrets) else None
  {
    hide Source, Content, TakenAsIs, SafeToSource, IsKey;
    SourcedIff(secrets, sh);
    forall k | k in secrets
      ensures SafeToSource(secrets[k], sh) <==> TakenAsIs(secrets[k], sh)
    {
      SafeIffTaken(secrets[k], sh);
    }
  }

  lemma SafeIffTaken(value: string, sh: Shell)
    ensures SafeToSource(value, sh) <==> TakenAsIs(value, sh)
  {
    SpecialIs(value);
    TildeIff(value, sh.homes);
    assert OPERATORS == {';', '&', '|', '<', '>', '(', ')', '`'};
    hide HasTilde, TildeExpands, NeedsQuotes, HasSpecial;
  }

  /** What a secret may be called. */
  lemma KeyIff(k: string)
    ensures IsKey(k) <==>
            k != "" && k[0] in "ABCDEFGHIJKLMNOPQRSTUVWXYZ_" &&
            forall i :: 0 <= i < |k| ==> k[i] in "ABCDEFGHIJKLMNOPQRSTUVWXYZ" || k[i] in "0123456789_"
  {
    forall c: char
      ensures c in "ABCDEFGHIJKLMNOPQRSTUVWXYZ" <==> 'A' <= c <= 'Z'
      ensures c in "ABCDEFGHIJKLMNOPQRSTUVWXYZ_" <==> 'A' <= c <= 'Z' || c == '_'
      ensures c in "0123456789_" <==> '0' <= c <= '9' || c == '_'
    {
      IsLetter(c);
      assert "ABCDEFGHIJKLMNOPQRSTUVWXYZ_" == "ABCDEFGHIJKLMNOPQRSTUVWXYZ" + "_";
      assert '0' <= c <= '9' ==> "0123456789_"[c as int - '0' as int] == c;
    }
  }

  lemma IsLetter(c: char)
    ensures c in "ABCDEFGHIJKLMNOPQRSTUVWXYZ" <==> 'A' <= c <= 'Z'
  {
    assert 'A' <= c <= 'Z' ==> "ABCDEFGHIJKLMNOPQRSTUVWXYZ"[c as int - 'A' as int] == c;
  }
}
