/** The secrets environment file: how it is printed, what the init script's shell
    makes of it when it sources it, and what a reader of "EnvironmentFile="
    (systemd.exec(5)), the format it is written for, would. */
module SecretsFile {
  import opened Common

  // ------------------------------------------------------------------ printing

  const SPECIAL := {' ', '"', '\'', '\n', '\t', '#', '\\', '$'}

  const HEADER := ["# TBD Platform - injected secrets", "# Auto-generated \U{2014} do not edit"]

  predicate NeedsQuotes(value: string) {
    exists i :: 0 <= i < |value| && value[i] in SPECIAL
  }

  /** Every occurrence of a character, replaced by a string. */
  function Replace(s: string, c: char, text: string): string {
    if s == "" then "" else (if s[0] == c then text else [s[0]]) + Replace(s[1..], c, text)
  }

  function Escaped(value: string): string {
    Replace(Replace(value, '\\', "\\\\"), '"', "\\\"")
  }

  function Line(key: string, value: string): string {
    key + "=" + if NeedsQuotes(value) then "\"" + Escaped(value) + "\"" else value
  }

  /** The assignment lines, each ended by a newline. */
  function Lines(keys: seq<string>, secrets: map<string, string>): string
    requires forall k :: k in keys ==> k in secrets
  {
    if keys == [] then "" else Line(keys[0], secrets[keys[0]]) + "\n" + Lines(keys[1..], secrets)
  }

  function Content(secrets: map<string, string>): string {
    HEADER[0] + "\n" + HEADER[1] + "\n" + Lines(SortedKeys(secrets.Keys), secrets)
  }

  /** Keys a secret may have. */
  predicate IsKey(k: string) {
    k != "" && ('A' <= k[0] <= 'Z' || k[0] == '_') &&
    forall i :: 0 <= i < |k| ==> 'A' <= k[i] <= 'Z' || '0' <= k[i] <= '9' || k[i] == '_'
  }

  // ------------------------------------------------------------------- sorting

  /** Order by code point, a prefix first. */
  predicate LexLeq(a: string, b: string) {
    a == "" || (b != "" && (a[0] < b[0] || (a[0] == b[0] && LexLeq(a[1..], b[1..]))))
  }

  lemma {:induction false} LexTotal(a: string, b: string)
    ensures LexLeq(a, b) || LexLeq(b, a)
    ensures LexLeq(a, b) && LexLeq(b, a) ==> a == b
  {
    if a != "" && b != "" && a[0] == b[0] {
      LexTotal(a[1..], b[1..]);
      assert a == [a[0]] + a[1..] && b == [b[0]] + b[1..];
    }
  }

  lemma {:induction false} LexTransitive(a: string, b: string, c: string)
    requires LexLeq(a, b) && LexLeq(b, c)
    ensures LexLeq(a, c)
  {
    if a != "" && a[0] == b[0] == c[0] {
      LexTransitive(a[1..], b[1..], c[1..]);
    }
  }

  predicate IsLeast(k: string, keys: set<string>) {
    k in keys && forall j :: j in keys ==> LexLeq(k, j)
  }

  lemma LeastExists(keys: set<string>) returns (k: string)
    requires keys != {}
    ensures IsLeast(k, keys)
  {
    k :| k in keys;
    LexTotal(k, k);
    if keys != {k} {
      var rest := LeastExists(keys - {k});
      LexTotal(k, rest);
      if LexLeq(rest, k) {
        k := rest;
      } else {
        forall j | j in keys
          ensures LexLeq(k, j)
        {
          if j != k {
            LexTransitive(k, rest, j);
          }
        }
      }
    }
  }

  lemma LeastIsUnique(keys: set<string>)
    requires keys != {}
    ensures exists k :: IsLeast(k, keys)
    ensures forall a, b :: IsLeast(a, keys) && IsLeast(b, keys) ==> a == b
  {
    var k := LeastExists(keys);
    forall a, b | IsLeast(a, keys) && IsLeast(b, keys)
      ensures a == b
    {
      LexTotal(a, b);
    }
  }

  function Least(keys: set<string>): (k: string)
    requires keys != {}
    ensures IsLeast(k, keys)
  {
    LeastIsUnique(keys);
    var k :| k in keys && IsLeast(k, keys);
    k
  }

  function SortedKeys(keys: set<string>): (sorted: seq<string>)
    ensures forall k :: k in sorted <==> k in keys
    ensures |sorted| == |keys|
    ensures forall i, j :: 0 <= i < j < |sorted| ==> LexLeq(sorted[i], sorted[j])
  {
    if keys == {} then []
    else
      var k := Least(keys);
      [k] + SortedKeys(keys - {k})
  }

  lemma LinesFrom(before: string, keys: seq<string>, n: nat, secrets: map<string, string>)
    requires n <= |keys| && forall k :: k in keys ==> k in secrets
    ensures n == |keys| ==> before + Lines(keys[n..], secrets) == before
    ensures n < |keys| ==>
              before + Lines(keys[n..], secrets) ==
              before + Line(keys[n], secrets[keys[n]]) + "\n" + Lines(keys[n + 1..], secrets)
  {
    if n < |keys| {
      assert keys[n..][0] == keys[n] && keys[n..][1..] == keys[n + 1..];
    }
  }

  /** Appends one line per secret in key order. */
  method GenerateSecretsEnvContent(secrets: map<string, string>) returns (content: string)
    ensures content == Content(secrets)
  {
    hide Lines, Replace, SortedKeys, Escaped, NeedsQuotes;
    content := HEADER[0] + "\n" + HEADER[1] + "\n";
    var keys := SortedKeys(secrets.Keys);
    assert keys[0..] == keys;
    for n := 0 to |keys|
      invariant content + Lines(keys[n..], secrets) == Content(secrets)
    {
      var key, value := keys[n], secrets[keys[n]];
      LinesFrom(content, keys, n, secrets);
      var line;
      if NeedsQuotes(value) {
        line := key + "=\"" + Escaped(value) + "\"";
        assert line == key + "=" + ("\"" + Escaped(value) + "\"");
      } else {
        line := key + "=" + value;
      }
      assert line == Line(key, value);
      content := content + line + "\n";
    }
    LinesFrom(content, keys, |keys|, secrets);
  }

  // ------------------------------------------------------------------- reading

  function LineEnd(s: string): (n: nat)
    ensures n <= |s| && (n < |s| ==> s[n] == '\n') && forall i :: 0 <= i < n ==> s[i] != '\n'
  {
    if s == "" || s[0] == '\n' then 0 else 1 + LineEnd(s[1..])
  }

  /** What follows the current line. */
  function AfterLine(s: string): (rest: string)
    ensures |rest| <= |s| && (s != "" ==> |rest| < |s|)
  {
    var n := LineEnd(s);
    if n == |s| then "" else s[n + 1..]
  }

  /** Where the key ends: at the first '=' or, failing that, with the line. */
  function KeyEnd(s: string): (n: nat)
    ensures n <= |s| && (n < |s| ==> s[n] == '=' || s[n] == '\n')
    ensures forall i :: 0 <= i < n ==> s[i] != '=' && s[i] != '\n'
  {
    if s == "" || s[0] == '=' || s[0] == '\n' then 0 else 1 + KeyEnd(s[1..])
  }

  function TrimLeft(s: string, trim: set<char>): (r: string)
    ensures |r| <= |s|
  {
    if s != "" && s[0] in trim then TrimLeft(s[1..], trim) else s
  }

  function TrimRight(s: string, trim: set<char>): string {
    if s != "" && s[|s| - 1] in trim then TrimRight(s[..|s| - 1], trim) else s
  }

  function Trim(s: string, trim: set<char>): string {
    TrimRight(TrimLeft(s, trim), trim)
  }

  /** What means something between double quotes besides quote and backslash:
      the characters of `stops`, and a dollar before one of `expands`. */
  datatype Quotes = Quotes(stops: set<char>, expands: set<char>)

  /** Nothing does. */
  const VERBATIM := Quotes({}, {})

  /** The inside of double quotes: a backslash keeps a quote, a backslash, a
      dollar or a backtick from meaning anything, joins lines, and otherwise
      stands for itself. None when the quotes never close or what is between them
      is not to be taken literally. */
  function Unquote(s: string, q: Quotes): (r: Option<(string, string)>)
    ensures r.Some? ==> |r.value.1| < |s|
  {
    if s == "" then None
    else if s[0] == '"' then Some(("", s[1..]))
    else if s[0] in q.stops || (s[0] == '$' && |s| > 1 && s[1] in q.expands) then None
    else if s[0] == '\\' then
      if |s| == 1 then None
      else
        match Unquote(s[2..], q)
        case None => None
        case Some((value, rest)) => Some((Backslashed(s[1]) + value, rest))
    else
      match Unquote(s[1..], q)
      case None => None
      case Some((value, rest)) => Some(([s[0]] + value, rest))
  }

  function Backslashed(c: char): string {
    if c in {'"', '\\', '$', '`'} then [c] else if c == '\n' then "" else ['\\', c]
  }

  /** Assignments add up, the last one of a key winning; comment and empty lines,
      and lines without '=', are passed over. Leading and trailing characters of
      `trim` are dropped from values that are not quoted. */
  function Read(s: string, trim: set<char>, env: map<string, string>): map<string, string>
    decreases |s|
  {
    if s == "" then env
    else if s[0] == '#' || s[0] == ';' then Read(AfterLine(s), trim, env)
    else
      var n := KeyEnd(s);
      if n == |s| || s[n] == '\n' then Read(AfterLine(s), trim, env)
      else
        var key, after := s[..n], s[n + 1..];
        var text := TrimLeft(after, trim);
        if text != "" && text[0] == '"' then
          match Unquote(text[1..], VERBATIM)
          case None => env
          case Some((value, rest)) => Read(AfterLine(rest), trim, env[key := value])
        else
          var line := after[..LineEnd(after)];
          Read(AfterLine(after), trim, env[key := Trim(line, trim)])
  }

  // ------------------------------------------------------------------ sourcing

  /** What differs between shells and systems: the characters that make a dollar
      before them an expansion, and the names whose tilde stands for a directory,
      "" among them when the variable HOME is set. */
  datatype Shell = Shell(expands: set<char>, homes: set<string>)

  /** Characters that end a word or start a command, unquoted. */
  const OPERATORS := {';', '&', '|', '<', '>', '(', ')', '`'}

  predicate IsName(k: string) {
    k != "" && !('0' <= k[0] <= '9') &&
    forall i :: 0 <= i < |k| ==> 'A' <= k[i] <= 'Z' || 'a' <= k[i] <= 'z' || '0' <= k[i] <= '9' || k[i] == '_'
  }

  function TildeName(s: string): string {
    if s == "" || s[0] in {'/', ':'} then "" else [s[0]] + TildeName(s[1..])
  }

  /** In an assignment a tilde stands for a directory at the start of the value
      and after a colon. */
  predicate HasTilde(value: string, homes: set<string>) {
    exists i :: 0 <= i < |value| && value[i] == '~' && (i == 0 || value[i - 1] == ':') &&
      TildeName(value[i + 1..]) in homes
  }

  /** An unquoted value that a shell takes as it stands. */
  predicate IsWord(value: string, sh: Shell) {
    !NeedsQuotes(value) && (forall c :: c in value ==> c !in OPERATORS) && !HasTilde(value, sh.homes)
  }

  /** A shell (POSIX.1-2017, "Shell Command Language", sections 2.2, 2.6 and 2.9.1)
      that sources the file: the variables it ends up with when all lines are
      comments, empty, or assignments of literal values, and None when anything
      in it is expanded, joined or run. */
  function Source(s: string, sh: Shell, env: map<string, string>): Option<map<string, string>>
    decreases |s|
  {
    if s == "" then Some(env)
    else if s[0] == '#' || s[0] == '\n' then Source(AfterLine(s), sh, env)
    else
      var n := KeyEnd(s);
      if n == |s| || s[n] == '\n' || !IsName(s[..n]) then None
      else
        var key, after := s[..n], s[n + 1..];
        if after != "" && after[0] == '"' then
          match Unquote(after[1..], Quotes({'`'}, sh.expands))
          case None => None
          case Some((value, rest)) =>
            if rest != "" && rest[0] != '\n' then None else Source(AfterLine(rest), sh, env[key := value])
        else
          var line := after[..LineEnd(after)];
          if IsWord(line, sh) then Source(AfterLine(after), sh, env[key := line]) else None
  }

  // ---------------------------------------------------------------- round trip

  /** One character as it is written between quotes. */
  function EscapedChar(c: char): string {
    if c == '\\' then "\\\\" else if c == '"' then "\\\"" else [c]
  }

  lemma {:induction false} ReplaceConcat(a: string, b: string, c: char, text: string)
    ensures Replace(a + b, c, text) == Replace(a, c, text) + Replace(b, c, text)
  {
    if a == "" {
      assert a + b == b;
    } else {
      assert (a + b)[1..] == a[1..] + b;
      ReplaceConcat(a[1..], b, c, text);
    }
  }

  /** The two replacements, backslashes first, escape each character once. */
  lemma EscapedUnfolds(value: string)
    requires value != ""
    ensures Escaped(value) == EscapedChar(value[0]) + Escaped(value[1..])
  {
    var c := value[0];
    var head := if c == '\\' then "\\\\" else [c];
    assert Replace(value, '\\', "\\\\") == head + Replace(value[1..], '\\', "\\\\");
    ReplaceConcat(head, Replace(value[1..], '\\', "\\\\"), '"', "\\\"");
    assert Replace(head, '"', "\\\"") == EscapedChar(c) by {
      assert head[1..] == "" || head[1..] == "\\";
      assert Replace("\\", '"', "\\\"") == "\\" + Replace("", '"', "\\\"");
    }
  }

  /** Nothing in the value means anything between such quotes. */
  predicate IsLiteral(value: string, q: Quotes) {
    forall i :: 0 <= i < |value| ==>
      value[i] !in q.stops && (value[i] == '$' && i + 1 < |value| ==> value[i + 1] !in q.expands)
  }

  lemma LiteralUnfolds(value: string, q: Quotes)
    requires value != ""
    ensures IsLiteral(value, q) <==>
            value[0] !in q.stops && (value[0] == '$' && |value| > 1 ==> value[1] !in q.expands) &&
            IsLiteral(value[1..], q)
  {
    var tail := value[1..];
    if IsLiteral(tail, q) {
      forall i | 1 <= i < |value|
        ensures value[i] !in q.stops && (value[i] == '$' && i + 1 < |value| ==> value[i + 1] !in q.expands)
      {
        assert value[i] == tail[i - 1];
      }
    }
  }

  /** A reader undoes the escaping, whatever follows the closing quote, exactly
      when it takes the value literally. */
  lemma {:induction false} UnquoteEscaped(value: string, rest: string, q: Quotes)
    requires q.stops !! {'"', '\\'} && q.expands !! {'"', '\\'}
    ensures Unquote(Escaped(value) + "\"" + rest, q) == if IsLiteral(value, q) then Some((value, rest)) else None
  {
    if value == "" {
      assert Escaped("") == "";
      assert "" + "\"" + rest == ['"'] + rest;
    } else {
      var c := value[0];
      var written, tail := Escaped(value) + "\"" + rest, Escaped(value[1..]) + "\"" + rest;
      EscapedUnfolds(value);
      LiteralUnfolds(value, q);
      UnquoteEscaped(value[1..], rest, q);
      NextWritten(value[1..], rest);
      assert written == EscapedChar(c) + tail;
      if c == '\\' || c == '"' {
        assert written[0] == '\\' && written[1] == c && written[2..] == tail;
      } else {
        assert written[0] == c && written[1] == tail[0] && written[1..] == tail;
      }
      assert [c] + value[1..] == value;
    }
  }

  lemma NextWritten(value: string, rest: string)
    ensures var written := Escaped(value) + "\"" + rest;
            written != "" && if value == "" then written[0] == '"' else written[0] == EscapedChar(value[0])[0]
  {
    if value == "" {
      assert Escaped("") == "";
    } else {
      EscapedUnfolds(value);
    }
  }

  /** What a reader gets for a value. */
  function Got(value: string, trim: set<char>): string {
    if NeedsQuotes(value) then value else Trim(value, trim)
  }

  lemma {:induction false} KeyEndOf(key: string, after: string)
    requires forall i :: 0 <= i < |key| ==> key[i] != '=' && key[i] != '\n'
    ensures KeyEnd(key + "=" + after) == |key|
  {
    if key == "" {
      assert key + "=" + after == ['='] + after;
    } else {
      KeyEndOf(key[1..], after);
      assert (key + "=" + after)[1..] == key[1..] + "=" + after;
    }
  }

  lemma {:induction false} LineEndOf(line: string, after: string)
    requires forall i :: 0 <= i < |line| ==> line[i] != '\n'
    ensures LineEnd(line + "\n" + after) == |line|
    ensures AfterLine(line + "\n" + after) == after
  {
    if line == "" {
      assert line + "\n" + after == ['\n'] + after;
    } else {
      LineEndOf(line[1..], after);
      assert (line + "\n" + after)[1..] == line[1..] + "\n" + after;
    }
  }

  ghost predicate Printable(key: string) {
    key != "" && key[0] != '#' && key[0] != ';' && forall i :: 0 <= i < |key| ==> key[i] != '=' && key[i] != '\n'
  }

  lemma {:induction false} TrimLeftPrefix(line: string, after: string, trim: set<char>)
    requires '\n' !in trim
    ensures var r := TrimLeft(line + "\n" + after, trim);
            r != "" && (r[0] == '\n' || r[0] in line)
  {
    if line == "" {
      assert line + "\n" + after == ['\n'] + after;
    } else if line[0] in trim {
      assert (line + "\n" + after)[1..] == line[1..] + "\n" + after;
      TrimLeftPrefix(line[1..], after, trim);
    } else {
      assert (line + "\n" + after)[0] == line[0];
    }
  }

  lemma ReadQuoted(key: string, value: string, rest: string, trim: set<char>, env: map<string, string>)
    requires Printable(key) && '"' !in trim
    ensures Read(key + "=" + ("\"" + (Escaped(value) + "\"" + ("\n" + rest))), trim, env) ==
            Read(rest, trim, env[key := value])
  {
    hide Escaped, NeedsQuotes, Trim;
    var after := "\"" + (Escaped(value) + "\"" + ("\n" + rest));
    var s := key + "=" + after;
    KeyEndOf(key, after);
    assert s[..|key|] == key && s[|key| + 1..] == after;
    assert after[0] == '"' && TrimLeft(after, trim) == after;
    assert after[1..] == Escaped(value) + "\"" + ("\n" + rest);
    UnquoteEscaped(value, "\n" + rest, VERBATIM);
    assert LineEnd("\n" + rest) == 0 && AfterLine("\n" + rest) == rest;
  }

  lemma ReadPlain(key: string, value: string, rest: string, trim: set<char>, env: map<string, string>)
    requires Printable(key) && '\n' !in trim && '"' !in trim && !NeedsQuotes(value)
    ensures Read(key + "=" + (value + "\n" + rest), trim, env) == Read(rest, trim, env[key := Trim(value, trim)])
  {
    hide Escaped, Unquote, Trim, TrimLeft, AfterLine, LineEnd;
    var after := value + "\n" + rest;
    var s := key + "=" + after;
    KeyEndOf(key, after);
    assert s[..|key|] == key && s[|key| + 1..] == after;
    TrimLeftPrefix(value, rest, trim);
    LineEndOf(value, rest);
    assert after[..|value|] == value;
  }

  /** Reading one printed line assigns the key what a reader gets for its value. */
  lemma ReadLine(key: string, value: string, rest: string, trim: set<char>, env: map<string, string>)
    requires Printable(key) && '\n' !in trim && '"' !in trim
    ensures Read(Line(key, value) + "\n" + rest, trim, env) == Read(rest, trim, env[key := Got(value, trim)])
  {
    hide Read, Escaped, Trim, NeedsQuotes;
    var s := Line(key, value) + "\n" + rest;
    if NeedsQuotes(value) {
      assert s == key + "=" + ("\"" + (Escaped(value) + "\"" + ("\n" + rest)));
      ReadQuoted(key, value, rest, trim, env);
    } else {
      assert s == key + "=" + (value + "\n" + rest);
      ReadPlain(key, value, rest, trim, env);
    }
  }

  function Assigned(keys: seq<string>, secrets: map<string, string>, trim: set<char>,
                    env: map<string, string>): map<string, string>
    requires forall k :: k in keys ==> k in secrets
  {
    if keys == [] then env else Assigned(keys[1..], secrets, trim, env[keys[0] := Got(secrets[keys[0]], trim)])
  }

  lemma {:induction false} ReadLines(keys: seq<string>, secrets: map<string, string>, trim: set<char>,
                                     env: map<string, string>)
    requires forall k :: k in keys ==> k in secrets && IsKey(k)
    requires '\n' !in trim && '"' !in trim
    ensures Read(Lines(keys, secrets), trim, env) == Assigned(keys, secrets, trim, env)
  {
    if keys != [] {
      var key := keys[0];
      assert key in keys;
      ReadLine(key, secrets[key], Lines(keys[1..], secrets), trim, env);
      assert forall k :: k in keys[1..] ==> k in keys;
      ReadLines(keys[1..], secrets, trim, env[key := Got(secrets[key], trim)]);
    }
  }

  lemma {:induction false} AssignedIs(keys: seq<string>, secrets: map<string, string>, trim: set<char>,
                                      env: map<string, string>)
    requires forall k :: k in keys ==> k in secrets
    ensures var r := Assigned(keys, secrets, trim, env);
            r.Keys == env.Keys + (set k | k in keys) &&
            forall k :: k in r ==> r[k] == if k in keys then Got(secrets[k], trim) else env[k]
  {
    if keys != [] {
      assert forall k :: k in keys <==> k == keys[0] || k in keys[1..];
      AssignedIs(keys[1..], secrets, trim, env[keys[0] := Got(secrets[keys[0]], trim)]);
    }
  }

  lemma AllAssigned(secrets: map<string, string>, trim: set<char>)
    ensures Assigned(SortedKeys(secrets.Keys), secrets, trim, map[]) == map k | k in secrets :: Got(secrets[k], trim)
  {
    hide Assigned, SortedKeys, Got;
    AssignedIs(SortedKeys(secrets.Keys), secrets, trim, map[]);
  }

  lemma ReadHeader(rest: string, trim: set<char>)
    ensures Read(HEADER[0] + "\n" + HEADER[1] + "\n" + rest, trim, map[]) == Read(rest, trim, map[])
  {
    var second := HEADER[1] + "\n" + rest;
    var s := HEADER[0] + "\n" + HEADER[1] + "\n" + rest;
    assert s == HEADER[0] + "\n" + second;
    LineEndOf(HEADER[0], second);
    LineEndOf(HEADER[1], rest);
    assert s[0] == HEADER[0][0] == '#' && second[0] == HEADER[1][0] == '#';
  }

  ghost predicate KeysOk(secrets: map<string, string>) {
    forall k :: k in secrets ==> IsKey(k)
  }

  /** A reader gets every key, and for each the value up to trimming. */
  lemma ReadContent(secrets: map<string, string>, trim: set<char>)
    requires KeysOk(secrets) && '\n' !in trim && '"' !in trim
    ensures Read(Content(secrets), trim, map[]) == map k | k in secrets :: Got(secrets[k], trim)
  {
    hide Read, Lines, Assigned, Got, SortedKeys, IsKey;
    var keys := SortedKeys(secrets.Keys);
    assert forall k :: k in keys ==> k in secrets && IsKey(k);
    ReadHeader(Lines(keys, secrets), trim);
    ReadLines(keys, secrets, trim, map[]);
    AllAssigned(secrets, trim);
  }

  /** A reader that trims unquoted values recovers the secrets exactly when no
      value that was left unquoted begins or ends with a trimmed character. */
  lemma RoundTripIff(secrets: map<string, string>, trim: set<char>)
    requires KeysOk(secrets) && '\n' !in trim && '"' !in trim
    ensures Read(Content(secrets), trim, map[]) == secrets <==>
            forall k :: k in secrets && !NeedsQuotes(secrets[k]) && secrets[k] != "" ==>
              secrets[k][0] !in trim && secrets[k][|secrets[k]| - 1] !in trim
  {
    hide Read, Content, Trim, NeedsQuotes, IsKey;
    ReadContent(secrets, trim);
    forall k | k in secrets && !NeedsQuotes(secrets[k])
      ensures Got(secrets[k], trim) == secrets[k] <==>
              (secrets[k] != "" ==> secrets[k][0] !in trim && secrets[k][|secrets[k]| - 1] !in trim)
    {
      TrimKeepsIff(secrets[k], trim);
    }
  }

  lemma {:induction false} TrimRightShrinks(s: string, trim: set<char>)
    ensures |TrimRight(s, trim)| <= |s| && (TrimRight(s, trim) == s <==> s == "" || s[|s| - 1] !in trim)
  {
    if s != "" && s[|s| - 1] in trim {
      TrimRightShrinks(s[..|s| - 1], trim);
    }
  }

  lemma Untrimmed(value: string)
    ensures Got(value, {}) == value
  {
    TrimKeepsIff(value, {});
  }

  lemma TrimKeepsIff(s: string, trim: set<char>)
    ensures Trim(s, trim) == s <==> (s != "" ==> s[0] !in trim && s[|s| - 1] !in trim)
  {
    TrimRightShrinks(TrimLeft(s, trim), trim);
    if s != "" && s[0] in trim {
      assert |TrimLeft(s, trim)| <= |s[1..]|;
    }
  }

  /** A reader that keeps unquoted values as they stand always recovers the
      secrets, so different secrets never print the same file. */
  lemma ContentIsInjective(a: map<string, string>, b: map<string, string>)
    requires KeysOk(a) && KeysOk(b)
    ensures Read(Content(a), {}, map[]) == a
    ensures Content(a) == Content(b) ==> a == b
  {
    RoundTripIff(a, {});
    RoundTripIff(b, {});
  }

  // ------------------------------------------------------- round trip, sourced

  /** A value that its printed form makes the shell take as it is. */
  predicate SafeToSource(value: string, sh: Shell) {
    if NeedsQuotes(value) then
      '`' !in value && forall i :: 0 <= i < |value| - 1 && value[i] == '$' ==> value[i + 1] !in sh.expands
    else
      (forall c :: c in value ==> c !in OPERATORS) && !HasTilde(value, sh.homes)
  }

  lemma SourceQuoted(key: string, value: string, rest: string, sh: Shell, env: map<string, string>)
    requires IsKey(key) && sh.expands !! {'"', '\\'} && NeedsQuotes(value)
    ensures Source(key + "=" + ("\"" + (Escaped(value) + "\"" + ("\n" + rest))), sh, env) ==
            if SafeToSource(value, sh) then Source(rest, sh, env[key := value]) else None
  {
    hide Escaped, NeedsQuotes;
    var after := "\"" + (Escaped(value) + "\"" + ("\n" + rest));
    var s := key + "=" + after;
    KeyEndOf(key, after);
    assert s[..|key|] == key && s[|key| + 1..] == after && s[0] == key[0];
    assert after[0] == '"' && after[1..] == Escaped(value) + "\"" + ("\n" + rest);
    UnquoteEscaped(value, "\n" + rest, Quotes({'`'}, sh.expands));
    assert LineEnd("\n" + rest) == 0 && AfterLine("\n" + rest) == rest;
  }

  lemma SourcePlain(key: string, value: string, rest: string, sh: Shell, env: map<string, string>)
    requires IsKey(key) && !NeedsQuotes(value)
    ensures Source(key + "=" + (value + "\n" + rest), sh, env) ==
            if SafeToSource(value, sh) then Source(rest, sh, env[key := value]) else None
  {
    hide Escaped, Unquote, AfterLine, LineEnd, HasTilde;
    var after := value + "\n" + rest;
    var s := key + "=" + after;
    KeyEndOf(key, after);
    assert s[..|key|] == key && s[|key| + 1..] == after && s[0] == key[0];
    LineEndOf(value, rest);
    assert after[..|value|] == value;
    assert after[0] != '"';
  }

  lemma SourceLine(key: string, value: string, rest: string, sh: Shell, env: map<string, string>)
    requires IsKey(key) && sh.expands !! {'"', '\\'}
    ensures Source(Line(key, value) + "\n" + rest, sh, env) ==
            if SafeToSource(value, sh) then Source(rest, sh, env[key := value]) else None
  {
    hide Source, Escaped, NeedsQuotes, SafeToSource;
    var s := Line(key, value) + "\n" + rest;
    if NeedsQuotes(value) {
      assert s == key + "=" + ("\"" + (Escaped(value) + "\"" + ("\n" + rest)));
      SourceQuoted(key, value, rest, sh, env);
    } else {
      assert s == key + "=" + (value + "\n" + rest);
      SourcePlain(key, value, rest, sh, env);
    }
  }

  lemma {:induction false} SourceLines(keys: seq<string>, secrets: map<string, string>, sh: Shell,
                                       env: map<string, string>)
    requires forall k :: k in keys ==> k in secrets && IsKey(k)
    requires sh.expands !! {'"', '\\'}
    ensures Source(Lines(keys, secrets), sh, env) ==
            if forall k :: k in keys ==> SafeToSource(secrets[k], sh)
            then Some(Assigned(keys, secrets, {}, env)) else None
  {
    hide SafeToSource, NeedsQuotes;
    if keys != [] {
      var key := keys[0];
      assert forall k :: k in keys <==> k == key || k in keys[1..];
      SourceLine(key, secrets[key], Lines(keys[1..], secrets), sh, env);
      Untrimmed(secrets[key]);
      SourceLines(keys[1..], secrets, sh, env[key := secrets[key]]);
    }
  }

  lemma SourceHeader(rest: string, sh: Shell)
    ensures Source(HEADER[0] + "\n" + HEADER[1] + "\n" + rest, sh, map[]) == Source(rest, sh, map[])
  {
    var second := HEADER[1] + "\n" + rest;
    var s := HEADER[0] + "\n" + HEADER[1] + "\n" + rest;
    assert s == HEADER[0] + "\n" + second;
    LineEndOf(HEADER[0], second);
    LineEndOf(HEADER[1], rest);
    assert s[0] == HEADER[0][0] == '#' && second[0] == HEADER[1][0] == '#';
  }

  /** Sourcing the file recovers the secrets exactly when no quoted value has a
      backtick or a dollar that starts an expansion, and no unquoted one an
      operator or a tilde that stands for a directory; and if it assigns literal
      values at all, they are the secrets. */
  lemma SourcedIff(secrets: map<string, string>, sh: Shell)
    requires KeysOk(secrets) && sh.expands !! {'"', '\\'}
    ensures var r := Source(Content(secrets), sh, map[]);
            (r == Some(secrets) <==> forall k :: k in secrets ==> SafeToSource(secrets[k], sh)) &&
            (r.Some? ==> r == Some(secrets))
  {
    hide Source, Lines, Assigned, SortedKeys, IsKey, SafeToSource, Got;
    var keys := SortedKeys(secrets.Keys);
    assert forall k :: k in keys ==> k in secrets && IsKey(k);
    SourceHeader(Lines(keys, secrets), sh);
    SourceLines(keys, secrets, sh, map[]);
    AllAssigned(secrets, {});
    forall k | k in secrets
      ensures Got(secrets[k], {}) == secrets[k]
    {
      Untrimmed(secrets[k]);
    }
    assert (map k | k in secrets :: Got(secrets[k], {})) == secrets;
  }

  function Token(value: string): map<string, string> {
    map["TOKEN" := value]
  }

  lemma TokenIff(value: string, sh: Shell)
    requires sh.expands !! {'"', '\\'}
    ensures KeysOk(Token(value)) &&
            (Source(Content(Token(value)), sh, map[]) == Some(Token(value)) <==> SafeToSource(value, sh))
  {
    hide Source, Content, SafeToSource;
    assert IsKey("TOKEN");
    SourcedIff(Token(value), sh);
    assert Token(value)["TOKEN"] == value;
  }

  /** Values that sourcing does not recover: the shell's process number takes the
      place of two dollars, and a command follows the semicolon. */
  lemma NotRecoveredWhenSourced(sh: Shell)
    requires '$' in sh.expands && sh.expands !! {'"', '\\'}
    ensures Source(Content(Token("pa$$word")), sh, map[]) != Some(Token("pa$$word"))
    ensures Source(Content(Token("a;b")), sh, map[]) != Some(Token("a;b"))
  {
    hide Source, Content;
    TokenIff("pa$$word", sh);
    assert "pa$$word"[2] == '$' == "pa$$word"[3];
    TokenIff("a;b", sh);
    assert "a;b"[1] == ';';
  }

  /** The two readers differ: a value that ends in a carriage return and is not
      quoted is lost on one that trims, as systemd does, and kept by a shell. */
  lemma CarriageReturnIsKept(sh: Shell)
    requires sh.expands !! {'"', '\\'}
    ensures Source(Content(Token("x\r")), sh, map[]) == Some(Token("x\r"))
    ensures Read(Content(Token("x\r")), {' ', '\t', '\r'}, map[]) != Token("x\r")
  {
    hide Source, Content, Read;
    assert !NeedsQuotes("x\r");
    TokenIff("x\r", sh);
    RoundTripIff(Token("x\r"), {' ', '\t', '\r'});
    assert Token("x\r")["TOKEN"] == "x\r";
  }
}
