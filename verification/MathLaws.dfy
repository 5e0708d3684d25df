/** What the evaluator answers, told from the text alone. */
module MathLaws {
  import opened Common
  import opened MathGrammar
  import opened MathReading
  import Decimals = Text

  // ------------------------------------------------------------------- operators

  /** A text with a value, in parentheses, is an operand anywhere. */
  lemma Operand(x: string) returns (t: Tree)
    requires SafeEval(x).Some?
    ensures t.Group? && t.open == "" && Fits(t, 2) && Text(t) == "(" + x + ")" && Value(Erase(t)) == SafeEval(x)
  {
    var u, w := EvaluatedIsWritten(x);
    t := Group("", u, w);
    assert "" + "(" + Text(u) + w + ")" == "(" + (Text(u) + w) + ")";
  }

  lemma IsRead(t: Tree)
    requires Fits(t, 0)
    ensures SafeEval(Text(t)) == Value(Erase(t))
  {
    assert Text(t) + "" == Text(t);
    WrittenIsRead(t, "");
  }

  lemma Between(l: Tree, op: Op, r: Tree)
    requires Fits(l, Tightness(op)) && Fits(r, Tightness(op) + 1)
    ensures var t := Infix(l, "", op, r);
            Fits(t, Tightness(op)) && Text(t) == Text(l) + [OpChar(op)] + Text(r) &&
            Value(Erase(t)) == Combine(op, Value(Erase(l)), Value(Erase(r)))
  {
    assert Text(l) + "" == Text(l);
  }

  lemma BinaryIsRead(x: string, op: Op, y: string)
    requires SafeEval(x).Some? && SafeEval(y).Some?
    ensures SafeEval("(" + x + ")" + [OpChar(op)] + "(" + y + ")") == Combine(op, SafeEval(x), SafeEval(y))
  {
    var l := Operand(x);
    var r := Operand(y);
    FitsLooser(l, 2, Tightness(op));
    FitsLooser(r, 2, Tightness(op) + 1);
    hide Fits, Text, Value, Erase, Combine, SafeEval;
    Between(l, op, r);
    FitsLooser(Infix(l, "", op, r), Tightness(op), 0);
    IsRead(Infix(l, "", op, r));
    assert Text(l) + [OpChar(op)] + Text(r) == "(" + x + ")" + [OpChar(op)] + "(" + y + ")";
  }

  /** Between two operands of values a and b: a sum, a difference, a product. */
  lemma SumsAndProducts(x: string, y: string, a: real, b: real)
    requires SafeEval(x) == Some(a) && SafeEval(y) == Some(b)
    ensures SafeEval("(" + x + ")" + "+" + "(" + y + ")") == Some(a + b)
    ensures exists v :: SafeEval("(" + x + ")" + "-" + "(" + y + ")") == Some(v) && v + b == a
    ensures SafeEval("(" + x + ")" + "*" + "(" + y + ")") == Some(a * b)
  {
    hide SafeEval;
    BinaryIsRead(x, Add, y);
    BinaryIsRead(x, Sub, y);
    BinaryIsRead(x, Mul, y);
    assert [OpChar(Add)] == "+" && [OpChar(Sub)] == "-" && [OpChar(Mul)] == "*";
    assert (a - b) + b == a;
  }

  /** A quotient, unless the divisor is zero. */
  lemma Quotients(x: string, y: string, a: real, b: real)
    requires SafeEval(x) == Some(a) && SafeEval(y) == Some(b)
    ensures var v := SafeEval("(" + x + ")" + "/" + "(" + y + ")");
            if b == 0.0 then v == None else v.Some? && v.value * b == a
  {
    hide SafeEval;
    BinaryIsRead(x, Div, y);
    assert [OpChar(Div)] == "/";
  }

  /** A remainder, unless the modulus is zero: smaller than the modulus, zero or of
      the dividend's sign, and a whole multiple away from the dividend. */
  lemma Remainders(x: string, y: string, a: real, b: real)
    requires SafeEval(x) == Some(a) && SafeEval(y) == Some(b)
    ensures var v := SafeEval("(" + x + ")" + "%" + "(" + y + ")");
            if b == 0.0 then v == None
            else v.Some? && Magnitude(v.value) < Magnitude(b) && (v.value == 0.0 || (v.value > 0.0 <==> a > 0.0)) &&
                 IsWhole((a - v.value) / b)
  {
    hide SafeEval;
    BinaryIsRead(x, Mod, y);
    assert [OpChar(Mod)] == "%";
    if b != 0.0 {
      RemainderIs(a, b);
    }
  }

  function Magnitude(x: real): real {
    if x < 0.0 then -x else x
  }

  predicate IsWhole(x: real) {
    x == x.Floor as real
  }

  lemma RemainderIs(a: real, b: real)
    requires b != 0.0
    ensures var r := Compute(Mod, a, b);
            Magnitude(r) < Magnitude(b) && (r == 0.0 || (r > 0.0 <==> a > 0.0)) && IsWhole((a - r) / b)
  {
    var q, r := a / b, Compute(Mod, a, b);
    var n := Truncate(q);
    assert r == a - b * n;
    hide Truncate, Compute, IsWhole;
    TruncateIs(q);
    DividedBack(a, b, n, r);
    Scaled(b, q - n, r);
    SignOfQuotient(a, b, q);
    SameSign(a, b, q, q - n, r);
  }

  lemma SameSign(a: real, b: real, q: real, f: real, r: real)
    requires b != 0.0 && (a == 0.0 ==> q == 0.0)
    requires q > 0.0 <==> (a > 0.0 && b > 0.0) || (a < 0.0 && b < 0.0)
    requires r > 0.0 <==> (b > 0.0 && f > 0.0) || (b < 0.0 && f < 0.0)
    requires (r == 0.0 <==> f == 0.0) && (q >= 0.0 ==> f >= 0.0) && (q <= 0.0 ==> f <= 0.0)
    ensures r == 0.0 || (r > 0.0 <==> a > 0.0)
  {
  }

  lemma DividedBack(a: real, b: real, n: real, r: real)
    requires b != 0.0 && r == a - b * n
    ensures r == b * (a / b - n) && (a - r) / b == n
  {
    assert b * (a / b) == a;
    assert b * (a / b - n) == b * (a / b) - b * n;
    assert a - r == n * b && n * b / b == n;
  }

  lemma SignOfQuotient(a: real, b: real, q: real)
    requires b != 0.0 && q == a / b
    ensures a == 0.0 ==> q == 0.0
    ensures q > 0.0 <==> (a > 0.0 && b > 0.0) || (a < 0.0 && b < 0.0)
  {
    assert q * b == a;
    if q > 0.0 && b > 0.0 {
      Positive(q, b);
    } else if q > 0.0 {
      Positive(q, -b);
    } else if q < 0.0 && b > 0.0 {
      Positive(-q, b);
    } else if q < 0.0 {
      Positive(-q, -b);
    }
  }

  lemma Positive(x: real, y: real)
    requires x > 0.0 && y > 0.0
    ensures x * y > 0.0
  {
  }

  /** Truncation drops a fraction of the same sign. */
  lemma TruncateIs(q: real)
    ensures IsWhole(Truncate(q)) && Magnitude(q - Truncate(q)) < 1.0
    ensures (q >= 0.0 ==> q - Truncate(q) >= 0.0) && (q <= 0.0 ==> q - Truncate(q) <= 0.0)
  {
    if q < 0.0 {
      WholeNegated((-q).Floor);
    }
  }

  lemma WholeNegated(k: int)
    ensures IsWhole(-(k as real)) && IsWhole(k as real)
  {
    assert -(k as real) == (-k) as real;
  }

  lemma Below(b: real, f: real, p: real)
    requires b > 0.0 && f < 1.0 && p == b * f
    ensures p < b
  {
    var g := 1.0 - f;
    var r := b * g;
    assert r == b - p;
    assert r > 0.0;
  }

  lemma SameSigned(b: real, f: real, p: real)
    requires b > 0.0 && p == b * f
    ensures (p > 0.0 <==> f > 0.0) && (p == 0.0 <==> f == 0.0)
  {
  }

  lemma ScaledUp(b: real, f: real, p: real)
    requires b > 0.0 && -1.0 < f < 1.0 && p == b * f
    ensures -b < p < b && (p > 0.0 <==> f > 0.0) && (p == 0.0 <==> f == 0.0)
  {
    var g := -f;
    assert b * g == -p;
    Below(b, f, p);
    Below(b, g, -p);
    SameSigned(b, f, p);
  }

  lemma BothNegated(b: real, f: real)
    ensures (0.0 - b) * (0.0 - f) == b * f
  {
  }

  lemma Scaled(b: real, f: real, p: real)
    requires b != 0.0 && Magnitude(f) < 1.0 && p == b * f
    ensures Magnitude(p) < Magnitude(b)
    ensures p > 0.0 <==> (b > 0.0 && f > 0.0) || (b < 0.0 && f < 0.0)
    ensures p == 0.0 <==> f == 0.0
  {
    if b > 0.0 {
      ScaledUp(b, f, p);
    } else {
      BothNegated(b, f);
      ScaledUp(0.0 - b, 0.0 - f, p);
    }
  }
  // ------------------------------------------------------- signs, groups and order

  lemma SignsAndGroups(x: string, a: real)
    requires SafeEval(x) == Some(a)
    ensures SafeEval("(" + x + ")") == Some(a) && SafeEval("+" + "(" + x + ")") == Some(a)
    ensures exists v :: SafeEval("-" + "(" + x + ")") == Some(v) && v + a == 0.0
  {
    var t := Operand(x);
    FitsLooser(t, 2, 0);
    Signed(t, false);
    Signed(t, true);
    hide Fits, Text, Value, Erase, SafeEval;
    IsRead(t);
    IsRead(Sign("", false, t));
    IsRead(Sign("", true, t));
    assert "+" + Text(t) == "+" + "(" + x + ")" && "-" + Text(t) == "-" + "(" + x + ")";
    assert -a + a == 0.0;
  }

  lemma Signed(t: Tree, minus: bool)
    requires Fits(t, 2)
    ensures var g := Sign("", minus, t);
            Fits(g, 0) && Text(g) == (if minus then "-" else "+") + Text(t) &&
            Value(Erase(g)) == if minus then Negated(Value(Erase(t))) else Value(Erase(t))
  {
  }

  function OpOf(c: char): Op
    requires c in "+-*/%"
  {
    if c == '+' then Add else if c == '-' then Sub else if c == '*' then Mul else if c == '/' then Div else Mod
  }

  lemma OpOfIs(c: char)
    requires c in "+-*/%"
    ensures OpChar(OpOf(c)) == c && Tightness(OpOf(c)) == if c in "+-" then 0 else 1
    ensures c in "*/%" <==> c !in "+-"
  {
  }

  /** Of two operators in a row, the first goes first, unless it adds or subtracts
      and the second does not. */
  lemma OrderOfOperations(x: string, o: char, y: string, p: char, z: string)
    requires SafeEval(x).Some? && SafeEval(y).Some? && SafeEval(z).Some? && o in "+-*/%" && p in "+-*/%"
    ensures var l, m, r := "(" + x + ")", "(" + y + ")", "(" + z + ")";
            SafeEval(l + [o] + m + [p] + r) ==
            if o in "+-" && p in "*/%" then SafeEval(l + [o] + ("(" + (m + [p] + r) + ")"))
            else SafeEval(("(" + (l + [o] + m) + ")") + [p] + r)
  {
    var l := Operand(x);
    var m := Operand(y);
    var r := Operand(z);
    var first, second := OpOf(o), OpOf(p);
    OpOfIs(o);
    OpOfIs(p);
    hide *;
    if o in "+-" && p in "*/%" {
      RightFirst(l, first, m, second, r);
      assert Text(l) + [o] + (Text(m) + [p] + Text(r)) == Text(l) + [o] + Text(m) + [p] + Text(r);
    } else {
      LeftFirst(l, first, m, second, r);
    }
  }

  lemma LeftFirst(l: Tree, first: Op, m: Tree, second: Op, r: Tree)
    requires Fits(l, 2) && Fits(m, 2) && Fits(r, 2) && Tightness(second) <= Tightness(first) <= 1
    ensures SafeEval(Text(l) + [OpChar(first)] + Text(m) + [OpChar(second)] + Text(r)) ==
            SafeEval(("(" + (Text(l) + [OpChar(first)] + Text(m)) + ")") + [OpChar(second)] + Text(r))
  {
    hide *;
    var inner := Infix(l, "", first, m);
    FitsLooser(l, 2, Tightness(first));
    FitsLooser(m, 2, Tightness(first) + 1);
    FitsLooser(r, 2, Tightness(second) + 1);
    Between(l, first, m);
    FitsLooser(inner, Tightness(first), Tightness(second));
    FitsLooser(inner, Tightness(second), 0);
    Grouped(inner);
    FitsLooser(Group("", inner, ""), 2, Tightness(second));
    SameOperand(inner, Group("", inner, ""), second, r);
  }

  /** A left operand may be written in another way. */
  lemma SameOperand(a: Tree, b: Tree, op: Op, r: Tree)
    requires Fits(a, Tightness(op)) && Fits(b, Tightness(op)) && Fits(r, Tightness(op) + 1)
    requires Value(Erase(a)) == Value(Erase(b))
    ensures SafeEval(Text(a) + [OpChar(op)] + Text(r)) == SafeEval(Text(b) + [OpChar(op)] + Text(r))
  {
    hide *;
    Between(a, op, r);
    Between(b, op, r);
    BothRead(Infix(a, "", op, r), Infix(b, "", op, r), Tightness(op));
  }

  lemma RightFirst(l: Tree, first: Op, m: Tree, second: Op, r: Tree)
    requires Fits(l, 2) && Fits(m, 2) && Fits(r, 2) && Tightness(first) < Tightness(second) <= 1
    ensures SafeEval(Text(l) + [OpChar(first)] + (Text(m) + [OpChar(second)] + Text(r))) ==
            SafeEval(Text(l) + [OpChar(first)] + ("(" + (Text(m) + [OpChar(second)] + Text(r)) + ")"))
  {
    hide *;
    var inner := Infix(m, "", second, r);
    FitsLooser(l, 2, Tightness(first));
    FitsLooser(m, 2, Tightness(second));
    FitsLooser(r, 2, Tightness(second) + 1);
    Between(m, second, r);
    FitsLooser(inner, Tightness(second), Tightness(first) + 1);
    FitsLooser(inner, Tightness(second), 0);
    Grouped(inner);
    FitsLooser(Group("", inner, ""), 2, Tightness(first) + 1);
    Between(l, first, inner);
    Between(l, first, Group("", inner, ""));
    BothRead(Infix(l, "", first, inner), Infix(l, "", first, Group("", inner, "")), Tightness(first));
  }

  lemma Grouped(t: Tree)
    requires Fits(t, 0)
    ensures var g := Group("", t, "");
            Fits(g, 2) && Text(g) == "(" + Text(t) + ")" && Value(Erase(g)) == Value(Erase(t))
  {
    assert "" + "(" + Text(t) + "" + ")" == "(" + Text(t) + ")";
  }

  lemma BothRead(a: Tree, b: Tree, level: nat)
    requires Fits(a, level) && Fits(b, level) && Value(Erase(a)) == Value(Erase(b))
    ensures SafeEval(Text(a)) == SafeEval(Text(b))
  {
    FitsLooser(a, level, 0);
    FitsLooser(b, level, 0);
    IsRead(a);
    IsRead(b);
  }

  // ----------------------------------------------------------------- white space

  /** White space and line terminators of ECMAScript. */
  const WHITE_SPACE := "\t\n\U{B}\U{C}\r \U{A0}\U{1680}\U{2000}\U{2001}\U{2002}\U{2003}\U{2004}\U{2005}\U{2006}\U{2007}"
    + "\U{2008}\U{2009}\U{200A}\U{2028}\U{2029}\U{202F}\U{205F}\U{3000}\U{FEFF}"

  lemma SpaceIsListed(c: char)
    ensures IsSpace(c) <==> c in WHITE_SPACE
  {
  }

  lemma {:induction false} LastChar(t: Tree, level: nat)
    requires Fits(t, level)
    ensures Text(t) != "" && Text(t)[|Text(t)| - 1] in "0123456789.)"
  {
    match t
    case Lit(_, lexeme) => assert IsNumeric(lexeme[|lexeme| - 1]);
    case Sign(_, _, arg) => LastChar(arg, 2);
    case Infix(_, _, op, r) => LastChar(r, Tightness(op) + 1);
    case Group(_, _, _) =>
  }

  /** A text with a value ends in a digit, a dot, a parenthesis or white space. */
  lemma EndOfText(s: string)
    requires SafeEval(s).Some?
    ensures s != "" && (s[|s| - 1] in "0123456789.)" || IsSpace(s[|s| - 1]))
  {
    hide SafeEval, IsSpace, Text, Fits;
    var t, w := EvaluatedIsWritten(s);
    LastChar(t, 0);
    if w == "" {
      assert s == Text(t);
    } else {
      assert s[|s| - 1] == w[|w| - 1];
    }
  }

  lemma SpacesAround(x: string, c: char)
    requires SafeEval(x).Some? && IsSpace(c)
    ensures SafeEval("(" + x + ")" + [c]) == SafeEval(x) && SafeEval([c] + "(" + x + ")" + [c]) == SafeEval(x)
  {
    var t := Operand(x);
    FitsLooser(t, 2, 0);
    Indented(t, c);
    hide SafeEval, IsSpace, Text, Fits, Value, Erase;
    assert Spaces([c]);
    WrittenIsRead(t, [c]);
    WrittenIsRead(t.(open := [c]), [c]);
    assert [c] + Text(t) + [c] == [c] + "(" + x + ")" + [c];
  }

  lemma Indented(t: Tree, c: char)
    requires t.Group? && t.open == "" && Fits(t, 0) && IsSpace(c)
    ensures var g := t.(open := [c]);
            Fits(g, 0) && Text(g) == [c] + Text(t) && Value(Erase(g)) == Value(Erase(t))
  {
    assert [c] + "(" + Text(t.body) + t.close + ")" == [c] + ("" + "(" + Text(t.body) + t.close + ")");
  }

  /** After an operand exactly the white space may follow, of the characters that
      cannot belong to it, and around an operand it means nothing. */
  lemma SpaceIff(x: string, c: char)
    requires SafeEval(x).Some? && c !in "0123456789.)"
    ensures SafeEval("(" + x + ")" + [c]).Some? <==> c in WHITE_SPACE
    ensures c in WHITE_SPACE ==> SafeEval([c] + "(" + x + ")" + [c]) == SafeEval(x)
  {
    SpaceIsListed(c);
    hide SafeEval, IsSpace;
    var s := "(" + x + ")" + [c];
    assert s[|s| - 1] == c;
    if IsSpace(c) {
      SpacesAround(x, c);
    } else if SafeEval(s).Some? {
      EndOfText(s);
    }
  }

  // --------------------------------------------------------------------- numbers

  predicate Digits(s: string) {
    forall i :: 0 <= i < |s| ==> '0' <= s[i] <= '9'
  }

  /** The distance from '0'. */
  function DigitAt(c: char): nat
    requires '0' <= c <= '9'
  {
    c as int - '0' as int
  }

  lemma LexemeIsRead(s: string)
    requires IsLexeme(s)
    ensures SafeEval(s) == Some(LexemeValue(s))
  {
    IsRead(Lit("", s));
    assert Text(Lit("", s)) == s;
  }

  lemma DigitsAreRead(ds: string)
    requires Digits(ds) && ds != ""
    ensures SafeEval(ds) == Some(DigitsValue(ds) as real)
  {
    assert IsDigit(ds[0]) && DotAt(ds) == |ds| && ds[..|ds|] == ds;
    LexemeIsRead(ds);
  }

  /** `v` and `f` over `p`. */
  function Point(v: nat, f: nat, p: nat): real
    requires p > 0
  {
    v as real + f as real / p as real
  }

  lemma DotStands(ds: string, fs: string)
    requires Digits(ds) && Digits(fs)
    ensures var s := ds + "." + fs; DotAt(s) == |ds| && s[..|ds|] == ds && s[|ds| + 1..] == fs && IsScanned(s)
  {
    var s := ds + "." + fs;
    var d := DotAt(s);
    hide DotAt;
    assert s[|ds|] == '.' && forall i :: 0 <= i < |ds| ==> s[i] == ds[i];
    assert forall i :: |ds| < i < |s| ==> s[i] == fs[i - |ds| - 1];
    assert d == |ds|;
  }

  lemma DottedIs(ds: string, fs: string)
    requires Digits(ds) && Digits(fs) && ds + fs != ""
    ensures var s := ds + "." + fs;
            IsLexeme(s) && LexemeValue(s) == Point(DigitsValue(ds), DigitsValue(fs), PowerOfTen(|fs|))
  {
    hide DigitsValue, PowerOfTen, IsScanned, DotAt;
    DotStands(ds, fs);
    var s := ds + "." + fs;
    if ds != "" {
      assert IsDigit(s[0]);
    } else {
      assert s[1] == fs[0] && IsDigit(s[1]);
    }
  }

  lemma FractionValue(ds: string, fs: string)
    requires Digits(ds) && Digits(fs) && ds + fs != ""
    ensures SafeEval(ds + "." + fs) == Some(Point(DigitsValue(ds), DigitsValue(fs), PowerOfTen(|fs|)))
  {
    hide *;
    DottedIs(ds, fs);
    LexemeIsRead(ds + "." + fs);
  }

  lemma LastDigit(ds: string, c: char)
    requires Digits(ds) && '0' <= c <= '9'
    ensures Digits(ds + [c]) && DigitsValue(ds + [c]) == 10 * DigitsValue(ds) + DigitAt(c)
  {
    assert (ds + [c])[..|ds|] == ds;
  }

  lemma {:induction false} FirstDigit(c: char, fs: string)
    requires '0' <= c <= '9' && Digits(fs)
    ensures Digits([c] + fs) && DigitsValue([c] + fs) == DigitAt(c) * PowerOfTen(|fs|) + DigitsValue(fs)
    decreases |fs|
  {
    if fs == "" {
      LastDigit("", c);
      assert [c] + fs == "" + [c];
    } else {
      var begin, last := fs[..|fs| - 1], fs[|fs| - 1];
      assert fs == begin + [last] && [c] + fs == ([c] + begin) + [last];
      assert PowerOfTen(|fs|) == 10 * PowerOfTen(|begin|);
      FirstDigit(c, begin);
      LastDigit(begin, last);
      LastDigit([c] + begin, last);
      TenTimes(DigitAt(c), PowerOfTen(|begin|));
    }
  }

  lemma TenTimes(d: nat, p: nat)
    ensures 10 * (d * p) == d * (10 * p)
  {
  }

  /** A digit is read as its distance from '0', and one more digit at the end makes
      a number ten times as large and adds its own value. */
  lemma DigitsRead(ds: string, c: char)
    requires Digits(ds) && '0' <= c <= '9'
    ensures SafeEval([c]) == Some((c as int - '0' as int) as real)
    ensures ds != "" ==>
              SafeEval(ds).Some? &&
              SafeEval(ds + [c]) == Some(10.0 * SafeEval(ds).value + (c as int - '0' as int) as real)
  {
    hide SafeEval, DigitsValue;
    DigitsAreRead([c]);
    LastDigit("", c);
    assert "" + [c] == [c] && DigitsValue("") == 0 by {
      NoDigits();
    }
    if ds != "" {
      DigitsAreRead(ds);
      LastDigit(ds, c);
      DigitsAreRead(ds + [c]);
    }
  }

  lemma NoDigits()
    ensures DigitsValue("") == 0
  {
  }

  lemma {:induction false} DecimalIsRead(n: nat)
    ensures SafeEval(Decimals.Decimal(n)) == Some(n as real)
  {
    hide SafeEval;
    var last := Decimals.Digit(n % 10);
    DigitsRead(if n < 10 then "" else Decimals.Decimal(n / 10), last);
    if n >= 10 {
      DecimalIsRead(n / 10);
      assert 10 * (n / 10) + n % 10 == n;
    }
  }

  /** Moving the dot one digit to the right multiplies by ten. */
  lemma DotMoves(ds: string, c: char, fs: string)
    requires Digits(ds) && Digits(fs) && '0' <= c <= '9'
    ensures SafeEval(ds + "." + ([c] + fs)).Some?
    ensures SafeEval((ds + [c]) + "." + fs) == Some(10.0 * SafeEval(ds + "." + ([c] + fs)).value)
  {
    assert PowerOfTen(|[c] + fs|) == 10 * PowerOfTen(|fs|);
    hide *;
    FirstDigit(c, fs);
    LastDigit(ds, c);
    FractionValue(ds, [c] + fs);
    FractionValue(ds + [c], fs);
    PointMoves(DigitsValue(ds), DigitAt(c), PowerOfTen(|fs|), DigitsValue(fs), DigitsValue([c] + fs));
    assert SafeEval((ds + [c]) + "." + fs).value == 10.0 * SafeEval(ds + "." + ([c] + fs)).value;
  }

  lemma PointMoves(v: nat, d: nat, p: nat, f: nat, w: nat)
    requires p > 0 && w == d * p + f
    ensures Point(10 * v + d, f, p) == 10.0 * Point(v, w, 10 * p)
  {
    var q, e, g := p as real, d as real, f as real;
    assert (10 * p) as real == 10.0 * q && w as real == e * q + g;
    TenthOf(e * q + g, q);
    assert (e * q + g) / q == e + g / q;
  }

  lemma TenthOf(x: real, q: real)
    requires q > 0.0
    ensures 10.0 * (x / (10.0 * q)) == x / q
  {
    var y := x / (10.0 * q);
    assert y * (10.0 * q) == x;
    assert 10.0 * y * q == x;
  }

  /** A dot at the end does nothing, and alone it is no number. */
  lemma DotAtEnd(ds: string)
    requires Digits(ds)
    ensures SafeEval(ds + ".") == if ds == "" then None else SafeEval(ds)
  {
    if ds != "" {
      FractionValue(ds, "");
      DigitsAreRead(ds);
      assert ds + "." + "" == ds + ".";
    } else {
      DotAlone();
      assert "" + "." == ".";
    }
  }

  lemma DotAlone()
    ensures SafeEval(".") == None
  {
    assert Skip(".", 0) == 0 && Scan(".", 0, false) == Scan(".", 1, true) == 1;
    assert "."[0..1] == "." && !IsLexeme(".");
    assert Factor(".", 0) == Parsed(None, 1);
    hide Factor;
  }

  function TenTo(k: nat): real {
    if k == 0 then 1.0 else 10.0 * TenTo(k - 1)
  }

  /** With k digits after the dot, ten to the k times the number is the number
      without the dot. */
  lemma {:induction false} FractionIsRead(ds: string, fs: string)
    requires Digits(ds) && Digits(fs) && ds + fs != ""
    ensures SafeEval(ds + "." + fs).Some? && SafeEval(ds + fs).Some?
    ensures SafeEval(ds + fs).value == SafeEval(ds + "." + fs).value * TenTo(|fs|)
    decreases |fs|
  {
    hide SafeEval;
    if fs == "" {
      DotAtEnd(ds);
      DigitsAreRead(ds);
      assert ds + "." + fs == ds + "." && ds + fs == ds;
    } else {
      var longer, rest := ds + [fs[0]], fs[1..];
      assert [fs[0]] + rest == fs && longer + rest == ds + fs;
      DotMoves(ds, fs[0], rest);
      FractionIsRead(longer, rest);
      var x, y, t := SafeEval(ds + "." + fs).value, SafeEval(longer + "." + rest).value, TenTo(|rest|);
      TenfoldScales(x, y, t, TenTo(|fs|));
    }
  }

  lemma TenfoldScales(x: real, y: real, t: real, u: real)
    requires y == 10.0 * x && u == 10.0 * t
    ensures y * t == x * u
  {
  }
  // ----------------------------------------------------------------- parentheses

  /** No parentheses that could be left out where `level` is expected. */
  predicate NoneSpare(t: Tree, level: nat) {
    match t
    case Lit(_, _) => true
    case Sign(_, _, arg) => NoneSpare(arg, 2)
    case Infix(l, _, op, r) => NoneSpare(l, Tightness(op)) && NoneSpare(r, Tightness(op) + 1)
    case Group(_, body, _) => body.Infix? && Tightness(body.op) < level && NoneSpare(body, 0)
  }

  /** The minimal form has none. */
  lemma {:induction false} MinimalSparesNone(e: Expr)
    ensures NoneSpare(Minimal(e), 0) && !Minimal(e).Group?
  {
    match e
    case Num(_) =>
    case Plus(arg) => MinimalSparesNone(arg);
    case Minus(arg) => MinimalSparesNone(arg);
    case Bin(op, l, r) =>
      MinimalSparesNone(l);
      MinimalSparesNone(r);
  }
}
