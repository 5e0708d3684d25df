/** Every written expression is read as what it says. */
module MathReading {
  import opened Common
  import opened MathGrammar

  /** The text stands in the string at a place. */
  ghost predicate At(s: string, i: nat, text: string) {
    i + |text| <= |s| && s[i..i + |text|] == text
  }

  /** A number may end here. */
  ghost predicate NumberEnds(s: string, j: nat)
    requires j <= |s|
  {
    j < |s| ==> !IsNumeric(s[j])
  }

  /** No operator of a term comes next. */
  ghost predicate TermEnds(s: string, j: nat)
    requires j <= |s|
  {
    var k := Skip(s, j);
    k < |s| ==> TermOp(s[k]).None?
  }

  /** The reading is the value, ending at j; without a value the end is open. */
  ghost predicate Reads(p: Parsed, v: Option<real>, j: nat) {
    if v.None? then p.value.None? else p == Parsed(v, j)
  }

  // -------------------------------------------------------------- small facts

  lemma AtSplit(s: string, i: nat, a: string, b: string)
    requires At(s, i, a + b)
    ensures At(s, i, a) && At(s, i + |a|, b)
  {
    assert s[i..i + |a|] == s[i..i + |a + b|][..|a|];
    assert s[i + |a|..i + |a| + |b|] == s[i..i + |a + b|][|a|..];
  }

  lemma AtWithin(s: string, i: nat, text: string)
    requires At(s, i, text)
    ensures i + |text| <= |s|
  {
  }

  lemma {:induction false} SkipSpaces(s: string, i: nat, w: string)
    requires At(s, i, w) && Spaces(w)
    ensures Skip(s, i) == Skip(s, i + |w|)
    decreases |w|
  {
    if w != "" {
      assert s[i] == s[i..i + |w|][0] == w[0];
      assert s[i + 1..i + 1 + |w[1..]|] == w[1..] by {
        assert s[i + 1..i + |w|] == s[i..i + |w|][1..];
      }
      SkipSpaces(s, i + 1, w[1..]);
    }
  }

  /** Skipping stops at the end or at a character that is no space. */
  lemma {:induction false} SkipStops(s: string, i: nat)
    requires i <= |s|
    ensures var j := Skip(s, i);
            Spaces(s[i..j]) && (j < |s| ==> !IsSpace(s[j])) && Skip(s, j) == j
    decreases |s| - i
  {
    if i < |s| && IsSpace(s[i]) {
      SkipStops(s, i + 1);
      var j := Skip(s, i);
      assert s[i..j] == [s[i]] + s[i + 1..j];
    }
  }

  /** White space and then a character that is none: skipping stops there. */
  lemma SkipTo(s: string, i: nat, w: string, c: char)
    requires At(s, i, w + [c]) && Spaces(w) && !IsSpace(c)
    ensures i + |w| < |s| && Skip(s, i) == i + |w| && s[i + |w|] == c
  {
    AtSplit(s, i, w, [c]);
    assert s[i + |w|] == s[i + |w|..i + |w| + 1][0];
    SkipSpaces(s, i, w);
  }

  // ------------------------------------------------------------------ numbers

  /** Scanning takes exactly a number that ends at j. */
  lemma {:induction false} ScanTakes(s: string, i: nat, j: nat, seenDot: bool)
    requires i <= j <= |s| && NumberEnds(s, j)
    requires if seenDot then forall k :: i <= k < j ==> IsDigit(s[k]) else IsScanned(s[i..j])
    ensures Scan(s, i, seenDot) == j
    decreases j - i
  {
    if i < j {
      var t := s[i..j];
      assert t[0] == s[i] && t[1..] == s[i + 1..j];
      if !seenDot {
        if s[i] == '.' {
          forall k | i + 1 <= k < j
            ensures IsDigit(s[k])
          {
            assert t[k - i] == s[k];
          }
        } else {
          ScannedTail(t);
        }
      }
      ScanTakes(s, i + 1, j, seenDot || s[i] == '.');
    }
  }

  lemma ScannedTail(t: string)
    requires t != [] && t[0] != '.'
    ensures IsScanned(t) <==> IsDigit(t[0]) && IsScanned(t[1..])
  {
    var d := DotAt(t[1..]);
    assert DotAt(t) == d + 1;
    forall k | 0 < k < |t|
      ensures t[k] == t[1..][k - 1]
    {
    }
    if IsDigit(t[0]) && IsScanned(t[1..]) {
      forall k | 0 <= k < d + 1
        ensures IsDigit(t[k])
      {
        assert k > 0 ==> IsDigit(t[1..][k - 1]);
      }
      forall k | d + 1 < k < |t|
        ensures IsDigit(t[k])
      {
        assert IsDigit(t[1..][k - 1]);
      }
    }
    if IsScanned(t) {
      forall k | 0 <= k < d
        ensures IsDigit(t[1..][k])
      {
        assert IsDigit(t[k + 1]);
      }
      forall k | d < k < |t[1..]|
        ensures IsDigit(t[1..][k])
      {
        assert IsDigit(t[k + 1]);
      }
    }
  }

  /** A lexeme starts with a digit or a dot. */
  lemma LexemeStart(lexeme: string)
    requires IsLexeme(lexeme)
    ensures lexeme != [] && IsNumeric(lexeme[0])
  {
  }

  // -------------------------------------------------------------------- trees

  /** A number follows no written tree directly when what follows the tree is a
      space, an operator or a parenthesis. */
  lemma SpaceOrSymbolEnds(s: string, j: nat, w: string, c: char)
    requires At(s, j, w + [c]) && Spaces(w) && !IsNumeric(c)
    ensures NumberEnds(s, j)
  {
    assert s[j] == s[j..j + |w + [c]|][0] == (w + [c])[0];
  }

  // One step of each reader, where a token stands.

  lemma FactorAtNumber(s: string, i: nat, ws: string, lexeme: string)
    requires At(s, i, ws + lexeme) && Spaces(ws) && IsLexeme(lexeme) && NumberEnds(s, i + |ws + lexeme|)
    ensures Reads(Factor(s, i), Some(LexemeValue(lexeme)), i + |ws + lexeme|)
  {
    hide Expression, LexemeValue, IsLexeme, IsSpace;
    var k, j := i + |ws|, i + |ws + lexeme|;
    NumberStands(s, i, ws, lexeme);
    ScanTakes(s, k, j, false);
  }

  lemma NumberStands(s: string, i: nat, ws: string, lexeme: string)
    requires At(s, i, ws + lexeme) && Spaces(ws) && IsLexeme(lexeme)
    ensures var k, j := i + |ws|, i + |ws + lexeme|;
            k < j <= |s| && s[k..j] == lexeme && IsScanned(s[k..j]) && IsNumeric(s[k]) && Skip(s, i) == k &&
            Skip(s, k) == k
  {
    hide IsSpace;
    var k, j := i + |ws|, i + |ws + lexeme|;
    AtSplit(s, i, ws, lexeme);
    LexemeStart(lexeme);
    assert s[k] == s[k..j][0];
    SymbolsAreNoSpace(s[k]);
    SkipSpaces(s, i, ws);
  }

  lemma FactorAtSign(s: string, i: nat, ws: string, minus: bool)
    requires At(s, i, ws + [if minus then '-' else '+']) && Spaces(ws)
    ensures var p := Factor(s, i + |ws| + 1);
            Factor(s, i) == Parsed(if minus then Negated(p.value) else p.value, p.i)
  {
    hide Expression, Number;
    SkipTo(s, i, ws, if minus then '-' else '+');
  }

  lemma FactorAtGroup(s: string, i: nat, open: string)
    requires At(s, i, open + "(") && Spaces(open)
    ensures var p := Expression(s, i + |open| + 1);
            var j := Skip(s, p.i);
            Factor(s, i) == if j < |s| && s[j] == ')' then Parsed(p.value, j + 1) else Parsed(None, j)
  {
    hide Expression, Number, Skip, IsSpace, At;
    SymbolsAreNoSpace('(');
    SkipTo(s, i, open, '(');
  }

  lemma TermLoopAtOp(s: string, i: nat, ws: string, op: Op, acc: real)
    requires At(s, i, ws + [OpChar(op)]) && Spaces(ws) && Tightness(op) == 1
    ensures var rhs := Factor(s, i + |ws| + 1);
            var v := Combine(op, Some(acc), rhs.value);
            TermLoop(s, i, acc) == if v.None? then Parsed(None, rhs.i) else TermLoop(s, rhs.i, v.value)
  {
    hide Factor;
    SkipTo(s, i, ws, OpChar(op));
    assert TermOp(OpChar(op)) == Some(op);
  }

  lemma ExpressionLoopAtOp(s: string, i: nat, ws: string, op: Op, acc: real)
    requires At(s, i, ws + [OpChar(op)]) && Spaces(ws) && Tightness(op) == 0
    ensures var rhs := Term(s, i + |ws| + 1);
            var v := Combine(op, Some(acc), rhs.value);
            ExpressionLoop(s, i, acc) == if v.None? then Parsed(None, rhs.i) else ExpressionLoop(s, rhs.i, v.value)
  {
    hide Term;
    SkipTo(s, i, ws, OpChar(op));
    assert ExpressionOp(OpChar(op)) == Some(op);
  }

  lemma TermLoopEnds(s: string, j: nat, acc: real)
    requires j <= |s| && TermEnds(s, j)
    ensures TermLoop(s, j, acc) == Parsed(Some(acc), Skip(s, j))
  {
  }

  /** The expression loop stops, and does not mind white space being skipped. */
  lemma ExpressionLoopSkips(s: string, j: nat, acc: real)
    requires j <= |s|
    ensures ExpressionLoop(s, Skip(s, j), acc) == ExpressionLoop(s, j, acc)
    ensures (Skip(s, j) < |s| ==> ExpressionOp(s[Skip(s, j)]).None?) ==>
              ExpressionLoop(s, j, acc) == Parsed(Some(acc), Skip(s, j))
  {
    SkipStops(s, j);
  }

  /** White space and an operator end a number and, for a sum, a term. */
  lemma OpEnds(s: string, m: nat, ws: string, op: Op)
    requires Spaces(ws) && At(s, m, ws + [OpChar(op)])
    ensures m <= |s| && NumberEnds(s, m) && (Tightness(op) == 0 ==> TermEnds(s, m))
  {
    hide Spaces, Skip;
    var c := OpChar(op);
    SymbolsAreNoSpace(c);
    SkipTo(s, m, ws, c);
    SpaceOrSymbolEnds(s, m, ws, c);
  }

  lemma InfixText(t: Tree)
    requires t.Infix?
    ensures Text(t) == Text(t.left) + ((t.ws + [OpChar(t.op)]) + Text(t.right))
  {
    hide OpChar;
    assert Text(t) == Text(t.left) + t.ws + [OpChar(t.op)] + Text(t.right);
  }

  /** The three parts of an infix, and where they stand. */
  lemma InfixParts(s: string, i: nat, t: Tree)
    requires t.Infix? && Spaces(t.ws) && At(s, i, Text(t))
    ensures var m := i + |Text(t.left)|;
            At(s, i, Text(t.left)) && At(s, m, t.ws + [OpChar(t.op)]) && At(s, m + |t.ws| + 1, Text(t.right)) &&
            m + |t.ws| + 1 + |Text(t.right)| == i + |Text(t)| && i + |Text(t)| <= |s| && NumberEnds(s, m) &&
            (Tightness(t.op) == 0 ==> TermEnds(s, m))
  {
    hide Text, Spaces, OpChar, TermEnds, NumberEnds;
    var c, m := OpChar(t.op), i + |Text(t.left)|;
    InfixText(t);
    AtSplit(s, i, Text(t.left), (t.ws + [c]) + Text(t.right));
    AtSplit(s, m, t.ws + [c], Text(t.right));
    OpEnds(s, m, t.ws, t.op);
  }

  lemma GroupParts(s: string, i: nat, t: Tree)
    requires t.Group? && Spaces(t.open) && Spaces(t.close) && At(s, i, Text(t))
    ensures var k := i + |t.open| + 1;
            var m := k + |Text(t.body)|;
            At(s, i, t.open + "(") && At(s, k, Text(t.body)) && m <= |s| && NumberEnds(s, m) && TermEnds(s, m) &&
            Skip(s, m) < |s| && s[Skip(s, m)] == ')' && Skip(s, m) + 1 == i + |Text(t)|
  {
    hide IsSpace;
    var k := i + |t.open| + 1;
    var m := k + |Text(t.body)|;
    SymbolsAreNoSpace(')');
    assert Text(t) == (t.open + "(") + (Text(t.body) + (t.close + ")"));
    AtSplit(s, i, t.open + "(", Text(t.body) + (t.close + ")"));
    AtSplit(s, k, Text(t.body), t.close + ")");
    SkipTo(s, m, t.close, ')');
    SpaceOrSymbolEnds(s, m, t.close, ')');
  }

  /** What fitting says of the parts, and how the value is made of theirs. */
  lemma PartsFit(t: Tree, level: nat)
    requires Fits(t, level)
    ensures t.Lit? ==> Spaces(t.ws) && IsLexeme(t.lexeme) && Text(t) == t.ws + t.lexeme &&
                       Value(Erase(t)) == Some(LexemeValue(t.lexeme))
    ensures t.Sign? ==>
              Spaces(t.ws) && Fits(t.arg, 2) && Text(t) == t.ws + [if t.minus then '-' else '+'] + Text(t.arg) &&
                        Value(Erase(t)) == if t.minus then Negated(Value(Erase(t.arg))) else Value(Erase(t.arg))
    ensures t.Infix? ==> Spaces(t.ws) && Fits(t.left, Tightness(t.op)) && Fits(t.right, Tightness(t.op) + 1) &&
                         Value(Erase(t)) == Combine(t.op, Value(Erase(t.left)), Value(Erase(t.right)))
    ensures t.Group? ==> Spaces(t.open) && Spaces(t.close) && Fits(t.body, 0) && Value(Erase(t)) == Value(Erase(t.body))
    ensures t.Infix? ==> level <= 1 && (level == 1 ==> Tightness(t.op) == 1)
    ensures level == 0 && (!t.Infix? || Tightness(t.op) == 1) ==> Fits(t, 1)
    ensures level <= 1 && !t.Infix? ==> Fits(t, 2)
    ensures t.Infix? ==> Tightness(t.op) <= 1
  {
  }

  lemma {:induction false} FactorReads(s: string, i: nat, t: Tree)
    requires Fits(t, 2) && At(s, i, Text(t)) && NumberEnds(s, i + |Text(t)|)
    ensures Reads(Factor(s, i), Value(Erase(t)), i + |Text(t)|)
    decreases t, 0
  {
    hide *;
    PartsFit(t, 2);
    match t
    case Lit(ws, lexeme) =>
      FactorAtNumber(s, i, ws, lexeme);
    case Sign(ws, minus, arg) =>
      AtSplit(s, i, ws + [if minus then '-' else '+'], Text(arg));
      FactorReads(s, i + |ws| + 1, arg);
      SignReads(s, i, ws, minus, Value(Erase(arg)), i + |Text(t)|);
    case Group(open, body, close) =>
      GroupParts(s, i, t);
      ExpressionReads(s, i + |open| + 1, body);
      GroupReads(s, i, t, Value(Erase(body)));
  }

  lemma SignReads(s: string, i: nat, ws: string, minus: bool, v: Option<real>, j: nat)
    requires At(s, i, ws + [if minus then '-' else '+']) && Spaces(ws) && Reads(Factor(s, i + |ws| + 1), v, j)
    ensures Reads(Factor(s, i), if minus then Negated(v) else v, j)
  {
    FactorAtSign(s, i, ws, minus);
  }

  lemma GroupReads(s: string, i: nat, t: Tree, v: Option<real>)
    requires t.Group? && Spaces(t.open) && Spaces(t.close) && At(s, i, Text(t))
    requires i + |t.open| + 1 + |Text(t.body)| <= |s|
    requires ExpressionReadsTo(s, i + |t.open| + 1, v, i + |t.open| + 1 + |Text(t.body)|)
    ensures Reads(Factor(s, i), v, i + |Text(t)|)
  {
    hide Factor, Expression, ExpressionLoop, Skip, At, Spaces;
    GroupParts(s, i, t);
    FactorAtGroup(s, i, t.open);
    var m := i + |t.open| + 1 + |Text(t.body)|;
    SkipStops(s, m);
    if v.Some? {
      ExpressionLoopSkips(s, m, v.value);
    }
  }

  lemma {:induction false} TermReads(s: string, i: nat, t: Tree)
    requires Fits(t, 1) && At(s, i, Text(t)) && NumberEnds(s, i + |Text(t)|)
    ensures TermReadsTo(s, i, Value(Erase(t)), i + |Text(t)|)
    decreases t, 1
  {
    hide *;
    PartsFit(t, 1);
    if t.Infix? {
      var m := i + |Text(t.left)|;
      InfixParts(s, i, t);
      TermReads(s, i, t.left);
      FactorReads(s, m + |t.ws| + 1, t.right);
      ProductReads(s, i, m, t.ws, t.op, Value(Erase(t.left)), Value(Erase(t.right)), i + |Text(t)|);
    } else {
      AtWithin(s, i, Text(t));
      FactorReads(s, i, t);
      FactorIsTerm(s, i, Value(Erase(t)), i + |Text(t)|);
    }
  }

  /** The reading of a term from i has got to j with a value. */
  ghost predicate TermReadsTo(s: string, i: nat, v: Option<real>, j: nat)
    requires i <= |s| && j <= |s|
  {
    if v.None? then Term(s, i).value.None? else Term(s, i) == TermLoop(s, j, v.value)
  }

  ghost predicate ExpressionReadsTo(s: string, i: nat, v: Option<real>, j: nat)
    requires i <= |s| && j <= |s|
  {
    if v.None? then Expression(s, i).value.None? else Expression(s, i) == ExpressionLoop(s, j, v.value)
  }

  lemma FactorIsTerm(s: string, i: nat, v: Option<real>, j: nat)
    requires i <= |s| && j <= |s| && Reads(Factor(s, i), v, j)
    ensures TermReadsTo(s, i, v, j)
  {
  }

  lemma ProductReads(s: string, i: nat, m: nat, ws: string, op: Op, l: Option<real>, r: Option<real>, j: nat)
    requires i <= |s| && j <= |s| && At(s, m, ws + [OpChar(op)]) && Spaces(ws) && Tightness(op) == 1
    requires TermReadsTo(s, i, l, m) && Reads(Factor(s, m + |ws| + 1), r, j)
    ensures TermReadsTo(s, i, Combine(op, l, r), j)
  {
    if l.Some? {
      TermLoopAtOp(s, m, ws, op, l.value);
    }
  }

  lemma SumReads(s: string, i: nat, m: nat, ws: string, op: Op, l: Option<real>, r: Option<real>, j: nat)
    requires i <= |s| && j <= |s| && At(s, m, ws + [OpChar(op)]) && Spaces(ws) && Tightness(op) == 0
    requires ExpressionReadsTo(s, i, l, m) && TermReadsTo(s, m + |ws| + 1, r, j) && TermEnds(s, j)
    ensures ExpressionReadsTo(s, i, Combine(op, l, r), j)
  {
    if l.Some? {
      ExpressionLoopAtOp(s, m, ws, op, l.value);
      if r.Some? {
        TermLoopEnds(s, j, r.value);
        if Combine(op, l, r).Some? {
          ExpressionLoopSkips(s, j, Combine(op, l, r).value);
        }
      }
    }
  }

  lemma TermIsExpression(s: string, i: nat, v: Option<real>, j: nat)
    requires i <= |s| && j <= |s| && TermReadsTo(s, i, v, j) && TermEnds(s, j)
    ensures ExpressionReadsTo(s, i, v, j)
  {
    if v.Some? {
      TermLoopEnds(s, j, v.value);
      ExpressionLoopSkips(s, j, v.value);
    }
  }

  lemma {:induction false} ExpressionReads(s: string, i: nat, t: Tree)
    requires Fits(t, 0) && At(s, i, Text(t)) && NumberEnds(s, i + |Text(t)|) && TermEnds(s, i + |Text(t)|)
    ensures ExpressionReadsTo(s, i, Value(Erase(t)), i + |Text(t)|)
    decreases t, 2
  {
    hide *;
    PartsFit(t, 0);
    if t.Infix? && Tightness(t.op) == 0 {
      var m := i + |Text(t.left)|;
      InfixParts(s, i, t);
      ExpressionReads(s, i, t.left);
      TermReads(s, m + |t.ws| + 1, t.right);
      SumReads(s, i, m, t.ws, t.op, Value(Erase(t.left)), Value(Erase(t.right)), i + |Text(t)|);
    } else {
      AtWithin(s, i, Text(t));
      TermReads(s, i, t);
      TermIsExpression(s, i, Value(Erase(t)), i + |Text(t)|);
    }
  }

  /** For every expression written with any parentheses that keep it whole and any
      white space: its value, or none exactly when it divides by zero. */
  lemma WrittenIsRead(t: Tree, trailing: string)
    requires Fits(t, 0) && Spaces(trailing)
    ensures SafeEval(Text(t) + trailing) == Value(Erase(t))
    ensures SafeEval(Text(t) + trailing).None? <==> DividesByZero(Erase(t))
  {
    var s, j := Text(t) + trailing, |Text(t)|;
    assert s[0..j] == Text(t) && s[j..|s|] == trailing;
    SkipSpaces(s, j, trailing);
    ExpressionReads(s, 0, t);
    if Value(Erase(t)).Some? {
      ExpressionLoopSkips(s, j, Value(Erase(t)).value);
    }
    NoValueIffDividesByZero(Erase(t));
  }

  /** In particular as printed with minimal parentheses and no white space. */
  lemma MinimalIsRead(e: Expr)
    requires LexemesOk(e)
    ensures SafeEval(Text(Minimal(e))) == Value(e)
  {
    MinimalFits(e);
    assert Text(Minimal(e)) + "" == Text(Minimal(e));
    WrittenIsRead(Minimal(e), "");
  }

  // ------------------------------------------------ whatever is read was written

  /** One step of the term loop, when it yields a value. */
  lemma TermLoopStep(s: string, i0: nat, acc: real)
    requires i0 <= |s| && TermLoop(s, i0, acc).value.Some?
    ensures var i := Skip(s, i0);
            if i == |s| || TermOp(s[i]).None? then TermLoop(s, i0, acc) == Parsed(Some(acc), i)
            else
              var op, rhs := TermOp(s[i]).value, Factor(s, i + 1);
              s[i] == OpChar(op) && Tightness(op) == 1 && rhs.value.Some? && Combine(op, Some(acc), rhs.value).Some? &&
              TermLoop(s, i0, acc) == TermLoop(s, rhs.i, Combine(op, Some(acc), rhs.value).value)
  {
    hide Factor;
  }

  lemma ExpressionLoopStep(s: string, i0: nat, acc: real)
    requires i0 <= |s| && ExpressionLoop(s, i0, acc).value.Some?
    ensures var i := Skip(s, i0);
            if i == |s| || ExpressionOp(s[i]).None? then ExpressionLoop(s, i0, acc) == Parsed(Some(acc), i)
            else
              var op, rhs := ExpressionOp(s[i]).value, Term(s, i + 1);
              s[i] == OpChar(op) && Tightness(op) == 0 && rhs.value.Some? && Combine(op, Some(acc), rhs.value).Some? &&
              ExpressionLoop(s, i0, acc) == ExpressionLoop(s, rhs.i, Combine(op, Some(acc), rhs.value).value)
  {
    hide Term;
  }

  /** One step of the factor reader, when it yields a value. */
  lemma FactorStep(s: string, i: nat)
    requires i <= |s| && Factor(s, i).value.Some?
    ensures var k := Skip(s, i);
            if k < |s| && (s[k] == '+' || s[k] == '-') then
              var p := Factor(s, k + 1);
              p.value.Some? && Factor(s, i) == Parsed(if s[k] == '-' then Negated(p.value) else p.value, p.i)
            else if k < |s| && s[k] == '(' then
              var p := Expression(s, k + 1);
              var j := Skip(s, p.i);
              p.value.Some? && j < |s| && s[j] == ')' && Factor(s, i) == Parsed(p.value, j + 1)
            else
              var j := Scan(s, k, false);
              IsLexeme(s[k..j]) && Factor(s, i) == Parsed(Some(LexemeValue(s[k..j])), j)
  {
    hide Expression, LexemeValue, IsLexeme, Scan;
    SkipStops(s, i);
  }

  /** The tree with one more operand fits, says what it should, and is written
      where it was read. */
  lemma InfixWritten(s: string, start: nat, i: nat, j: nat, l: Tree, ws: string, op: Op, r: Tree, after: string)
    requires start <= i < |s| && i + 1 <= j <= |s| && s[i] == OpChar(op)
    requires s[start..i] == Text(l) + ws && s[i + 1..j] == Text(r) + after
    requires Fits(l, Tightness(op)) && Fits(r, Tightness(op) + 1) && Spaces(ws)
    ensures var t := Infix(l, ws, op, r);
            Fits(t, Tightness(op)) && s[start..j] == Text(t) + after &&
            Value(Erase(t)) == Combine(op, Value(Erase(l)), Value(Erase(r)))
  {
    assert s[start..j] == s[start..i] + [s[i]] + s[i + 1..j];
  }

  lemma SpacesJoin(s: string, start: nat, i0: nat, i: nat, text: string, pending: string)
    requires start <= i0 <= i <= |s| && s[start..i0] == text + pending && Spaces(pending) && Spaces(s[i0..i])
    ensures s[start..i] == text + (pending + s[i0..i]) && Spaces(pending + s[i0..i])
  {
    assert s[start..i] == s[start..i0] + s[i0..i];
  }

  lemma SignWritten(s: string, i: nat, k: nat, j: nat, arg: Tree)
    requires i <= k < |s| && k + 1 <= j <= |s| && (s[k] == '+' || s[k] == '-') && Spaces(s[i..k])
    requires Fits(arg, 2) && Text(arg) == s[k + 1..j]
    ensures var t := Sign(s[i..k], s[k] == '-', arg);
            Fits(t, 2) && Text(t) == s[i..j] &&
            Value(Erase(t)) == if s[k] == '-' then Negated(Value(Erase(arg))) else Value(Erase(arg))
  {
    assert s[i..j] == s[i..k] + [s[k]] + s[k + 1..j];
  }

  lemma GroupWritten(s: string, i: nat, k: nat, j: nat, body: Tree, close: string)
    requires i <= k < |s| && k + 1 <= j < |s| && s[k] == '(' && s[j] == ')' && Spaces(s[i..k]) && Spaces(close)
    requires Fits(body, 0) && s[k + 1..j] == Text(body) + close
    ensures var t := Group(s[i..k], body, close);
            Fits(t, 2) && Text(t) == s[i..j + 1] && Value(Erase(t)) == Value(Erase(body))
  {
    var t := Group(s[i..k], body, close);
    assert Text(t) == s[i..k] + "(" + Text(body) + close + ")" == s[i..k] + "(" + (Text(body) + close) + ")";
    assert s[i..j + 1] == s[i..k] + "(" + s[k + 1..j] + ")";
  }

  lemma LitWritten(s: string, i: nat, k: nat, j: nat)
    requires i <= k <= j <= |s| && Spaces(s[i..k]) && IsLexeme(s[k..j])
    ensures var t := Lit(s[i..k], s[k..j]);
            Fits(t, 2) && Text(t) == s[i..j] && Value(Erase(t)) == Some(LexemeValue(s[k..j]))
  {
    assert s[i..j] == s[i..k] + s[k..j];
  }

  lemma {:induction false} FactorParses(s: string, i: nat) returns (t: Tree)
    requires i <= |s| && Factor(s, i).value.Some?
    ensures Fits(t, 2) && Text(t) == s[i..Factor(s, i).i] && Value(Erase(t)) == Factor(s, i).value
    decreases |s| - i, 0
  {
    hide *;
    var k := Skip(s, i);
    SkipStops(s, i);
    FactorStep(s, i);
    if k < |s| && (s[k] == '+' || s[k] == '-') {
      var arg := FactorParses(s, k + 1);
      t := Sign(s[i..k], s[k] == '-', arg);
      SignWritten(s, i, k, Factor(s, i).i, arg);
    } else if k < |s| && s[k] == '(' {
      var body, close := ExpressionParses(s, k + 1);
      var e := Expression(s, k + 1);
      var j := Skip(s, e.i);
      SkipStops(s, e.i);
      SpacesJoin(s, k + 1, e.i, j, Text(body), close);
      t := Group(s[i..k], body, close + s[e.i..j]);
      GroupWritten(s, i, k, j, body, close + s[e.i..j]);
    } else {
      var j := Scan(s, k, false);
      t := Lit(s[i..k], s[k..j]);
      LitWritten(s, i, k, j);
    }
  }

  /** From a tree read so far, and white space after it. */
  lemma {:induction false} TermLoopParses(s: string, start: nat, i0: nat, sofar: Tree, pending: string, acc: real)
    returns (t: Tree, trailing: string)
    requires start <= i0 <= |s| && s[start..i0] == Text(sofar) + pending && Spaces(pending)
    requires Fits(sofar, 1) && Value(Erase(sofar)) == Some(acc) && TermLoop(s, i0, acc).value.Some?
    ensures var p := TermLoop(s, i0, acc);
            Fits(t, 1) && Spaces(trailing) && s[start..p.i] == Text(t) + trailing && Value(Erase(t)) == p.value
    decreases |s| - i0, 1
  {
    hide *;
    var i := Skip(s, i0);
    SkipStops(s, i0);
    TermLoopStep(s, i0, acc);
    SpacesJoin(s, start, i0, i, Text(sofar), pending);
    var ws := pending + s[i0..i];
    if i == |s| || TermOp(s[i]).None? {
      t, trailing := sofar, ws;
    } else {
      var op, rhs := TermOp(s[i]).value, Factor(s, i + 1);
      var r := FactorParses(s, i + 1);
      NoSpaces(Text(r));
      InfixWritten(s, start, i, rhs.i, sofar, ws, op, r, "");
      t, trailing := TermLoopParses(s, start, rhs.i, Infix(sofar, ws, op, r), "",
                                    Combine(op, Some(acc), rhs.value).value);
    }
  }

  lemma NoSpaces(text: string)
    ensures text + "" == text && Spaces("")
  {
  }

  lemma {:induction false} TermParses(s: string, i: nat) returns (t: Tree, trailing: string)
    requires i <= |s| && Term(s, i).value.Some?
    ensures var p := Term(s, i);
            Fits(t, 1) && Spaces(trailing) && s[i..p.i] == Text(t) + trailing && Value(Erase(t)) == p.value
    decreases |s| - i, 2
  {
    hide Factor, TermLoop, Text, Erase, Value, Spaces;
    var f := Factor(s, i);
    var first := FactorParses(s, i);
    FitsLooser(first, 2, 1);
    NoSpaces(Text(first));
    t, trailing := TermLoopParses(s, i, f.i, first, "", f.value.value);
  }

  lemma {:induction false} ExpressionLoopParses(s: string, start: nat, i0: nat, sofar: Tree, pending: string, acc: real)
    returns (t: Tree, trailing: string)
    requires start <= i0 <= |s| && s[start..i0] == Text(sofar) + pending && Spaces(pending)
    requires Fits(sofar, 0) && Value(Erase(sofar)) == Some(acc) && ExpressionLoop(s, i0, acc).value.Some?
    ensures var p := ExpressionLoop(s, i0, acc);
            Fits(t, 0) && Spaces(trailing) && s[start..p.i] == Text(t) + trailing && Value(Erase(t)) == p.value
    decreases |s| - i0, 3
  {
    hide *;
    var i := Skip(s, i0);
    SkipStops(s, i0);
    ExpressionLoopStep(s, i0, acc);
    SpacesJoin(s, start, i0, i, Text(sofar), pending);
    var ws := pending + s[i0..i];
    if i == |s| || ExpressionOp(s[i]).None? {
      t, trailing := sofar, ws;
    } else {
      var op, rhs := ExpressionOp(s[i]).value, Term(s, i + 1);
      var r, after := TermParses(s, i + 1);
      InfixWritten(s, start, i, rhs.i, sofar, ws, op, r, after);
      t, trailing := ExpressionLoopParses(s, start, rhs.i, Infix(sofar, ws, op, r), after,
                                          Combine(op, Some(acc), rhs.value).value);
    }
  }

  lemma {:induction false} ExpressionParses(s: string, i: nat) returns (t: Tree, trailing: string)
    requires i <= |s| && Expression(s, i).value.Some?
    ensures var p := Expression(s, i);
            Fits(t, 0) && Spaces(trailing) && s[i..p.i] == Text(t) + trailing && Value(Erase(t)) == p.value
    decreases |s| - i, 4
  {
    hide Term, ExpressionLoop, Text, Erase, Value, Spaces;
    var f := Term(s, i);
    var first, after := TermParses(s, i);
    FitsLooser(first, 1, 0);
    t, trailing := ExpressionLoopParses(s, i, f.i, first, after, f.value.value);
  }

  /** A string has a value exactly when it is an expression with that value,
      written with some white space and some parentheses. */
  lemma EvaluatesIffWritten(s: string, v: real)
    ensures SafeEval(s) == Some(v) <==>
            exists t: Tree, w: string :: Fits(t, 0) && Spaces(w) && s == Text(t) + w && Value(Erase(t)) == Some(v)
  {
    if SafeEval(s) == Some(v) {
      var t, w := EvaluatedIsWritten(s);
    }
    forall t: Tree, w: string | Fits(t, 0) && Spaces(w) && s == Text(t) + w && Value(Erase(t)) == Some(v)
      ensures SafeEval(s) == Some(v)
    {
      WrittenIsRead(t, w);
    }
  }

  lemma EvaluatedIsWritten(s: string) returns (t: Tree, trailing: string)
    requires SafeEval(s).Some?
    ensures Fits(t, 0) && Spaces(trailing) && s == Text(t) + trailing && Value(Erase(t)) == SafeEval(s)
  {
    hide Expression, Text, Erase, Value, Fits;
    var p := Expression(s, 0);
    var w;
    t, w := ExpressionParses(s, 0);
    SkipStops(s, p.i);
    SpacesJoin(s, 0, p.i, |s|, Text(t), w);
    trailing := w + s[p.i..|s|];
    assert s[0..|s|] == s;
  }
}
