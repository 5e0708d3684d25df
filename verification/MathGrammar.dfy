/** Arithmetic expressions: their meaning, their concrete syntax, and a reading
    of a string by recursive descent, all as functions. */
module MathGrammar {
  import opened Common

  // ----------------------------------------------------------------- meaning

  datatype Op = Add | Sub | Mul | Div | Mod

  datatype Expr = Num(lexeme: string) | Plus(arg: Expr) | Minus(arg: Expr) | Bin(op: Op, left: Expr, right: Expr)

  function Truncate(x: real): real {
    if x >= 0.0 then x.Floor as real else -((-x).Floor as real)
  }

  /** Arithmetic with the remainder taking the sign of the dividend. */
  function Compute(op: Op, a: real, b: real): real
    requires op == Div || op == Mod ==> b != 0.0
  {
    match op
    case Add => a + b
    case Sub => a - b
    case Mul => a * b
    case Div => a / b
    case Mod => a - b * Truncate(a / b)
  }

  predicate ByZero(op: Op, b: real) {
    (op == Div || op == Mod) && b == 0.0
  }

  /** The value, or none as soon as some divisor or modulus is zero. */
  function Value(e: Expr): Option<real> {
    match e
    case Num(lexeme) => Some(LexemeValue(lexeme))
    case Plus(arg) => Value(arg)
    case Minus(arg) => Negated(Value(arg))
    case Bin(op, l, r) => Combine(op, Value(l), Value(r))
  }

  function Negated(v: Option<real>): Option<real> {
    if v.None? then None else Some(-v.value)
  }

  function Combine(op: Op, l: Option<real>, r: Option<real>): Option<real> {
    if l.None? || r.None? || ByZero(op, r.value) then None else Some(Compute(op, l.value, r.value))
  }

  /** Some division or remainder, all of whose operands have values, is by zero. */
  predicate DividesByZero(e: Expr) {
    match e
    case Num(_) => false
    case Plus(arg) => DividesByZero(arg)
    case Minus(arg) => DividesByZero(arg)
    case Bin(op, l, r) => DividesByZero(l) || DividesByZero(r) || (Value(r).Some? && ByZero(op, Value(r).value))
  }

  lemma {:induction false} NoValueIffDividesByZero(e: Expr)
    ensures Value(e).None? <==> DividesByZero(e)
  {
    match e
    case Num(_) =>
    case Plus(arg) => NoValueIffDividesByZero(arg);
    case Minus(arg) => NoValueIffDividesByZero(arg);
    case Bin(_, l, r) =>
      NoValueIffDividesByZero(l);
      NoValueIffDividesByZero(r);
  }

  // -------------------------------------------------------------- characters

  predicate IsSpace(c: char) {
    var n := c as int;
    9 <= n <= 13 || n == 32 || n == 0xA0 || n == 0x1680 || 0x2000 <= n <= 0x200A ||
    n == 0x2028 || n == 0x2029 || n == 0x202F || n == 0x205F || n == 0x3000 || n == 0xFEFF
  }

  lemma SymbolsAreNoSpace(c: char)
    requires IsNumeric(c) || c in "+-*/%()"
    ensures !IsSpace(c)
  {
  }

  predicate IsDigit(c: char) {
    '0' <= c <= '9'
  }

  predicate IsNumeric(c: char) {
    IsDigit(c) || c == '.'
  }

  predicate Spaces(w: string) {
    forall i :: 0 <= i < |w| ==> IsSpace(w[i])
  }

  function OpChar(op: Op): char {
    match op
    case Add => '+'
    case Sub => '-'
    case Mul => '*'
    case Div => '/'
    case Mod => '%'
  }

  function Tightness(op: Op): nat {
    if op == Add || op == Sub then 0 else 1
  }

  // ----------------------------------------------------------------- numbers

  function DigitOf(c: char): nat
    requires IsDigit(c)
  {
    c as int - '0' as int
  }

  function DigitsValue(s: string): nat
    requires forall i :: 0 <= i < |s| ==> IsDigit(s[i])
  {
    if s == [] then 0 else 10 * DigitsValue(s[..|s| - 1]) + DigitOf(s[|s| - 1])
  }

  function PowerOfTen(n: nat): (p: nat)
    ensures p > 0
  {
    if n == 0 then 1 else 10 * PowerOfTen(n - 1)
  }

  /** Where the first dot is, or the length. */
  function DotAt(s: string): (i: nat)
    ensures i <= |s| && (i < |s| ==> s[i] == '.') && forall j :: 0 <= j < i ==> s[j] != '.'
  {
    if s == [] || s[0] == '.' then 0 else 1 + DotAt(s[1..])
  }

  /** Digits with at most one dot among them. */
  predicate IsScanned(s: string) {
    var d := DotAt(s);
    (forall i :: 0 <= i < d ==> IsDigit(s[i])) && forall i :: d < i < |s| ==> IsDigit(s[i])
  }

  predicate IsLexeme(s: string) {
    IsScanned(s) && exists i :: 0 <= i < |s| && IsDigit(s[i])
  }

  /** "12.5" is 12 + 5/10; a missing part counts as nothing. */
  function LexemeValue(s: string): real {
    if !IsScanned(s) then 0.0
    else
      var d := DotAt(s);
      var fraction := if d < |s| then s[d + 1..] else [];
      DigitsValue(s[..d]) as real + DigitsValue(fraction) as real / PowerOfTen(|fraction|) as real
  }

  // --------------------------------------------------------- concrete syntax

  /** A tree as written: each token carries the white space before it. */
  datatype Tree =
    | Lit(ws: string, lexeme: string)
    | Sign(ws: string, minus: bool, arg: Tree)
    | Infix(left: Tree, ws: string, op: Op, right: Tree)
    | Group(open: string, body: Tree, close: string)

  function Level(t: Tree): nat {
    if t.Infix? then Tightness(t.op) else 2
  }

  /** Written so that it may stand where `level` is expected: operands bind at
      least as tightly as their place asks, to the left of an operator as tightly
      as the operator, to the right more. */
  ghost predicate Fits(t: Tree, level: nat) {
    Level(t) >= level &&
    match t
    case Lit(ws, lexeme) => Spaces(ws) && IsLexeme(lexeme)
    case Sign(ws, _, arg) => Spaces(ws) && Fits(arg, 2)
    case Infix(l, ws, op, r) => Spaces(ws) && Fits(l, Tightness(op)) && Fits(r, Tightness(op) + 1)
    case Group(open, body, close) => Spaces(open) && Spaces(close) && Fits(body, 0)
  }

  function Text(t: Tree): string {
    match t
    case Lit(ws, lexeme) => ws + lexeme
    case Sign(ws, minus, arg) => ws + [if minus then '-' else '+'] + Text(arg)
    case Infix(l, ws, op, r) => Text(l) + ws + [OpChar(op)] + Text(r)
    case Group(open, body, close) => open + "(" + Text(body) + close + ")"
  }

  /** What the tree says once white space and parentheses are forgotten. */
  function Erase(t: Tree): Expr {
    match t
    case Lit(_, lexeme) => Num(lexeme)
    case Sign(_, minus, arg) => if minus then Minus(Erase(arg)) else Plus(Erase(arg))
    case Infix(l, _, op, r) => Bin(op, Erase(l), Erase(r))
    case Group(_, body, _) => Erase(body)
  }

  ghost predicate LexemesOk(e: Expr) {
    match e
    case Num(lexeme) => IsLexeme(lexeme)
    case Plus(arg) => LexemesOk(arg)
    case Minus(arg) => LexemesOk(arg)
    case Bin(_, l, r) => LexemesOk(l) && LexemesOk(r)
  }

  /** Parentheses only where an operand would otherwise be torn apart. */
  function Minimal(e: Expr): Tree {
    match e
    case Num(lexeme) => Lit("", lexeme)
    case Plus(arg) => Sign("", false, Protect(Minimal(arg), 2))
    case Minus(arg) => Sign("", true, Protect(Minimal(arg), 2))
    case Bin(op, l, r) => Infix(Protect(Minimal(l), Tightness(op)), "", op, Protect(Minimal(r), Tightness(op) + 1))
  }

  function Protect(t: Tree, level: nat): Tree {
    if Level(t) < level then Group("", t, "") else t
  }

  lemma {:induction false} FitsLooser(t: Tree, level: nat, looser: nat)
    requires Fits(t, level) && looser <= level
    ensures Fits(t, looser)
  {
  }

  lemma {:induction false} MinimalFits(e: Expr)
    requires LexemesOk(e)
    ensures Fits(Minimal(e), 0) && Erase(Minimal(e)) == e
  {
    match e
    case Num(_) =>
    case Plus(arg) => MinimalFits(arg);
    case Minus(arg) => MinimalFits(arg);
    case Bin(_, l, r) =>
      MinimalFits(l);
      MinimalFits(r);
  }

  // ---------------------------------------------------------- recursive descent

  /** A value, or none, and how far the string has been read. */
  datatype Parsed = Parsed(value: Option<real>, i: nat)

  function Skip(s: string, i: nat): (j: nat)
    requires i <= |s|
    ensures i <= j <= |s|
    decreases |s| - i
  {
    if i < |s| && IsSpace(s[i]) then Skip(s, i + 1) else i
  }

  function Scan(s: string, i: nat, seenDot: bool): (j: nat)
    requires i <= |s|
    ensures i <= j <= |s|
    decreases |s| - i
  {
    if i == |s| then i
    else if s[i] == '.' then if seenDot then i else Scan(s, i + 1, true)
    else if IsDigit(s[i]) then Scan(s, i + 1, seenDot)
    else i
  }

  function Number(s: string, i0: nat): (p: Parsed)
    requires i0 <= |s|
    ensures i0 <= p.i <= |s|
  {
    var i := Skip(s, i0);
    var j := Scan(s, i, false);
    Parsed(if IsLexeme(s[i..j]) then Some(LexemeValue(s[i..j])) else None, j)
  }

  function Factor(s: string, i0: nat): (p: Parsed)
    requires i0 <= |s|
    ensures i0 <= p.i <= |s|
    decreases |s| - i0, 0
  {
    var i := Skip(s, i0);
    if i < |s| && s[i] == '+' then Factor(s, i + 1)
    else if i < |s| && s[i] == '-' then
      var p := Factor(s, i + 1);
      Parsed(Negated(p.value), p.i)
    else if i < |s| && s[i] == '(' then
      var p := Expression(s, i + 1);
      var j := Skip(s, p.i);
      if j < |s| && s[j] == ')' then Parsed(p.value, j + 1) else Parsed(None, j)
    else Number(s, i)
  }

  function TermOp(c: char): Option<Op> {
    if c == '*' then Some(Mul) else if c == '/' then Some(Div) else if c == '%' then Some(Mod) else None
  }

  function ExpressionOp(c: char): Option<Op> {
    if c == '+' then Some(Add) else if c == '-' then Some(Sub) else None
  }

  function TermLoop(s: string, i0: nat, acc: real): (p: Parsed)
    requires i0 <= |s|
    ensures i0 <= p.i <= |s|
    decreases |s| - i0, 1
  {
    var i := Skip(s, i0);
    if i == |s| || TermOp(s[i]).None? then Parsed(Some(acc), i)
    else
      var rhs := Factor(s, i + 1);
      var v := Combine(TermOp(s[i]).value, Some(acc), rhs.value);
      if v.None? then Parsed(None, rhs.i) else TermLoop(s, rhs.i, v.value)
  }

  function Term(s: string, i: nat): (p: Parsed)
    requires i <= |s|
    ensures i <= p.i <= |s|
    decreases |s| - i, 2
  {
    var p := Factor(s, i);
    if p.value.None? then p else TermLoop(s, p.i, p.value.value)
  }

  function ExpressionLoop(s: string, i0: nat, acc: real): (p: Parsed)
    requires i0 <= |s|
    ensures i0 <= p.i <= |s|
    decreases |s| - i0, 3
  {
    var i := Skip(s, i0);
    if i == |s| || ExpressionOp(s[i]).None? then Parsed(Some(acc), i)
    else
      var rhs := Term(s, i + 1);
      var v := Combine(ExpressionOp(s[i]).value, Some(acc), rhs.value);
      if v.None? then Parsed(None, rhs.i) else ExpressionLoop(s, rhs.i, v.value)
  }

  function Expression(s: string, i: nat): (p: Parsed)
    requires i <= |s|
    ensures i <= p.i <= |s|
    decreases |s| - i, 4
  {
    var p := Term(s, i);
    if p.value.None? then p else ExpressionLoop(s, p.i, p.value.value)
  }

  /** The whole string must be one expression. */
  function SafeEval(s: string): Option<real> {
    var p := Expression(s, 0);
    if Skip(s, p.i) < |s| then None else p.value
  }
}
