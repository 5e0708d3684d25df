/** The evaluator as it runs: one string, one shared position, mutual recursion. */
module MathEvaluator {
  import opened Common
  import opened MathGrammar

  class Evaluator {
    const expr: string
    var i: nat

    constructor (expr: string)
      ensures this.expr == expr && i == 0
    {
      this.expr, i := expr, 0;
    }

    method SkipSpaces()
      requires i <= |expr|
      modifies this
      ensures i == Skip(expr, old(i))
    {
      while i < |expr| && IsSpace(expr[i])
        invariant i <= |expr| && Skip(expr, i) == Skip(expr, old(i))
      {
        i := i + 1;
      }
    }

    method ParseNumber() returns (value: Option<real>)
      requires i <= |expr|
      modifies this
      ensures Parsed(value, i) == Number(expr, old(i))
    {
      SkipSpaces();
      var start, seenDot := i, false;
      while i < |expr|
        invariant start <= i <= |expr| && Scan(expr, i, seenDot) == Scan(expr, start, false)
      {
        if expr[i] == '.' {
          if seenDot {
            break;
          }
          seenDot := true;
        } else if !IsDigit(expr[i]) {
          break;
        }
        i := i + 1;
      }
      value := if IsLexeme(expr[start..i]) then Some(LexemeValue(expr[start..i])) else None;
    }

    method ParseFactor() returns (value: Option<real>)
      requires i <= |expr|
      modifies this
      ensures Parsed(value, i) == Factor(expr, old(i))
      decreases |expr| - i, 0
    {
      hide Expression, Number;
      SkipSpaces();
      if i < |expr| && expr[i] == '+' {
        i := i + 1;
        value := ParseFactor();
      } else if i < |expr| && expr[i] == '-' {
        i := i + 1;
        value := ParseFactor();
        value := Negated(value);
      } else if i < |expr| && expr[i] == '(' {
        i := i + 1;
        value := ParseExpression();
        SkipSpaces();
        if i == |expr| || expr[i] != ')' {
          return None;
        }
        i := i + 1;
      } else {
        value := ParseNumber();
      }
    }

    method ParseTerm() returns (value: Option<real>)
      requires i <= |expr|
      modifies this
      ensures Parsed(value, i) == Term(expr, old(i))
      decreases |expr| - i, 2
    {
      hide Factor;
      ghost var start := i;
      value := ParseFactor();
      if value.None? {
        return;
      }
      while true
        invariant start <= i <= |expr| && value.Some? && TermLoop(expr, i, value.value) == Term(expr, start)
        decreases |expr| - i
      {
        SkipSpaces();
        if i == |expr| || TermOp(expr[i]).None? {
          break;
        }
        var op := TermOp(expr[i]).value;
        i := i + 1;
        var rhs := ParseFactor();
        value := Combine(op, value, rhs);
        if value.None? {
          return;
        }
      }
    }

    method ParseExpression() returns (value: Option<real>)
      requires i <= |expr|
      modifies this
      ensures Parsed(value, i) == Expression(expr, old(i))
      decreases |expr| - i, 4
    {
      hide Term;
      ghost var start := i;
      value := ParseTerm();
      if value.None? {
        return;
      }
      while true
        invariant start <= i <= |expr| && value.Some? && ExpressionLoop(expr, i, value.value) == Expression(expr, start)
        decreases |expr| - i
      {
        SkipSpaces();
        if i == |expr| || ExpressionOp(expr[i]).None? {
          break;
        }
        var op := ExpressionOp(expr[i]).value;
        i := i + 1;
        var rhs := ParseTerm();
        value := Combine(op, value, rhs);
        if value.None? {
          return;
        }
      }
    }
  }

  method SafeEvalMath(expr: string) returns (value: Option<real>)
    ensures value == SafeEval(expr)
  {
    var e := new Evaluator(expr);
    value := e.ParseExpression();
    e.SkipSpaces();
    if e.i < |expr| {
      value := None;
    }
  }
}
