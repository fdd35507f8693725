/**
 The evaluator as it runs: global token state changed in place by mutually recursive
 parser levels, each a loop, with an explicit stack of saved contexts for nested
 evaluations.  Every method is proved to do what its function in ArithSpec says.
 */
module ArithEvaluator {
  import opened Options
  import opened CText
  import opened IntMax
  import Spec = ArithSpec
  import opened ArithSpec

  datatype Result<+T> = Value(v: T) | Failed(error: Error)

  /** The globals a nested evaluation saves and restores. */
  datatype Saved = Saved(
    expression: string, tp: nat, curtok: Tok, lasttok: Tok, tokval: intmax, tokstr: Option<string>, noeval: nat)

  class Evaluator {
    var expression: string
    var tp: nat
    var curtok: Tok
    var lasttok: Tok
    var assigntok: Tok
    var tokstr: Option<string>
    var tokval: intmax
    var noeval: nat
    var env: Env
    var stack: seq<Saved>

    ghost predicate Valid()
      reads this
    {
      tp <= |expression| && |stack| <= MAX_DEPTH
    }

    ghost function View(): State
      requires Valid()
      reads this
    {
      St(expression, tp, curtok, lasttok, assigntok, tokstr, tokval, noeval, env)
    }

    /** The evaluator has done `step` and its context stack is `saved` again. */
    ghost predicate Did<T>(step: Step<T>, r: Result<T>, saved: seq<Saved>)
      reads this
    {
      match step
      case Ok(st, v) => r == Value(v) && Valid() && View() == st && stack == saved
      case Err(error, env') => r == Failed(error) && env == env'
    }

    constructor (variables: Env)
      ensures Valid() && stack == [] && env == variables
    {
      expression, tp, curtok, lasttok, assigntok := "", 0, End, End, End;
      tokstr, tokval, noeval, env, stack := None, 0, 0, variables, [];
    }

    // ---- contexts ----------------------------------------------------------

    method Save() returns (c: Saved)
      ensures c == Saved(expression, tp, curtok, lasttok, tokval, tokstr, noeval)
    {
      c := Saved(expression, tp, curtok, lasttok, tokval, tokstr, noeval);
    }

    method Restore(c: Saved)
      requires c.tp <= |c.expression|
      modifies this
      ensures expression == c.expression && tp == c.tp && curtok == c.curtok && lasttok == c.lasttok
      ensures tokval == c.tokval && tokstr == c.tokstr && noeval == c.noeval
      ensures stack == old(stack) && env == old(env) && assigntok == old(assigntok)
    {
      expression, tp, curtok, lasttok := c.expression, c.tp, c.curtok, c.lasttok;
      tokval, tokstr, noeval := c.tokval, c.tokstr, c.noeval;
    }

    /** Evaluate a text against the variables; a failure clears the token state and the stack. */
    method EvalExp(expr: string) returns (r: Result<intmax>)
      requires Valid() && stack == []
      modifies this
      ensures Valid() && stack == [] && noeval == 0
      ensures match Spec.EvalExp(expr, old(env), |old(stack)|)
              case Valid(val, env') => r == Value(val) && env == env'
              case Invalid(error, env') => r == Failed(error) && env == env'
    {
      noeval := 0;
      expression, tp, curtok, lasttok, assigntok, tokstr, tokval := "", 0, End, End, End, None, 0;
      assert View() == Idle(old(env));
      r := SubExpr(expr);
      if r.Failed? {
        expression, tp, tokstr := "", 0, None;
        stack := [];
        noeval := 0;
      }
    }

    method SubExpr(expr: string) returns (r: Result<intmax>)
      requires Valid()
      modifies this
      ensures Did(Spec.SubExpr(expr, old(View()), |old(stack)|), r, old(stack))
      decreases MAX_DEPTH - |stack|, 0, 0
    {
      var i := BlanksFrom(expr, 0);
      if i == |expr| {
        return Value(0);
      }
      if |stack| >= MAX_DEPTH {
        return Failed(RecursionLevel);
      }
      var outer := Save();
      stack := stack + [outer];
      expression, tp, curtok, lasttok, tokstr, tokval := expr, 0, End, End, None, 0;
      assert View() == Context(expr, old(View()));
      r := Whole();
      if r.Value? {
        assert stack == old(stack) + [outer];
        var top := stack[|stack| - 1];
        stack := stack[..|stack| - 1];
        assert top == outer && stack == old(stack);
        Restore(top);
      }
    }

    method Whole() returns (r: Result<intmax>)
      requires Valid()
      modifies this
      ensures Did(Spec.Whole(old(View()), |old(stack)|), r, old(stack))
      decreases MAX_DEPTH - |stack|, |expression| + 1, 42
    {
      var t := ReadTok();
      if t.Failed? {
        return Failed(t.error);
      }
      r := ExpComma();
      if r.Value? && curtok != End {
        r := Failed(SyntaxError);
      }
    }

    // ---- the lexical analyser ------------------------------------------------

    method BlanksFrom(text: string, i: nat) returns (j: nat)
      requires i <= |text|
      ensures j == SkipBlanks(text, i)
    {
      j := i;
      while j < |text| && IsBlank(text[j])
        invariant i <= j <= |text|
        invariant SkipBlanks(text, j) == SkipBlanks(text, i)
      {
        j := j + 1;
      }
    }

    method NameFrom(text: string, i: nat) returns (j: nat)
      requires i <= |text|
      ensures j == SkipName(text, i)
    {
      j := i;
      while j < |text| && IsNameChar(text[j])
        invariant i <= j <= |text|
        invariant SkipName(text, j) == SkipName(text, i)
      {
        j := j + 1;
      }
    }

    method NumberFrom(text: string, i: nat) returns (j: nat)
      requires i <= |text|
      ensures j == SkipNumber(text, i)
    {
      j := i;
      while j < |text| && IsNumberChar(text[j])
        invariant i <= j <= |text|
        invariant SkipNumber(text, j) == SkipNumber(text, i)
      {
        j := j + 1;
      }
    }

    method StrLong(num: string) returns (r: Number)
      ensures r == Spec.StrLong(num)
    {
      var i := NumberPrefix(num).1;
      r := NumberPrefix(num).0;
      while i < |num|
        invariant NumberPrefix(num).1 <= i <= |num|
        invariant r == NumberUpTo(num, i)
      {
        r := NumberStep(r, num[i], At(num, i + 1));
        i := i + 1;
      }
    }

    method ReadTok() returns (r: Result<()>)
      requires Valid()
      modifies this
      ensures Did(Spec.ReadTok(old(View()), |old(stack)|), r, old(stack))
      decreases MAX_DEPTH - |stack|, |expression| - tp, 1
    {
      var i := BlanksFrom(expression, tp);
      if i == |expression| {
        lasttok, curtok, tp := curtok, End, i;
        return Value(());
      }
      var c := expression[i];
      if IsNameStart(c) {
        r := ReadName(i);
      } else if IsDigit(c) {
        var j := NumberFrom(expression, i);
        var n := StrLong(expression[i..j]);
        if n.NotNumber? {
          return Failed(n.error);
        }
        tokval, lasttok, curtok, tp := n.val, curtok, Num, j;
        r := Value(());
      } else {
        var lexeme := ReadOperator(expression, i, curtok, lasttok);
        if lexeme.BadLexeme? {
          return Failed(lexeme.error);
        }
        if lexeme.assign.Some? {
          assigntok := lexeme.assign.value;
        }
        lasttok, curtok, tp := curtok, lexeme.tok, i + lexeme.len;
        r := Value(());
      }
    }

    method ReadName(i: nat) returns (r: Result<()>)
      requires Valid() && tp <= i < |expression| && IsNameStart(expression[i])
      modifies this
      ensures Did(Spec.ReadName(old(View()), i, |old(stack)|), r, old(stack))
      decreases MAX_DEPTH - |stack|, |expression| - tp, 0
    {
      var j := NameFrom(expression, i + 1);
      if At(expression, j) == '[' {
        return Failed(Subscript);
      }
      var name := expression[i..j];
      tokstr := Some(name);
      var peek := Peek(j);
      if peek.Failed? {
        return Failed(peek.error);
      }
      var v: Result<intmax> := Value(0);
      if lasttok == PreInc || lasttok == PreDec || peek.v != Chr('=') {
        v := StrEval(name);
        if v.Failed? {
          return Failed(v.error);
        }
      }
      tokval := v.v;
      lasttok, curtok := curtok, Str;
      r := Value(());
    }

    method Peek(j: nat) returns (r: Result<Tok>)
      requires Valid() && tp < j <= |expression|
      modifies this
      ensures Did(Spec.Peek(old(View()), j, |old(stack)|), r, old(stack))
      decreases MAX_DEPTH - |stack|, |expression| - j, 2
    {
      var here := Save();
      tokstr, tp, noeval, curtok := None, j, 1, Str;
      var t := ReadTok();
      if t.Failed? {
        return Failed(t.error);
      }
      var peektok := curtok;
      Restore(here);
      tp := j;
      r := Value(peektok);
    }

    method StrEval(name: string) returns (r: Result<intmax>)
      requires Valid()
      modifies this
      ensures Did(Spec.StrEval(name, old(View()), |old(stack)|), r, old(stack))
      decreases MAX_DEPTH - |stack|, 0, 1
    {
      if noeval > 0 {
        return Value(0);
      }
      if name in env && env[name] != "" {
        r := SubExpr(env[name]);
      } else {
        r := Value(0);
      }
    }

    // ---- the parser levels -----------------------------------------------------

    method ExpComma() returns (r: Result<intmax>)
      requires Valid()
      modifies this
      ensures Did(Spec.ExpComma(old(View()), |old(stack)|), r, old(stack))
      decreases MAX_DEPTH - |stack|, Remaining(View()), 40
    {
      r := ExpAssign();
      while r.Value? && curtok == Chr(',')
        invariant r.Failed? ==> Did(Spec.ExpComma(old(View()), |old(stack)|), r, old(stack))
        invariant r.Value? ==> Valid() && stack == old(stack) && Remaining(View()) < Remaining(old(View()))
        invariant r.Value? ==> CommaLoop(r.v, View(), |stack|) == Spec.ExpComma(old(View()), |old(stack)|)
        decreases r.Value?, if r.Value? then Remaining(View()) else 0
      {
        var t := ReadTok();
        if t.Failed? {
          return Failed(t.error);
        }
        r := ExpAssign();
      }
    }

    method ExpAssign() returns (r: Result<intmax>)
      requires Valid()
      modifies this
      ensures Did(Spec.ExpAssign(old(View()), |old(stack)|), r, old(stack))
      decreases MAX_DEPTH - |stack|, Remaining(View()), 38
    {
      r := ExpCond();
      if r.Value? && (curtok == Chr('=') || curtok == OpAssign) {
        r := Assignment(r.v);
      }
    }

    method Assignment(lvalue: intmax) returns (r: Result<intmax>)
      requires Valid() && (curtok == Chr('=') || curtok == OpAssign)
      modifies this
      ensures Did(Spec.Assignment(lvalue, old(View()), |old(stack)|), r, old(stack))
      decreases MAX_DEPTH - |stack|, Remaining(View()), 37
    {
      var op := if curtok == OpAssign then TokOp(assigntok) else None;
      if lasttok != Str {
        return Failed(NotAVariable);
      }
      if tokstr.None? || (curtok == OpAssign && op.None?) {
        return Failed(BadAssignment);
      }
      var name := tokstr.value;
      var t := ReadTok();
      if t.Failed? {
        return Failed(t.error);
      }
      r := ExpAssign();
      if r.Value? {
        r := Store(name, op, lvalue, r.v);
      }
    }

    method Store(name: string, op: Option<BinOp>, lvalue: intmax, rhs: intmax) returns (r: Result<intmax>)
      requires Valid()
      modifies this
      ensures Did(Spec.Store(name, op, lvalue, rhs, old(View())), r, old(stack))
    {
      var val := if op.Some? then Combine(op.value, lvalue, rhs, noeval > 0) else Some(rhs);
      if val.None? {
        return Failed(DivisionByZero);
      }
      Bind(name, val.value);
      tokstr := None;
      r := Value(val.value);
    }

    method Bind(name: string, val: intmax)
      requires Valid()
      modifies this
      ensures Valid() && View() == Spec.Bind(old(View()), name, val) && stack == old(stack)
    {
      if noeval == 0 {
        env := env[name := Itos(val)];
      }
    }

    method ExpCond() returns (r: Result<intmax>)
      requires Valid()
      modifies this
      ensures Did(Spec.ExpCond(old(View()), |old(stack)|), r, old(stack))
      decreases MAX_DEPTH - |stack|, Remaining(View()), 36
    {
      r := ExpLor();
      if r.Value? && curtok == Chr('?') {
        r := Conditional(r.v);
      }
    }

    method Conditional(cval: intmax) returns (r: Result<intmax>)
      requires Valid() && curtok == Chr('?')
      modifies this
      ensures Did(Spec.Conditional(cval, old(View()), |old(stack)|), r, old(stack))
      decreases MAX_DEPTH - |stack|, Remaining(View()), 37
    {
      if cval == 0 {
        noeval := noeval + 1;
      }
      var t := ReadTok();
      if t.Failed? {
        return Failed(t.error);
      }
      if curtok == End || curtok == Chr(':') {
        return Failed(ExpressionExpected);
      }
      r := ExpComma();
      if r.Failed? {
        return;
      }
      if cval == 0 {
        noeval := noeval - 1;
      }
      if curtok != Chr(':') {
        return Failed(ColonExpected);
      }
      r := SecondArm(cval, r.v);
    }

    method SecondArm(cval: intmax, val1: intmax) returns (r: Result<intmax>)
      requires Valid() && curtok == Chr(':')
      modifies this
      ensures Did(Spec.SecondArm(cval, val1, old(View()), |old(stack)|), r, old(stack))
      decreases MAX_DEPTH - |stack|, Remaining(View()), 37
    {
      if cval != 0 {
        noeval := noeval + 1;
      }
      var t := ReadTok();
      if t.Failed? {
        return Failed(t.error);
      }
      if curtok == End {
        return Failed(ExpressionExpected);
      }
      r := ExpCond();
      if r.Failed? {
        return;
      }
      if cval != 0 {
        noeval := noeval - 1;
      }
      lasttok := Cond;
      r := Value(if cval != 0 then val1 else r.v);
    }

    method ExpLor() returns (r: Result<intmax>)
      requires Valid()
      modifies this
      ensures Did(Spec.ExpLor(old(View()), |old(stack)|), r, old(stack))
      decreases MAX_DEPTH - |stack|, Remaining(View()), 34
    {
      r := ExpLand();
      while r.Value? && curtok == Lor
        invariant r.Failed? ==> Did(Spec.ExpLor(old(View()), |old(stack)|), r, old(stack))
        invariant r.Value? ==> Valid() && stack == old(stack) && Remaining(View()) < Remaining(old(View()))
        invariant r.Value? ==> LorLoop(r.v, View(), |stack|) == Spec.ExpLor(old(View()), |old(stack)|)
        decreases r.Value?, if r.Value? then Remaining(View()) else 0
      {
        r := LorRight(r.v);
      }
    }

    method LorRight(val1: intmax) returns (r: Result<intmax>)
      requires Valid() && curtok == Lor
      modifies this
      ensures Did(Spec.LorRight(val1, old(View()), |old(stack)|), r, old(stack))
      decreases MAX_DEPTH - |stack|, Remaining(View()), 34
    {
      var suppress := val1 != 0;
      if suppress {
        noeval := noeval + 1;
      }
      assert View() == if suppress then Suppress(old(View())) else old(View());
      var t := ReadTok();
      if t.Failed? {
        return Failed(t.error);
      }
      r := ExpLand();
      if r.Failed? {
        return;
      }
      if suppress {
        noeval := noeval - 1;
      }
      lasttok := Lor;
      r := Value(Flag(val1 != 0 || r.v != 0));
    }

    method ExpLand() returns (r: Result<intmax>)
      requires Valid()
      modifies this
      ensures Did(Spec.ExpLand(old(View()), |old(stack)|), r, old(stack))
      decreases MAX_DEPTH - |stack|, Remaining(View()), 32
    {
      r := ExpBinary(5);
      while r.Value? && curtok == Land
        invariant r.Failed? ==> Did(Spec.ExpLand(old(View()), |old(stack)|), r, old(stack))
        invariant r.Value? ==> Valid() && stack == old(stack) && Remaining(View()) < Remaining(old(View()))
        invariant r.Value? ==> LandLoop(r.v, View(), |stack|) == Spec.ExpLand(old(View()), |old(stack)|)
        decreases r.Value?, if r.Value? then Remaining(View()) else 0
      {
        r := LandRight(r.v);
      }
    }

    method LandRight(val1: intmax) returns (r: Result<intmax>)
      requires Valid() && curtok == Land
      modifies this
      ensures Did(Spec.LandRight(val1, old(View()), |old(stack)|), r, old(stack))
      decreases MAX_DEPTH - |stack|, Remaining(View()), 32
    {
      var suppress := val1 == 0;
      if suppress {
        noeval := noeval + 1;
      }
      assert View() == if suppress then Suppress(old(View())) else old(View());
      var t := ReadTok();
      if t.Failed? {
        return Failed(t.error);
      }
      r := ExpBinary(5);
      if r.Failed? {
        return;
      }
      if suppress {
        noeval := noeval - 1;
      }
      lasttok := Land;
      r := Value(Flag(val1 != 0 && r.v != 0));
    }

    /** Levels 5 to 12 share one shape; level 13 is exponentiation. */
    method ExpBinary(level: nat) returns (r: Result<intmax>)
      requires Valid() && 5 <= level <= 13
      modifies this
      ensures Did(Spec.ExpBinary(level, old(View()), |old(stack)|), r, old(stack))
      decreases MAX_DEPTH - |stack|, Remaining(View()), 31 - level
    {
      if level == 13 {
        r := ExpPower();
        return;
      }
      r := ExpBinary(level + 1);
      while r.Value? && IsLevelOp(level, curtok)
        invariant r.Failed? ==> Did(Spec.ExpBinary(level, old(View()), |old(stack)|), r, old(stack))
        invariant r.Value? ==> Valid() && stack == old(stack) && Remaining(View()) < Remaining(old(View()))
        invariant r.Value? ==>
                    BinaryLoop(level, r.v, View(), |stack|) == Spec.ExpBinary(level, old(View()), |old(stack)|)
        decreases r.Value?, if r.Value? then Remaining(View()) else 0
      {
        r := BinaryRight(level, r.v);
      }
    }

    method BinaryRight(level: nat, val1: intmax) returns (r: Result<intmax>)
      requires Valid() && 5 <= level <= 12 && IsLevelOp(level, curtok)
      modifies this
      ensures Did(Spec.BinaryRight(level, val1, old(View()), |old(stack)|), r, old(stack))
      decreases MAX_DEPTH - |stack|, Remaining(View()), 30
    {
      var op := TokOp(curtok).value;
      var t := ReadTok();
      if t.Failed? {
        return Failed(t.error);
      }
      r := ExpBinary(level + 1);
      if r.Value? {
        r := Reduce(op, val1, r.v);
      }
    }

    method Reduce(op: BinOp, val1: intmax, val2: intmax) returns (r: Result<intmax>)
      requires Valid()
      modifies this
      ensures Did(Spec.Reduce(op, val1, val2, old(View())), r, old(stack))
    {
      var val := Combine(op, val1, val2, noeval > 0);
      if val.None? {
        return Failed(DivisionByZero);
      }
      if !(op == Mod && val1 == INTMAX_MIN && val2 == -1) {
        lasttok := Num;
      }
      r := Value(val.value);
    }

    method ExpPower() returns (r: Result<intmax>)
      requires Valid()
      modifies this
      ensures Did(Spec.ExpPower(old(View()), |old(stack)|), r, old(stack))
      decreases MAX_DEPTH - |stack|, Remaining(View()), 17
    {
      r := Exp1();
      while r.Value? && curtok == Pow
        invariant r.Failed? ==> Did(Spec.ExpPower(old(View()), |old(stack)|), r, old(stack))
        invariant r.Value? ==> Valid() && stack == old(stack) && Remaining(View()) < Remaining(old(View()))
        invariant r.Value? ==> PowerLoop(r.v, View(), |stack|) == Spec.ExpPower(old(View()), |old(stack)|)
        decreases r.Value?, if r.Value? then Remaining(View()) else 0
      {
        var val1 := r.v;
        var t := ReadTok();
        if t.Failed? {
          return Failed(t.error);
        }
        r := ExpPower();
        if r.Failed? {
          return;
        }
        lasttok := Num;
        if r.v == 0 {
          return Value(1);
        }
        if r.v < 0 {
          return Failed(NegativeExponent);
        }
        var val := IPow(val1, r.v);
        r := Value(val);
      }
    }

    method Exp1() returns (r: Result<intmax>)
      requires Valid()
      modifies this
      ensures Did(Spec.Exp1(old(View()), |old(stack)|), r, old(stack))
      decreases MAX_DEPTH - |stack|, Remaining(View()), 15
    {
      if !IsUnary(curtok) {
        r := Exp0();
        return;
      }
      var op := curtok;
      var t := ReadTok();
      if t.Failed? {
        return Failed(t.error);
      }
      r := Exp1();
      if r.Value? {
        lasttok := Num;
        r := Value(ApplyUnary(op, r.v));
      }
    }

    method Exp0() returns (r: Result<intmax>)
      requires Valid()
      modifies this
      ensures Did(Spec.Exp0(old(View()), |old(stack)|), r, old(stack))
      decreases MAX_DEPTH - |stack|, Remaining(View()), 14
    {
      if curtok == PreInc || curtok == PreDec {
        r := PreStep(if curtok == PreInc then 1 else -1);
      } else if curtok == Chr('(') {
        r := Parenthesised();
      } else if curtok == Num {
        var val := tokval;
        var t := ReadTok();
        r := if t.Failed? then Failed(t.error) else Value(val);
      } else if curtok == Str {
        r := Variable();
      } else {
        r := Failed(OperandExpected);
      }
    }

    method Parenthesised() returns (r: Result<intmax>)
      requires Valid() && curtok == Chr('(')
      modifies this
      ensures Did(Spec.Parenthesised(old(View()), |old(stack)|), r, old(stack))
      decreases MAX_DEPTH - |stack|, Remaining(View()), 12
    {
      var t := ReadTok();
      if t.Failed? {
        return Failed(t.error);
      }
      r := ExpComma();
      if r.Failed? {
        return;
      }
      if curtok != Chr(')') {
        return Failed(MissingParen);
      }
      t := ReadTok();
      if t.Failed? {
        return Failed(t.error);
      }
    }

    method PreStep(delta: int) returns (r: Result<intmax>)
      requires Valid() && curtok != End && -1 <= delta <= 1
      modifies this
      ensures Did(Spec.PreStep(old(View()), delta, |old(stack)|), r, old(stack))
      decreases MAX_DEPTH - |stack|, Remaining(View()), 12
    {
      lasttok := curtok;
      var t := ReadTok();
      if t.Failed? {
        return Failed(t.error);
      }
      if curtok != Str {
        return Failed(IdentifierExpected);
      }
      var val := Wrap(tokval + delta);
      Bump(tokval, delta);
      t := ReadTok();
      r := if t.Failed? then Failed(t.error) else Value(val);
    }

    method Bump(val: intmax, delta: int)
      requires Valid() && -1 <= delta <= 1
      modifies this
      ensures Valid() && View() == Spec.Bump(old(View()), val, delta) && stack == old(stack)
    {
      if tokstr.Some? {
        Bind(tokstr.value, Wrap(val + delta));
      }
      curtok := Num;
    }

    method Variable() returns (r: Result<intmax>)
      requires Valid() && curtok == Str
      modifies this
      ensures Did(Spec.Variable(old(View()), |old(stack)|), r, old(stack))
      decreases MAX_DEPTH - |stack|, Remaining(View()), 12
    {
      var val := tokval;
      var here := Save();
      tokstr, noeval := None, 1;
      var t := ReadTok();
      if t.Failed? {
        return Failed(t.error);
      }
      if curtok == PostInc || curtok == PostDec {
        r := PostStep(here);
      } else {
        Restore(here);
        t := ReadTok();
        r := if t.Failed? then Failed(t.error) else Value(val);
      }
    }

    method PostStep(here: Saved) returns (r: Result<intmax>)
      requires Valid() && (curtok == PostInc || curtok == PostDec) && here.expression == expression && here.tp < tp
      requires here.curtok == Str
      modifies this
      ensures Did(Spec.PostStep(Unsaved(here, old(env), old(assigntok)), old(View()), |old(stack)|), r, old(stack))
      decreases MAX_DEPTH - |stack|, Remaining(View()), 11
    {
      tokstr, noeval, lasttok := here.tokstr, here.noeval, Str;
      Bump(here.tokval, if curtok == PostInc then 1 else -1);
      var t := ReadTok();
      r := if t.Failed? then Failed(t.error) else Value(here.tokval);
    }

    static ghost function Unsaved(c: Saved, env: Env, assigntok: Tok): State
      requires c.tp <= |c.expression|
    {
      St(c.expression, c.tp, c.curtok, c.lasttok, assigntok, c.tokstr, c.tokval, c.noeval, env)
    }
  }
}
