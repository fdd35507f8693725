/**
 Which operand belongs to which operator, read off texts: x op y op' z and the like, against
 the table of precedences in the shell's manual rather than the parser's own levels.
 */
module ArithPrecedence {
  import opened Options
  import opened CText
  import opened IntMax
  import opened ArithSpec
  import opened ArithMeaning
  import opened ArithReading
  import opened ArithCorrect

  // ---- texts without blanks ----------------------------------------------------------------

  function Joined(xs: seq<Lex>): string {
    if xs == [] then "" else LexText(xs[0]) + Joined(xs[1..])
  }

  /** Each lexeme stays apart from the next, and can be part of an expression. */
  predicate Neighbours(xs: seq<Lex>) {
    xs == [] || (LexOk(xs[0]) && Neighbours(xs[1..]) && (|xs| > 1 ==> Apart(xs[0], LexText(xs[1]))))
  }

  lemma LexStart(x: Lex)
    requires LexOk(x)
    ensures LexText(x) != "" && !IsBlank(LexText(x)[0])
  {
    if IsOperator(x) {
      OperatorStart(x);
    }
  }

  lemma {:induction false} JoinedWrites(xs: seq<Lex>)
    requires Neighbours(xs)
    ensures Writes(Joined(xs), xs)
    decreases |xs|
  {
    if xs != [] {
      var w, tail := LexText(xs[0]), Joined(xs[1..]);
      JoinedWrites(xs[1..]);
      LexStart(xs[0]);
      assert Unblank(w + tail) == w + tail && (w + tail)[|w|..] == tail;
      if |xs| > 1 {
        LexStart(xs[1]);
        assert tail[0] == LexText(xs[1])[0];
      }
    }
  }

  /** What the evaluator reports of an outcome. */
  function Reported(out: Out): Outcome {
    match out
    case Val(v, env) => Valid(v, Texts(env))
    case Fault(error, env) => Invalid(error, Texts(env))
  }

  lemma EvalJoined(xs: seq<Lex>, e: Expr, env: Ints)
    requires Proper(e) && Print(0, e) == xs && Neighbours(xs)
    ensures EvalExp(Joined(xs), Texts(env), 0) == Reported(Eval(e, env, false))
  {
    JoinedWrites(xs);
    EvaluatorAgrees(Joined(xs), e, env, 0);
  }

  // ---- the table ---------------------------------------------------------------------------

  /** The infix operators, loosest first. */
  predicate InTier(op: string, i: nat) {
    match i
    case 0 => op == ","
    case 1 => op == "||"
    case 2 => op == "&&"
    case 3 => op == "|"
    case 4 => op == "^"
    case 5 => op == "&"
    case 6 => op == "==" || op == "!="
    case 7 => op == "<=" || op == ">=" || op == "<" || op == ">"
    case 8 => op == "<<" || op == ">>"
    case 9 => op == "+" || op == "-"
    case 10 => op == "*" || op == "/" || op == "%"
    case 11 => op == "**"
    case _ => false
  }

  lemma TierLevel(op: Infix, i: nat)
    requires InTier(InfixText(op), i)
    ensures InfixLevel(op) == (if i == 0 then 0 else i + 2) && (i == 11 <==> op == Exponent)
  {
  }

  lemma EveryTier(op: Infix) returns (i: nat)
    ensures InTier(InfixText(op), i) && i < 12
  {
    i := if InfixLevel(op) == 0 then 0 else InfixLevel(op) - 2;
  }

  function V(x: string): Expr { Atom(Var(x)) }

  lemma Between(op: Infix, c: char)
    requires 'w' <= c <= 'z'
    ensures LexOk(LName([c])) && LexOk(LInfix(op)) && Apart(LName([c]), InfixText(op)) && Apart(LInfix(op), [c])
  {
  }

  /**
   In x op y op' z the tighter operator takes y; of two that bind alike the first does, but for
   **, of which the second does.
   */
  lemma Precedence(op: Infix, i: nat, op': Infix, j: nat, env: Ints)
    requires InTier(InfixText(op), i) && InTier(InfixText(op'), j)
    ensures var e := if i < j || (i == j && InfixText(op) == "**") then Two(op, V("x"), Two(op', V("y"), V("z")))
                     else Two(op', Two(op, V("x"), V("y")), V("z"));
            EvalExp("x" + InfixText(op) + "y" + InfixText(op') + "z", Texts(env), 0) == Reported(Eval(e, env, false))
  {
    TierLevel(op, i);
    TierLevel(op', j);
    var right := i < j || (i == j && InfixText(op) == "**");
    var e := if right then Two(op, V("x"), Two(op', V("y"), V("z"))) else Two(op', Two(op, V("x"), V("y")), V("z"));
    var xs := [LName("x"), LInfix(op), LName("y"), LInfix(op'), LName("z")];
    if right {
      RightPrint(op, op');
    } else {
      LeftPrint(op, op');
    }
    FiveJoined(op, op');
    EvalJoined(xs, e, env);
  }

  lemma VarPrint(k: nat, x: string)
    requires k <= 15
    ensures Print(k, V(x)) == [LName(x)]
  {
  }

  lemma RightPrint(op: Infix, op': Infix)
    requires InfixLevel(op') >= RightLevel(op)
    ensures Print(0, Two(op, V("x"), Two(op', V("y"), V("z"))))
         == [LName("x"), LInfix(op), LName("y"), LInfix(op'), LName("z")]
  {
    VarPrint(LeftLevel(op), "x");
    VarPrint(LeftLevel(op'), "y");
    VarPrint(RightLevel(op'), "z");
    assert Print(RightLevel(op), Two(op', V("y"), V("z"))) == [LName("y")] + ([LInfix(op')] + [LName("z")]);
  }

  lemma LeftPrint(op: Infix, op': Infix)
    requires InfixLevel(op) >= LeftLevel(op')
    ensures Print(0, Two(op', Two(op, V("x"), V("y")), V("z")))
         == [LName("x"), LInfix(op), LName("y"), LInfix(op'), LName("z")]
  {
    VarPrint(LeftLevel(op), "x");
    VarPrint(RightLevel(op), "y");
    VarPrint(RightLevel(op'), "z");
    assert Print(LeftLevel(op'), Two(op, V("x"), V("y"))) == [LName("x")] + ([LInfix(op)] + [LName("y")]);
  }

  lemma FiveJoined(op: Infix, op': Infix)
    ensures var xs := [LName("x"), LInfix(op), LName("y"), LInfix(op'), LName("z")];
            Neighbours(xs) && Joined(xs) == "x" + InfixText(op) + "y" + InfixText(op') + "z"
  {
    var xs := [LName("x"), LInfix(op), LName("y"), LInfix(op'), LName("z")];
    ThreeJoined(op', "y", "z");
    Between(op, 'x');
    Between(op, 'y');
    NextJoined(LInfix(op), [LName("y"), LInfix(op'), LName("z")]);
    NextJoined(LName("x"), [LInfix(op), LName("y"), LInfix(op'), LName("z")]);
    assert [LInfix(op)] + [LName("y"), LInfix(op'), LName("z")] == [LInfix(op), LName("y"), LInfix(op'), LName("z")];
    assert [LName("x")] + [LInfix(op), LName("y"), LInfix(op'), LName("z")] == xs;
  }

  /** One more lexeme in front. */
  lemma NextJoined(x: Lex, xs: seq<Lex>)
    requires LexOk(x) && Neighbours(xs) && (xs != [] ==> Apart(x, LexText(xs[0])))
    ensures Neighbours([x] + xs) && Joined([x] + xs) == LexText(x) + Joined(xs)
  {
    assert ([x] + xs)[1..] == xs;
  }

  lemma OneJoined(x: Lex)
    requires LexOk(x)
    ensures Neighbours([x]) && Joined([x]) == LexText(x)
  {
    assert Joined([]) == "" && [x][1..] == [];
  }

  lemma ThreeJoined(op: Infix, x: string, y: string)
    requires |x| == |y| == 1 && 'w' <= x[0] <= 'z' && 'w' <= y[0] <= 'z'
    ensures var xs := [LName(x), LInfix(op), LName(y)]; Neighbours(xs) && Joined(xs) == x + InfixText(op) + y
  {
    Between(op, x[0]);
    Between(op, y[0]);
    assert x == [x[0]] && y == [y[0]];
    OneJoined(LName(y));
    NextJoined(LInfix(op), [LName(y)]);
    NextJoined(LName(x), [LInfix(op)] + [LName(y)]);
    assert [LName(x)] + ([LInfix(op)] + [LName(y)]) == [LName(x), LInfix(op), LName(y)];
  }

  // ---- signs, conditions and assignments -----------------------------------------------------

  function Sign(u: UnaryOp): string {
    match u
    case LogicalNot => "!"
    case Complement => "~"
    case Negate => "-"
    case Identity => "+"
  }

  /** A sign takes the variable behind it before any infix operator does. */
  lemma SignFirst(u: UnaryOp, op: Infix, env: Ints)
    ensures EvalExp(Sign(u) + ("x" + InfixText(op) + "y"), Texts(env), 0)
         == Reported(Eval(Two(op, Unary(u, V("x")), V("y")), env, false))
  {
    var e, rest := Two(op, Unary(u, V("x")), V("y")), [LName("x"), LInfix(op), LName("y")];
    VarPrint(14, "x");
    VarPrint(RightLevel(op), "y");
    assert Print(LeftLevel(op), Unary(u, V("x"))) == [LUnary(u)] + [LName("x")];
    assert Print(0, e) == [LUnary(u)] + [LName("x")] + ([LInfix(op)] + [LName("y")]) == [LUnary(u)] + rest;
    ThreeJoined(op, "x", "y");
    NextJoined(LUnary(u), rest);
    EvalJoined([LUnary(u)] + rest, e, env);
  }

  lemma CondPrint(k: nat, c: Expr, a: Expr, b: Expr)
    requires k <= 2
    ensures Print(k, Ternary(c, a, b)) == Print(3, c) + ([LQuery] + (Print(0, a) + ([LColon] + Print(2, b))))
  {
  }

  lemma JoinTwo(xs: seq<Lex>, ys: seq<Lex>)
    requires Neighbours(xs) && Neighbours(ys) && xs != [] && ys != [] && Apart(xs[|xs| - 1], LexText(ys[0]))
    ensures Neighbours(xs + ys) && Joined(xs + ys) == Joined(xs) + Joined(ys)
  {
    NeighboursJoin(xs, ys);
    JoinedJoin(xs, ys);
  }

  lemma {:induction false} NeighboursJoin(xs: seq<Lex>, ys: seq<Lex>)
    requires Neighbours(xs) && Neighbours(ys) && xs != [] && ys != [] && Apart(xs[|xs| - 1], LexText(ys[0]))
    ensures Neighbours(xs + ys)
    decreases |xs|
  {
    assert (xs + ys)[1..] == xs[1..] + ys && (xs + ys)[0] == xs[0];
    if |xs| > 1 {
      NeighboursJoin(xs[1..], ys);
      assert (xs + ys)[1] == xs[1];
    } else {
      assert xs[1..] + ys == ys && (xs + ys)[1] == ys[0];
    }
  }

  lemma {:induction false} JoinedJoin(xs: seq<Lex>, ys: seq<Lex>)
    ensures Joined(xs + ys) == Joined(xs) + Joined(ys)
    decreases |xs|
  {
    if xs == [] {
      assert xs + ys == ys;
    } else {
      assert (xs + ys)[1..] == xs[1..] + ys && (xs + ys)[0] == xs[0];
      JoinedJoin(xs[1..], ys);
    }
  }

  /** ? x : y, with one-letter names. */
  function Arms(x: string, y: string): seq<Lex> {
    [LQuery, LName(x), LColon, LName(y)]
  }

  predicate Letter(x: string) {
    |x| == 1 && 'w' <= x[0] <= 'z'
  }

  lemma ArmsJoined(x: string, y: string)
    requires Letter(x) && Letter(y)
    ensures Neighbours(Arms(x, y)) && Joined(Arms(x, y)) == "?" + x + ":" + y
  {
    assert x == [x[0]] && y == [y[0]];
    OneJoined(LName(y));
    NextJoined(LColon, [LName(y)]);
    assert [LColon] + [LName(y)] == [LColon, LName(y)];
    NextJoined(LName(x), [LColon, LName(y)]);
    assert [LName(x)] + [LColon, LName(y)] == [LName(x), LColon, LName(y)];
    NextJoined(LQuery, [LName(x), LColon, LName(y)]);
    assert [LQuery] + [LName(x), LColon, LName(y)] == Arms(x, y);
  }

  /** Every infix operator but the comma takes its operands before the condition is asked ... */
  lemma ConditionAfter(op: Infix, env: Ints)
    ensures var e := if op == Sequence then Two(op, V("x"), Ternary(V("y"), V("z"), V("w")))
                     else Ternary(Two(op, V("x"), V("y")), V("z"), V("w"));
            EvalExp("x" + InfixText(op) + "y" + ("?" + "z" + ":" + "w"), Texts(env), 0) == Reported(Eval(e, env, false))
  {
    var e := if op == Sequence then Two(op, V("x"), Ternary(V("y"), V("z"), V("w")))
             else Ternary(Two(op, V("x"), V("y")), V("z"), V("w"));
    var xs := [LName("x"), LInfix(op), LName("y")];
    ConditionPrint(op);
    ThreeJoined(op, "x", "y");
    ArmsJoined("z", "w");
    JoinTwo(xs, Arms("z", "w"));
    EvalJoined(xs + Arms("z", "w"), e, env);
  }

  lemma ConditionPrint(op: Infix)
    ensures var e := if op == Sequence then Two(op, V("x"), Ternary(V("y"), V("z"), V("w")))
                     else Ternary(Two(op, V("x"), V("y")), V("z"), V("w"));
            Print(0, e) == [LName("x"), LInfix(op), LName("y")] + Arms("z", "w")
  {
    var arms := [LQuery] + ([LName("z")] + ([LColon] + [LName("w")]));
    VarPrint(0, "z");
    VarPrint(2, "w");
    assert arms == Arms("z", "w");
    if op == Sequence {
      VarPrint(0, "x");
      VarPrint(3, "y");
      CondPrint(1, V("y"), V("z"), V("w"));
      assert Print(1, Ternary(V("y"), V("z"), V("w"))) == [LName("y")] + arms;
      assert Print(0, Two(op, V("x"), Ternary(V("y"), V("z"), V("w"))))
          == [LName("x")] + ([LInfix(op)] + ([LName("y")] + arms));
    } else {
      VarPrint(LeftLevel(op), "x");
      VarPrint(RightLevel(op), "y");
      CondPrint(0, Two(op, V("x"), V("y")), V("z"), V("w"));
      assert Print(3, Two(op, V("x"), V("y"))) == [LName("x")] + ([LInfix(op)] + [LName("y")]);
    }
  }

  /** ... and so they do in its last arm. */
  lemma ConditionBefore(op: Infix, env: Ints)
    ensures var e := if op == Sequence then Two(op, Ternary(V("x"), V("y"), V("z")), V("w"))
                     else Ternary(V("x"), V("y"), Two(op, V("z"), V("w")));
            EvalExp("x" + ("?" + "y" + ":") + ("z" + InfixText(op) + "w"), Texts(env), 0)
            == Reported(Eval(e, env, false))
  {
    var e := if op == Sequence then Two(op, Ternary(V("x"), V("y"), V("z")), V("w"))
             else Ternary(V("x"), V("y"), Two(op, V("z"), V("w")));
    var xs, ys := [LName("x"), LQuery, LName("y"), LColon], [LName("z"), LInfix(op), LName("w")];
    OpenCondition();
    ThreeJoined(op, "z", "w");
    JoinTwo(xs, ys);
    VarPrint(3, "x");
    VarPrint(0, "y");
    if op == Sequence {
      VarPrint(2, "z");
      VarPrint(1, "w");
      CondPrint(0, V("x"), V("y"), V("z"));
      assert Print(1, Ternary(V("x"), V("y"), V("z"))) == xs + [LName("z")];
      assert Print(0, e) == xs + [LName("z")] + ([LInfix(op)] + [LName("w")]);
    } else {
      VarPrint(LeftLevel(op), "z");
      VarPrint(RightLevel(op), "w");
      CondPrint(0, V("x"), V("y"), Two(op, V("z"), V("w")));
      assert Print(2, Two(op, V("z"), V("w"))) == [LName("z")] + ([LInfix(op)] + [LName("w")]);
    }
    assert Print(0, e) == xs + ys;
    EvalJoined(xs + ys, e, env);
  }

  lemma OpenCondition()
    ensures var xs := [LName("x"), LQuery, LName("y"), LColon]; Neighbours(xs) && Joined(xs) == "x" + ("?" + "y" + ":")
  {
    OneJoined(LColon);
    NextJoined(LName("y"), [LColon]);
    assert [LName("y")] + [LColon] == [LName("y"), LColon];
    NextJoined(LQuery, [LName("y"), LColon]);
    assert [LQuery] + [LName("y"), LColon] == [LQuery, LName("y"), LColon];
    NextJoined(LName("x"), [LQuery, LName("y"), LColon]);
    assert [LName("x")] + [LQuery, LName("y"), LColon] == [LName("x"), LQuery, LName("y"), LColon];
  }

  /** An assignment takes everything behind it but a comma. */
  lemma AssignmentLast(update: Option<BinOp>, op: Infix, env: Ints)
    requires update.Some? ==> CanUpdate(update.value)
    ensures var e := if op == Sequence then Two(op, Assign("x", update, V("y")), V("z"))
                     else Assign("x", update, Two(op, V("y"), V("z")));
            var sign := if update.Some? then OpText(update.value) + "=" else "=";
            EvalExp("x" + sign + ("y" + InfixText(op) + "z"), Texts(env), 0) == Reported(Eval(e, env, false))
  {
    var e := if op == Sequence then Two(op, Assign("x", update, V("y")), V("z"))
             else Assign("x", update, Two(op, V("y"), V("z")));
    var xs, ys := [LName("x"), LAssign(update)], [LName("y"), LInfix(op), LName("z")];
    AssignJoined("x", update);
    ThreeJoined(op, "y", "z");
    JoinTwo(xs, ys);
    if op == Sequence {
      VarPrint(1, "y");
      VarPrint(1, "z");
      assert Print(0, Assign("x", update, V("y"))) == xs + [LName("y")];
      assert Print(0, e) == xs + [LName("y")] + ([LInfix(op)] + [LName("z")]);
    } else {
      VarPrint(LeftLevel(op), "y");
      VarPrint(RightLevel(op), "z");
      assert Print(1, Two(op, V("y"), V("z"))) == [LName("y")] + ([LInfix(op)] + [LName("z")]);
    }
    assert Print(0, e) == xs + ys;
    EvalJoined(xs + ys, e, env);
  }

  lemma AssignJoined(x: string, update: Option<BinOp>)
    requires Letter(x) && (update.Some? ==> CanUpdate(update.value))
    ensures var xs := [LName(x), LAssign(update)];
            var sign := if update.Some? then OpText(update.value) + "=" else "=";
            Neighbours(xs) && Joined(xs) == x + sign
    ensures forall y :: Letter(y) ==> Apart(LAssign(update), y)
  {
    assert x == [x[0]];
    OneJoined(LAssign(update));
    NextJoined(LName(x), [LAssign(update)]);
    assert [LName(x)] + [LAssign(update)] == [LName(x), LAssign(update)];
  }

  /** x = y ? z : w assigns what the condition gives. */
  lemma AssignedCondition(env: Ints)
    ensures EvalExp("x=" + "y" + ("?" + "z" + ":" + "w"), Texts(env), 0)
         == Reported(Eval(Assign("x", None, Ternary(V("y"), V("z"), V("w"))), env, false))
  {
    var e, xs := Assign("x", None, Ternary(V("y"), V("z"), V("w"))), [LName("x"), LAssign(None)];
    AssignJoined("x", None);
    ArmsJoined("z", "w");
    NextJoined(LName("y"), Arms("z", "w"));
    JoinTwo(xs, [LName("y")] + Arms("z", "w"));
    VarPrint(3, "y");
    VarPrint(0, "z");
    VarPrint(2, "w");
    CondPrint(1, V("y"), V("z"), V("w"));
    assert Print(1, Ternary(V("y"), V("z"), V("w"))) == [LName("y")] + Arms("z", "w");
    assert Print(0, e) == xs + ([LName("y")] + Arms("z", "w"));
    EvalJoined(xs + ([LName("y")] + Arms("z", "w")), e, env);
    assert "x" + "=" == "x=";
    assert "x=" + ("y" + ("?" + "z" + ":" + "w")) == "x=" + "y" + ("?" + "z" + ":" + "w");
  }
}
