/**
 The evaluator agrees with the meaning of expressions: evaluating the text of any
 expression tree, whatever its precedences, gives the tree's value, its effect on the
 variables, or its error.
 */
module ArithCorrect {
  import opened Options
  import opened CText
  import opened Folding
  import opened IntMax
  import opened ArithSpec
  import opened ArithMeaning
  import opened ArithReading

  /** A variable's name is never written directly before an operand. */
  predicate FollowsName(xs: seq<Lex>) {
    xs == [] || (IsOperator(xs[0]) && !xs[0].LPre?)
  }

  /** The start of an operand and enough of what comes after it to read it. */
  predicate Startable(xs: seq<Lex>) {
    xs != []
    && (xs[0].LName? ==> IsName(xs[0].x) && FollowsName(xs[1..]))
    && (xs[0].LPre? ==> |xs| >= 2 && xs[1].LName? && IsName(xs[1].x) && FollowsName(xs[2..]))
    && (!xs[0].LNum? && !xs[0].LName? ==> IsOperator(xs[0]))
  }

  /** The text writes these lexemes.  The parser's proofs only carry this along. */
  ghost predicate Written(t: string, xs: seq<Lex>) {
    Folded(|xs| + 4, WrittenFact, (t, xs))
  }

  ghost predicate WrittenFact(x: (string, seq<Lex>)) {
    Writes(x.0, x.1)
  }

  lemma WrittenIs(t: string, xs: seq<Lex>)
    ensures Written(t, xs) <==> Writes(t, xs)
  {
    Unfolded(|xs| + 4, WrittenFact, (t, xs));
  }

  /** The scan position is in front of exactly these lexemes. */
  ghost predicate Ahead(s: State, xs: seq<Lex>) {
    Written(s.text[s.tp..], xs)
  }

  /** The value a name's token carries: none in front of a plain =. */
  ghost predicate NameValue(s: State, x: string, next: seq<Lex>, env: Ints) {
    s.tokstr == Some(x) && ((next != [] && next[0] == LAssign(None)) || s.tokval == Lookup(env, x, s.noeval > 0))
  }

  /** The current token is the first of these lexemes and the rest lie ahead; the variables hold env. */
  ghost predicate Facing(s: State, xs: seq<Lex>, env: Ints) {
    s.env == Texts(env)
    && if xs == [] then s.curtok == End
       else
         Ahead(s, xs[1..]) && s.curtok == LexTok(xs[0])
         && (xs[0].LNum? ==> s.tokval == Wrap(xs[0].n))
         && (xs[0].LName? ==> NameValue(s, xs[0].x, xs[1..], env))
         && (IsUpdate(xs[0]) ==> s.assigntok == OpTok(xs[0].update.value))
  }

  lemma ItosNonEmpty(v: int)
    ensures Itos(v) != ""
  {
  }

  lemma VariableValue(x: string, s: State, env: Ints, depth: nat)
    requires depth < MAX_DEPTH && s.env == Texts(env)
    ensures StrEval(x, s, depth) == Ok(s, Lookup(env, x, s.noeval > 0))
  {
    if s.noeval == 0 && x in env {
      ItosNonEmpty(env[x]);
      IntegerText(env[x], s, depth);
    }
  }

  /** Where the first lexeme ahead stands, and what is behind it. */
  lemma FirstBehind(s: State, xs: seq<Lex>) returns (i: nat, tail: string)
    requires Ahead(s, xs) && xs != []
    ensures i == SkipBlanks(s.text, s.tp) && s.text[i..] == LexText(xs[0]) + tail
    ensures Apart(xs[0], tail) && Written(tail, xs[1..])
  {
    WrittenIs(s.text[s.tp..], xs);
    UnblankSkips(s.text, s.tp);
    i, tail := SkipBlanks(s.text, s.tp), Unblank(s.text[s.tp..])[|LexText(xs[0])|..];
    WrittenIs(tail, xs[1..]);
  }

  lemma NothingBehind(s: State)
    requires Ahead(s, [])
    ensures SkipBlanks(s.text, s.tp) == |s.text|
  {
    WrittenIs(s.text[s.tp..], []);
    UnblankSkips(s.text, s.tp);
  }

  lemma PeekAfterName(s: State, j: nat, rest: seq<Lex>, depth: nat)
    requires depth <= MAX_DEPTH && s.tp < j <= |s.text| && Written(s.text[j..], rest) && FollowsName(rest)
    ensures var assign := if rest != [] && IsUpdate(rest[0]) then OpTok(rest[0].update.value) else s.assigntok;
            Peek(s, j, depth) == Ok(s.(tp := j, assigntok := assign), if rest == [] then End else LexTok(rest[0]))
  {
    var p := s.(tp := j, tokstr := None, noeval := 1, curtok := Str);
    if rest == [] {
      NothingBehind(p);
      TextEnd(p, depth);
      PeekDone(s, j, p.(tp := |s.text|, lasttok := Str, curtok := End), depth);
    } else {
      var x := rest[0];
      var i, tail := FirstBehind(p, rest);
      ReadOperatorTok(p, i, x, tail, depth);
      PeekDone(s, j, p.(tp := |s.text| - |tail|,
                        assigntok := if IsUpdate(x) then OpTok(x.update.value) else s.assigntok,
                        lasttok := Str, curtok := LexTok(x)), depth);
    }
  }

  lemma PeekDone(s: State, j: nat, p: State, depth: nat)
    requires depth <= MAX_DEPTH && s.tp < j <= |s.text|
    requires Reads(s.(tp := j, tokstr := None, noeval := 1, curtok := Str), p, depth)
    ensures Peek(s, j, depth) == Ok(s.(tp := j, assigntok := p.assigntok), p.curtok)
  {
  }

  lemma EqToken(x: Lex)
    ensures LexTok(x) == Chr('=') <==> x == LAssign(None)
  {
  }

  lemma ReadNameTok(s: State, x: string, rest: seq<Lex>, env: Ints, depth: nat) returns (st: State)
    requires depth < MAX_DEPTH && IsName(x) && FollowsName(rest) && s.env == Texts(env)
    requires Ahead(s, [LName(x)] + rest)
    ensures Reads(s, st, depth)
    ensures Ahead(st, rest) && st.text == s.text && st.env == s.env && st.noeval == s.noeval
    ensures st.curtok == Str && st.lasttok == s.curtok && NameValue(st, x, rest, env)
    ensures s.lasttok == PreInc || s.lasttok == PreDec ==> st.tokval == Lookup(env, x, s.noeval > 0)
  {
    assert ([LName(x)] + rest)[1..] == rest;
    var i, tail := FirstBehind(s, [LName(x)] + rest);
    var j := NameWindow(s, i, x, tail);
    st := ReadNameAt(s, i, j, rest, env, depth);
    NameRead(s, i, st, depth);
  }

  lemma NameRead(s: State, i: nat, st: State, depth: nat)
    requires depth <= MAX_DEPTH && s.tp <= i < |s.text| && SkipBlanks(s.text, s.tp) == i && IsNameStart(s.text[i])
    requires ReadName(s, i, depth) == Ok(st, ())
    ensures Reads(s, st, depth)
  {
  }

  lemma NameWindow(s: State, i: nat, x: string, tail: string) returns (j: nat)
    requires IsName(x) && Apart(LName(x), tail) && SkipBlanks(s.text, s.tp) == i && s.text[i..] == x + tail
    ensures s.tp <= i < j <= |s.text| && IsNameStart(s.text[i])
    ensures SkipName(s.text, i + 1) == j && s.text[i..j] == x && s.text[j..] == tail && At(s.text, j) != '['
  {
    Window(s.text, i, x, tail);
    j := i + |x|;
    assert s.text[i] == x[0];
    SkipNameTo(s.text, i + 1, j);
  }

  lemma ReadNameAt(s: State, i: nat, j: nat, rest: seq<Lex>, env: Ints, depth: nat) returns (st: State)
    requires depth < MAX_DEPTH && FollowsName(rest) && s.env == Texts(env)
    requires s.tp <= i < j <= |s.text| && IsNameStart(s.text[i]) && SkipName(s.text, i + 1) == j
    requires Written(s.text[j..], rest) && At(s.text, j) != '['
    ensures ReadName(s, i, depth) == Ok(st, ())
    ensures Ahead(st, rest) && st.text == s.text && st.env == s.env && st.noeval == s.noeval
    ensures st.curtok == Str && st.lasttok == s.curtok && NameValue(st, s.text[i..j], rest, env)
    ensures s.lasttok == PreInc || s.lasttok == PreDec ==> st.tokval == Lookup(env, s.text[i..j], s.noeval > 0)
  {
    var s1 := s.(tokstr := Some(s.text[i..j]));
    PeekAfterName(s1, j, rest, depth);
    VariableValue(s.text[i..j], Peek(s1, j, depth).st, env, depth);
    if rest != [] {
      EqToken(rest[0]);
    }
    st := ReadName(s, i, depth).st;
  }

  /** Reading on: the next lexeme becomes the current token. */
  lemma Advance(s: State, xs: seq<Lex>, env: Ints, depth: nat) returns (st: State)
    requires depth < MAX_DEPTH && Ahead(s, xs) && s.env == Texts(env)
    requires xs != [] ==> Startable(xs) && (xs[0].LPost? ==> s.curtok == Str)
                          && (xs[0].LPre? ==> s.curtok != Str && s.curtok != Num)
    ensures Reads(s, st, depth)
    ensures Facing(st, xs, env) && st.text == s.text && st.noeval == s.noeval
    ensures st.lasttok == s.curtok
    ensures xs == [] || !xs[0].LName? ==> st.tokstr == s.tokstr
    ensures xs == [] || (!xs[0].LNum? && !xs[0].LName?) ==> st.tokval == s.tokval
    ensures xs != [] && xs[0].LName? && (s.lasttok == PreInc || s.lasttok == PreDec)
            ==> st.tokval == Lookup(env, xs[0].x, s.noeval > 0)
  {
    if xs == [] {
      st := AdvanceEnd(s, depth);
    } else if xs[0].LName? {
      assert xs == [xs[0]] + xs[1..];
      st := ReadNameTok(s, xs[0].x, xs[1..], env, depth);
    } else if xs[0].LNum? {
      st := AdvanceNumber(s, xs, depth);
    } else {
      st := AdvanceOperator(s, xs, depth);
    }
  }

  lemma AdvanceEnd(s: State, depth: nat) returns (st: State)
    requires depth <= MAX_DEPTH && Ahead(s, [])
    ensures Reads(s, st, depth) && st == s.(tp := |s.text|, lasttok := s.curtok, curtok := End)
  {
    NothingBehind(s);
    st := s.(tp := |s.text|, lasttok := s.curtok, curtok := End);
    TextEnd(s, depth);
  }

  lemma AdvanceNumber(s: State, xs: seq<Lex>, depth: nat) returns (st: State)
    requires depth <= MAX_DEPTH && Ahead(s, xs) && xs != [] && xs[0].LNum?
    ensures Reads(s, st, depth) && Ahead(st, xs[1..])
    ensures st == s.(tp := st.tp, tokval := Wrap(xs[0].n), lasttok := s.curtok, curtok := Num)
  {
    var n := xs[0].n;
    var i, tail := FirstBehind(s, xs);
    ReadNumber(s, i, n, tail, depth);
    st := s.(tp := |s.text| - |tail|, tokval := Wrap(n), lasttok := s.curtok, curtok := Num);
  }

  lemma NameBehind(tail: string, xs: seq<Lex>)
    requires xs != [] && xs[0].LName? && IsName(xs[0].x) && Written(tail, xs)
    ensures Unblank(tail) != "" && IsNameStart(Unblank(tail)[0])
  {
    WrittenIs(tail, xs);
    assert Unblank(tail)[0] == xs[0].x[0];
  }

  lemma AdvanceOperator(s: State, xs: seq<Lex>, depth: nat) returns (st: State)
    requires depth <= MAX_DEPTH && Ahead(s, xs) && xs != [] && IsOperator(xs[0])
    requires xs[0].LPost? ==> s.curtok == Str
    requires xs[0].LPre? ==> s.curtok != Str && s.curtok != Num && |xs| > 1 && xs[1].LName? && IsName(xs[1].x)
    ensures Reads(s, st, depth) && Ahead(st, xs[1..])
    ensures st == s.(tp := st.tp, assigntok := if IsUpdate(xs[0]) then OpTok(xs[0].update.value) else s.assigntok,
                     lasttok := s.curtok, curtok := LexTok(xs[0]))
  {
    var x := xs[0];
    var i, tail := FirstBehind(s, xs);
    if x.LPre? {
      NameBehind(tail, xs[1..]);
    }
    ReadOperatorTok(s, i, x, tail, depth);
    st := s.(tp := |s.text| - |tail|, assigntok := if IsUpdate(x) then OpTok(x.update.value) else s.assigntok,
             lasttok := s.curtok, curtok := LexTok(x));
  }

  // ---- operands and what follows them --------------------------------------------

  predicate IsTail(x: Lex) {
    x.LClose? || x.LInfix? || x.LQuery? || x.LColon?
  }

  /** What may stand after an operand of level k. */
  predicate Follow(k: nat, xs: seq<Lex>) {
    xs == [] || (IsTail(xs[0]) && Continues(LexTok(xs[0])) <= Bound(k))
  }

  lemma InfixContinues(op: Infix)
    ensures Continues(InfixTok(op)) == InfixLevel(op)
    ensures op.Arith? ==> IsLevelOp(InfixLevel(op), InfixTok(op)) && TokOp(InfixTok(op)) == Some(op.op)
  {
    if op.Arith? {
      TokOpTok(op.op);
    }
  }

  /** An operand begins with a number, a name, a sign or a parenthesis. */
  predicate Starts(k: nat, p: seq<Lex>) {
    Startable(p) && (p[0].LNum? || p[0].LName? || p[0].LOpen? || p[0].LUnary? || p[0].LPre?)
    && (k == 15 ==> !p[0].LUnary?)
  }

  lemma {:induction false} OperandStarts(k: nat, e: Expr, xs: seq<Lex>)
    requires Proper(e) && FollowsName(xs)
    ensures Starts(k, Print(k, e) + xs)
    decreases e, 1
  {
    if Prec(e) < k {
      assert (Print(k, e) + xs)[0] == LOpen;
    } else {
      BareStarts(k, e, xs);
    }
  }

  lemma {:induction false} BareStarts(k: nat, e: Expr, xs: seq<Lex>)
    requires Proper(e) && FollowsName(xs) && Prec(e) >= k
    ensures Starts(k, Bare(e) + xs)
    decreases e, 0
  {
    match e
    case Atom(l) => LeafStarts(l, xs);
    case Paren(a) => assert (Bare(e) + xs)[0] == LOpen;
    case Unary(u, _) => assert (Bare(e) + xs)[0] == LUnary(u);
    case Two(op, a, b) =>
      var mid := [LInfix(op)] + Print(RightLevel(op), b);
      OperandStarts(LeftLevel(op), a, mid + xs);
      Reassociate(Print(LeftLevel(op), a), mid, xs);
    case Ternary(c, a, b) =>
      var mid := [LQuery] + (Print(0, a) + ([LColon] + Print(2, b)));
      OperandStarts(3, c, mid + xs);
      Reassociate(Print(3, c), mid, xs);
    case Assign(x, update, b) =>
      var p := Bare(e) + xs;
      assert p[0] == LName(x) && p[1] == LAssign(update);
  }

  lemma Reassociate(a: seq<Lex>, b: seq<Lex>, c: seq<Lex>)
    ensures a + (b + c) == (a + b) + c
  {
  }

  lemma LeafStarts(l: Leaf, xs: seq<Lex>)
    requires (l.Lit? || IsName(l.x)) && FollowsName(xs)
    ensures Starts(15, LeafLexes(l) + xs)
  {
    var p := LeafLexes(l) + xs;
    assert p[1..] == LeafLexes(l)[1..] + xs;
    if l.Pre? {
      assert p[2..] == xs;
    }
  }

  /** Reading on to an operand. */
  lemma ToOperand(s: State, k: nat, e: Expr, xs: seq<Lex>, env: Ints, depth: nat) returns (st: State)
    requires depth < MAX_DEPTH && Proper(e) && FollowsName(xs)
    requires Ahead(s, Print(k, e) + xs) && s.env == Texts(env) && s.curtok != Str && s.curtok != Num
    ensures Reads(s, st, depth)
    ensures Facing(st, Print(k, e) + xs, env) && st.text == s.text && st.noeval == s.noeval
    ensures st.curtok != End && st.curtok != Chr(':')
  {
    OperandStarts(k, e, xs);
    st := Advance(s, Print(k, e) + xs, env, depth);
  }

  lemma TextsPut(env: Ints, x: string, v: intmax)
    ensures Texts(env[x := v]) == Texts(env)[x := Itos(v)]
  {
  }

  // ---- one construct at a time, on states alone --------------------------------------

  /** The parts of the grammar the proofs are about. */
  datatype Part = Lev(k: nat) | Cond2(cv: intmax) | Cond3(cv: intmax, v: intmax)

  /** Where a part can be run: the arms of ?: stand at their sign. */
  predicate PartOk(p: Part, s: State) {
    match p
    case Lev(k) => k <= 15
    case Cond2(_) => s.curtok == Chr('?')
    case Cond3(_, _) => s.curtok == Chr(':')
  }

  ghost function Run(p: Part, s: State, depth: nat): Step<intmax>
    requires PartOk(p, s) && depth <= MAX_DEPTH
  {
    match p
    case Lev(k) => Level(k, s, depth)
    case Cond2(cv) => Conditional(cv, s, depth)
    case Cond3(cv, v) => SecondArm(cv, v, s, depth)
  }

  /** What a part comes to with this outcome, in state st: a level may have its loop still to run. */
  ghost function Come(p: Part, out: Out, st: State, depth: nat): Step<intmax>
    requires (p.Lev? ==> p.k <= 15) && depth <= MAX_DEPTH
  {
    match out
    case Val(v, _) => if p.Lev? then Rest(p.k, v, st, depth) else Ok(st, v)
    case Fault(error, env) => Err(error, Texts(env))
  }

  /** Part p at s comes to this outcome. */
  ghost predicate Gives(p: Part, out: Out, s: State, st: State, depth: nat) {
    PartOk(p, s) && depth <= MAX_DEPTH && Run(p, s, depth) == Come(p, out, st, depth)
  }

  /** A value read leaves the state in front of xs. */
  ghost predicate Left(out: Out, s: State, st: State, xs: seq<Lex>) {
    out.Val? ==> Facing(st, xs, out.env) && st.noeval == s.noeval && st.text == s.text
  }

  /** Level k has read an operand with this outcome and left the state st in front of xs. */
  ghost predicate Agrees(k: nat, out: Out, s: State, st: State, xs: seq<Lex>, depth: nat)
    requires k <= 15 && depth <= MAX_DEPTH
  {
    Left(out, s, st, xs) && Gives(Lev(k), out, s, st, depth)
  }

  ghost function Quietly(s: State, quiet: bool): State {
    if quiet then Suppress(s) else s
  }

  /** The state an infix operator leaves, its right operand having ended in s3. */
  ghost function AfterInfix(op: Infix, va: intmax, vb: intmax, s: State, s3: State): State {
    match op
    case Sequence => s3
    case LogOr => s3.(noeval := s.noeval, lasttok := Lor)
    case LogAnd => s3.(noeval := s.noeval, lasttok := Land)
    case Arith(o) => if o == Mod && va == INTMAX_MIN && vb == -1 then s3 else s3.(lasttok := Num)
    case Exponent => s3.(lasttok := Num)
  }

  /** The left operand of op, read at its own level, is what op's level has read so far. */
  lemma LeftDone(op: Infix, oa: Out, s: State, s1: State, depth: nat)
    requires depth <= MAX_DEPTH && Gives(Lev(LeftLevel(op)), oa, s, s1, depth)
    ensures Gives(Lev(InfixLevel(op)), oa, s, s1, depth)
  {
    LeftLevels(op, s, if oa.Val? then oa.v else 0, s1, depth);
  }

  lemma LeftLevels(op: Infix, s: State, va: intmax, s1: State, depth: nat)
    requires depth <= MAX_DEPTH
    ensures var k, l := InfixLevel(op), LeftLevel(op);
            Level(l, s, depth) == Rest(l, va, s1, depth) ==> Level(k, s, depth) == Rest(k, va, s1, depth)
    ensures Level(LeftLevel(op), s, depth).Err? ==> Level(InfixLevel(op), s, depth) == Level(LeftLevel(op), s, depth)
  {
    if op.Exponent? {
      assert ExpBinary(13, s, depth) == ExpPower(s, depth);
    }
  }

  /** op's loop, at va in s1, goes on with the operator applied to va and a right operand vb that ended in s3. */
  ghost predicate Joined(op: Infix, va: intmax, vb: intmax, s1: State, s3: State, depth: nat)
    requires depth <= MAX_DEPTH
  {
    var rest, st := Rest(InfixLevel(op), va, s1, depth), AfterInfix(op, va, vb, s1, s3);
    var out := JoinOut(op, va, Val(vb, map[]), s3.noeval > 0);
    if out.Fault? then rest == Err(out.error, s3.env)
    else if op.Exponent? && vb == 0 then rest == Ok(st, out.v)
    else rest == Rest(InfixLevel(op), out.v, st, depth)
  }

  /** An infix operator after a left operand va: read on, read the right operand, combine. */
  lemma InfixStep(op: Infix, va: intmax, s1: State, s2: State, r: Step<intmax>, depth: nat)
    requires depth <= MAX_DEPTH && s1.curtok == InfixTok(op)
    requires Reads(Quietly(s1, Decides(op, va)), s2, depth)
    requires r == Level(RightLevel(op), s2, depth)
    ensures r.Err? ==> Rest(InfixLevel(op), va, s1, depth) == r
    ensures r.Ok? ==> Joined(op, va, r.v, s1, r.st, depth)
  {
    InfixContinues(op);
    match op
    case Sequence => SequenceStep(va, s1, s2, r, depth);
    case LogOr => OrStep(va, s1, s2, r, depth);
    case LogAnd => AndStep(va, s1, s2, r, depth);
    case Arith(o) => ArithStep(o, va, s1, s2, r, depth);
    case Exponent => PowerStep(va, s1, s2, r, depth);
  }

  lemma SequenceStep(va: intmax, s1: State, s2: State, r: Step<intmax>, depth: nat)
    requires depth <= MAX_DEPTH && s1.curtok == Chr(',') && Reads(s1, s2, depth) && r == ExpAssign(s2, depth)
    ensures r.Err? ==> CommaLoop(va, s1, depth) == r
    ensures r.Ok? ==> CommaLoop(va, s1, depth) == CommaLoop(r.v, r.st, depth)
  {
  }

  lemma OrStep(va: intmax, s1: State, s2: State, r: Step<intmax>, depth: nat)
    requires depth <= MAX_DEPTH && s1.curtok == Lor && Reads(Quietly(s1, va != 0), s2, depth)
    requires r == ExpLand(s2, depth)
    ensures r.Err? ==> LorLoop(va, s1, depth) == r
    ensures r.Ok? ==> LorLoop(va, s1, depth)
                      == LorLoop(Flag(va != 0 || r.v != 0), r.st.(noeval := s1.noeval, lasttok := Lor), depth)
  {
  }

  lemma AndStep(va: intmax, s1: State, s2: State, r: Step<intmax>, depth: nat)
    requires depth <= MAX_DEPTH && s1.curtok == Land && Reads(Quietly(s1, va == 0), s2, depth)
    requires r == ExpBinary(5, s2, depth)
    ensures r.Err? ==> LandLoop(va, s1, depth) == r
    ensures r.Ok? ==> LandLoop(va, s1, depth)
                      == LandLoop(Flag(va != 0 && r.v != 0), r.st.(noeval := s1.noeval, lasttok := Land), depth)
  {
  }

  lemma ArithStep(o: BinOp, va: intmax, s1: State, s2: State, r: Step<intmax>, depth: nat)
    requires depth <= MAX_DEPTH && IsLevelOp(OpLevel(o), s1.curtok) && TokOp(s1.curtok) == Some(o)
    requires Reads(s1, s2, depth) && r == ExpBinary(OpLevel(o) + 1, s2, depth)
    ensures r.Err? ==> BinaryLoop(OpLevel(o), va, s1, depth) == r
    ensures r.Ok? ==> var q := Reduce(o, va, r.v, r.st);
                      BinaryLoop(OpLevel(o), va, s1, depth)
                      == if q.Ok? then BinaryLoop(OpLevel(o), q.v, q.st, depth) else q
  {
    assert BinaryRight(OpLevel(o), va, s1, depth) == if r.Ok? then Reduce(o, va, r.v, r.st) else r;
  }

  lemma PowerStep(va: intmax, s1: State, s2: State, r: Step<intmax>, depth: nat)
    requires depth <= MAX_DEPTH && s1.curtok == Pow && Reads(s1, s2, depth)
    requires r == ExpBinary(13, s2, depth)
    ensures r.Err? ==> PowerLoop(va, s1, depth) == r
    ensures r.Ok? ==> var s3 := r.st.(lasttok := Num);
                      PowerLoop(va, s1, depth)
                      == if r.v == 0 then Ok(s3, 1)
                         else if r.v < 0 then Err(NegativeExponent, r.st.env)
                         else PowerLoop(Wrap(Power(va, r.v)), s3, depth)
  {
    assert ExpBinary(13, s2, depth) == ExpPower(s2, depth);
  }

  /** A loop has nothing to do in front of a token that does not continue it. */
  lemma RestStops(k: nat, v: intmax, s: State, depth: nat)
    requires k <= 15 && depth <= MAX_DEPTH && (Continues(s.curtok) < k || k == 1 || k == 2 || k >= 14)
    ensures Rest(k, v, s, depth) == Ok(s, v)
  {
  }

  /** Both operands of an infix operator read: the whole is read. */
  lemma InfixDone(op: Infix, oa: Out, ob: Out, s: State, s1: State, s2: State, s3: State, xs: seq<Lex>, depth: nat)
    returns (st: State)
    requires depth < MAX_DEPTH && oa.Val? && s1.curtok == InfixTok(op)
    requires Gives(Lev(InfixLevel(op)), oa, s, s1, depth)
    requires s1.noeval == s.noeval && s1.text == s.text
    requires Reads(Quietly(s1, Decides(op, oa.v)), s2, depth)
    requires s2.noeval == Quietly(s1, Decides(op, oa.v)).noeval && s2.text == s1.text
    requires Agrees(RightLevel(op), ob, s2, s3, xs, depth) && Follow(InfixLevel(op), xs)
    ensures Agrees(InfixLevel(op), JoinOut(op, oa.v, ob, s.noeval > 0), s, st, xs, depth)
  {
    st := if ob.Val? then AfterInfix(op, oa.v, ob.v, s1, s3) else s3;
    if ob.Val? {
      AfterFacing(op, oa.v, ob.v, s1, s3, xs, ob.env);
      JoinFrom(op, oa.v, ob, s.noeval > 0);
    }
    InfixGives(op, oa, ob, s, s1, s2, s3, st, xs, depth);
  }

  lemma InfixGives(op: Infix, oa: Out, ob: Out, s: State, s1: State, s2: State, s3: State, st: State, xs: seq<Lex>,
                   depth: nat)
    requires depth < MAX_DEPTH && oa.Val? && s1.curtok == InfixTok(op)
    requires Gives(Lev(InfixLevel(op)), oa, s, s1, depth)
    requires Reads(Quietly(s1, Decides(op, oa.v)), s2, depth) && Gives(Lev(RightLevel(op)), ob, s2, s3, depth)
    requires ob.Val? ==> Facing(s3, xs, ob.env) && st == AfterInfix(op, oa.v, ob.v, s1, s3) && Facing(st, xs, ob.env)
    requires s3.noeval == s2.noeval || ob.Fault?
    requires s2.noeval == Quietly(s1, Decides(op, oa.v)).noeval && s1.noeval == s.noeval && Follow(InfixLevel(op), xs)
    ensures Gives(Lev(InfixLevel(op)), JoinOut(op, oa.v, ob, s.noeval > 0), s, st, depth)
  {
    var out := JoinOut(op, oa.v, ob, s.noeval > 0);
    InfixStep(op, oa.v, s1, s2, Level(RightLevel(op), s2, depth), depth);
    if ob.Val? {
      FollowStops(RightLevel(op), ob.v, s3, xs, ob.env, depth);
      JoinFrom(op, oa.v, ob, s.noeval > 0);
      if op.Exponent? {
        FollowStops(13, 1, st, xs, ob.env, depth);
      }
    }
  }

  lemma AfterFacing(op: Infix, va: intmax, vb: intmax, s1: State, s3: State, xs: seq<Lex>, env: Ints)
    requires Facing(s3, xs, env) && (xs != [] ==> IsTail(xs[0])) && s3.text == s1.text
    requires s3.noeval == s1.noeval || op.LogOr? || op.LogAnd?
    ensures var st := AfterInfix(op, va, vb, s1, s3);
            Facing(st, xs, env) && st.noeval == s1.noeval && st.text == s1.text
  {
  }

  lemma JoinFrom(op: Infix, v: intmax, r: Out, quiet: bool)
    requires r.Val?
    ensures JoinOut(op, v, r, quiet) == Rehome(JoinOut(op, v, Val(r.v, map[]), quiet), r.env)
    ensures op.LogOr? || op.LogAnd? ==> JoinOut(op, v, r, true) == JoinOut(op, v, r, false)
  {
  }

  lemma FollowStops(k: nat, v: intmax, s: State, xs: seq<Lex>, env: Ints, depth: nat)
    requires 0 < k <= 15 && depth <= MAX_DEPTH && Facing(s, xs, env)
    requires Follow(k - 1, xs) || (k == 13 && Follow(13, xs))
    ensures Rest(k, v, s, depth) == Ok(s, v)
  {
    RestStops(k, v, s, depth);
  }

  // ---- the theorem -----------------------------------------------------------------

  ghost predicate Ready(k: nat, e: Expr, s: State, xs: seq<Lex>, env: Ints, depth: nat) {
    k <= 15 && depth < MAX_DEPTH && Proper(e) && Facing(s, Print(k, e) + xs, env) && Follow(k, xs)
  }

  /** An expression that binds tighter, or is parenthesised, is written the same one level up. */
  lemma SameText(k: nat, e: Expr)
    requires Prec(e) != k
    ensures Print(k, e) == Print(k + 1, e)
  {
  }

  lemma TwoText(op: Infix, a: Expr, b: Expr, xs: seq<Lex>) returns (ys: seq<Lex>)
    ensures Print(InfixLevel(op), Two(op, a, b)) + xs == Print(LeftLevel(op), a) + ys
    ensures ys != [] && ys[0] == LInfix(op) && ys[1..] == Print(RightLevel(op), b) + xs
    ensures Follow(LeftLevel(op), ys)
  {
    ys := [LInfix(op)] + (Print(RightLevel(op), b) + xs);
    InfixContinues(op);
  }

  /** Parentheses are written the same whether the expression has them or needs them. */
  lemma ParenPrint(e: Expr)
    ensures Print(15, Paren(e)) == [LOpen] + (Print(0, e) + [LClose])
    ensures Prec(e) < 15 ==> Print(15, e) == [LOpen] + (Print(0, e) + [LClose])
  {
    assert Bare(Paren(e)) == [LOpen] + (Print(0, e) + [LClose]);
  }

  /** Reading any expression, written where level k is expected, at level k. */
  lemma Parses(k: nat, e: Expr, s: State, xs: seq<Lex>, env: Ints, depth: nat) returns (st: State)
    requires Ready(k, e, s, xs, env, depth)
    ensures Agrees(k, Eval(e, env, s.noeval > 0), s, st, xs, depth)
    decreases e, if Prec(e) < k then 1 else 0, 16 - k
  {
    if k == Prec(e) {
      match e
      case Atom(l) => st := AtomCase(l, s, xs, env, depth);
      case Paren(a) =>
        ParenPrint(a);
        st := ParenCase(a, s, xs, env, depth);
      case Unary(u, a) => st := UnaryCase(u, a, s, xs, env, depth);
      case Two(op, a, b) => st := TwoCase(op, a, b, s, xs, env, depth);
      case Ternary(c, a, b) => st := TernaryCase(c, a, b, s, xs, env, depth);
      case Assign(x, update, b) => st := AssignCase(x, update, b, s, xs, env, depth);
    } else if k < 15 {
      SameText(k, e);
      st := Parses(k + 1, e, s, xs, env, depth);
      if k == 14 {
        OperandStarts(15, e, xs);
        NotUnary((Print(15, e) + xs)[0]);
      }
      Loosen(k, Eval(e, env, s.noeval > 0), s, st, xs, depth);
    } else {
      ParenPrint(e);
      st := ParenCase(e, s, xs, env, depth);
    }
  }

  lemma NotUnary(x: Lex)
    ensures IsUnary(LexTok(x)) ==> x.LUnary? || x.LInfix?
  {
  }

  /** An operand read at level k + 1 has been read at level k, if nothing after it continues level k + 1. */
  lemma Loosen(k: nat, out: Out, s: State, st: State, xs: seq<Lex>, depth: nat)
    requires k < 15 && depth < MAX_DEPTH && Agrees(k + 1, out, s, st, xs, depth) && Follow(k, xs)
    requires k == 14 ==> !IsUnary(s.curtok)
    ensures Agrees(k, out, s, st, xs, depth)
  {
    match out
    case Val(v, _) => Descend(k, s, v, st, depth);
    case Fault(_, _) => DescendError(k, s, depth);
  }

  lemma TwoCase(op: Infix, a: Expr, b: Expr, s: State, xs: seq<Lex>, env: Ints, depth: nat) returns (st: State)
    requires Ready(InfixLevel(op), Two(op, a, b), s, xs, env, depth)
    ensures Agrees(InfixLevel(op), Eval(Two(op, a, b), env, s.noeval > 0), s, st, xs, depth)
    decreases Two(op, a, b), 0, 0
  {
    var ys := TwoText(op, a, b, xs);
    var s1 := Parses(LeftLevel(op), a, s, ys, env, depth);
    var oa := Eval(a, env, s.noeval > 0);
    LeftDone(op, oa, s, s1, depth);
    st := s1;
    if oa.Val? {
      st := RightCase(op, oa, a, b, s, s1, ys, xs, depth);
    }
  }

  lemma RightCase(op: Infix, oa: Out, a: Expr, b: Expr, s: State, s1: State, ys: seq<Lex>, xs: seq<Lex>, depth: nat)
    returns (st: State)
    requires depth < MAX_DEPTH && Proper(b) && Follow(InfixLevel(op), xs)
    requires oa.Val? && Gives(Lev(InfixLevel(op)), oa, s, s1, depth)
    requires Facing(s1, ys, oa.env) && s1.noeval == s.noeval && s1.text == s.text
    requires ys != [] && ys[0] == LInfix(op) && ys[1..] == Print(RightLevel(op), b) + xs
    ensures Agrees(InfixLevel(op), JoinOut(op, oa.v, Eval(b, oa.env, s.noeval > 0 || Decides(op, oa.v)), s.noeval > 0),
                   s, st, xs, depth)
    decreases Two(op, a, b), 0, 0, 0
  {
    var s2 := ToOperand(Quietly(s1, Decides(op, oa.v)), RightLevel(op), b, xs, oa.env, depth);
    var s3 := Parses(RightLevel(op), b, s2, xs, oa.env, depth);
    st := InfixDone(op, oa, Eval(b, oa.env, s.noeval > 0 || Decides(op, oa.v)), s, s1, s2, s3, xs, depth);
  }

  lemma UnaryCase(u: UnaryOp, a: Expr, s: State, xs: seq<Lex>, env: Ints, depth: nat) returns (st: State)
    requires Ready(14, Unary(u, a), s, xs, env, depth)
    ensures Agrees(14, Eval(Unary(u, a), env, s.noeval > 0), s, st, xs, depth)
    decreases Unary(u, a), 0, 0
  {
    var ys := Print(14, a) + xs;
    assert Print(14, Unary(u, a)) + xs == [LUnary(u)] + ys;
    var s1 := ToOperand(s, 14, a, xs, env, depth);
    var s2 := Parses(14, a, s1, xs, env, depth);
    st := UnaryDone(u, Eval(a, env, s.noeval > 0), s, s1, s2, xs, depth);
  }

  lemma UnaryDone(u: UnaryOp, oa: Out, s: State, s1: State, s2: State, xs: seq<Lex>, depth: nat) returns (st: State)
    requires depth < MAX_DEPTH && s.curtok == UnaryTok(u) && Reads(s, s1, depth)
    requires s1.noeval == s.noeval && s1.text == s.text && Agrees(14, oa, s1, s2, xs, depth)
    ensures Agrees(14, UnaryOut(u, oa), s, st, xs, depth)
  {
    st := s2.(lasttok := Num);
  }

  lemma TernaryText(c: Expr, a: Expr, b: Expr, xs: seq<Lex>) returns (ys: seq<Lex>, zs: seq<Lex>)
    ensures Print(2, Ternary(c, a, b)) + xs == Print(3, c) + ys
    ensures ys != [] && ys[0] == LQuery && ys[1..] == Print(0, a) + zs && Follow(3, ys)
    ensures zs != [] && zs[0] == LColon && zs[1..] == Print(2, b) + xs && Follow(0, zs)
  {
    zs := [LColon] + (Print(2, b) + xs);
    ys := [LQuery] + (Print(0, a) + zs);
  }

  lemma TernaryCase(c: Expr, a: Expr, b: Expr, s: State, xs: seq<Lex>, env: Ints, depth: nat) returns (st: State)
    requires Ready(2, Ternary(c, a, b), s, xs, env, depth)
    ensures Agrees(2, Eval(Ternary(c, a, b), env, s.noeval > 0), s, st, xs, depth)
    decreases Ternary(c, a, b), 0, 0
  {
    var ys, zs := TernaryText(c, a, b, xs);
    var s1 := Parses(3, c, s, ys, env, depth);
    var oc := Eval(c, env, s.noeval > 0);
    st := s1;
    if oc.Val? {
      st := ArmsCase(oc.v, c, a, b, s1, ys, zs, xs, oc.env, depth);
      CondDone(oc, Eval(Ternary(c, a, b), env, s.noeval > 0), s, s1, st, depth);
    } else {
      CondFault(oc, s, s1, depth);
    }
  }

  lemma CondDone(oc: Out, out: Out, s: State, s1: State, st: State, depth: nat)
    requires depth < MAX_DEPTH && oc.Val? && Gives(Lev(3), oc, s, s1, depth) && s1.curtok == Chr('?')
    requires Gives(Cond2(oc.v), out, s1, st, depth)
    ensures Gives(Lev(2), out, s, st, depth)
  {
    RestStops(3, oc.v, s1, depth);
  }

  lemma CondFault(oc: Out, s: State, s1: State, depth: nat)
    requires depth < MAX_DEPTH && oc.Fault? && Gives(Lev(3), oc, s, s1, depth)
    ensures Gives(Lev(2), oc, s, s1, depth)
  {
    DescendError(2, s, depth);
  }

  lemma ArmsCase(cv: intmax, c: Expr, a: Expr, b: Expr, s: State, ys: seq<Lex>, zs: seq<Lex>, xs: seq<Lex>, env: Ints,
                 depth: nat)
    returns (st: State)
    requires depth < MAX_DEPTH && Proper(a) && Proper(b) && Follow(2, xs) && Facing(s, ys, env)
    requires ys != [] && ys[0] == LQuery && ys[1..] == Print(0, a) + zs
    requires zs != [] && zs[0] == LColon && zs[1..] == Print(2, b) + xs && Follow(0, zs)
    ensures s.curtok == Chr('?')
    ensures var first := Eval(a, env, s.noeval > 0 || cv == 0);
            var out := ChooseOut(cv, first, Eval(b, first.env, s.noeval > 0 || cv != 0));
            Left(out, s, st, xs) && Gives(Cond2(cv), out, s, st, depth)
    decreases Ternary(c, a, b), 0, 0, 1
  {
    var s2 := ToOperand(Quietly(s, cv == 0), 0, a, zs, env, depth);
    var s3 := Parses(0, a, s2, zs, env, depth);
    var first := Eval(a, env, s.noeval > 0 || cv == 0);
    st := s3;
    if first.Val? {
      st := SecondCase(cv, first.v, c, a, b, s3.(noeval := s.noeval), zs, xs, first.env, depth);
      FirstArm(cv, first, ChooseOut(cv, first, Eval(b, first.env, s.noeval > 0 || cv != 0)), s, s2, s3, st, depth);
    } else {
      FirstFault(cv, first, s, s2, s3, depth);
    }
  }

  /** A construct that leaves no loop open answered r. */
  ghost predicate Answers(r: Step<intmax>, out: Out, s: State, st: State, xs: seq<Lex>) {
    match out
    case Val(v, env) => r == Ok(st, v) && Facing(st, xs, env) && st.noeval == s.noeval && st.text == s.text
    case Fault(error, env) => r == Err(error, Texts(env))
  }

  lemma FirstArm(cv: intmax, first: Out, out: Out, s: State, s2: State, s3: State, st: State, depth: nat)
    requires depth < MAX_DEPTH && s.curtok == Chr('?') && Reads(Quietly(s, cv == 0), s2, depth)
    requires s2.curtok != End && s2.curtok != Chr(':') && s3.curtok == Chr(':')
    requires first.Val? && Gives(Lev(0), first, s2, s3, depth)
    requires Gives(Cond3(cv, first.v), out, s3.(noeval := s.noeval), st, depth)
    ensures Gives(Cond2(cv), out, s, st, depth)
  {
    RestStops(0, first.v, s3, depth);
    FirstStep(cv, s, s2, Ok(s3, first.v), depth);
  }

  lemma FirstFault(cv: intmax, first: Out, s: State, s2: State, s3: State, depth: nat)
    requires depth < MAX_DEPTH && s.curtok == Chr('?') && Reads(Quietly(s, cv == 0), s2, depth)
    requires s2.curtok != End && s2.curtok != Chr(':') && first.Fault? && Gives(Lev(0), first, s2, s3, depth)
    ensures Gives(Cond2(cv), first, s, s3, depth)
  {
    FirstStep(cv, s, s2, Err(first.error, Texts(first.env)), depth);
  }

  lemma FirstStep(cv: intmax, s: State, s2: State, r: Step<intmax>, depth: nat)
    requires depth < MAX_DEPTH && s.curtok == Chr('?') && Reads(Quietly(s, cv == 0), s2, depth)
    requires s2.curtok != End && s2.curtok != Chr(':') && r == ExpComma(s2, depth)
    ensures r.Err? ==> Conditional(cv, s, depth) == r
    ensures r.Ok? && r.st.curtok == Chr(':')
            ==> Conditional(cv, s, depth) == SecondArm(cv, r.v, r.st.(noeval := s.noeval), depth)
  {
  }

  lemma SecondCase(cv: intmax, v: intmax, c: Expr, a: Expr, b: Expr, s: State, zs: seq<Lex>, xs: seq<Lex>, env: Ints,
                   depth: nat)
    returns (st: State)
    requires depth < MAX_DEPTH && Proper(b) && Follow(2, xs) && Facing(s, zs, env)
    requires zs != [] && zs[0] == LColon && zs[1..] == Print(2, b) + xs
    ensures s.curtok == Chr(':')
    ensures var out := ChooseOut(cv, Val(v, env), Eval(b, env, s.noeval > 0 || cv != 0));
            Left(out, s, st, xs) && Gives(Cond3(cv, v), out, s, st, depth)
    decreases Ternary(c, a, b), 0, 0, 0
  {
    var s1 := ToOperand(Quietly(s, cv != 0), 2, b, xs, env, depth);
    var s2 := Parses(2, b, s1, xs, env, depth);
    st := SecondDone(cv, v, Eval(b, env, s.noeval > 0 || cv != 0), s, s1, s2, xs, env, depth);
  }

  lemma SecondDone(cv: intmax, v: intmax, ob: Out, s: State, s1: State, s2: State, xs: seq<Lex>, env: Ints, depth: nat)
    returns (st: State)
    requires depth < MAX_DEPTH && s.curtok == Chr(':') && Reads(Quietly(s, cv != 0), s1, depth)
    requires s1.curtok != End && s1.text == s.text && Agrees(2, ob, s1, s2, xs, depth) && (xs != [] ==> IsTail(xs[0]))
    ensures var out := ChooseOut(cv, Val(v, env), ob); Left(out, s, st, xs) && Gives(Cond3(cv, v), out, s, st, depth)
  {
    st := s2.(noeval := s.noeval, lasttok := Cond);
  }

  lemma AssignText(x: string, update: Option<BinOp>, b: Expr, xs: seq<Lex>) returns (ys: seq<Lex>)
    ensures Print(1, Assign(x, update, b)) + xs == [LName(x)] + ys && ([LName(x)] + ys)[1..] == ys
    ensures ys != [] && ys[0] == LAssign(update) && ys[1..] == Print(1, b) + xs
  {
    ys := [LAssign(update)] + (Print(1, b) + xs);
  }

  /** The variable an assignment starts with: read as a value, remembered as a name. */
  lemma Target(s: State, ys: seq<Lex>, env: Ints, depth: nat) returns (st: State)
    requires depth < MAX_DEPTH && s.curtok == Str && Ahead(s, ys) && s.env == Texts(env)
    requires ys != [] && ys[0].LAssign? && IsOperator(ys[0])
    ensures Gives(Lev(2), Val(s.tokval, env), s, st, depth) && Facing(st, ys, env)
    ensures st.noeval == s.noeval && st.text == s.text && st.lasttok == Str && st.tokstr == s.tokstr
  {
    st := BareVariable(s, ys, env, depth);
    TargetDone(s, Val(s.tokval, env), st, depth);
  }

  lemma TargetDone(s: State, out: Out, st: State, depth: nat)
    requires depth < MAX_DEPTH && s.curtok == Str && out.Val? && Gives(Lev(15), out, s, st, depth)
    requires forall i :: 2 <= i < 15 ==> Continues(st.curtok) <= Bound(i)
    ensures Gives(Lev(2), out, s, st, depth)
  {
    DescendAll(2, 15, s, out.v, st, depth);
  }

  lemma AssignCase(x: string, update: Option<BinOp>, b: Expr, s: State, xs: seq<Lex>, env: Ints, depth: nat)
    returns (st: State)
    requires Ready(1, Assign(x, update, b), s, xs, env, depth)
    ensures Agrees(1, Eval(Assign(x, update, b), env, s.noeval > 0), s, st, xs, depth)
    decreases Assign(x, update, b), 0, 0
  {
    var ys := AssignText(x, update, b, xs);
    var s1 := Target(s, ys, env, depth);
    var s2 := ToOperand(s1, 1, b, xs, env, depth);
    var s3 := Parses(1, b, s2, xs, env, depth);
    st := AssignDone(x, update, Val(s.tokval, env), Eval(b, env, s.noeval > 0), s, s1, s2, s3, xs, depth);
    if update.None? {
      StorePlain(x, s.tokval, Lookup(env, x, s.noeval > 0), Eval(b, env, s.noeval > 0), s.noeval > 0);
    }
  }

  lemma StorePlain(x: string, v: intmax, w: intmax, r: Out, quiet: bool)
    ensures StoreOut(x, None, v, r, quiet) == StoreOut(x, None, w, r, quiet)
  {
  }

  lemma AssignDone(x: string, update: Option<BinOp>, left: Out, ob: Out, s: State, s1: State, s2: State, s3: State,
                   xs: seq<Lex>, depth: nat)
    returns (st: State)
    requires depth < MAX_DEPTH && left.Val? && Gives(Lev(2), left, s, s1, depth)
    requires s1.curtok == LexTok(LAssign(update)) && s1.lasttok == Str && s1.tokstr == Some(x)
    requires update.Some? ==> s1.assigntok == OpTok(update.value)
    requires Reads(s1, s2, depth) && s2.noeval == s1.noeval == s.noeval && s2.text == s1.text == s.text
    requires Agrees(1, ob, s2, s3, xs, depth) && (xs != [] ==> IsTail(xs[0]))
    ensures Agrees(1, StoreOut(x, update, left.v, ob, s.noeval > 0), s, st, xs, depth)
  {
    st := s3;
    if update.Some? {
      TokOpTok(update.value);
    }
    var lvalue := left.v;
    if ob.Val? {
      var r := Store(x, update, lvalue, ob.v, s3);
      assert Assignment(lvalue, s1, depth) == r;
      StoreCase(x, update, lvalue, ob, s3, xs);
      st := if r.Ok? then r.st else s3;
    } else {
      assert Assignment(lvalue, s1, depth) == ExpAssign(s2, depth);
    }
  }

  lemma StoreCase(x: string, update: Option<BinOp>, lvalue: intmax, rhs: Out, s: State, xs: seq<Lex>)
    requires rhs.Val? && Facing(s, xs, rhs.env) && (xs != [] ==> IsTail(xs[0]))
    ensures var out := StoreOut(x, update, lvalue, rhs, s.noeval > 0);
            var r := Store(x, update, lvalue, rhs.v, s);
            Answers(r, out, s, if r.Ok? then r.st else s, xs)
  {
    var val := if update.Some? then Combine(update.value, lvalue, rhs.v, s.noeval > 0) else Some(rhs.v);
    if val.Some? {
      TextsPut(rhs.env, x, val.value);
    }
  }

  // ---- operands that are not made of operands ------------------------------------------

  /** A variable not followed by ++ or --. */
  lemma BareVariable(s: State, xs: seq<Lex>, env: Ints, depth: nat) returns (st: State)
    requires depth < MAX_DEPTH && s.curtok == Str && Ahead(s, xs) && s.env == Texts(env)
    requires xs == [] || (IsOperator(xs[0]) && !xs[0].LPre? && !xs[0].LPost?)
    ensures Gives(Lev(15), Val(s.tokval, env), s, st, depth) && Facing(st, xs, env)
    ensures st.noeval == s.noeval && st.text == s.text && st.lasttok == Str && st.tokstr == s.tokstr
  {
    var peek := Advance(s.(tokstr := None, noeval := 1), xs, env, depth);
    NotPost(xs);
    st := Advance(s.(assigntok := peek.assigntok), xs, env, depth);
    BareDone(s, peek, st, Val(s.tokval, env), depth);
  }

  lemma BareDone(s: State, peek: State, st: State, out: Out, depth: nat)
    requires depth <= MAX_DEPTH && s.curtok == Str && Reads(s.(tokstr := None, noeval := 1), peek, depth)
    requires peek.curtok != PostInc && peek.curtok != PostDec && Reads(s.(assigntok := peek.assigntok), st, depth)
    requires out.Val? && out.v == s.tokval
    ensures Gives(Lev(15), out, s, st, depth)
  {
    assert Variable(s, depth) == Ok(st, s.tokval);
  }

  lemma NotPost(xs: seq<Lex>)
    requires xs != [] ==> !xs[0].LPost?
    ensures xs != [] ==> LexTok(xs[0]) != PostInc && LexTok(xs[0]) != PostDec
  {
  }

  lemma Bumped(s: State, x: string, delta: int, env: Ints)
    requires -1 <= delta <= 1 && s.env == Texts(env) && s.tokstr == Some(x)
    ensures var v := Lookup(env, x, s.noeval > 0);
            Bump(s, v, delta).env == Texts(Put(env, x, Wrap(v + delta), s.noeval > 0))
  {
    TextsPut(env, x, Wrap(Lookup(env, x, s.noeval > 0) + delta));
  }

  lemma AtomCase(l: Leaf, s: State, xs: seq<Lex>, env: Ints, depth: nat) returns (st: State)
    requires Ready(15, Atom(l), s, xs, env, depth)
    ensures Agrees(15, EvalLeaf(l, env, s.noeval > 0), s, st, xs, depth)
  {
    var ys := LeafText(l, xs);
    match l
    case Lit(_) =>
      st := Advance(s, xs, env, depth);
      LiteralDone(s, st, Val(s.tokval, env), depth);
    case Var(_) => st := BareVariable(s, xs, env, depth);
    case Pre(up, x) =>
      var w;
      st, w := PreCase(up, x, s, ys, xs, env, depth);
    case Post(up, x) => st := PostCase(up, x, s, ys, xs, env, depth);
  }

  lemma LeafText(l: Leaf, xs: seq<Lex>) returns (ys: seq<Lex>)
    ensures ys == LeafLexes(l)[1..] + xs && (!l.Pre? && !l.Post? ==> ys == xs)
    ensures var p := Print(15, Atom(l)) + xs; p != [] && p[0] == LeafLexes(l)[0] && p[1..] == ys
  {
    ys := LeafLexes(l)[1..] + xs;
    assert Print(15, Atom(l)) + xs == LeafLexes(l) + xs;
    assert (LeafLexes(l) + xs)[0] == LeafLexes(l)[0] && (LeafLexes(l) + xs)[1..] == ys;
  }

  lemma LiteralDone(s: State, st: State, out: Out, depth: nat)
    requires depth <= MAX_DEPTH && s.curtok == Num && Reads(s, st, depth) && out.Val? && out.v == s.tokval
    ensures Gives(Lev(15), out, s, st, depth)
  {
    NumberDone(s, st, depth);
  }

  lemma PostCase(up: bool, x: string, s: State, ys: seq<Lex>, xs: seq<Lex>, env: Ints, depth: nat) returns (st: State)
    requires depth < MAX_DEPTH && s.curtok == Str && NameValue(s, x, ys, env) && Ahead(s, ys) && s.env == Texts(env)
    requires ys == [LPost(up)] + xs && (xs != [] ==> IsTail(xs[0]))
    ensures Agrees(15, EvalLeaf(Post(up, x), env, s.noeval > 0), s, st, xs, depth)
  {
    var peek := PostName(s, x, up, ys, xs, env, depth);
    st := PostAnswers(Delta(up), x, s, peek, xs, env, depth);
    PostMeans(up, x, env, s.noeval > 0);
  }

  lemma PostMeans(up: bool, x: string, env: Ints, quiet: bool)
    ensures var v := Lookup(env, x, quiet);
            EvalLeaf(Post(up, x), env, quiet) == Val(v, Put(env, x, Wrap(v + Delta(up)), quiet))
  {
  }

  lemma PostAnswers(delta: int, x: string, s: State, peek: State, xs: seq<Lex>, env: Ints, depth: nat)
    returns (st: State)
    requires depth < MAX_DEPTH && s.curtok == Str && Reads(s.(tokstr := None, noeval := 1), peek, depth)
    requires if delta == 1 then peek.curtok == PostInc else delta == -1 && peek.curtok == PostDec
    requires s.tokstr == Some(x) && s.tokval == Lookup(env, x, s.noeval > 0) && s.env == Texts(env)
    requires peek.env == s.env && peek.text == s.text && Ahead(peek, xs) && (xs != [] ==> IsTail(xs[0]))
    ensures var out := Val(s.tokval, Put(env, x, Wrap(s.tokval + delta), s.noeval > 0));
            Agrees(15, out, s, st, xs, depth)
  {
    var s1 := peek.(tokstr := s.tokstr, noeval := s.noeval, lasttok := Str);
    var env1;
    st, env1 := AfterBump(s1, x, s.tokval, delta, xs, env, depth);
    PostDone(s, peek, st, delta, Val(s.tokval, env1), depth);
  }

  lemma PostName(s: State, x: string, up: bool, ys: seq<Lex>, xs: seq<Lex>, env: Ints, depth: nat)
    returns (peek: State)
    requires depth < MAX_DEPTH && s.curtok == Str && NameValue(s, x, ys, env) && Ahead(s, ys) && s.env == Texts(env)
    requires ys == [LPost(up)] + xs
    ensures s.tokstr == Some(x) && s.tokval == Lookup(env, x, s.noeval > 0)
    ensures Reads(s.(tokstr := None, noeval := 1), peek, depth)
    ensures peek.curtok == if up then PostInc else PostDec
    ensures Ahead(peek, xs) && peek.env == s.env && peek.text == s.text
  {
    assert ys[1..] == xs;
    peek := Advance(s.(tokstr := None, noeval := 1), ys, env, depth);
  }

  /** A variable changed by one: read on past it. */
  lemma AfterBump(s: State, x: string, v: intmax, delta: int, xs: seq<Lex>, env: Ints, depth: nat)
    returns (st: State, env1: Ints)
    requires depth < MAX_DEPTH && -1 <= delta <= 1 && s.env == Texts(env) && s.tokstr == Some(x)
    requires v == Lookup(env, x, s.noeval > 0) && Ahead(s, xs) && (xs != [] ==> IsTail(xs[0]))
    ensures Reads(Bump(s, v, delta), st, depth) && env1 == Put(env, x, Wrap(v + delta), s.noeval > 0)
    ensures Facing(st, xs, env1) && st.noeval == s.noeval && st.text == s.text
  {
    Bumped(s, x, delta, env);
    env1 := Put(env, x, Wrap(v + delta), s.noeval > 0);
    st := Advance(Bump(s, v, delta), xs, env1, depth);
  }

  lemma PostDone(s: State, peek: State, st: State, delta: int, out: Out, depth: nat)
    requires depth <= MAX_DEPTH && s.curtok == Str && Reads(s.(tokstr := None, noeval := 1), peek, depth)
    requires if delta == 1 then peek.curtok == PostInc else delta == -1 && peek.curtok == PostDec
    requires Reads(Bump(peek.(tokstr := s.tokstr, noeval := s.noeval, lasttok := Str), s.tokval, delta), st, depth)
    requires out.Val? && out.v == s.tokval
    ensures Gives(Lev(15), out, s, st, depth)
  {
    assert PostStep(s, peek, depth) == Ok(st, s.tokval);
    assert Variable(s, depth) == Ok(st, s.tokval);
  }

  lemma PreDone(s: State, s1: State, st: State, delta: int, out: Out, depth: nat)
    requires depth <= MAX_DEPTH && Reads(s.(lasttok := s.curtok), s1, depth) && s1.curtok == Str
    requires if delta == 1 then s.curtok == PreInc else delta == -1 && s.curtok == PreDec
    requires Reads(Bump(s1, s1.tokval, delta), st, depth) && out.Val? && out.v == Wrap(s1.tokval + delta)
    ensures Gives(Lev(15), out, s, st, depth)
  {
    PreStepDone(s, s1, st, delta, depth);
    Exp0Pre(s, delta, depth);
  }

  lemma PreStepDone(s: State, s1: State, st: State, delta: int, depth: nat)
    requires depth <= MAX_DEPTH && Reads(s.(lasttok := s.curtok), s1, depth) && s1.curtok == Str && -1 <= delta <= 1
    requires s.curtok != End && Reads(Bump(s1, s1.tokval, delta), st, depth)
    ensures PreStep(s, delta, depth) == Ok(st, Wrap(s1.tokval + delta))
  {
    PreRead(s, s1, delta, depth);
    PreBumped(s1, st, delta, depth);
  }

  lemma PreRead(s: State, s1: State, delta: int, depth: nat)
    requires depth <= MAX_DEPTH && s.curtok != End && -1 <= delta <= 1
    requires Reads(s.(lasttok := s.curtok), s1, depth) && s1.curtok == Str
    ensures PreStep(s, delta, depth) == PreBump(s1, delta, depth)
  {
  }

  lemma PreBumped(s: State, st: State, delta: int, depth: nat)
    requires depth <= MAX_DEPTH && s.curtok == Str && -1 <= delta <= 1 && Reads(Bump(s, s.tokval, delta), st, depth)
    ensures PreBump(s, delta, depth) == Ok(st, Wrap(s.tokval + delta))
  {
  }

  lemma Exp0Pre(s: State, delta: int, depth: nat)
    requires depth <= MAX_DEPTH && if delta == 1 then s.curtok == PreInc else delta == -1 && s.curtok == PreDec
    ensures Exp0(s, depth) == PreStep(s, delta, depth)
  {
  }

  lemma PreName(s: State, x: string, ys: seq<Lex>, xs: seq<Lex>, env: Ints, depth: nat) returns (st: State)
    requires depth < MAX_DEPTH && (s.curtok == PreInc || s.curtok == PreDec) && IsName(x)
    requires Ahead(s, ys) && s.env == Texts(env) && ys == [LName(x)] + xs && (xs != [] ==> IsTail(xs[0]))
    ensures Reads(s.(lasttok := s.curtok), st, depth) && st.curtok == Str && st.tokstr == Some(x)
    ensures st.tokval == Lookup(env, x, s.noeval > 0) && st.env == s.env && st.noeval == s.noeval && st.text == s.text
    ensures Ahead(st, xs)
  {
    assert ys[1..] == xs;
    st := Advance(s.(lasttok := s.curtok), ys, env, depth);
  }

  lemma PreCase(up: bool, x: string, s: State, ys: seq<Lex>, xs: seq<Lex>, env: Ints, depth: nat)
    returns (st: State, w: intmax)
    requires depth < MAX_DEPTH && s.curtok == LexTok(LPre(up)) && Ahead(s, ys) && s.env == Texts(env) && IsName(x)
    requires ys == [LName(x)] + xs && (xs != [] ==> IsTail(xs[0]))
    ensures w == Wrap(Lookup(env, x, s.noeval > 0) + Delta(up))
    ensures Agrees(15, Val(w, Put(env, x, w, s.noeval > 0)), s, st, xs, depth)
  {
    var s1 := PreName(s, x, ys, xs, env, depth);
    st, w := PreAnswers(Delta(up), x, s, s1, xs, env, depth);
  }

  lemma PreAnswers(delta: int, x: string, s: State, s1: State, xs: seq<Lex>, env: Ints, depth: nat)
    returns (st: State, w: intmax)
    requires depth < MAX_DEPTH && Reads(s.(lasttok := s.curtok), s1, depth)
    requires if delta == 1 then s.curtok == PreInc else delta == -1 && s.curtok == PreDec
    requires s1.curtok == Str && s1.tokstr == Some(x) && s1.tokval == Lookup(env, x, s.noeval > 0)
    requires s1.env == Texts(env) && s1.noeval == s.noeval && s1.text == s.text
    requires Ahead(s1, xs) && (xs != [] ==> IsTail(xs[0]))
    ensures w == Wrap(Lookup(env, x, s.noeval > 0) + delta)
    ensures Agrees(15, Val(w, Put(env, x, w, s.noeval > 0)), s, st, xs, depth)
  {
    var env1;
    st, env1 := AfterBump(s1, x, s1.tokval, delta, xs, env, depth);
    w := Wrap(s1.tokval + delta);
    PreDone(s, s1, st, delta, Val(w, env1), depth);
  }

  lemma ParenText(e: Expr, xs: seq<Lex>) returns (ys: seq<Lex>)
    ensures ys != [] && ys[0] == LClose && ys[1..] == xs && Follow(0, ys)
    ensures var p := [LOpen] + (Print(0, e) + [LClose]) + xs;
            p[0] == LOpen && p[1..] == Print(0, e) + ys
  {
    ys := [LClose] + xs;
    assert [LOpen] + (Print(0, e) + [LClose]) + xs == [LOpen] + (Print(0, e) + ys);
  }

  /** An expression in parentheses, written or needed. */
  lemma ParenCase(e: Expr, s: State, xs: seq<Lex>, env: Ints, depth: nat) returns (st: State)
    requires depth < MAX_DEPTH && Proper(e) && Follow(15, xs)
    requires Facing(s, [LOpen] + (Print(0, e) + [LClose]) + xs, env)
    ensures Agrees(15, Eval(e, env, s.noeval > 0), s, st, xs, depth)
    decreases e, 1, 0
  {
    var ys := ParenText(e, xs);
    var s1 := ToOperand(s, 0, e, ys, env, depth);
    var s2 := Parses(0, e, s1, ys, env, depth);
    st := ParenDone(Eval(e, env, s.noeval > 0), s, s1, s2, ys, xs, depth);
  }

  lemma ParenDone(out: Out, s: State, s1: State, s2: State, ys: seq<Lex>, xs: seq<Lex>, depth: nat) returns (st: State)
    requires depth < MAX_DEPTH && s.curtok == Chr('(') && Reads(s, s1, depth)
    requires s1.noeval == s.noeval && s1.text == s.text && Agrees(0, out, s1, s2, ys, depth)
    requires ys != [] && ys[0] == LClose && ys[1..] == xs && (xs != [] ==> IsTail(xs[0]))
    ensures Agrees(15, out, s, st, xs, depth)
  {
    st := s2;
    if out.Val? {
      st := Advance(s2, xs, out.env, depth);
    }
    ParenGives(out, s, s1, s2, st, depth);
  }

  lemma ParenGives(out: Out, s: State, s1: State, s2: State, st: State, depth: nat)
    requires depth < MAX_DEPTH && s.curtok == Chr('(') && Reads(s, s1, depth) && Gives(Lev(0), out, s1, s2, depth)
    requires out.Val? ==> s2.curtok == Chr(')') && Reads(s2, st, depth)
    ensures Gives(Lev(15), out, s, st, depth)
  {
    if out.Val? {
      RestStops(0, out.v, s2, depth);
      assert ExpComma(s1, depth) == Ok(s2, out.v);
    }
    assert Parenthesised(s, depth) == if out.Val? then Ok(st, out.v) else Err(out.error, Texts(out.env));
  }

  /**
   Evaluating a text of an expression, whatever its blanks, against variables that hold
   integers, gives the expression's value and leaves the variables it leaves -- or reports
   its error.
   */
  lemma EvaluatorAgrees(text: string, e: Expr, env: Ints, depth: nat)
    requires Proper(e) && Writes(text, Print(0, e)) && depth + 1 < MAX_DEPTH
    ensures EvalExp(text, Texts(env), depth)
            == match Eval(e, env, false)
               case Val(v, env') => Valid(v, Texts(env'))
               case Fault(error, env') => Invalid(error, Texts(env'))
  {
    WholeAgrees(e, Context(text, Idle(Texts(env))), env, depth + 1);
    Concluded(text, env, Eval(e, env, false), depth);
  }

  /** A lexeme that can be part of an expression. */
  predicate LexOk(x: Lex) {
    x.LNum? || (x.LName? && IsName(x.x)) || IsOperator(x)
  }

  lemma {:induction false} PrintOk(k: nat, e: Expr)
    requires Proper(e)
    ensures forall x :: x in Print(k, e) ==> LexOk(x)
    decreases e
  {
    match e
    case Atom(_) =>
    case Paren(a) => PrintOk(0, a);
    case Unary(_, a) => PrintOk(14, a);
    case Two(op, a, b) => PrintOk(LeftLevel(op), a); PrintOk(RightLevel(op), b);
    case Ternary(c, a, b) => PrintOk(3, c); PrintOk(0, a); PrintOk(2, b);
    case Assign(_, _, b) => PrintOk(1, b);
  }

  lemma OneBlank(w: string, tail: string)
    requires w != "" && !IsBlank(w[0])
    ensures Unblank(" " + w + tail) == w + tail && w <= w + tail && (w + tail)[|w|..] == tail
  {
    assert (" " + w + tail)[1..] == w + tail;
    assert Unblank(w + tail) == w + tail;
  }

  lemma {:induction false} SpellWrites(xs: seq<Lex>)
    requires forall x :: x in xs ==> LexOk(x)
    ensures Writes(Spell(xs), xs)
    decreases |xs|
  {
    if xs != [] {
      var w, tail := LexText(xs[0]), Spell(xs[1..]);
      SpellWrites(xs[1..]);
      assert LexOk(xs[0]);
      if IsOperator(xs[0]) {
        OperatorStart(xs[0]);
      }
      OneBlank(w, tail);
    }
  }

  /** One blank before each lexeme is one way to write an expression. */
  lemma RenderWrites(e: Expr)
    requires Proper(e)
    ensures Writes(Render(e), Print(0, e))
  {
    PrintOk(0, e);
    SpellWrites(Print(0, e));
  }

  /** Lexemes with a blank between two of them only where they would run together. */
  function Tight(xs: seq<Lex>): string {
    if xs == [] then ""
    else
      var tail := Tight(xs[1..]);
      LexText(xs[0]) + (if Apart(xs[0], tail) then tail else " " + tail)
  }

  /** Writing as few blanks as can be is another way. */
  lemma {:induction false} TightWrites(xs: seq<Lex>)
    requires forall x :: x in xs ==> LexOk(x)
    ensures Writes(Tight(xs), xs)
    decreases |xs|
  {
    if xs != [] {
      var w, tail := LexText(xs[0]), Tight(xs[1..]);
      var u := if Apart(xs[0], tail) then tail else " " + tail;
      TightWrites(xs[1..]);
      assert LexOk(xs[0]);
      if IsOperator(xs[0]) {
        OperatorStart(xs[0]);
      }
      OneBlank(w, u);
      assert (" " + tail)[1..] == tail;
      assert (w + u)[|w|..] == u && Unblank(w + u) == w + u;
      assert Apart(xs[0], u) && Unblank(u) == Unblank(tail);
    }
  }

  lemma TightRenderWrites(e: Expr)
    requires Proper(e)
    ensures Writes(Tight(Print(0, e)), Print(0, e))
  {
    PrintOk(0, e);
    TightWrites(Print(0, e));
  }

  /** The whole text comes to this outcome. */
  ghost predicate Concludes(s: State, out: Out, depth: nat) {
    depth <= MAX_DEPTH
    && var r := Whole(s, depth);
       match out
       case Val(v, env) => r.Ok? && r.v == v && r.st.env == Texts(env)
       case Fault(error, env) => r == Err(error, Texts(env))
  }

  lemma Concluded(text: string, env: Ints, out: Out, depth: nat)
    requires depth + 1 < MAX_DEPTH && SkipBlanks(text, 0) < |text|
    requires Concludes(Context(text, Idle(Texts(env))), out, depth + 1)
    ensures EvalExp(text, Texts(env), depth)
            == match out
               case Val(v, env') => Valid(v, Texts(env'))
               case Fault(error, env') => Invalid(error, Texts(env'))
  {
  }

  lemma WholeAgrees(e: Expr, s: State, env: Ints, depth: nat)
    requires Proper(e) && depth < MAX_DEPTH
    requires Writes(s.text, Print(0, e)) && s.tp == 0 && s.curtok == End && s.noeval == 0 && s.env == Texts(env)
    ensures SkipBlanks(s.text, 0) < |s.text|
    ensures Concludes(s, Eval(e, env, false), depth)
  {
    assert Print(0, e) + [] == Print(0, e) && s.text[0..] == s.text;
    WrittenIs(s.text[s.tp..], Print(0, e));
    var s1 := ToOperand(s, 0, e, [], env, depth);
    var s2 := Parses(0, e, s1, [], env, depth);
    NotBlank(s, s1, depth);
    WholeDone(Eval(e, env, false), s, s1, s2, depth);
  }

  lemma WholeDone(out: Out, s: State, s1: State, s2: State, depth: nat)
    requires depth < MAX_DEPTH && Reads(s, s1, depth) && Agrees(0, out, s1, s2, [], depth)
    ensures Concludes(s, out, depth)
  {
    if out.Val? {
      assert CommaLoop(out.v, s2, depth) == Ok(s2, out.v);
    }
  }

  /** A text with a token in it is not blank. */
  lemma NotBlank(s: State, s1: State, depth: nat)
    requires depth <= MAX_DEPTH && s.tp == 0 && Reads(s, s1, depth) && s1.curtok != End
    ensures SkipBlanks(s.text, 0) < |s.text|
  {
  }

  /** The same for the meaning in which a discarded operand is not evaluated, when discards are silent. */
  lemma EvaluatorAgreesSkipping(text: string, e: Expr, env: Ints, depth: nat)
    requires Proper(e) && Writes(text, Print(0, e)) && SilentDiscards(e) && depth + 1 < MAX_DEPTH
    ensures EvalExp(text, Texts(env), depth)
            == match Sem(e, env)
               case Val(v, env') => Valid(v, Texts(env'))
               case Fault(error, env') => Invalid(error, Texts(env'))
  {
    EvaluatorAgrees(text, e, env, depth);
    QuietMeansSkipped(e, env);
  }

  /**
   Where the language promises a value, the evaluator gives it if and only if every operand
   discarded on the way is silent.
   */
  lemma EvaluatorKeeps(text: string, e: Expr, env: Ints, depth: nat)
    requires Proper(e) && Writes(text, Print(0, e)) && depth + 1 < MAX_DEPTH && Sem(e, env).Val?
    ensures EvalExp(text, Texts(env), depth) == Valid(Sem(e, env).v, Texts(Sem(e, env).env)) <==> Kept(e, env)
  {
    EvaluatorAgrees(text, e, env, depth);
    KeptOrFault(e, env);
  }
}
