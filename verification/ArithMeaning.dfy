/**
 Arithmetic expressions as trees: what they mean, independently of any parser, and how
 they are written down.
 */
module ArithMeaning {
  import opened Options
  import opened IntMax
  import opened ArithSpec

  datatype UnaryOp = LogicalNot | Complement | Negate | Identity

  /** Operators with an operand on either side. */
  datatype Infix = Sequence | LogOr | LogAnd | Arith(op: BinOp) | Exponent

  /** Literals, variables, ++x, --x, x++ and x--. */
  datatype Leaf = Lit(n: nat) | Var(x: string) | Pre(up: bool, x: string) | Post(up: bool, x: string)

  datatype Expr =
    | Atom(l: Leaf)
    | Paren(a: Expr)
    | Unary(u: UnaryOp, a: Expr)
    | Two(op: Infix, a: Expr, b: Expr)
    | Ternary(c: Expr, a: Expr, b: Expr)
    | Assign(x: string, update: Option<BinOp>, b: Expr)

  predicate IsName(x: string) {
    |x| > 0 && IsNameStart(x[0]) && forall i :: 0 <= i < |x| ==> IsNameChar(x[i])
  }

  predicate CanUpdate(op: BinOp) {
    !op.Eq? && !op.Ne? && !op.Le? && !op.Ge? && !op.Lt? && !op.Gt?
  }

  /** Names are identifiers and op= is one of the ten assignment operators. */
  predicate Proper(e: Expr) {
    match e
    case Atom(l) => l.Lit? || IsName(l.x)
    case Paren(a) => Proper(a)
    case Unary(_, a) => Proper(a)
    case Two(_, a, b) => Proper(a) && Proper(b)
    case Ternary(c, a, b) => Proper(c) && Proper(a) && Proper(b)
    case Assign(x, update, b) => IsName(x) && (update.Some? ==> CanUpdate(update.value)) && Proper(b)
  }

  // ---- meaning ---------------------------------------------------------------

  type Ints = map<string, intmax>

  datatype Out = Val(v: intmax, env: Ints) | Fault(error: Error, env: Ints)

  function UnaryTok(u: UnaryOp): Tok {
    match u
    case LogicalNot => Chr('!')
    case Complement => Chr('~')
    case Negate => Chr('-')
    case Identity => Chr('+')
  }

  function Lookup(env: Ints, x: string, quiet: bool): intmax {
    if quiet || x !in env then 0 else env[x]
  }

  function Put(env: Ints, x: string, v: intmax, quiet: bool): Ints {
    if quiet then env else env[x := v]
  }

  function Delta(up: bool): int { if up then 1 else -1 }

  function EvalLeaf(l: Leaf, env: Ints, quiet: bool): Out {
    match l
    case Lit(n) => Val(Wrap(n), env)
    case Var(x) => Val(Lookup(env, x, quiet), env)
    case Pre(up, x) =>
      var v := Wrap(Lookup(env, x, quiet) + Delta(up));
      Val(v, Put(env, x, v, quiet))
    case Post(up, x) =>
      var v := Lookup(env, x, quiet);
      Val(v, Put(env, x, Wrap(v + Delta(up)), quiet))
  }

  function UnaryOut(u: UnaryOp, r: Out): Out {
    match r
    case Fault(_, _) => r
    case Val(v, env) => Val(ApplyUnary(UnaryTok(u), v), env)
  }

  /** The left operand alone decides the result. */
  predicate Decides(op: Infix, v: intmax) {
    (op.LogAnd? && v == 0) || (op.LogOr? && v != 0)
  }

  /** The result of an infix operator on a left value and the outcome on the right. */
  function JoinOut(op: Infix, v: intmax, r: Out, quiet: bool): Out {
    match r
    case Fault(_, _) => r
    case Val(w, env) =>
      match op
      case Sequence => Val(w, env)
      case LogOr => Val(Flag(v != 0 || w != 0), env)
      case LogAnd => Val(Flag(v != 0 && w != 0), env)
      case Arith(o) => CombineOut(o, v, w, env, quiet)
      case Exponent => PowerOut(v, w, env)
  }

  function CombineOut(op: BinOp, a: intmax, b: intmax, env: Ints, quiet: bool): Out {
    match Combine(op, a, b, quiet)
    case None => Fault(DivisionByZero, env)
    case Some(v) => Val(v, env)
  }

  function PowerOut(a: intmax, b: intmax, env: Ints): Out {
    if b == 0 then Val(1, env)
    else if b < 0 then Fault(NegativeExponent, env)
    else Val(Wrap(Power(a, b)), env)
  }

  function StoreOut(x: string, update: Option<BinOp>, lvalue: intmax, r: Out, quiet: bool): Out {
    match r
    case Fault(_, _) => r
    case Val(w, env) =>
      match (if update.Some? then CombineOut(update.value, lvalue, w, env, quiet) else r)
      case Fault(error, _) => Fault(error, env)
      case Val(v, _) => Val(v, Put(env, x, v, quiet))
  }

  function ChooseOut(cv: intmax, first: Out, second: Out): Out {
    if first.Fault? then first
    else if second.Fault? then second
    else Val(if cv != 0 then first.v else second.v, second.env)
  }

  /**
   Left-to-right meaning of an expression.  A discarded operand of &&, || or ?: is
   evaluated `quiet`: variables read as 0, nothing is stored, and division by zero is
   harmless -- but an exponent below 0 is still an error.
   */
  function Eval(e: Expr, env: Ints, quiet: bool): Out {
    match e
    case Atom(l) => EvalLeaf(l, env, quiet)
    case Paren(a) => Eval(a, env, quiet)
    case Unary(u, a) => UnaryOut(u, Eval(a, env, quiet))
    case Two(op, a, b) =>
      (match Eval(a, env, quiet)
       case Fault(error, env1) => Fault(error, env1)
       case Val(v, env1) => JoinOut(op, v, Eval(b, env1, quiet || Decides(op, v)), quiet))
    case Ternary(c, a, b) =>
      (match Eval(c, env, quiet)
       case Fault(error, env1) => Fault(error, env1)
       case Val(cv, env1) =>
         var first := Eval(a, env1, quiet || cv == 0);
         ChooseOut(cv, first, Eval(b, first.env, quiet || cv != 0)))
    case Assign(x, update, b) => StoreOut(x, update, Lookup(env, x, quiet), Eval(b, env, quiet), quiet)
  }

  /** The meaning the language promises: a discarded operand is not evaluated at all. */
  function Sem(e: Expr, env: Ints): Out {
    match e
    case Atom(l) => EvalLeaf(l, env, false)
    case Paren(a) => Sem(a, env)
    case Unary(u, a) => UnaryOut(u, Sem(a, env))
    case Two(op, a, b) =>
      (match Sem(a, env)
       case Fault(error, env1) => Fault(error, env1)
       case Val(v, env1) =>
         if Decides(op, v) then Val(Flag(v != 0), env1) else JoinOut(op, v, Sem(b, env1), false))
    case Ternary(c, a, b) =>
      (match Sem(c, env)
       case Fault(error, env1) => Fault(error, env1)
       case Val(cv, env1) => if cv != 0 then Sem(a, env1) else Sem(b, env1))
    case Assign(x, update, b) => StoreOut(x, update, Lookup(env, x, false), Sem(b, env), false)
  }

  /** What an expression comes to with every variable 0 and nothing stored. */
  function QuietValue(e: Expr): intmax {
    match e
    case Atom(l) =>
      (match l
       case Lit(n) => Wrap(n)
       case Pre(up, _) => Delta(up)
       case _ => 0)
    case Paren(a) => QuietValue(a)
    case Unary(u, a) => ApplyUnary(UnaryTok(u), QuietValue(a))
    case Two(op, a, b) => QuietJoin(op, QuietValue(a), QuietValue(b))
    case Ternary(c, a, b) => if QuietValue(c) != 0 then QuietValue(a) else QuietValue(b)
    case Assign(_, update, b) => if update.Some? then QuietCombine(update.value, 0, QuietValue(b)) else QuietValue(b)
  }

  function QuietJoin(op: Infix, v: intmax, w: intmax): intmax {
    match op
    case Sequence => w
    case LogOr => Flag(v != 0 || w != 0)
    case LogAnd => Flag(v != 0 && w != 0)
    case Arith(o) => QuietCombine(o, v, w)
    case Exponent => if w <= 0 then 1 else Wrap(Power(v, w))
  }

  /** Dividing by 0 is dividing by 1. */
  function QuietCombine(op: BinOp, v: intmax, w: intmax): intmax {
    Combine(op, v, w, true).value
  }

  /** No exponent in the expression is below 0 when every variable is 0: all that a quiet evaluation can trip over. */
  predicate Silent(e: Expr) {
    match e
    case Atom(_) => true
    case Paren(a) => Silent(a)
    case Unary(_, a) => Silent(a)
    case Two(op, a, b) => Silent(a) && Silent(b) && (op.Exponent? ==> QuietValue(b) >= 0)
    case Ternary(c, a, b) => Silent(c) && Silent(a) && Silent(b)
    case Assign(_, _, b) => Silent(b)
  }

  /** Every operand that can be discarded is silent; decided from the text, before evaluation. */
  predicate SilentDiscards(e: Expr) {
    match e
    case Atom(_) => true
    case Paren(a) => SilentDiscards(a)
    case Unary(_, a) => SilentDiscards(a)
    case Two(op, a, b) => SilentDiscards(a) && SilentDiscards(b) && (op.LogAnd? || op.LogOr? ==> Silent(b))
    case Ternary(c, a, b) => SilentDiscards(c) && SilentDiscards(a) && SilentDiscards(b) && Silent(a) && Silent(b)
    case Assign(_, _, b) => SilentDiscards(b)
  }

  function Rehome(r: Out, env: Ints): Out {
    match r
    case Val(v, _) => Val(v, env)
    case Fault(error, _) => Fault(error, env)
  }

  lemma JoinQuietly(op: Infix, v: intmax, w: intmax, env: Ints)
    ensures JoinOut(op, v, Val(w, env), true)
         == if op.Exponent? && w < 0 then Fault(NegativeExponent, env) else Val(QuietJoin(op, v, w), env)
  {
  }

  /**
   A discarded operand stores nothing, ignores the variables, and fails if and only if it is
   not silent -- on the exponent.
   */
  lemma {:induction false} QuietEval(e: Expr, env: Ints)
    ensures Eval(e, env, true) == if Silent(e) then Val(QuietValue(e), env) else Fault(NegativeExponent, env)
  {
    match e
    case Atom(_) =>
    case Paren(a) => QuietEval(a, env);
    case Unary(_, a) => QuietEval(a, env);
    case Two(op, a, b) =>
      QuietEval(a, env);
      QuietEval(b, env);
      JoinQuietly(op, QuietValue(a), QuietValue(b), env);
    case Ternary(c, a, b) => QuietEval(c, env); QuietEval(a, env); QuietEval(b, env);
    case Assign(x, update, b) => QuietEval(b, env);
  }

  /** Every operand that evaluating e in env actually discards is silent; it follows the run, ?: arms included. */
  predicate Kept(e: Expr, env: Ints) {
    match e
    case Atom(_) => true
    case Paren(a) => Kept(a, env)
    case Unary(_, a) => Kept(a, env)
    case Two(op, a, b) =>
      Kept(a, env)
      && (match Sem(a, env)
          case Fault(_, _) => true
          case Val(v, env1) => if Decides(op, v) then Silent(b) else Kept(b, env1))
    case Ternary(c, a, b) =>
      Kept(c, env)
      && (match Sem(c, env)
          case Fault(_, _) => true
          case Val(cv, env1) =>
            if cv == 0 then Silent(a) && Kept(b, env1)
            else Kept(a, env1) && (Sem(a, env1).Val? ==> Silent(b)))
    case Assign(_, _, b) => Kept(b, env)
  }

  /**
   The evaluator does what the language promises when all it discards is silent; otherwise it
   reports the exponent of a discarded operand.
   */
  lemma {:induction false} KeptOrFault(e: Expr, env: Ints)
    ensures Kept(e, env) ==> Eval(e, env, false) == Sem(e, env)
    ensures !Kept(e, env) ==> Eval(e, env, false).Fault? && Eval(e, env, false).error == NegativeExponent
  {
    match e
    case Atom(_) =>
    case Paren(a) => KeptOrFault(a, env);
    case Unary(_, a) => KeptOrFault(a, env);
    case Two(op, a, b) =>
      KeptOrFault(a, env);
      KeptOrFault(b, Sem(a, env).env);
      QuietEval(b, Sem(a, env).env);
    case Ternary(c, a, b) =>
      KeptOrFault(c, env);
      var env1 := Sem(c, env).env;
      KeptOrFault(a, env1);
      KeptOrFault(b, env1);
      QuietEval(a, env1);
      QuietEval(b, Sem(a, env1).env);
    case Assign(_, _, b) => KeptOrFault(b, env);
  }

  /** So the promise of a value is kept if and only if every operand discarded on the way is silent. */
  lemma KeptExactly(e: Expr, env: Ints)
    requires Sem(e, env).Val?
    ensures Eval(e, env, false) == Sem(e, env) <==> Kept(e, env)
  {
    KeptOrFault(e, env);
  }

  /** With silent discards, suppressed evaluation is the same as no evaluation, whatever the variables hold. */
  lemma QuietMeansSkipped(e: Expr, env: Ints)
    requires SilentDiscards(e)
    ensures Eval(e, env, false) == Sem(e, env)
  {
    SilentIsKept(e, env);
    KeptOrFault(e, env);
  }

  lemma {:induction false} SilentIsKept(e: Expr, env: Ints)
    requires SilentDiscards(e)
    ensures Kept(e, env)
  {
    match e
    case Atom(_) =>
    case Paren(a) => SilentIsKept(a, env);
    case Unary(_, a) => SilentIsKept(a, env);
    case Two(_, a, b) =>
      SilentIsKept(a, env);
      SilentIsKept(b, Sem(a, env).env);
    case Ternary(c, a, b) =>
      SilentIsKept(c, env);
      SilentIsKept(a, Sem(c, env).env);
      SilentIsKept(b, Sem(c, env).env);
    case Assign(_, _, b) => SilentIsKept(b, env);
  }

  /** In particular for one discarded operand. */
  lemma DiscardedOperand(op: Infix, a: Expr, b: Expr, env: Ints)
    requires Kept(a, env) && Sem(a, env).Val? && Decides(op, Sem(a, env).v)
    ensures Eval(Two(op, a, b), env, false) == Sem(Two(op, a, b), env) <==> Silent(b)
  {
    KeptExactly(Two(op, a, b), env);
  }

  /** And for the arm of ?: that is not chosen. */
  lemma DiscardedArm(c: Expr, a: Expr, b: Expr, env: Ints)
    requires Kept(c, env) && Sem(Ternary(c, a, b), env).Val?
    requires var r := Sem(c, env); Kept(if r.v != 0 then a else b, r.env)
    ensures Eval(Ternary(c, a, b), env, false) == Sem(Ternary(c, a, b), env)
            <==> Silent(if Sem(c, env).v != 0 then b else a)
  {
    KeptExactly(Ternary(c, a, b), env);
  }

  /** 0 && 1 ** -1 should be 0; the evaluator reports the exponent of the discarded operand. */
  lemma DiscardedExponentFails()
    ensures var e := Two(LogAnd, Atom(Lit(0)), Two(Exponent, Atom(Lit(1)), Unary(Negate, Atom(Lit(1)))));
            Sem(e, map[]) == Val(0, map[]) && Eval(e, map[], false) == Fault(NegativeExponent, map[])
  {
    var minusOne := Unary(Negate, Atom(Lit(1)));
    assert Eval(minusOne, map[], true) == Val(-1, map[]);
    assert Eval(Two(Exponent, Atom(Lit(1)), minusOne), map[], true) == Fault(NegativeExponent, map[]);
  }

  // ---- written form ------------------------------------------------------------

  datatype Lex =
    | LNum(n: nat) | LName(x: string) | LOpen | LClose | LQuery | LColon
    | LInfix(op: Infix) | LUnary(u: UnaryOp) | LAssign(update: Option<BinOp>) | LPre(up: bool) | LPost(up: bool)

  function InfixLevel(op: Infix): nat {
    match op
    case Sequence => 0
    case LogOr => 3
    case LogAnd => 4
    case Arith(o) => OpLevel(o)
    case Exponent => 13
  }

  /** How tightly an expression binds: the level of expr.c that reads it. */
  function Prec(e: Expr): nat {
    match e
    case Atom(_) => 15
    case Paren(_) => 15
    case Unary(_, _) => 14
    case Two(op, _, _) => InfixLevel(op)
    case Ternary(_, _, _) => 2
    case Assign(_, _, _) => 1
  }

  /** Everything but exponentiation associates to the left. */
  function LeftLevel(op: Infix): nat { if op.Exponent? then 14 else InfixLevel(op) }
  function RightLevel(op: Infix): nat { if op.Exponent? then 13 else InfixLevel(op) + 1 }

  function LeafLexes(l: Leaf): seq<Lex> {
    match l
    case Lit(n) => [LNum(n)]
    case Var(x) => [LName(x)]
    case Pre(up, x) => [LPre(up), LName(x)]
    case Post(up, x) => [LName(x), LPost(up)]
  }

  /** The lexemes of e where level k is expected, parenthesised if it binds more loosely. */
  function Print(k: nat, e: Expr): seq<Lex>
    decreases e, 1
  {
    if Prec(e) < k then [LOpen] + (Bare(e) + [LClose]) else Bare(e)
  }

  function Bare(e: Expr): seq<Lex>
    decreases e, 0
  {
    match e
    case Atom(l) => LeafLexes(l)
    case Paren(a) => [LOpen] + (Print(0, a) + [LClose])
    case Unary(u, a) => [LUnary(u)] + Print(14, a)
    case Two(op, a, b) => Print(LeftLevel(op), a) + ([LInfix(op)] + Print(RightLevel(op), b))
    case Ternary(c, a, b) => Print(3, c) + ([LQuery] + (Print(0, a) + ([LColon] + Print(2, b))))
    case Assign(x, update, b) => [LName(x), LAssign(update)] + Print(1, b)
  }

  function OpText(op: BinOp): string {
    match op
    case OrBits => "|"
    case XorBits => "^"
    case AndBits => "&"
    case Eq => "=="
    case Ne => "!="
    case Le => "<="
    case Ge => ">="
    case Lt => "<"
    case Gt => ">"
    case Shl => "<<"
    case Shr => ">>"
    case Add => "+"
    case Sub => "-"
    case Mul => "*"
    case Div => "/"
    case Mod => "%"
  }

  function OpTok(op: BinOp): Tok {
    match op
    case Eq => EqEq
    case Ne => Neq
    case Le => Leq
    case Ge => Geq
    case Shl => Lsh
    case Shr => Rsh
    case _ => Chr(OpText(op)[0])
  }

  function InfixText(op: Infix): string {
    match op
    case Sequence => ","
    case LogOr => "||"
    case LogAnd => "&&"
    case Arith(o) => OpText(o)
    case Exponent => "**"
  }

  function LexText(x: Lex): string {
    match x
    case LNum(n) => Digits(n)
    case LName(name) => name
    case LOpen => "("
    case LClose => ")"
    case LQuery => "?"
    case LColon => ":"
    case LInfix(op) => InfixText(op)
    case LUnary(u) => [UnaryTok(u).c]
    case LAssign(update) => if update.Some? then OpText(update.value) + "=" else "="
    case LPre(up) => if up then "++" else "--"
    case LPost(up) => if up then "++" else "--"
  }

  /** A text without the blanks it begins with. */
  function Unblank(t: string): string {
    if t != "" && IsBlank(t[0]) then Unblank(t[1..]) else t
  }

  /** An operator that becomes another, or may, when c stands behind it. */
  predicate Joins(w: string, c: char) {
    match |w|
    case 1 => (c == '=' && w[0] in "=!<>*/%+-&^|") || (c == w[0] && c in "<>&|*+-")
    case 2 => c == '=' && (w == "<<" || w == ">>")
    case _ => false
  }

  /** What stands behind a lexeme does not run into it. */
  predicate Apart(x: Lex, tail: string) {
    tail != ""
    ==> match x
        case LNum(_) => !IsNumberChar(tail[0])
        case LName(_) => !IsNameChar(tail[0]) && tail[0] != '['
        case _ => !Joins(LexText(x), tail[0])
  }

  /**
   The text consists of these lexemes, with blanks before, between and behind them, or with none
   where two stay apart.
   */
  predicate Writes(t: string, xs: seq<Lex>)
    decreases |xs|
  {
    var u := Unblank(t);
    if xs == [] then u == ""
    else
      var w := LexText(xs[0]);
      w <= u && Apart(xs[0], u[|w|..]) && Writes(u[|w|..], xs[1..])
  }

  /** Lexemes with a blank before each. */
  function Spell(xs: seq<Lex>): string {
    if xs == [] then "" else " " + LexText(xs[0]) + Spell(xs[1..])
  }

  /** One of the texts of an expression. */
  function Render(e: Expr): string {
    Spell(Print(0, e))
  }

  /** The shell's variables hold the decimal text of their integers. */
  function Texts(env: Ints): Env {
    map x | x in env :: Itos(env[x])
  }
}
