/**
 The arithmetic evaluator of bin/bash/expr.c as functions on its token state.

 The state is the evaluator's own: the expression text, the scan position tp, the
 one token of lookahead, the previous token, the counter noeval that suppresses
 evaluation, and the shell variables, which hold text.  A variable's value is itself
 an expression, evaluated in a fresh context one level deeper; MAX_DEPTH bounds the
 nesting.  An evaluation error abandons everything except the variables.
 */
module ArithSpec {
  import opened Options
  import opened CText
  import opened IntMax

  const MAX_DEPTH: nat := 1024

  datatype Tok =
    | End | Str | Num | EqEq | Neq | Leq | Geq | Land | Lor | Lsh | Rsh | OpAssign | Cond | Pow
    | PreInc | PreDec | PostInc | PostDec
    | Chr(c: char)

  datatype Error =
    | SyntaxError | OperandExpected | InvalidOperator | ExpressionExpected | ColonExpected | MissingParen
    | NotAVariable | BadAssignment | LvalueRequired | IdentifierExpected
    | DivisionByZero | NegativeExponent | RecursionLevel
    | InvalidNumber | InvalidBase | InvalidConstant | ValueTooGreat
    | Subscript

  type Env = map<string, string>

  datatype St = St(
    text: string, tp: nat, curtok: Tok, lasttok: Tok, assigntok: Tok,
    tokstr: Option<string>, tokval: intmax, noeval: nat, env: Env)

  type State = s: St | s.tp <= |s.text| witness St("", 0, End, End, End, None, 0, 0, map[])

  datatype Step<+T> = Ok(st: State, v: T) | Err(error: Error, env: Env)

  /** Text and token still to come: the measure on which every level makes progress. */
  function Remaining(s: State): nat {
    |s.text| - s.tp + if s.curtok == End then 0 else 1
  }

  /**
   What every parser level promises, on any text whatever: it consumes a token, returns
   with noeval as it found it, and while noeval is set it binds no variable and reports
   no division by zero.
   */
  ghost predicate LevelKeeps(s: State, r: Step<intmax>) {
    match r
    case Ok(st, _) =>
      st.text == s.text && st.noeval == s.noeval && Remaining(st) < Remaining(s)
      && (s.noeval > 0 ==> st.env == s.env)
    case Err(error, env) =>
      s.noeval > 0 ==> env == s.env && error != DivisionByZero
  }

  /** The same for the rest of a level's loop, which may have nothing left to consume. */
  ghost predicate LoopKeeps(s: State, r: Step<intmax>) {
    match r
    case Ok(st, _) =>
      st.text == s.text && st.noeval == s.noeval && Remaining(st) <= Remaining(s)
      && (s.noeval > 0 ==> st.env == s.env)
    case Err(error, env) =>
      s.noeval > 0 ==> env == s.env && error != DivisionByZero
  }

  // ---- characters -------------------------------------------------------

  predicate IsBlank(c: char) { c == ' ' || c == '\t' || c == '\n' }
  predicate IsDigit(c: char) { '0' <= c <= '9' }
  predicate IsLower(c: char) { 'a' <= c <= 'z' }
  predicate IsUpper(c: char) { 'A' <= c <= 'Z' }
  predicate IsNameStart(c: char) { IsLower(c) || IsUpper(c) || c == '_' }
  predicate IsNameChar(c: char) { IsNameStart(c) || IsDigit(c) }
  predicate IsNumChar(c: char) { IsNameChar(c) || c == '@' }
  predicate IsNumberChar(c: char) { IsNumChar(c) || c == '#' }

  function SkipBlanks(text: string, i: nat): (j: nat)
    requires i <= |text|
    ensures i <= j <= |text|
    decreases |text| - i
  {
    if IsBlank(At(text, i)) then SkipBlanks(text, i + 1) else i
  }

  function SkipName(text: string, i: nat): (j: nat)
    requires i <= |text|
    ensures i <= j <= |text|
    decreases |text| - i
  {
    if IsNameChar(At(text, i)) then SkipName(text, i + 1) else i
  }

  function SkipNumber(text: string, i: nat): (j: nat)
    requires i <= |text|
    ensures i <= j <= |text|
    ensures forall k :: i <= k < j ==> IsNumberChar(text[k])
    decreases |text| - i
  {
    if IsNumberChar(At(text, i)) then SkipNumber(text, i + 1) else i
  }

  // ---- integer constants ---------------------------------------------------

  datatype Number = Number(base: int, found: bool, val: intmax) | NotNumber(error: Error)

  function DigitValue(c: char, base: int): int {
    if IsDigit(c) then c as int - '0' as int
    else if IsLower(c) then c as int - 'a' as int + 10
    else if IsUpper(c) then c as int - 'A' as int + (if base <= 36 then 10 else 36)
    else if c == '@' then 62
    else 63
  }

  /** One character of a constant; `next` is the character after it. */
  function NumberStep(n: Number, c: char, next: char): Number {
    match n
    case NotNumber(_) => n
    case Number(base, found, val) =>
      if c == '#' then
        if found then NotNumber(InvalidNumber)
        else if val < 2 || val > 64 then NotNumber(InvalidBase)
        else if !IsNumChar(next) then NotNumber(InvalidConstant)
        else Number(val, true, 0)
      else if DigitValue(c, base) >= base then NotNumber(ValueTooGreat)
      else Number(base, found, Wrap(val * base + DigitValue(c, base)))
  }

  /** How a constant begins: base and index of its first digit (0nnn is octal, 0xnn hexadecimal). */
  function NumberPrefix(num: string): (r: (Number, nat))
    ensures r.1 <= |num|
  {
    if At(num, 0) != '0' then (Number(10, false, 0), 0)
    else if |num| == 1 then (Number(10, false, 0), 1)
    else if num[1] == 'x' || num[1] == 'X' then (Number(16, true, 0), 2)
    else (Number(8, true, 0), 1)
  }

  /** The constant after the first n characters. */
  function NumberUpTo(num: string, n: nat): (r: Number)
    requires NumberPrefix(num).1 <= n <= |num|
    ensures r.NotNumber? ==> r.error in {InvalidNumber, InvalidBase, InvalidConstant, ValueTooGreat}
  {
    if n == NumberPrefix(num).1 then NumberPrefix(num).0
    else NumberStep(NumberUpTo(num, n - 1), num[n - 1], At(num, n))
  }

  function StrLong(num: string): Number {
    NumberUpTo(num, |num|)
  }

  // ---- operators -----------------------------------------------------------

  datatype BinOp =
    | OrBits | XorBits | AndBits | Eq | Ne | Le | Ge | Lt | Gt | Shl | Shr | Add | Sub | Mul | Div | Mod

  /** Binary operators of the left-associative levels, loosest (5) to tightest (12). */
  function OpLevel(op: BinOp): (l: nat)
    ensures 5 <= l <= 12
  {
    match op
    case OrBits => 5
    case XorBits => 6
    case AndBits => 7
    case Eq => 8
    case Ne => 8
    case Le => 9
    case Ge => 9
    case Lt => 9
    case Gt => 9
    case Shl => 10
    case Shr => 10
    case Add => 11
    case Sub => 11
    case Mul => 12
    case Div => 12
    case Mod => 12
  }

  function TokOp(t: Tok): Option<BinOp> {
    match t
    case EqEq => Some(Eq)
    case Neq => Some(Ne)
    case Leq => Some(Le)
    case Geq => Some(Ge)
    case Lsh => Some(Shl)
    case Rsh => Some(Shr)
    case Chr(c) =>
      if c == '|' then Some(OrBits)
      else if c == '^' then Some(XorBits)
      else if c == '&' then Some(AndBits)
      else if c == '<' then Some(Lt)
      else if c == '>' then Some(Gt)
      else if c == '+' then Some(Add)
      else if c == '-' then Some(Sub)
      else if c == '*' then Some(Mul)
      else if c == '/' then Some(Div)
      else if c == '%' then Some(Mod)
      else None
    case _ => None
  }

  predicate IsLevelOp(level: nat, t: Tok) {
    TokOp(t).Some? && OpLevel(TokOp(t).value) == level
  }

  function Flag(b: bool): intmax { if b then 1 else 0 }

  /** None is division by zero, which a suppressed evaluation turns into division by one. */
  function Combine(op: BinOp, a: intmax, b: intmax, quiet: bool): Option<intmax> {
    match op
    case OrBits => Some(Bitwise(BitOr, a, b))
    case XorBits => Some(Bitwise(BitXor, a, b))
    case AndBits => Some(Bitwise(BitAnd, a, b))
    case Eq => Some(Flag(a == b))
    case Ne => Some(Flag(a != b))
    case Le => Some(Flag(a <= b))
    case Ge => Some(Flag(a >= b))
    case Lt => Some(Flag(a < b))
    case Gt => Some(Flag(a > b))
    case Shl => Some(ShiftLeft(a, b))
    case Shr => Some(ShiftRight(a, b))
    case Add => Some(Wrap(a + b))
    case Sub => Some(Wrap(a - b))
    case Mul => Some(Wrap(a * b))
    case Div => if b == 0 then (if quiet then Some(a) else None) else Some(Divide(a, b))
    case Mod => if b == 0 then (if quiet then Some(0) else None) else Some(Modulo(a, b))
  }

  function Divide(a: intmax, b: intmax): intmax
    requires b != 0
  {
    if a == INTMAX_MIN && b == -1 then INTMAX_MIN else QuotientFits(a, b); Quotient(a, b)
  }

  function Modulo(a: intmax, b: intmax): intmax
    requires b != 0
  {
    if a == INTMAX_MIN && b == -1 then 0 else QuotientFits(a, b); Remainder(a, b)
  }

  // ---- the lexical analyser --------------------------------------------------

  predicate IsArithChar(c: char) {
    c == '=' || c == '>' || c == '<' || c == '!' || c == '(' || c == ')' || c == '~' || c == '?' || c == ':' || c == ','
    || IsUpdateChar(c)
  }

  /** The characters that may stand before = in a compound assignment. */
  predicate IsUpdateChar(c: char) {
    c == '*' || c == '/' || c == '%' || c == '+' || c == '-' || c == '&' || c == '^' || c == '|'
  }

  predicate IsMultiTok(t: Tok) {
    t.EqEq? || t.Neq? || t.Leq? || t.Geq? || t.Land? || t.Lor? || t.Lsh? || t.Rsh? || t.OpAssign? || t.Cond?
    || t.Pow? || t.PreInc? || t.PreDec? || t.PostInc? || t.PostDec?
  }

  predicate IsArithTok(t: Tok) {
    t.Chr? && IsArithChar(t.c)
  }

  datatype Lexeme = Lexeme(tok: Tok, assign: Option<Tok>, len: nat) | BadLexeme(error: Error)

  /**
   An operator token at text[i], given the token before it: ++ and -- are postfix after a
   variable, prefix before one, and otherwise two separate signs.
   */
  function ReadOperator(text: string, i: nat, curtok: Tok, lasttok: Tok): (r: Lexeme)
    requires i < |text|
    ensures r.Lexeme? ==> 1 <= r.len && i + r.len <= |text| && r.tok != End && r.tok != Str && r.tok != Num
  {
    var c, c1, c2 := text[i], At(text, i + 1), At(text, i + 2);
    if c == '=' && c1 == '=' then Lexeme(EqEq, None, 2)
    else if c == '!' && c1 == '=' then Lexeme(Neq, None, 2)
    else if c == '>' && c1 == '=' then Lexeme(Geq, None, 2)
    else if c == '<' && c1 == '=' then Lexeme(Leq, None, 2)
    else if c == '<' && c1 == '<' then
      if c2 == '=' then Lexeme(OpAssign, Some(Lsh), 3) else Lexeme(Lsh, None, 2)
    else if c == '>' && c1 == '>' then
      if c2 == '=' then Lexeme(OpAssign, Some(Rsh), 3) else Lexeme(Rsh, None, 2)
    else if c == '&' && c1 == '&' then Lexeme(Land, None, 2)
    else if c == '|' && c1 == '|' then Lexeme(Lor, None, 2)
    else if c == '*' && c1 == '*' then Lexeme(Pow, None, 2)
    else if (c == '-' || c == '+') && c1 == c && curtok == Str then
      Lexeme(if c == '-' then PostDec else PostInc, None, 2)
    else if (c == '-' || c == '+') && c1 == c && curtok == Num && (lasttok == PreInc || lasttok == PreDec) then
      BadLexeme(LvalueRequired)
    else if (c == '-' || c == '+') && c1 == c then
      if IsNameStart(At(text, SkipBlanks(text, i + 2))) then
        Lexeme(if c == '-' then PreDec else PreInc, None, 2)
      else
        Lexeme(Chr(c), None, 1)
    else if c1 == '=' && IsUpdateChar(c) then Lexeme(OpAssign, Some(Chr(c)), 2)
    else if !IsArithChar(c) then
      BadLexeme(if curtok == End || IsArithTok(curtok) || IsMultiTok(curtok) then OperandExpected else InvalidOperator)
    else Lexeme(Chr(c), None, 1)
  }

  /** Read the next token; a variable's token carries the variable's value. */
  function ReadTok(s: State, depth: nat): (r: Step<()>)
    requires depth <= MAX_DEPTH
    ensures match r
            case Ok(st, _) =>
              st.text == s.text && st.noeval == s.noeval && st.tp >= s.tp
              && (st.curtok != End ==> st.tp > s.tp) && (s.noeval > 0 ==> st.env == s.env)
            case Err(error, env) => s.noeval > 0 ==> env == s.env && error != DivisionByZero
    decreases MAX_DEPTH - depth, |s.text| - s.tp, 1
  {
    var i := SkipBlanks(s.text, s.tp);
    var c := At(s.text, i);
    if i == |s.text| then
      Ok(s.(tp := i, lasttok := s.curtok, curtok := End), ())
    else if IsNameStart(c) then
      ReadName(s, i, depth)
    else if IsDigit(c) then
      var j := SkipNumber(s.text, i);
      assert IsNumberChar(At(s.text, i));
      match StrLong(s.text[i..j])
      case NotNumber(error) => Err(error, s.env)
      case Number(_, _, val) => Ok(s.(tp := j, tokval := val, lasttok := s.curtok, curtok := Num), ())
    else
      match ReadOperator(s.text, i, s.curtok, s.lasttok)
      case BadLexeme(error) => Err(error, s.env)
      case Lexeme(tok, assign, len) =>
        Ok(s.(tp := i + len, assigntok := if assign.Some? then assign.value else s.assigntok,
              lasttok := s.curtok, curtok := tok), ())
  }

  /**
   A variable name at text[i].  The token after it is read ahead, without evaluation: in
   front of a plain = the variable's value is not wanted.
   */
  function ReadName(s: State, i: nat, depth: nat): (r: Step<()>)
    requires depth <= MAX_DEPTH
    requires s.tp <= i < |s.text| && IsNameStart(s.text[i])
    ensures match r
            case Ok(st, _) =>
              st.text == s.text && st.noeval == s.noeval && st.tp > s.tp && st.curtok == Str
              && (s.noeval > 0 ==> st.env == s.env)
            case Err(error, env) => s.noeval > 0 ==> env == s.env && error != DivisionByZero
    decreases MAX_DEPTH - depth, |s.text| - s.tp, 0
  {
    var j := SkipName(s.text, i + 1);
    var name := s.text[i..j];
    if At(s.text, j) == '[' then Err(Subscript, s.env)
    else
      match Peek(s.(tokstr := Some(name)), j, depth)
      case Err(error, env) => Err(error, env)
      case Ok(s1, peektok) =>
        var wanted := s.lasttok == PreInc || s.lasttok == PreDec || peektok != Chr('=');
        match (if wanted then StrEval(name, s1, depth) else Ok(s1, 0))
        case Err(error, env) => Err(error, env)
        case Ok(s2, val) => Ok(s2.(tokval := val, lasttok := s.curtok, curtok := Str), ())
  }

  /** The token at text[j], after a name; only the operator of op= outlives the look ahead. */
  function Peek(s: State, j: nat, depth: nat): (r: Step<Tok>)
    requires depth <= MAX_DEPTH && s.tp < j <= |s.text|
    ensures match r
            case Ok(st, _) => st == s.(tp := j, assigntok := st.assigntok)
            case Err(error, env) => env == s.env && error != DivisionByZero
    decreases MAX_DEPTH - depth, |s.text| - j, 2
  {
    match ReadTok(s.(tp := j, tokstr := None, noeval := 1, curtok := Str), depth)
    case Err(error, env) => Err(error, env)
    case Ok(peek, _) => Ok(s.(tp := j, assigntok := peek.assigntok), peek.curtok)
  }

  /** The value of a variable: its text evaluated as an expression, nothing while suppressed. */
  function StrEval(name: string, s: State, depth: nat): (r: Step<intmax>)
    requires depth <= MAX_DEPTH
    ensures match r
            case Ok(st, _) => st == s.(env := st.env, assigntok := st.assigntok) && (s.noeval > 0 ==> st == s)
            case Err(_, _) => s.noeval == 0
    decreases MAX_DEPTH - depth, 0, 1
  {
    if s.noeval > 0 then Ok(s, 0)
    else if name in s.env && s.env[name] != "" then SubExpr(s.env[name], s, depth)
    else Ok(s, 0)
  }

  /** Evaluate a text in a context of its own, then return to the caller's token state. */
  function SubExpr(expr: string, s: State, depth: nat): (r: Step<intmax>)
    requires depth <= MAX_DEPTH
    ensures r.Ok? ==> r.st == s.(env := r.st.env, assigntok := r.st.assigntok)
    decreases MAX_DEPTH - depth, 0, 0
  {
    if SkipBlanks(expr, 0) == |expr| then Ok(s, 0)
    else if depth >= MAX_DEPTH then Err(RecursionLevel, s.env)
    else
      match Whole(Context(expr, s), depth + 1)
      case Err(error, env) => Err(error, env)
      case Ok(s1, val) => Ok(s.(env := s1.env, assigntok := s1.assigntok), val)
  }

  /** A whole text: one expression, then its end. */
  function Whole(s: State, depth: nat): (r: Step<intmax>)
    requires depth <= MAX_DEPTH
    decreases MAX_DEPTH - depth, |s.text| + 1, 42
  {
    match ReadTok(s, depth)
    case Err(error, env) => Err(error, env)
    case Ok(s1, _) =>
      match ExpComma(s1, depth)
      case Err(error, env) => Err(error, env)
      case Ok(s2, val) => if s2.curtok != End then Err(SyntaxError, s2.env) else Ok(s2, val)
  }

  /** A fresh context for a nested text. */
  function Context(expr: string, s: State): State {
    St(expr, 0, End, End, s.assigntok, None, 0, s.noeval, s.env)
  }

  // ---- the parser levels, loosest first --------------------------------------

  function ExpComma(s: State, depth: nat): (r: Step<intmax>)
    requires depth <= MAX_DEPTH
    ensures LevelKeeps(s, r)
    decreases MAX_DEPTH - depth, Remaining(s), 40
  {
    match ExpAssign(s, depth)
    case Err(error, env) => Err(error, env)
    case Ok(s1, val) => CommaLoop(val, s1, depth)
  }

  function CommaLoop(val: intmax, s: State, depth: nat): (r: Step<intmax>)
    requires depth <= MAX_DEPTH
    ensures LoopKeeps(s, r)
    decreases MAX_DEPTH - depth, Remaining(s), 41
  {
    if s.curtok != Chr(',') then Ok(s, val)
    else
      match ReadTok(s, depth)
      case Err(error, env) => Err(error, env)
      case Ok(s1, _) =>
        match ExpAssign(s1, depth)
        case Err(error, env) => Err(error, env)
        case Ok(s2, val2) => CommaLoop(val2, s2, depth)
  }

  function ExpAssign(s: State, depth: nat): (r: Step<intmax>)
    requires depth <= MAX_DEPTH
    ensures LevelKeeps(s, r)
    decreases MAX_DEPTH - depth, Remaining(s), 38
  {
    match ExpCond(s, depth)
    case Err(error, env) => Err(error, env)
    case Ok(s1, lvalue) =>
      if s1.curtok != Chr('=') && s1.curtok != OpAssign then Ok(s1, lvalue)
      else Assignment(lvalue, s1, depth)
  }

  /** name = rhs or name op= rhs, the name just read. */
  function Assignment(lvalue: intmax, s: State, depth: nat): (r: Step<intmax>)
    requires depth <= MAX_DEPTH && (s.curtok == Chr('=') || s.curtok == OpAssign)
    ensures LevelKeeps(s, r)
    decreases MAX_DEPTH - depth, Remaining(s), 37
  {
    var op := if s.curtok == OpAssign then TokOp(s.assigntok) else None;
    if s.lasttok != Str then Err(NotAVariable, s.env)
    else if s.tokstr.None? || (s.curtok == OpAssign && op.None?) then Err(BadAssignment, s.env)
    else
      match ReadTok(s, depth)
      case Err(error, env) => Err(error, env)
      case Ok(s1, _) =>
        match ExpAssign(s1, depth)
        case Err(error, env) => Err(error, env)
        case Ok(s2, rhs) => Store(s.tokstr.value, op, lvalue, rhs, s2)
  }

  function Store(name: string, op: Option<BinOp>, lvalue: intmax, rhs: intmax, s: State): (r: Step<intmax>)
    ensures LoopKeeps(s, r)
  {
    var val := if op.Some? then Combine(op.value, lvalue, rhs, s.noeval > 0) else Some(rhs);
    if val.None? then Err(DivisionByZero, s.env)
    else Ok(Bind(s, name, val.value).(tokstr := None), val.value)
  }

  /** Assign an integer to a variable, unless evaluation is suppressed. */
  function Bind(s: State, name: string, val: intmax): State {
    if s.noeval > 0 then s else s.(env := s.env[name := Itos(val)])
  }

  function ExpCond(s: State, depth: nat): (r: Step<intmax>)
    requires depth <= MAX_DEPTH
    ensures LevelKeeps(s, r)
    decreases MAX_DEPTH - depth, Remaining(s), 36
  {
    match ExpLor(s, depth)
    case Err(error, env) => Err(error, env)
    case Ok(s1, cval) =>
      if s1.curtok != Chr('?') then Ok(s1, cval) else Conditional(cval, s1, depth)
  }

  /** cval ? first : second, with the arm not chosen read under suppression. */
  function Conditional(cval: intmax, s: State, depth: nat): (r: Step<intmax>)
    requires depth <= MAX_DEPTH && s.curtok == Chr('?')
    ensures LevelKeeps(s, r)
    decreases MAX_DEPTH - depth, Remaining(s), 37
  {
    match ReadTok(if cval == 0 then Suppress(s) else s, depth)
    case Err(error, env) => Err(error, env)
    case Ok(s1, _) =>
      if s1.curtok == End || s1.curtok == Chr(':') then Err(ExpressionExpected, s1.env)
      else
        match ExpComma(s1, depth)
        case Err(error, env) => Err(error, env)
        case Ok(s2, val1) =>
          if s2.curtok != Chr(':') then Err(ColonExpected, s2.env)
          else SecondArm(cval, val1, s2.(noeval := s.noeval), depth)
  }

  function SecondArm(cval: intmax, val1: intmax, s: State, depth: nat): (r: Step<intmax>)
    requires depth <= MAX_DEPTH && s.curtok == Chr(':')
    ensures LevelKeeps(s, r)
    decreases MAX_DEPTH - depth, Remaining(s), 37
  {
    match ReadTok(if cval != 0 then Suppress(s) else s, depth)
    case Err(error, env) => Err(error, env)
    case Ok(s1, _) =>
      if s1.curtok == End then Err(ExpressionExpected, s1.env)
      else
        match ExpCond(s1, depth)
        case Err(error, env) => Err(error, env)
        case Ok(s2, val2) =>
          Ok(s2.(noeval := s.noeval, lasttok := Cond), if cval != 0 then val1 else val2)
  }

  function Suppress(s: State): State {
    s.(noeval := s.noeval + 1)
  }

  function ExpLor(s: State, depth: nat): (r: Step<intmax>)
    requires depth <= MAX_DEPTH
    ensures LevelKeeps(s, r)
    decreases MAX_DEPTH - depth, Remaining(s), 34
  {
    match ExpLand(s, depth)
    case Err(error, env) => Err(error, env)
    case Ok(s1, val) => LorLoop(val, s1, depth)
  }

  function LorLoop(val1: intmax, s: State, depth: nat): (r: Step<intmax>)
    requires depth <= MAX_DEPTH
    ensures LoopKeeps(s, r)
    decreases MAX_DEPTH - depth, Remaining(s), 35
  {
    if s.curtok != Lor then Ok(s, val1)
    else
      match LorRight(val1, s, depth)
      case Err(error, env) => Err(error, env)
      case Ok(s1, val) => LorLoop(val, s1, depth)
  }

  /** The operator and its right operand, suppressed when the left one decides. */
  function LorRight(val1: intmax, s: State, depth: nat): (r: Step<intmax>)
    requires depth <= MAX_DEPTH && s.curtok == Lor
    ensures LevelKeeps(s, r)
    decreases MAX_DEPTH - depth, Remaining(s), 34
  {
    match ReadTok(if val1 != 0 then Suppress(s) else s, depth)
    case Err(error, env) => Err(error, env)
    case Ok(s1, _) =>
      match ExpLand(s1, depth)
      case Err(error, env) => Err(error, env)
      case Ok(s2, val2) => Ok(s2.(noeval := s.noeval, lasttok := Lor), Flag(val1 != 0 || val2 != 0))
  }

  function ExpLand(s: State, depth: nat): (r: Step<intmax>)
    requires depth <= MAX_DEPTH
    ensures LevelKeeps(s, r)
    decreases MAX_DEPTH - depth, Remaining(s), 32
  {
    match ExpBinary(5, s, depth)
    case Err(error, env) => Err(error, env)
    case Ok(s1, val) => LandLoop(val, s1, depth)
  }

  function LandLoop(val1: intmax, s: State, depth: nat): (r: Step<intmax>)
    requires depth <= MAX_DEPTH
    ensures LoopKeeps(s, r)
    decreases MAX_DEPTH - depth, Remaining(s), 33
  {
    if s.curtok != Land then Ok(s, val1)
    else
      match LandRight(val1, s, depth)
      case Err(error, env) => Err(error, env)
      case Ok(s1, val) => LandLoop(val, s1, depth)
  }

  /** The operator and its right operand, suppressed when the left one decides. */
  function LandRight(val1: intmax, s: State, depth: nat): (r: Step<intmax>)
    requires depth <= MAX_DEPTH && s.curtok == Land
    ensures LevelKeeps(s, r)
    decreases MAX_DEPTH - depth, Remaining(s), 32
  {
    match ReadTok(if val1 == 0 then Suppress(s) else s, depth)
    case Err(error, env) => Err(error, env)
    case Ok(s1, _) =>
      match ExpBinary(5, s1, depth)
      case Err(error, env) => Err(error, env)
      case Ok(s2, val2) => Ok(s2.(noeval := s.noeval, lasttok := Land), Flag(val1 != 0 && val2 != 0))
  }

  /** The left-associative levels 5 (bitwise or) to 12 (multiplication); level 13 is exponentiation. */
  function ExpBinary(level: nat, s: State, depth: nat): (r: Step<intmax>)
    requires depth <= MAX_DEPTH && 5 <= level <= 13
    ensures LevelKeeps(s, r)
    decreases MAX_DEPTH - depth, Remaining(s), 31 - level
  {
    if level == 13 then ExpPower(s, depth)
    else
      match ExpBinary(level + 1, s, depth)
      case Err(error, env) => Err(error, env)
      case Ok(s1, val) => BinaryLoop(level, val, s1, depth)
  }

  function BinaryLoop(level: nat, val1: intmax, s: State, depth: nat): (r: Step<intmax>)
    requires depth <= MAX_DEPTH && 5 <= level <= 12
    ensures LoopKeeps(s, r)
    decreases MAX_DEPTH - depth, Remaining(s), 31
  {
    if !IsLevelOp(level, s.curtok) then Ok(s, val1)
    else
      match BinaryRight(level, val1, s, depth)
      case Err(error, env) => Err(error, env)
      case Ok(s1, val) => BinaryLoop(level, val, s1, depth)
  }

  /** The operator and its right operand, from the next tighter level. */
  function BinaryRight(level: nat, val1: intmax, s: State, depth: nat): (r: Step<intmax>)
    requires depth <= MAX_DEPTH && 5 <= level <= 12 && IsLevelOp(level, s.curtok)
    ensures LevelKeeps(s, r)
    decreases MAX_DEPTH - depth, Remaining(s), 30
  {
    match ReadTok(s, depth)
    case Err(error, env) => Err(error, env)
    case Ok(s1, _) =>
      match ExpBinary(level + 1, s1, depth)
      case Err(error, env) => Err(error, env)
      case Ok(s2, val2) => Reduce(TokOp(s.curtok).value, val1, val2, s2)
  }

  function Reduce(op: BinOp, val1: intmax, val2: intmax, s: State): (r: Step<intmax>)
    ensures LoopKeeps(s, r)
  {
    match Combine(op, val1, val2, s.noeval > 0)
    case None => Err(DivisionByZero, s.env)
    case Some(val) =>
      // the remainder of INTMAX_MIN by -1 leaves the loop body before lasttok is set
      Ok(if op == Mod && val1 == INTMAX_MIN && val2 == -1 then s else s.(lasttok := Num), val)
  }

  /** Exponentiation is right-associative: the recursive call takes every following power. */
  function ExpPower(s: State, depth: nat): (r: Step<intmax>)
    requires depth <= MAX_DEPTH
    ensures LevelKeeps(s, r)
    decreases MAX_DEPTH - depth, Remaining(s), 17
  {
    match Exp1(s, depth)
    case Err(error, env) => Err(error, env)
    case Ok(s1, val) => PowerLoop(val, s1, depth)
  }

  function PowerLoop(val1: intmax, s: State, depth: nat): (r: Step<intmax>)
    requires depth <= MAX_DEPTH
    ensures LoopKeeps(s, r)
    decreases MAX_DEPTH - depth, Remaining(s), 16
  {
    if s.curtok != Pow then Ok(s, val1)
    else
      match ReadTok(s, depth)
      case Err(error, env) => Err(error, env)
      case Ok(s1, _) =>
        match ExpPower(s1, depth)
        case Err(error, env) => Err(error, env)
        case Ok(s2, val2) =>
          if val2 == 0 then Ok(s2.(lasttok := Num), 1)
          else if val2 < 0 then Err(NegativeExponent, s2.env)
          else PowerLoop(Wrap(Power(val1, val2)), s2.(lasttok := Num), depth)
  }

  predicate IsUnary(t: Tok) {
    t == Chr('!') || t == Chr('~') || t == Chr('-') || t == Chr('+')
  }

  function ApplyUnary(t: Tok, val: intmax): intmax {
    var x: int := val;
    if t == Chr('!') then Flag(x == 0)
    else if t == Chr('~') then -1 - x
    else if t == Chr('-') then Wrap(0 - x)
    else val
  }

  function Exp1(s: State, depth: nat): (r: Step<intmax>)
    requires depth <= MAX_DEPTH
    ensures LevelKeeps(s, r)
    decreases MAX_DEPTH - depth, Remaining(s), 15
  {
    if !IsUnary(s.curtok) then Exp0(s, depth)
    else
      match ReadTok(s, depth)
      case Err(error, env) => Err(error, env)
      case Ok(s1, _) =>
        match Exp1(s1, depth)
        case Err(error, env) => Err(error, env)
        case Ok(s2, val) => Ok(s2.(lasttok := Num), ApplyUnary(s.curtok, val))
  }

  function Exp0(s: State, depth: nat): (r: Step<intmax>)
    requires depth <= MAX_DEPTH
    ensures LevelKeeps(s, r)
    decreases MAX_DEPTH - depth, Remaining(s), 14
  {
    match s.curtok
    case PreInc => PreStep(s, 1, depth)
    case PreDec => PreStep(s, -1, depth)
    case Num =>
      (match ReadTok(s, depth)
       case Err(error, env) => Err(error, env)
       case Ok(s1, _) => Ok(s1, s.tokval))
    case Str => Variable(s, depth)
    case Chr(c) => if c == '(' then Parenthesised(s, depth) else Err(OperandExpected, s.env)
    case _ => Err(OperandExpected, s.env)
  }

  function Parenthesised(s: State, depth: nat): (r: Step<intmax>)
    requires depth <= MAX_DEPTH && s.curtok == Chr('(')
    ensures LevelKeeps(s, r)
    decreases MAX_DEPTH - depth, Remaining(s), 12
  {
    match ReadTok(s, depth)
    case Err(error, env) => Err(error, env)
    case Ok(s1, _) =>
      match ExpComma(s1, depth)
      case Err(error, env) => Err(error, env)
      case Ok(s2, val) =>
        if s2.curtok != Chr(')') then Err(MissingParen, s2.env)
        else
          match ReadTok(s2, depth)
          case Err(error, env) => Err(error, env)
          case Ok(s3, _) => Ok(s3, val)
  }

  /** ++name and --name: the current token is the sign, the name follows. */
  function PreStep(s: State, delta: int, depth: nat): (r: Step<intmax>)
    requires depth <= MAX_DEPTH && s.curtok != End && -1 <= delta <= 1
    ensures LevelKeeps(s, r)
    decreases MAX_DEPTH - depth, Remaining(s), 12
  {
    match ReadTok(s.(lasttok := s.curtok), depth)
    case Err(error, env) => Err(error, env)
    case Ok(s1, _) =>
      if s1.curtok != Str then Err(IdentifierExpected, s1.env) else PreBump(s1, delta, depth)
  }

  /** The variable behind ++ or -- has been read. */
  function PreBump(s: State, delta: int, depth: nat): (r: Step<intmax>)
    requires depth <= MAX_DEPTH && s.curtok == Str && -1 <= delta <= 1
    ensures LevelKeeps(s, r)
    decreases MAX_DEPTH - depth, Remaining(s), 12
  {
    match ReadTok(Bump(s, s.tokval, delta), depth)
    case Err(error, env) => Err(error, env)
    case Ok(s3, _) => Ok(s3, Wrap(s.tokval + delta))
  }

  /** Store val + delta in the variable just named and leave a number as the current token. */
  function Bump(s: State, val: intmax, delta: int): (r: State)
    requires -1 <= delta <= 1
    ensures r == s.(env := r.env, curtok := Num) && (s.noeval > 0 ==> r.env == s.env)
  {
    (if s.tokstr.Some? then Bind(s, s.tokstr.value, Wrap(val + delta)) else s).(curtok := Num)
  }

  /** A variable, with name++ and name-- recognised by reading one token ahead. */
  function Variable(s: State, depth: nat): (r: Step<intmax>)
    requires depth <= MAX_DEPTH && s.curtok == Str
    ensures LevelKeeps(s, r)
    decreases MAX_DEPTH - depth, Remaining(s), 12
  {
    match ReadTok(s.(tokstr := None, noeval := 1), depth)
    case Err(error, _) => Err(error, s.env)
    case Ok(peek, _) =>
      if peek.curtok == PostInc || peek.curtok == PostDec then
        PostStep(s, peek, depth)
      else
        match ReadTok(s.(assigntok := peek.assigntok), depth)
        case Err(error, env) => Err(error, env)
        case Ok(s3, _) => Ok(s3, s.tokval)
  }

  /** name++ and name--: `peek` is the state after the sign. */
  function PostStep(s: State, peek: State, depth: nat): (r: Step<intmax>)
    requires depth <= MAX_DEPTH && s.curtok == Str && (peek.curtok == PostInc || peek.curtok == PostDec)
    requires peek.text == s.text && peek.tp > s.tp && peek.env == s.env
    ensures LevelKeeps(s, r)
    decreases MAX_DEPTH - depth, Remaining(s), 11
  {
    var s1 := peek.(tokstr := s.tokstr, noeval := s.noeval, lasttok := Str);
    match ReadTok(Bump(s1, s.tokval, if peek.curtok == PostInc then 1 else -1), depth)
    case Err(error, env) => Err(error, env)
    case Ok(s3, _) => Ok(s3, s.tokval)
  }

  // ---- whole evaluations -----------------------------------------------------

  /** The decimal text of an integer, as variables store it. */
  function Itos(val: int): string {
    if val < 0 then "-" + Digits(-val) else Digits(val)
  }

  function Digits(n: nat): (r: string)
    ensures |r| > 0 && forall i :: 0 <= i < |r| ==> IsDigit(r[i])
  {
    if n < 10 then [('0' as int + n) as char] else Digits(n / 10) + [('0' as int + n % 10) as char]
  }

  datatype Outcome = Valid(val: intmax, env: Env) | Invalid(error: Error, env: Env)

  /** The token state between evaluations. */
  function Idle(env: Env): State {
    St("", 0, End, End, End, None, 0, 0, env)
  }

  /** Evaluate an expression against the shell's variables, `depth` contexts deep (a top-level evaluation: 0). */
  function EvalExp(expr: string, env: Env, depth: nat): Outcome
    requires depth <= MAX_DEPTH
  {
    match SubExpr(expr, Idle(env), depth)
    case Ok(st, val) => Valid(val, st.env)
    case Err(error, env') => Invalid(error, env')
  }
}
