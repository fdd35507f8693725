/**
 Reading back what was written: the lexical analyser recovers each lexeme of a rendered
 expression, and a variable that holds the text of an integer has that integer's value.
 */
module ArithReading {
  import opened Options
  import opened CText
  import opened IntMax
  import opened ArithSpec
  import opened ArithMeaning

  function LexTok(x: Lex): Tok {
    match x
    case LNum(_) => Num
    case LName(_) => Str
    case LOpen => Chr('(')
    case LClose => Chr(')')
    case LQuery => Chr('?')
    case LColon => Chr(':')
    case LInfix(op) => InfixTok(op)
    case LAssign(update) => if update.Some? then OpAssign else Chr('=')
    case LUnary(u) => UnaryTok(u)
    case LPre(up) => if up then PreInc else PreDec
    case LPost(up) => if up then PostInc else PostDec
  }

  function InfixTok(op: Infix): Tok {
    match op
    case Sequence => Chr(',')
    case LogOr => Lor
    case LogAnd => Land
    case Arith(o) => OpTok(o)
    case Exponent => Pow
  }

  lemma TokOpTok(op: BinOp)
    ensures TokOp(OpTok(op)) == Some(op)
  {
  }

  // ---- numbers --------------------------------------------------------------

  lemma {:induction false} DigitsLead(n: nat)
    requires n > 0
    ensures Digits(n)[0] != '0'
  {
    if n >= 10 {
      DigitsLead(n / 10);
    }
  }

  lemma WrapDigit(m: nat, d: int)
    ensures Wrap(Wrap(m) * 10 + d) == Wrap(m * 10 + d)
  {
    WrapKeepsLowBits(m);
    var k :| Wrap(m) == m + Multiple(k);
    assert Wrap(m) * 10 + d == m * 10 + d + Multiple(10 * k);
    WrapCongruent(Wrap(m) * 10 + d, m * 10 + d);
  }

  lemma {:induction false} NumberPrefixAgrees(num: string, num': string, k: nat)
    requires 0 < k <= |num| && k <= |num'| && num[..k] == num'[..k] && num[0] != '0'
    requires forall i :: 0 <= i < k ==> num[i] != '#'
    ensures NumberUpTo(num, k) == NumberUpTo(num', k)
  {
    assert num[0] == num[..k][0] && num'[0] == num'[..k][0];
    if k > 1 {
      assert num[..k - 1] == num[..k][..k - 1] && num'[..k - 1] == num'[..k][..k - 1];
      NumberPrefixAgrees(num, num', k - 1);
    }
    assert num[k - 1] == num[..k][k - 1] && num'[k - 1] == num'[..k][k - 1];
  }

  /** A decimal constant reads back as the low 32 bits of the number written. */
  lemma {:induction false} DigitsReadBack(n: nat)
    ensures StrLong(Digits(n)) == Number(10, false, Wrap(n))
  {
    var num := Digits(n);
    if n < 10 {
      if n > 0 {
        assert NumberUpTo(num, 0) == Number(10, false, 0);
        assert NumberUpTo(num, 1) == NumberStep(NumberUpTo(num, 0), num[0], At(num, 1));
      }
    } else {
      var head := Digits(n / 10);
      DigitsReadBack(n / 10);
      DigitsLead(n / 10);
      var k := |head|;
      assert num[..k] == head == head[..k];
      NumberPrefixAgrees(head, num, k);
      assert num[k] == ('0' as int + n % 10) as char;
      WrapDigit(n / 10, n % 10);
    }
  }

  // ---- scanning ---------------------------------------------------------------

  lemma {:induction false} SkipNumberTo(text: string, i: nat, j: nat)
    requires i <= j <= |text| && !IsNumberChar(At(text, j))
    requires forall k :: i <= k < j ==> IsNumberChar(text[k])
    ensures SkipNumber(text, i) == j
    decreases j - i
  {
    if i < j {
      SkipNumberTo(text, i + 1, j);
    }
  }

  lemma {:induction false} SkipNameTo(text: string, i: nat, j: nat)
    requires i <= j <= |text| && !IsNameChar(At(text, j))
    requires forall k :: i <= k < j ==> IsNameChar(text[k])
    ensures SkipName(text, i) == j
    decreases j - i
  {
    if i < j {
      SkipNameTo(text, i + 1, j);
    }
  }

  /** The blanks in front of a token are the ones skipped. */
  lemma {:induction false} UnblankSkips(text: string, i: nat)
    requires i <= |text|
    ensures Unblank(text[i..]) == text[SkipBlanks(text, i)..]
    decreases |text| - i
  {
    if i < |text| && IsBlank(text[i]) {
      assert text[i..][1..] == text[i + 1..];
      UnblankSkips(text, i + 1);
    }
  }

  /** Where a word stands, and what is behind it. */
  lemma Window(text: string, i: nat, word: string, tail: string)
    requires i <= |text| && text[i..] == word + tail
    ensures var j := i + |word|;
            j <= |text| && text[i..j] == word && text[j..] == tail
            && (forall k :: i <= k < j ==> text[k] == word[k - i])
            && At(text, j) == At(tail, 0)
  {
    var t := text[i..];
    assert |t| == |word| + |tail|;
    assert forall k :: 0 <= k < |t| ==> text[i + k] == t[k];
  }

  /** Reading a token at s leads to st.  Most proofs only pass the fact on. */
  ghost predicate Reads(s: State, st: State, depth: nat)
    requires depth <= MAX_DEPTH
  {
    ReadTok(s, depth) == Ok(st, ())
  }

  lemma ReadNumberAt(s: State, i: nat, j: nat, n: nat, depth: nat)
    requires depth <= MAX_DEPTH && s.tp <= i <= j <= |s.text|
    requires SkipBlanks(s.text, s.tp) == i && s.text[i..j] == Digits(n) && SkipNumber(s.text, i) == j
    ensures Reads(s, s.(tp := j, tokval := Wrap(n), lasttok := s.curtok, curtok := Num), depth)
  {
    var st := s.(tp := j, tokval := Wrap(n), lasttok := s.curtok, curtok := Num);
    assert s.text[i] == Digits(n)[0];
    DigitsReadBack(n);
  }

  lemma ReadNumber(s: State, i: nat, n: nat, tail: string, depth: nat)
    requires depth <= MAX_DEPTH && SkipBlanks(s.text, s.tp) == i
    requires s.text[i..] == Digits(n) + tail && Apart(LNum(n), tail)
    ensures var j := |s.text| - |tail|;
            0 <= j && Reads(s, s.(tp := j, tokval := Wrap(n), lasttok := s.curtok, curtok := Num), depth)
            && s.text[j..] == tail
  {
    Window(s.text, i, Digits(n), tail);
    var j := i + |Digits(n)|;
    SkipNumberTo(s.text, i, j);
    ReadNumberAt(s, i, j, n, depth);
  }

  // ---- operators -----------------------------------------------------------------

  predicate IsUpdate(x: Lex) {
    x.LAssign? && x.update.Some?
  }

  predicate IsOperator(x: Lex) {
    !x.LNum? && !x.LName? && (IsUpdate(x) ==> CanUpdate(x.update.value))
  }

  /** ++ and -- are told apart by what stands before and after them. */
  predicate FitsAfter(x: Lex, tail: string, curtok: Tok) {
    (x.LPost? ==> curtok == Str)
    && (x.LPre? ==> curtok != Str && curtok != Num && Unblank(tail) != "" && IsNameStart(Unblank(tail)[0]))
  }

  function AssignOf(x: Lex): Option<Tok> {
    if IsUpdate(x) then Some(OpTok(x.update.value)) else None
  }

  lemma OperatorReadBack(text: string, i: nat, x: Lex, tail: string, curtok: Tok, lasttok: Tok)
    requires i <= |text| && text[i..] == LexText(x) + tail && Apart(x, tail)
    requires IsOperator(x) && FitsAfter(x, tail, curtok)
    ensures i < |text| && ReadOperator(text, i, curtok, lasttok) == Lexeme(LexTok(x), AssignOf(x), |LexText(x)|)
  {
    var word := LexText(x);
    Window(text, i, word, tail);
    OperatorStart(x);
    assert text[i] == word[0] && !Joins(word, At(text, i + |word|));
    if IsUpdate(x) {
      UpdateReadBack(text, i, x.update.value, curtok, lasttok);
    } else if |word| == 1 {
      SingleReadBack(text, i, x, curtok, lasttok);
    } else {
      assert text[i + 1] == word[1];
      if x.LPre? {
        UnblankSkips(text, i + 2);
      }
      DoubleReadBack(text, i, x, curtok, lasttok);
    }
  }

  lemma SingleReadBack(text: string, i: nat, x: Lex, curtok: Tok, lasttok: Tok)
    requires IsOperator(x) && !IsUpdate(x) && |LexText(x)| == 1
    requires i < |text| && text[i] == LexText(x)[0] && !Joins(LexText(x), At(text, i + 1))
    ensures ReadOperator(text, i, curtok, lasttok) == Lexeme(LexTok(x), None, 1)
  {
    SingleText(x);
    SingleChar(text, i, curtok, lasttok);
  }

  lemma SingleText(x: Lex)
    requires IsOperator(x) && !IsUpdate(x) && |LexText(x)| == 1
    ensures LexTok(x) == Chr(LexText(x)[0]) && IsArithChar(LexText(x)[0])
  {
  }

  lemma SingleChar(text: string, i: nat, curtok: Tok, lasttok: Tok)
    requires i < |text| && IsArithChar(text[i]) && !Joins([text[i]], At(text, i + 1))
    ensures ReadOperator(text, i, curtok, lasttok) == Lexeme(Chr(text[i]), None, 1)
  {
  }

  lemma DoubleReadBack(text: string, i: nat, x: Lex, curtok: Tok, lasttok: Tok)
    requires IsOperator(x) && !IsUpdate(x) && |LexText(x)| == 2
    requires i + 1 < |text| && text[i] == LexText(x)[0] && text[i + 1] == LexText(x)[1]
    requires !Joins(LexText(x), At(text, i + 2))
    requires x.LPost? ==> curtok == Str
    requires x.LPre? ==> curtok != Str && curtok != Num && IsNameStart(At(text, SkipBlanks(text, i + 2)))
    ensures ReadOperator(text, i, curtok, lasttok) == Lexeme(LexTok(x), None, 2)
  {
  }

  lemma UpdateReadBack(text: string, i: nat, op: BinOp, curtok: Tok, lasttok: Tok)
    requires CanUpdate(op) && i + |OpText(op)| < |text|
    requires forall k :: i <= k < i + |OpText(op)| ==> text[k] == OpText(op)[k - i]
    requires text[i + |OpText(op)|] == '='
    ensures ReadOperator(text, i, curtok, lasttok) == Lexeme(OpAssign, Some(OpTok(op)), |OpText(op)| + 1)
  {
    assert text[i] == OpText(op)[0];
    if |OpText(op)| == 2 {
      assert text[i + 1] == OpText(op)[1];
    }
  }

  lemma ReadOperatorTok(s: State, i: nat, x: Lex, tail: string, depth: nat)
    requires depth <= MAX_DEPTH && SkipBlanks(s.text, s.tp) == i && s.text[i..] == LexText(x) + tail && Apart(x, tail)
    requires IsOperator(x) && FitsAfter(x, tail, s.curtok)
    ensures var j := |s.text| - |tail|;
            0 <= j && s.text[j..] == tail
            && Reads(s, s.(tp := j, assigntok := if IsUpdate(x) then OpTok(x.update.value) else s.assigntok,
                                          lasttok := s.curtok, curtok := LexTok(x)), depth)
  {
    Window(s.text, i, LexText(x), tail);
    OperatorReadBack(s.text, i, x, tail, s.curtok, s.lasttok);
    OperatorStart(x);
    assert s.text[i] == LexText(x)[0];
    ReadOperatorAt(s, i, LexTok(x), AssignOf(x), |LexText(x)|, depth);
  }

  lemma ReadOperatorAt(s: State, i: nat, tok: Tok, assign: Option<Tok>, n: nat, depth: nat)
    requires depth <= MAX_DEPTH && SkipBlanks(s.text, s.tp) == i < |s.text|
    requires var c := s.text[i]; !IsBlank(c) && !IsNameStart(c) && !IsDigit(c)
    requires ReadOperator(s.text, i, s.curtok, s.lasttok) == Lexeme(tok, assign, n)
    ensures Reads(s, s.(tp := i + n, assigntok := if assign.Some? then assign.value else s.assigntok,
                        lasttok := s.curtok, curtok := tok), depth)
  {
    var st := s.(tp := i + n, assigntok := if assign.Some? then assign.value else s.assigntok,
                 lasttok := s.curtok, curtok := tok);
  }

  lemma OperatorStart(x: Lex)
    requires IsOperator(x)
    ensures |LexText(x)| > 0
    ensures var c := LexText(x)[0]; !IsBlank(c) && !IsNameStart(c) && !IsDigit(c)
  {
  }

  // ---- integers as variable values ------------------------------------------------

  /** The level, by number, of the parser function that reads it. */
  function Level(k: nat, s: State, depth: nat): Step<intmax>
    requires k <= 15 && depth <= MAX_DEPTH
  {
    if k == 0 then ExpComma(s, depth)
    else if k == 1 then ExpAssign(s, depth)
    else if k == 2 then ExpCond(s, depth)
    else if k == 3 then ExpLor(s, depth)
    else if k == 4 then ExpLand(s, depth)
    else if k <= 13 then ExpBinary(k, s, depth)
    else if k == 14 then Exp1(s, depth)
    else Exp0(s, depth)
  }

  /** What level k still does once it has read an operand of value v. */
  function Rest(k: nat, v: intmax, s: State, depth: nat): Step<intmax>
    requires k <= 15 && depth <= MAX_DEPTH
  {
    if k == 0 then CommaLoop(v, s, depth)
    else if k == 3 then LorLoop(v, s, depth)
    else if k == 4 then LandLoop(v, s, depth)
    else if 5 <= k <= 12 then BinaryLoop(k, v, s, depth)
    else if k == 13 then PowerLoop(v, s, depth)
    else Ok(s, v)
  }

  /** The level a token continues, -1 if none. */
  function Continues(t: Tok): int {
    if t == Chr(',') then 0
    else if t == Chr('=') || t == OpAssign then 1
    else if t == Chr('?') then 2
    else if t == Lor then 3
    else if t == Land then 4
    else if t == Pow then 13
    else if TokOp(t).Some? then OpLevel(TokOp(t).value)
    else -1
  }

  /** The loosest token that may stand after an operand of level k without being part of it. */
  function Bound(k: nat): int {
    if k == 1 then 0 else if k == 2 then 1 else if k == 13 then 12 else k
  }

  /** An operand read at level k + 1 is what level k reads first. */
  lemma Descend(k: nat, s: State, v: intmax, st: State, depth: nat)
    requires k < 15 && depth <= MAX_DEPTH
    requires Level(k + 1, s, depth) == Rest(k + 1, v, st, depth)
    requires Continues(st.curtok) <= Bound(k)
    requires k == 14 ==> !IsUnary(s.curtok)
    ensures Level(k, s, depth) == Rest(k, v, st, depth)
  {
    assert Rest(k + 1, v, st, depth) == Ok(st, v);
    if k == 13 {
      assert ExpBinary(k, s, depth) == ExpPower(s, depth);
    }
  }

  lemma DescendError(k: nat, s: State, depth: nat)
    requires k < 15 && depth <= MAX_DEPTH && Level(k + 1, s, depth).Err?
    requires k == 14 ==> !IsUnary(s.curtok)
    ensures Level(k, s, depth) == Level(k + 1, s, depth)
  {
    if k == 13 {
      assert ExpBinary(k, s, depth) == ExpPower(s, depth);
    }
  }

  lemma {:induction false} DescendAll(k: nat, j: nat, s: State, v: intmax, st: State, depth: nat)
    requires k <= j <= 15 && depth <= MAX_DEPTH
    requires Level(j, s, depth) == Rest(j, v, st, depth)
    requires forall i :: k <= i < j ==> Continues(st.curtok) <= Bound(i)
    requires j == 15 ==> !IsUnary(s.curtok)
    ensures Level(k, s, depth) == Rest(k, v, st, depth)
    decreases j - k
  {
    if k < j {
      Descend(j - 1, s, v, st, depth);
      DescendAll(k, j - 1, s, v, st, depth);
    }
  }

  /** Evaluating an integer's own text, in any context with room for one more, gives the integer. */
  lemma IntegerText(v: intmax, s: State, depth: nat)
    requires depth < MAX_DEPTH
    ensures SubExpr(Itos(v), s, depth) == Ok(s, v)
  {
    IntegerWhole(v, Context(Itos(v), s), depth + 1);
  }

  lemma IntegerWhole(v: int, s: State, depth: nat)
    requires INTMAX_MIN <= v <= INTMAX_MAX
    requires depth <= MAX_DEPTH && s.text == Itos(v) && s.tp == 0
    ensures SkipBlanks(s.text, 0) < |s.text|
    ensures Whole(s, depth).Ok? && Whole(s, depth).v == v
    ensures Whole(s, depth).st.env == s.env && Whole(s, depth).st.assigntok == s.assigntok
  {
    if v >= 0 {
      DigitsStart(v, s, depth);
    } else {
      NegativeStart(-v, s, depth);
    }
  }

  lemma TextEnd(s: State, depth: nat)
    requires depth <= MAX_DEPTH && SkipBlanks(s.text, s.tp) == |s.text|
    ensures Reads(s, s.(tp := |s.text|, lasttok := s.curtok, curtok := End), depth)
  {
  }

  /** An operand that takes the whole text is what the text evaluates to. */
  lemma WholeFrom(s: State, s1: State, j: nat, v: intmax, st: State, depth: nat)
    requires depth <= MAX_DEPTH && 14 <= j <= 15 && Reads(s, s1, depth)
    requires Level(j, s1, depth) == Ok(st, v) && st.curtok == End && (j == 15 ==> !IsUnary(s1.curtok))
    ensures Whole(s, depth) == Ok(st, v)
  {
    DescendAll(0, j, s1, v, st, depth);
    assert CommaLoop(v, st, depth) == Ok(st, v);
  }

  /** A number on its own, read as an operand: it is the whole of the text. */
  lemma NumberWhole(s: State, s1: State, s2: State, depth: nat)
    requires depth <= MAX_DEPTH && Reads(s, s1, depth) && s1.curtok == Num && Reads(s1, s2, depth) && s2.curtok == End
    ensures Whole(s, depth) == Ok(s2, s1.tokval)
  {
    NumberDone(s1, s2, depth);
    WholeFrom(s, s1, 15, s1.tokval, s2, depth);
  }

  lemma NumberDone(s: State, st: State, depth: nat)
    requires depth <= MAX_DEPTH && s.curtok == Num && Reads(s, st, depth)
    ensures Level(15, s, depth) == Ok(st, s.tokval)
  {
  }

  /** The same behind a minus sign. */
  lemma MinusWhole(s: State, s1: State, s2: State, s3: State, depth: nat)
    requires depth <= MAX_DEPTH && Reads(s, s1, depth) && s1.curtok == Chr('-')
    requires Reads(s1, s2, depth) && s2.curtok == Num && Reads(s2, s3, depth) && s3.curtok == End
    ensures Whole(s, depth) == Ok(s3.(lasttok := Num), Wrap(0 - s2.tokval))
  {
    MinusDone(s1, s2, s3, depth);
    WholeFrom(s, s1, 14, Wrap(0 - s2.tokval), s3.(lasttok := Num), depth);
  }

  lemma MinusDone(s: State, s1: State, st: State, depth: nat)
    requires depth <= MAX_DEPTH && s.curtok == Chr('-') && Reads(s, s1, depth) && s1.curtok == Num
    requires Reads(s1, st, depth)
    ensures Level(14, s, depth) == Ok(st.(lasttok := Num), Wrap(0 - s1.tokval))
  {
    NumberDone(s1, st, depth);
    assert Exp1(s1, depth) == Ok(st, s1.tokval);
  }

  lemma DigitsStart(v: intmax, s: State, depth: nat)
    requires v >= 0 && depth <= MAX_DEPTH && s.text == Digits(v) && s.tp == 0
    ensures SkipBlanks(s.text, 0) < |s.text|
    ensures Whole(s, depth).Ok? && Whole(s, depth).v == v
    ensures Whole(s, depth).st.env == s.env && Whole(s, depth).st.assigntok == s.assigntok
  {
    assert s.text[0..] == Digits(v) + "" && SkipBlanks(s.text, 0) == 0;
    ReadNumber(s, 0, v, "", depth);
    var s1 := s.(tp := |s.text|, tokval := Wrap(v), lasttok := s.curtok, curtok := Num);
    TextEnd(s1, depth);
    assert IsDigit(s.text[0]);
    NumberWhole(s, s1, s1.(lasttok := Num, curtok := End), depth);
  }

  lemma NegativeReads(n: int, s: State, depth: nat) returns (s1: State, s2: State, s3: State)
    requires 0 < n <= -INTMAX_MIN && depth <= MAX_DEPTH && s.text == "-" + Digits(n) && s.tp == 0
    ensures SkipBlanks(s.text, 0) < |s.text|
    ensures Reads(s, s1, depth) && s1.curtok == Chr('-')
    ensures Reads(s1, s2, depth) && s2.curtok == Num && s2.tokval == Wrap(n)
    ensures Reads(s2, s3, depth) && s3.curtok == End && s3.env == s.env && s3.assigntok == s.assigntok
  {
    s1 := s.(tp := 1, lasttok := s.curtok, curtok := Chr('-'));
    ReadMinus(s, depth);
    assert s1.text[1..] == Digits(n) + "" && SkipBlanks(s1.text, 1) == 1;
    ReadNumber(s1, 1, n, "", depth);
    s2 := s1.(tp := |s.text|, tokval := Wrap(n), lasttok := Chr('-'), curtok := Num);
    TextEnd(s2, depth);
    s3 := s2.(lasttok := Num, curtok := End);
  }

  lemma NegativeStart(n: int, s: State, depth: nat)
    requires 0 < n <= -INTMAX_MIN && depth <= MAX_DEPTH && s.text == "-" + Digits(n) && s.tp == 0
    ensures SkipBlanks(s.text, 0) < |s.text|
    ensures Whole(s, depth).Ok? && Whole(s, depth).v == -n
    ensures Whole(s, depth).st.env == s.env && Whole(s, depth).st.assigntok == s.assigntok
  {
    var s1, s2, s3 := NegativeReads(n, s, depth);
    assert Wrap(0 - Wrap(n)) == -n;
    MinusWhole(s, s1, s2, s3, depth);
  }

  lemma ReadMinus(s: State, depth: nat)
    requires depth <= MAX_DEPTH && s.tp == 0 && |s.text| >= 2 && s.text[0] == '-' && IsDigit(s.text[1])
    ensures SkipBlanks(s.text, 0) == 0
    ensures Reads(s, s.(tp := 1, lasttok := s.curtok, curtok := Chr('-')), depth)
  {
    assert ReadOperator(s.text, 0, s.curtok, s.lasttok) == Lexeme(Chr('-'), None, 1);
    ReadOperatorAt(s, 0, Chr('-'), None, 1, depth);
  }
}
