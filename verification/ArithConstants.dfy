/**
 Which characters make up blanks, names and constants, spelt out character by character, and
 what constants in any base stand for.
 */
module ArithConstants {
  import opened Options
  import opened CText
  import opened IntMax
  import opened ArithSpec
  import opened ArithMeaning
  import opened ArithReading
  import opened ArithCorrect
  import opened ArithPrecedence

  // ---- constants in any base -----------------------------------------------------------------

  /** The digits are 0 to 9, a to z, A to Z, @ and _, in this order. */
  function DigitChar(d: nat): char
    requires d < 64
  {
    if d < 10 then ('0' as int + d) as char
    else if d < 36 then ('a' as int + d - 10) as char
    else if d < 62 then ('A' as int + d - 36) as char
    else if d == 62 then '@' else '_'
  }

  /** Up to base 36 capital letters are the same digits as small ones. */
  function CapitalDigit(d: nat): char
    requires d < 36
  {
    if d < 10 then DigitChar(d) else ('A' as int + d - 10) as char
  }

  predicate Spells(c: char, d: nat, base: nat) {
    d < base <= 64 && (c == DigitChar(d) || (base <= 36 && c == CapitalDigit(d)))
  }

  lemma SpelledValue(c: char, d: nat, base: nat)
    requires Spells(c, d, base)
    ensures DigitValue(c, base) == d && IsNumChar(c) && c != '#'
  {
  }

  /** The number that digits, most significant first, stand for. */
  function Value(ds: seq<nat>, base: nat): nat {
    if ds == [] then 0 else Value(ds[..|ds| - 1], base) * base + ds[|ds| - 1]
  }

  predicate AllSpelled(cs: string, ds: seq<nat>, base: nat) {
    |cs| == |ds| && forall k :: 0 <= k < |ds| ==> Spells(cs[k], ds[k], base)
  }

  lemma WrapStep(m: nat, base: nat, d: nat)
    ensures Wrap(Wrap(m) * base + d) == Wrap(m * base + d)
  {
    WrapKeepsLowBits(m);
    var k :| Wrap(m) == m + Multiple(k);
    assert Wrap(m) * base + d == m * base + d + Multiple(k * base) by {
      assert Multiple(k) * base == Multiple(k * base);
    }
    WrapCongruent(Wrap(m) * base + d, m * base + d);
  }

  /** Digits behind a prefix that has set the base. */
  lemma {:induction false} DigitsBehind(num: string, n: nat, cs: string, ds: seq<nat>, base: nat)
    requires NumberPrefix(num).1 <= n && n + |cs| <= |num| && num[n..n + |cs|] == cs
    requires AllSpelled(cs, ds, base) && NumberUpTo(num, n) == Number(base, true, 0)
    ensures NumberUpTo(num, n + |cs|) == Number(base, true, Wrap(Value(ds, base)))
    decreases |cs|
  {
    if cs != "" {
      var m := |cs| - 1;
      assert num[n..n + m] == num[n..n + |cs|][..m];
      DigitsBehind(num, n, cs[..m], ds[..m], base);
      assert num[n + m] == num[n..n + |cs|][m] == cs[m];
      SpelledValue(cs[m], ds[m], base);
      WrapStep(Value(ds[..m], base), base, ds[m]);
    }
  }

  /** A constant that is all of the text is what the text evaluates to. */
  lemma NumberText(text: string, env: Env, base: int, found: bool, v: intmax)
    requires text != "" && IsDigit(text[0]) && (forall k :: 0 <= k < |text| ==> IsNumberChar(text[k]))
    requires StrLong(text) == Number(base, found, v)
    ensures EvalExp(text, env, 0) == Valid(v, env)
  {
    var s := Context(text, Idle(env));
    var s1 := s.(tp := |text|, tokval := v, lasttok := s.curtok, curtok := Num);
    assert SkipBlanks(text, 0) == 0;
    SkipNumberTo(text, 0, |text|);
    assert text[0..|text|] == text;
    assert Reads(s, s1, 1);
    TextEnd(s1, 1);
    NumberWhole(s, s1, s1.(lasttok := Num, curtok := End), 1);
  }

  /** base#digits, for every base from 2 to 64. */
  lemma BaseConstant(base: nat, cs: string, ds: seq<nat>, env: Env)
    requires 2 <= base <= 64 && cs != "" && AllSpelled(cs, ds, base)
    ensures EvalExp(Digits(base) + "#" + cs, env, 0) == Valid(Wrap(Value(ds, base)), env)
  {
    var head := Digits(base);
    var num := head + "#" + cs;
    var n := |head|;
    DigitsReadBack(base);
    DigitsLead(base);
    assert num[..n] == head == head[..n];
    NumberPrefixAgrees(head, num, n);
    assert num[n] == '#' && num[n + 1] == cs[0];
    SpelledValue(cs[0], ds[0], base);
    assert NumberUpTo(num, n + 1) == Number(base, true, 0);
    assert num[n + 1..n + 1 + |cs|] == cs;
    DigitsBehind(num, n + 1, cs, ds, base);
    forall k | 0 <= k < |num| ensures IsNumberChar(num[k]) {
      if k > n {
        SpelledValue(cs[k - n - 1], ds[k - n - 1], base);
      }
    }
    NumberText(num, env, base, true, Wrap(Value(ds, base)));
  }

  /** 0 and octal digits, 0x or 0X and hexadecimal ones. */
  lemma PrefixedConstant(prefix: string, base: nat, cs: string, ds: seq<nat>, env: Env)
    requires cs != "" && AllSpelled(cs, ds, base)
    requires (prefix == "0" && base == 8) || ((prefix == "0x" || prefix == "0X") && base == 16)
    ensures EvalExp(prefix + cs, env, 0) == Valid(Wrap(Value(ds, base)), env)
  {
    var num, n := prefix + cs, |prefix|;
    SpelledValue(cs[0], ds[0], base);
    assert num[0] == '0' && num[n] == cs[0] && num[n..n + |cs|] == cs;
    assert NumberPrefix(num) == (Number(base, true, 0), n);
    DigitsBehind(num, n, cs, ds, base);
    forall k | 0 <= k < |num| ensures IsNumberChar(num[k]) {
      if k >= n {
        SpelledValue(cs[k - n], ds[k - n], base);
      }
    }
    NumberText(num, env, base, true, Wrap(Value(ds, base)));
  }

  /** A digit that is not below the base is an error. */
  lemma DigitTooGreat(base: nat, d: nat, env: Env)
    requires 2 <= base <= d < 64 && (base <= 36 ==> d < 36)
    ensures EvalExp(Digits(base) + "#" + [DigitChar(d)], env, 0) == Invalid(ValueTooGreat, env)
  {
    var head, c := Digits(base), DigitChar(d);
    var num := head + "#" + [c];
    var n := |head|;
    DigitsReadBack(base);
    DigitsLead(base);
    assert num[..n] == head == head[..n];
    NumberPrefixAgrees(head, num, n);
    assert num[n] == '#' && num[n + 1] == c && |num| == n + 2;
    assert NumberUpTo(num, n + 1) == Number(base, true, 0);
    assert StrLong(num) == NotNumber(ValueTooGreat);
    forall k | 0 <= k < |num| ensures IsNumberChar(num[k]) {
    }
    assert SkipBlanks(num, 0) == 0;
    SkipNumberTo(num, 0, |num|);
    assert num[0..|num|] == num;
    assert ReadTok(Context(num, Idle(env)), 1) == Err(ValueTooGreat, env);
  }

  // ---- names and blanks ----------------------------------------------------------------------

  predicate NameLetter(c: char) {
    ('a' <= c <= 'z') || ('A' <= c <= 'Z') || c == '_'
  }

  /** Every word of letters, digits and underscores that does not begin with a digit names a variable. */
  lemma AnyName(x: string, v: intmax)
    requires x != "" && NameLetter(x[0])
    requires forall k :: 0 <= k < |x| ==> NameLetter(x[k]) || '0' <= x[k] <= '9'
    ensures EvalExp(x, Texts(map[x := v]), 0) == Valid(v, Texts(map[x := v]))
  {
    OneJoined(LName(x));
    EvalJoined([LName(x)], V(x), map[x := v]);
  }

  /** Spaces, tabs and newlines in front of an expression change nothing. */
  lemma {:induction false} BlanksBefore(b: string, t: string, xs: seq<Lex>)
    requires (forall k :: 0 <= k < |b| ==> b[k] == ' ' || b[k] == '\t' || b[k] == '\n') && Writes(t, xs)
    ensures Writes(b + t, xs)
    decreases |b|
  {
    if b == "" {
      assert b + t == t;
    } else {
      assert (b + t)[1..] == b[1..] + t;
      BlanksBefore(b[1..], t, xs);
    }
  }

  lemma {:induction false} NoOperand(k: nat, s: State, depth: nat)
    requires k <= 15 && depth <= MAX_DEPTH && s.curtok != Num && s.curtok != Str && !IsUnary(s.curtok)
    requires s.curtok != PreInc && s.curtok != PreDec && s.curtok != Chr('(')
    ensures Level(k, s, depth) == Err(OperandExpected, s.env)
    decreases 15 - k
  {
    if k < 15 {
      NoOperand(k + 1, s, depth);
      DescendError(k, s, depth);
    }
  }

  /** A sign or an open parenthesis with nothing behind it. */
  lemma {:induction false} NothingBehindSign(k: nat, s: State, depth: nat)
    requires k <= 14 && depth <= MAX_DEPTH && s.tp == |s.text| && IsUnary(s.curtok)
    ensures Level(k, s, depth) == Err(OperandExpected, s.env)
    decreases 14 - k
  {
    if k < 14 {
      NothingBehindSign(k + 1, s, depth);
      DescendError(k, s, depth);
    } else {
      var s1 := s.(tp := |s.text|, lasttok := s.curtok, curtok := End);
      TextEnd(s, depth);
      NoOperand(14, s1, depth);
    }
  }

  lemma {:induction false} NothingBehindOpen(k: nat, s: State, depth: nat)
    requires k <= 15 && depth <= MAX_DEPTH && s.tp == |s.text| && s.curtok == Chr('(')
    ensures Level(k, s, depth) == Err(OperandExpected, s.env)
    decreases 15 - k
  {
    if k < 15 {
      NothingBehindOpen(k + 1, s, depth);
      DescendError(k, s, depth);
    } else {
      var s1 := s.(tp := |s.text|, lasttok := s.curtok, curtok := End);
      TextEnd(s, depth);
      NoOperand(0, s1, depth);
      assert ReadTok(s, depth) == Ok(s1, ()) && ExpComma(s1, depth) == Err(OperandExpected, s.env);
      assert Parenthesised(s, depth) == Err(OperandExpected, s.env);
    }
  }

  /** Every character on its own: a blank, a digit, the name of an unset variable, or an error. */
  lemma OneCharacter(c: char)
    requires c != NUL
    ensures EvalExp([c], map[], 0)
         == if c == ' ' || c == '\t' || c == '\n' then Valid(0, map[])
            else if '0' <= c <= '9' then Valid(c as int - '0' as int, map[])
            else if NameLetter(c) then Valid(0, map[])
            else Invalid(OperandExpected, map[])
  {
    if '0' <= c <= '9' {
      DigitAlone(c);
    } else if NameLetter(c) {
      OneJoined(LName([c]));
      EvalJoined([LName([c])], V([c]), map[]);
      assert Texts(map[]) == map[];
    } else if !(c == ' ' || c == '\t' || c == '\n') {
      OtherCharacter(c);
    }
  }

  lemma DigitAlone(c: char)
    requires '0' <= c <= '9'
    ensures EvalExp([c], map[], 0) == Valid(c as int - '0' as int, map[])
  {
    var n := c as int - '0' as int;
    assert Digits(n) == [c];
    OneJoined(LNum(n));
    EvalJoined([LNum(n)], Atom(Lit(n)), map[]);
    assert Texts(map[]) == map[];
  }

  lemma OtherCharacter(c: char)
    requires c != NUL && c != ' ' && c != '\t' && c != '\n' && !('0' <= c <= '9') && !NameLetter(c)
    ensures EvalExp([c], map[], 0) == Invalid(OperandExpected, map[])
  {
    var s := Context([c], Idle(map[]));
    assert SkipBlanks([c], 0) == 0;
    if IsArithChar(c) {
      var s1 := s.(tp := 1, lasttok := End, curtok := Chr(c));
      assert ReadOperator([c], 0, End, End) == Lexeme(Chr(c), None, 1);
      ReadOperatorAt(s, 0, Chr(c), None, 1, 1);
      if c == '(' {
        NothingBehindOpen(0, s1, 1);
      } else if IsUnary(Chr(c)) {
        NothingBehindSign(0, s1, 1);
      } else {
        NoOperand(0, s1, 1);
      }
      assert ReadTok(s, 1) == Ok(s1, ());
    } else {
      assert ReadOperator([c], 0, End, End) == BadLexeme(OperandExpected);
      assert ReadTok(s, 1) == Err(OperandExpected, map[]);
    }
  }
}
