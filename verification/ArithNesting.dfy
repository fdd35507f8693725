/**
 How deep evaluation nests.  A variable's value is evaluated in a context of its own;
 variables that name one another would nest for ever, and are stopped by the bound on contexts.
 */
module ArithNesting {
  import opened Options
  import opened IntMax
  import opened ArithSpec
  import opened ArithMeaning
  import opened ArithReading
  import opened ArithCorrect

  /** A name that is the whole of the text: reading it first evaluates the variable. */
  lemma NameAlone(x: string, s: State, depth: nat)
    requires depth <= MAX_DEPTH && IsName(x) && s.text == x && s.tp == 0 && s.noeval == 0
    ensures SkipBlanks(x, 0) == 0
    ensures var p := s.(tp := |x|, tokstr := Some(x));
            var r := StrEval(x, p, depth);
            r.Err? ==> ReadTok(s, depth) == Err(r.error, r.env)
  {
    assert SkipBlanks(x, 0) == 0;
    SkipNameTo(x, 1, |x|);
    assert x[0..|x|] == x;
    WrittenIs(s.text[|x|..], []);
    PeekAfterName(s.(tokstr := Some(x)), |x|, [], depth);
    assert ReadTok(s, depth) == ReadName(s, 0, depth);
  }

  /** An error while the first token is read is the text's error. */
  lemma FirstTokenFails(x: string, s: State, error: Error, env: Env, depth: nat)
    requires depth < MAX_DEPTH && SkipBlanks(x, 0) < |x| && ReadTok(Context(x, s), depth + 1) == Err(error, env)
    ensures SubExpr(x, s, depth) == Err(error, env)
  {
  }

  /** Every one of these variables has for its value the name of one of them. */
  ghost predicate Circular(names: set<string>, env: Env) {
    forall x :: x in names ==> IsName(x) && x in env && env[x] in names
  }

  /** Variables that name one another, or one that names itself: every context opens another, up to the bound. */
  lemma {:induction false} CircularReference(names: set<string>, x: string, s: State, depth: nat)
    requires depth <= MAX_DEPTH && Circular(names, s.env) && x in names && s.noeval == 0
    ensures SubExpr(x, s, depth) == Err(RecursionLevel, s.env)
    decreases MAX_DEPTH - depth
  {
    assert SkipBlanks(x, 0) == 0;
    if depth < MAX_DEPTH {
      var c := Context(x, s);
      NameAlone(x, c, depth + 1);
      CircularReference(names, s.env[x], c.(tp := |x|, tokstr := Some(x)), depth + 1);
      FirstTokenFails(x, s, RecursionLevel, s.env, depth);
    }
  }

  lemma SelfReference(x: string, s: State, depth: nat)
    requires depth <= MAX_DEPTH && IsName(x) && s.noeval == 0 && x in s.env && s.env[x] == x
    ensures SubExpr(x, s, depth) == Err(RecursionLevel, s.env)
  {
    CircularReference({x}, x, s, depth);
  }

  /** A name that is the whole of the text, of a variable that has a value. */
  lemma NameWhole(x: string, s: State, v: intmax, depth: nat)
    requires depth <= MAX_DEPTH && IsName(x) && s.text == x && s.tp == 0 && s.noeval == 0
    requires var p := s.(tp := |x|, tokstr := Some(x)); StrEval(x, p, depth) == Ok(p, v)
    ensures var r := Whole(s, depth); r.Ok? && r.v == v && r.st.env == s.env && r.st.assigntok == s.assigntok
  {
    var p := s.(tp := |x|, tokstr := Some(x));
    var s1 := p.(tokval := v, lasttok := s.curtok, curtok := Str);
    var end := s1.(lasttok := Str, curtok := End);
    assert SkipBlanks(x, 0) == 0;
    SkipNameTo(x, 1, |x|);
    assert x[0..|x|] == x;
    WrittenIs(s.text[|x|..], []);
    PeekAfterName(s.(tokstr := Some(x)), |x|, [], depth);
    assert ReadTok(s, depth) == ReadName(s, 0, depth) == Ok(s1, ());
    TextEnd(s1.(tokstr := None, noeval := 1), depth);
    TextEnd(s1, depth);
    assert Variable(s1, depth) == Ok(end, v);
    WholeFrom(s, s1, 15, v, end, depth);
  }

  /** The value of each variable is the name of the next, and that of the last is v. */
  predicate Chained(names: seq<string>, v: int, env: Env) {
    names != [] && IsName(names[0]) && names[0] in env
    && if |names| == 1 then env[names[0]] == Itos(v) else env[names[0]] == names[1] && Chained(names[1..], v, env)
  }

  lemma TextTooDeep(x: string, s: State)
    requires SkipBlanks(x, 0) < |x|
    ensures SubExpr(x, s, MAX_DEPTH) == Err(RecursionLevel, s.env)
  {
  }

  /** One link: the context opened for a name comes to what the name's value comes to. */
  lemma Link(x: string, s: State, v: intmax, depth: nat)
    requires depth < MAX_DEPTH && IsName(x) && s.noeval == 0
    requires var p := Context(x, s).(tp := |x|, tokstr := Some(x));
             var r := StrEval(x, p, depth + 1); r == Ok(p, v) || r == Err(RecursionLevel, s.env)
    ensures SubExpr(x, s, depth)
         == if StrEval(x, Context(x, s).(tp := |x|, tokstr := Some(x)), depth + 1).Ok? then Ok(s, v)
            else Err(RecursionLevel, s.env)
  {
    var c := Context(x, s);
    assert SkipBlanks(x, 0) == 0;
    if StrEval(x, c.(tp := |x|, tokstr := Some(x)), depth + 1).Ok? {
      NameWhole(x, c, v, depth + 1);
    } else {
      NameAlone(x, c, depth + 1);
      FirstTokenFails(x, s, RecursionLevel, s.env, depth);
    }
  }

  /** A chain of names comes to its value if and only if the contexts stay below 1024. */
  lemma {:induction false} NestingExactly(names: seq<string>, v: intmax, s: State, depth: nat)
    requires depth <= 1024 && Chained(names, v, s.env) && s.noeval == 0
    ensures SubExpr(names[0], s, depth) == if depth + |names| < 1024 then Ok(s, v) else Err(RecursionLevel, s.env)
    decreases |names|
  {
    var x := names[0];
    if depth == 1024 {
      assert SkipBlanks(x, 0) == 0;
      TextTooDeep(x, s);
    } else {
      var p := Context(x, s).(tp := |x|, tokstr := Some(x));
      if |names| == 1 {
        LastName(v, p, depth + 1);
      } else {
        NestingExactly(names[1..], v, p, depth + 1);
        assert names[1] != "";
      }
      assert StrEval(x, p, depth + 1) == SubExpr(s.env[x], p, depth + 1);
      Link(x, s, v, depth);
    }
  }

  lemma LastName(v: intmax, s: State, depth: nat)
    requires depth <= 1024
    ensures Itos(v) != "" && SubExpr(Itos(v), s, depth) == if depth < 1024 then Ok(s, v) else Err(RecursionLevel, s.env)
  {
    if depth < 1024 {
      IntegerText(v, s, depth);
    } else {
      assert !IsBlank(Itos(v)[0]);
      TextTooDeep(Itos(v), s);
    }
  }
}
