/**
 What each operator computes, as integers and bit by bit, read off texts that the evaluator
 is given: x+y, x/y, x<<y and the rest.
 */
module ArithOperators {
  import opened Options
  import opened CText
  import opened IntMax
  import opened ArithSpec
  import opened ArithMeaning
  import opened ArithReading
  import opened ArithCorrect
  import opened ArithPrecedence

  function XY(a: intmax, b: intmax): Ints {
    map["x" := a, "y" := b]
  }

  /** The text evaluates to v, with x and y holding a and b before and after. */
  predicate Gives(text: string, a: intmax, b: intmax, v: intmax) {
    EvalExp(text, Texts(XY(a, b)), 0) == Valid(v, Texts(XY(a, b)))
  }

  predicate Fails(text: string, a: intmax, b: intmax, error: Error) {
    EvalExp(text, Texts(XY(a, b)), 0) == Invalid(error, Texts(XY(a, b)))
  }

  lemma InfixValue(op: Infix, a: intmax, b: intmax)
    ensures EvalExp("x" + InfixText(op) + "y", Texts(XY(a, b)), 0)
         == Reported(JoinOut(op, a, Eval(V("y"), XY(a, b), Decides(op, a)), false))
  {
    var e, xs := Two(op, V("x"), V("y")), [LName("x"), LInfix(op), LName("y")];
    VarPrint(LeftLevel(op), "x");
    VarPrint(RightLevel(op), "y");
    assert Print(0, e) == [LName("x")] + ([LInfix(op)] + [LName("y")]) == xs;
    ThreeJoined(op, "x", "y");
    EvalJoined(xs, e, XY(a, b));
  }

  lemma BinaryValue(op: BinOp, a: intmax, b: intmax)
    ensures match Combine(op, a, b, false)
            case Some(v) => Gives("x" + OpText(op) + "y", a, b, v)
            case None => Fails("x" + OpText(op) + "y", a, b, DivisionByZero)
  {
    InfixValue(Arith(op), a, b);
  }

  // ---- sums, products, comparisons ---------------------------------------------------------

  lemma Sums(a: intmax, b: intmax)
    ensures Gives("x" + "+" + "y", a, b, Wrap(a + b))
    ensures Gives("x" + "-" + "y", a, b, Wrap(a - b))
    ensures Gives("x" + "*" + "y", a, b, Wrap(a * b))
  {
    BinaryValue(Add, a, b);
    BinaryValue(Sub, a, b);
    BinaryValue(Mul, a, b);
  }

  lemma Orders(a: intmax, b: intmax)
    ensures Gives("x" + "<" + "y", a, b, if a < b then 1 else 0)
    ensures Gives("x" + ">" + "y", a, b, if a > b then 1 else 0)
    ensures Gives("x" + "<=" + "y", a, b, if a <= b then 1 else 0)
    ensures Gives("x" + ">=" + "y", a, b, if a >= b then 1 else 0)
  {
    BinaryValue(Lt, a, b);
    BinaryValue(Gt, a, b);
    BinaryValue(Le, a, b);
    BinaryValue(Ge, a, b);
  }

  lemma Equalities(a: intmax, b: intmax)
    ensures Gives("x" + "==" + "y", a, b, if a == b then 1 else 0)
    ensures Gives("x" + "!=" + "y", a, b, if a == b then 0 else 1)
  {
    BinaryValue(Eq, a, b);
    BinaryValue(Ne, a, b);
  }

  lemma Logic(a: intmax, b: intmax)
    ensures Gives("x" + "&&" + "y", a, b, if a == 0 || b == 0 then 0 else 1)
    ensures Gives("x" + "||" + "y", a, b, if a == 0 && b == 0 then 0 else 1)
    ensures Gives("x" + "," + "y", a, b, b)
  {
    InfixValue(LogAnd, a, b);
    InfixValue(LogOr, a, b);
    InfixValue(Sequence, a, b);
  }

  // ---- division --------------------------------------------------------------------------

  /**
   Quotient and remainder recompose the dividend; the remainder is smaller than the divisor and
   has the dividend's sign.
   */
  lemma Division(a: intmax, b: intmax) returns (q: intmax, r: intmax)
    ensures b == 0 ==> Fails("x" + "/" + "y", a, b, DivisionByZero) && Fails("x" + "%" + "y", a, b, DivisionByZero)
    ensures b != 0 ==> Gives("x" + "/" + "y", a, b, q) && Gives("x" + "%" + "y", a, b, r)
    ensures a == INTMAX_MIN && b == -1 ==> q == INTMAX_MIN && r == 0
    ensures b != 0 && !(a == INTMAX_MIN && b == -1) ==>
              q * b + r == a && Abs(r) < Abs(b) && (r == 0 || (r < 0 <==> a < 0))
  {
    BinaryValue(Div, a, b);
    BinaryValue(Mod, a, b);
    if b == 0 {
      q, r := 0, 0;
    } else {
      q, r := Divide(a, b), Modulo(a, b);
      DivisionIdentity(a, b);
    }
  }

  // ---- powers and shifts ---------------------------------------------------------------------

  lemma Powers(a: intmax, b: intmax)
    ensures b >= 0 ==> Gives("x" + "**" + "y", a, b, Wrap(Power(a, b)))
    ensures b < 0 ==> Fails("x" + "**" + "y", a, b, NegativeExponent)
  {
    InfixValue(Exponent, a, b);
  }

  /** A left shift multiplies by a power of two; a right shift divides by it, rounding down. */
  lemma Shifts(a: intmax, b: intmax) returns (q: intmax)
    requires 0 <= b < 32
    ensures Gives("x" + "<<" + "y", a, b, Wrap(a * Power(2, b)))
    ensures Gives("x" + ">>" + "y", a, b, q) && q * Power(2, b) <= a < (q + 1) * Power(2, b)
  {
    BinaryValue(Shl, a, b);
    BinaryValue(Shr, a, b);
    PowerOfTwoPositive(b);
    var p := Power(2, b);
    assert (a / p) * p <= a < (a / p + 1) * p by { DivisionFloor(a, p); }
    RightShiftFits(a, p);
    q := a / p;
  }

  lemma DivisionFloor(a: int, p: nat)
    requires p > 0
    ensures (a / p) * p <= a < (a / p + 1) * p
  {
    assert a == (a / p) * p + a % p;
    assert (a / p + 1) * p == (a / p) * p + p;
  }

  lemma RightShiftFits(a: intmax, p: nat)
    requires p > 0
    ensures INTMAX_MIN <= a / p <= INTMAX_MAX
  {
    DivisionFloor(a, p);
    var q := a / p;
    if q >= 0 {
      Times(q, p);
    } else {
      Times(-(q + 1), p);
      assert -(q + 1) * p == -((q + 1) * p);
    }
  }

  lemma {:induction false} Times(n: nat, p: nat)
    requires p > 0
    ensures n <= n * p
  {
    if n > 0 {
      Times(n - 1, p);
      assert n * p == (n - 1) * p + p;
    }
  }

  // ---- bits ----------------------------------------------------------------------------------

  /** Bit k of x in two's complement. */
  function BitAt(x: int, k: nat): (b: nat)
    ensures b <= 1
    decreases k
  {
    if k == 0 then x % 2 else BitAt(x / 2, k - 1)
  }

  /** Adding a multiple of a higher power of two leaves the bit. */
  lemma {:induction false} HigherBits(x: int, m: int, j: nat, k: nat)
    requires k < j
    ensures BitAt(x + m * Power(2, j), k) == BitAt(x, k)
    decreases k
  {
    var t := m * Power(2, j - 1);
    assert m * Power(2, j) == 2 * t;
    if k > 0 {
      HigherBits(x / 2, m, j - 1, k - 1);
      assert (x + 2 * t) / 2 == x / 2 + t;
    }
  }

  lemma PowerModulus()
    ensures Power(2, 32) == MODULUS
  {
    assert Power(2, 8) == 256;
    PowerSquare(2, 8);
    PowerSquare(2, 16);
    PowerSquare(4, 8);
    assert Power(2, 16) == Power(4, 8) == Power(16, 4) by { PowerSquare(4, 4); }
    assert Power(2, 32) == Power(4, 16) == Power(16, 8) == Power(256, 4) by { PowerSquare(4, 8); PowerSquare(16, 4); }
  }

  lemma WrappedBit(x: int, k: nat)
    requires k < 32
    ensures BitAt(Wrap(x), k) == BitAt(x, k) && BitAt(x % MODULUS, k) == BitAt(x, k)
  {
    PowerModulus();
    var q := x / MODULUS;
    HigherBits(x, -q, 32, k);
    assert x % MODULUS == x + (-q) * Power(2, 32);
    HigherBits(x, -q - 1, 32, k);
    assert x % MODULUS - MODULUS == x + (-q - 1) * Power(2, 32);
  }

  lemma {:induction false} BitwiseBit(op: BitOp, a: nat, b: nat, k: nat)
    ensures BitAt(BitwiseNat(op, a, b), k) == Bit(op, BitAt(a, k), BitAt(b, k))
    decreases k
  {
    if a == 0 && b == 0 {
      NoBits(k);
    } else if k > 0 {
      BitwiseBit(op, a / 2, b / 2, k - 1);
    }
  }

  lemma {:induction false} NoBits(k: nat)
    ensures BitAt(0, k) == 0
  {
    if k > 0 {
      NoBits(k - 1);
    }
  }

  /** & | and ^ work bit by bit. */
  lemma Bits(a: intmax, b: intmax) returns (and: intmax, or: intmax, xor: intmax)
    ensures Gives("x" + "&" + "y", a, b, and) && Gives("x" + "|" + "y", a, b, or) && Gives("x" + "^" + "y", a, b, xor)
    ensures forall k {:trigger BitAt(and, k)} :: 0 <= k < 32 ==>
              (BitAt(and, k) == 1 <==> BitAt(a, k) == 1 && BitAt(b, k) == 1)
    ensures forall k {:trigger BitAt(or, k)} :: 0 <= k < 32 ==>
              (BitAt(or, k) == 1 <==> BitAt(a, k) == 1 || BitAt(b, k) == 1)
    ensures forall k {:trigger BitAt(xor, k)} :: 0 <= k < 32 ==>
              (BitAt(xor, k) == 1 <==> BitAt(a, k) != BitAt(b, k))
  {
    BinaryValue(AndBits, a, b);
    BinaryValue(OrBits, a, b);
    BinaryValue(XorBits, a, b);
    and, or, xor := Bitwise(BitAnd, a, b), Bitwise(BitOr, a, b), Bitwise(BitXor, a, b);
    forall k | 0 <= k < 32
      ensures BitAt(and, k) == Bit(BitAnd, BitAt(a, k), BitAt(b, k))
      ensures BitAt(or, k) == Bit(BitOr, BitAt(a, k), BitAt(b, k))
      ensures BitAt(xor, k) == Bit(BitXor, BitAt(a, k), BitAt(b, k))
    {
      BitsOf(BitAnd, a, b, k);
      BitsOf(BitOr, a, b, k);
      BitsOf(BitXor, a, b, k);
    }
  }

  lemma BitsOf(op: BitOp, a: intmax, b: intmax, k: nat)
    requires k < 32
    ensures BitAt(Bitwise(op, a, b), k) == Bit(op, BitAt(a, k), BitAt(b, k))
  {
    WrappedBit(BitwiseNat(op, a % MODULUS, b % MODULUS), k);
    BitwiseBit(op, a % MODULUS, b % MODULUS, k);
    WrappedBit(a, k);
    WrappedBit(b, k);
  }

  // ---- one operand ---------------------------------------------------------------------------

  lemma SignValue(u: UnaryOp, a: intmax, b: intmax)
    ensures EvalExp(Sign(u) + "x", Texts(XY(a, b)), 0) == Reported(Eval(Unary(u, V("x")), XY(a, b), false))
  {
    var e, xs := Unary(u, V("x")), [LUnary(u)] + [LName("x")];
    VarPrint(14, "x");
    assert Print(0, e) == xs;
    OneJoined(LName("x"));
    NextJoined(LUnary(u), [LName("x")]);
    EvalJoined(xs, e, XY(a, b));
  }

  lemma Signs(a: intmax, b: intmax)
    ensures Gives("!" + "x", a, b, if a == 0 then 1 else 0)
    ensures Gives("~" + "x", a, b, -1 - a)
    ensures Gives("-" + "x", a, b, Wrap(0 - a))
    ensures Gives("+" + "x", a, b, a)
  {
    SignValue(LogicalNot, a, b);
    SignValue(Complement, a, b);
    SignValue(Negate, a, b);
    SignValue(Identity, a, b);
  }

  /** ~ flips every bit. */
  lemma {:induction false} ComplementBit(x: int, k: nat)
    ensures BitAt(-1 - x, k) == 1 - BitAt(x, k)
    decreases k
  {
    if k > 0 {
      ComplementBit(x / 2, k - 1);
      assert (-1 - x) / 2 == -1 - x / 2;
    }
  }

  // ---- storing -------------------------------------------------------------------------------

  /** x = y leaves b in x; x op= y leaves there what x op y gives. */
  lemma Assignments(op: BinOp, a: intmax, b: intmax, v: intmax)
    requires CanUpdate(op) && Gives("x" + OpText(op) + "y", a, b, v)
    ensures EvalExp("x" + "=" + "y", Texts(XY(a, b)), 0) == Valid(b, Texts(XY(b, b)))
    ensures EvalExp("x" + (OpText(op) + "=") + "y", Texts(XY(a, b)), 0) == Valid(v, Texts(XY(v, b)))
  {
    AssignValue(None, a, b);
    AssignValue(Some(op), a, b);
    BinaryValue(op, a, b);
    assert XY(a, b)["x" := b] == XY(b, b) && XY(a, b)["x" := v] == XY(v, b);
  }

  lemma AssignValue(update: Option<BinOp>, a: intmax, b: intmax)
    requires update.Some? ==> CanUpdate(update.value)
    ensures var sign := if update.Some? then OpText(update.value) + "=" else "=";
            EvalExp("x" + sign + "y", Texts(XY(a, b)), 0)
            == Reported(Eval(Assign("x", update, V("y")), XY(a, b), false))
  {
    var e, xs := Assign("x", update, V("y")), [LName("x"), LAssign(update)];
    AssignJoined("x", update);
    OneJoined(LName("y"));
    JoinTwo(xs, [LName("y")]);
    VarPrint(1, "y");
    assert Print(0, e) == xs + [LName("y")];
    EvalJoined(xs + [LName("y")], e, XY(a, b));
  }

  lemma Stored(a: intmax, b: intmax, v: intmax)
    ensures XY(a, b)["x" := v] == XY(v, b)
  {
  }

  function Twice(up: bool): string { if up then "++" else "--" }

  function Moved(up: bool, a: intmax): intmax { if up then Wrap(a + 1) else Wrap(a - 1) }

  lemma BumpText(up: bool, env: Ints)
    ensures EvalExp("x" + Twice(up), Texts(env), 0) == Reported(EvalLeaf(Post(up, "x"), env, false))
    ensures EvalExp(Twice(up) + "x", Texts(env), 0) == Reported(EvalLeaf(Pre(up, "x"), env, false))
  {
    AfterText(up, env);
    BeforeText(up, env);
  }

  lemma AfterText(up: bool, env: Ints)
    ensures EvalExp("x" + Twice(up), Texts(env), 0) == Reported(EvalLeaf(Post(up, "x"), env, false))
  {
    OneJoined(LPost(up));
    NextJoined(LName("x"), [LPost(up)]);
    assert Print(0, Atom(Post(up, "x"))) == [LName("x")] + [LPost(up)];
    EvalJoined([LName("x")] + [LPost(up)], Atom(Post(up, "x")), env);
  }

  lemma BeforeText(up: bool, env: Ints)
    ensures EvalExp(Twice(up) + "x", Texts(env), 0) == Reported(EvalLeaf(Pre(up, "x"), env, false))
  {
    OneJoined(LName("x"));
    NextJoined(LPre(up), [LName("x")]);
    assert Print(0, Atom(Pre(up, "x"))) == [LPre(up)] + [LName("x")];
    EvalJoined([LPre(up)] + [LName("x")], Atom(Pre(up, "x")), env);
  }

  lemma BumpMeans(up: bool, a: intmax, b: intmax)
    ensures EvalLeaf(Post(up, "x"), XY(a, b), false) == Val(a, XY(Moved(up, a), b))
    ensures EvalLeaf(Pre(up, "x"), XY(a, b), false) == Val(Moved(up, a), XY(Moved(up, a), b))
  {
    assert XY(a, b)["x" := Moved(up, a)] == XY(Moved(up, a), b);
  }

  /** x++ and x-- give the old value, ++x and --x the new one. */
  lemma Increments(up: bool, a: intmax, b: intmax)
    ensures var v := if up then Wrap(a + 1) else Wrap(a - 1);
            EvalExp("x" + (if up then "++" else "--"), Texts(XY(a, b)), 0) == Valid(a, Texts(XY(v, b)))
            && EvalExp((if up then "++" else "--") + "x", Texts(XY(a, b)), 0) == Valid(v, Texts(XY(v, b)))
  {
    BumpText(up, XY(a, b));
    BumpMeans(up, a, b);
  }

  /** x ? y : z is y unless x is 0. */
  lemma Choice(a: intmax, b: intmax, c: intmax)
    ensures var env := map["x" := a, "y" := b, "z" := c];
            EvalExp("x" + ("?" + "y" + ":" + "z"), Texts(env), 0) == Valid(if a == 0 then c else b, Texts(env))
  {
    var env, e := map["x" := a, "y" := b, "z" := c], Ternary(V("x"), V("y"), V("z"));
    VarPrint(3, "x");
    VarPrint(0, "y");
    VarPrint(2, "z");
    CondPrint(0, V("x"), V("y"), V("z"));
    assert Print(0, e) == [LName("x")] + Arms("y", "z");
    ArmsJoined("y", "z");
    NextJoined(LName("x"), Arms("y", "z"));
    EvalJoined([LName("x")] + Arms("y", "z"), e, env);
  }

  // ---- several operators ------------------------------------------------------------------------

  function XYZ(a: intmax, b: intmax, c: intmax): Ints {
    map["x" := a, "y" := b, "z" := c]
  }

  lemma SumOfProductMeans(a: intmax, b: intmax, c: intmax)
    ensures Eval(Two(Arith(Add), V("x"), Two(Arith(Mul), V("y"), V("z"))), XYZ(a, b, c), false)
            == Val(Wrap(a + b * c), XYZ(a, b, c))
  {
    var env := XYZ(a, b, c);
    assert Eval(Two(Arith(Mul), V("y"), V("z")), env, false) == Val(Wrap(b * c), env);
    WrapInside(a, b * c);
  }

  /** x+y*z is a + b * c. */
  lemma SumOfProduct(a: intmax, b: intmax, c: intmax)
    ensures EvalExp("x" + "+" + "y" + "*" + "z", Texts(XYZ(a, b, c)), 0) == Valid(Wrap(a + b * c), Texts(XYZ(a, b, c)))
  {
    var env := XYZ(a, b, c);
    Precedence(Arith(Add), 9, Arith(Mul), 10, env);
    SumOfProductMeans(a, b, c);
  }

  lemma DifferenceTwiceMeans(a: intmax, b: intmax, c: intmax)
    ensures Eval(Two(Arith(Sub), Two(Arith(Sub), V("x"), V("y")), V("z")), XYZ(a, b, c), false)
            == Val(Wrap(a - b - c), XYZ(a, b, c))
  {
    var env := XYZ(a, b, c);
    assert Eval(Two(Arith(Sub), V("x"), V("y")), env, false) == Val(Wrap(a - b), env);
    WrapInside(0 - c, a - b);
  }

  /** x-y-z is a - b - c. */
  lemma DifferenceTwice(a: intmax, b: intmax, c: intmax)
    ensures EvalExp("x" + "-" + "y" + "-" + "z", Texts(XYZ(a, b, c)), 0) == Valid(Wrap(a - b - c), Texts(XYZ(a, b, c)))
  {
    var env := XYZ(a, b, c);
    Precedence(Arith(Sub), 9, Arith(Sub), 9, env);
    DifferenceTwiceMeans(a, b, c);
  }

  lemma WrapInside(a: int, x: int)
    ensures Wrap(a + Wrap(x)) == Wrap(a + x)
  {
    WrapKeepsLowBits(x);
    var k :| Wrap(x) == x + Multiple(k);
    assert a + Wrap(x) == a + x + Multiple(k);
    WrapCongruent(a + Wrap(x), a + x);
  }

  lemma AddedAndTakenMeans(a: intmax, b: intmax)
    ensures Eval(Two(Arith(Sub), Two(Arith(Add), V("x"), V("y")), V("z")), XYZ(a, b, b), false) == Val(a, XYZ(a, b, b))
  {
    var env := XYZ(a, b, b);
    assert Eval(Two(Arith(Add), V("x"), V("y")), env, false) == Val(Wrap(a + b), env);
    WrapInside(0 - b, a + b);
  }

  /** What is added can be taken away again, whatever overflows. */
  lemma AddedAndTaken(a: intmax, b: intmax)
    ensures EvalExp("x" + "+" + "y" + "-" + "z", Texts(XYZ(a, b, b)), 0) == Valid(a, Texts(XYZ(a, b, b)))
  {
    var env := XYZ(a, b, b);
    Precedence(Arith(Add), 9, Arith(Sub), 9, env);
    AddedAndTakenMeans(a, b);
  }
}
