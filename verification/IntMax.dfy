/**
 The shell's arithmetic type.  This build's intmax_t is 32 bits wide
 (bin/bash/config.h:242); values live in a subset type and every operation that
 can leave it wraps round in two's complement.
 */
module IntMax {

  const INTMAX_MIN: int := -0x8000_0000
  const INTMAX_MAX: int := 0x7fff_ffff
  const MODULUS: int := 0x1_0000_0000

  type intmax = x: int | INTMAX_MIN <= x <= INTMAX_MAX

  ghost function Multiple(k: int): int {
    k * MODULUS
  }

  /** Two integers with the same low 32 bits. */
  ghost predicate Congruent(x: int, y: int) {
    exists k :: x == y + Multiple(k)
  }

  /** The two's-complement value of the low 32 bits of x. */
  function Wrap(x: int): (r: intmax)
    ensures INTMAX_MIN <= x <= INTMAX_MAX ==> r == x
  {
    var m := x % MODULUS;
    if m <= INTMAX_MAX then m else m - MODULUS
  }

  lemma WrapKeepsLowBits(x: int)
    ensures Congruent(Wrap(x), x)
  {
    assert x % MODULUS == x + Multiple(-(x / MODULUS));
    assert x % MODULUS - MODULUS == x + Multiple(-(x / MODULUS) - 1);
  }

  lemma CongruentSymmetric(x: int, y: int)
    requires Congruent(x, y)
    ensures Congruent(y, x)
  {
    var k :| x == y + Multiple(k);
    assert y == x + Multiple(-k);
  }

  lemma CongruentTransitive(x: int, y: int, z: int)
    requires Congruent(x, y) && Congruent(y, z)
    ensures Congruent(x, z)
  {
    var j :| x == y + Multiple(j);
    var k :| y == z + Multiple(k);
    assert x == z + Multiple(j + k);
  }

  lemma CongruentMul(a: int, b: int, c: int, d: int)
    requires Congruent(a, c) && Congruent(b, d)
    ensures Congruent(a * b, c * d)
  {
    var j :| a == c + Multiple(j);
    var k :| b == d + Multiple(k);
    assert a * b == c * d + Multiple(j * b + c * k) by {
      assert a * b == c * b + Multiple(j) * b;
      assert c * b == c * d + c * Multiple(k);
      assert Multiple(j) * b == Multiple(j * b);
      assert c * Multiple(k) == Multiple(c * k);
    }
  }

  /** A value is the only one in range congruent to it. */
  lemma CongruentValuesAreEqual(a: intmax, b: intmax)
    requires Congruent(a, b)
    ensures a == b
  {
  }

  lemma WrapCongruent(x: int, y: int)
    requires Congruent(x, y)
    ensures Wrap(x) == Wrap(y)
  {
    WrapKeepsLowBits(x);
    WrapKeepsLowBits(y);
    CongruentTransitive(Wrap(x), x, y);
    CongruentSymmetric(Wrap(y), y);
    CongruentTransitive(Wrap(x), y, Wrap(y));
    CongruentValuesAreEqual(Wrap(x), Wrap(y));
  }

  // ---- exponentiation -------------------------------------------------

  /** Mathematical power: the reference for IPow. */
  function Power(base: int, exp: nat): int {
    if exp == 0 then 1 else base * Power(base, exp - 1)
  }

  lemma {:induction false} PowerSquare(base: int, exp: nat)
    ensures Power(base, 2 * exp) == Power(base * base, exp)
  {
    if exp > 0 {
      PowerSquare(base, exp - 1);
      assert Power(base, 2 * exp) == base * (base * Power(base, 2 * (exp - 1)));
      assert base * (base * Power(base, 2 * (exp - 1))) == (base * base) * Power(base, 2 * (exp - 1));
    }
  }

  lemma {:induction false} PowerCongruent(a: int, b: int, exp: nat)
    requires Congruent(a, b)
    ensures Congruent(Power(a, exp), Power(b, exp))
  {
    if exp == 0 {
      assert 1 == 1 + Multiple(0);
    } else {
      PowerCongruent(a, b, exp - 1);
      CongruentMul(a, Power(a, exp - 1), b, Power(b, exp - 1));
    }
  }

  /** The machine's product of two values. */
  method Multiply(a: intmax, b: intmax) returns (r: intmax)
    ensures Congruent(r, a * b)
  {
    r := Wrap(a * b);
    WrapKeepsLowBits(a * b);
  }

  /** Square-and-multiply with 32-bit products. */
  method IPow(base: intmax, exp: intmax) returns (result: intmax)
    requires exp >= 0
    ensures result == Wrap(Power(base, exp))
  {
    result := 1;
    var b, e := base, exp;
    ghost var goal := Power(base, exp);
    assert result * Power(b, e) == goal + Multiple(0);
    while e != 0
      invariant 0 <= e
      invariant Congruent(result * Power(b, e), goal)
      decreases e
    {
      ghost var r0, b0, e0 := result, b, e;
      if e % 2 == 1 {
        result := Multiply(result, b);
      }
      e := e / 2;
      b := Multiply(b, b);
      IPowStep(r0, b0, e0, result, b, goal);
    }
    WrapCongruent(result, goal);
  }

  /** One round of the loop keeps result * b^e, modulo 2^32. */
  lemma IPowStep(result: intmax, b: intmax, e: nat, result': intmax, sq: intmax, goal: int)
    requires e > 0 && Congruent(result * Power(b, e), goal)
    requires Congruent(sq, b * b)
    requires if e % 2 == 1 then Congruent(result', result * b) else result' == result
    ensures Congruent(result' * Power(sq, e / 2), goal)
  {
    var half := e / 2;
    PowerCongruent(sq, b * b, half);
    PowerSquare(b, half);
    var r := if e % 2 == 1 then result * b else result;
    assert Congruent(result', r) by { assert result == result + Multiple(0); }
    CongruentMul(result', Power(sq, half), r, Power(b, 2 * half));
    PowerSplit(result, b, e);
    CongruentTransitive(result' * Power(sq, half), result * Power(b, e), goal);
  }

  lemma PowerSplit(result: int, b: int, e: nat)
    requires e > 0
    ensures (if e % 2 == 1 then result * b else result) * Power(b, 2 * (e / 2)) == result * Power(b, e)
  {
    if e % 2 == 1 {
      var p := Power(b, 2 * (e / 2));
      assert e == 2 * (e / 2) + 1;
      assert Power(b, e) == b * p;
      assert (result * b) * p == result * (b * p);
    } else {
      assert e == 2 * (e / 2);
    }
  }

  // ---- the other operators ------------------------------------------------

  function Abs(x: int): nat {
    if x < 0 then -x else x
  }

  /** C division: the quotient is truncated towards zero. */
  function Quotient(a: int, b: int): int
    requires b != 0
  {
    if (a < 0) == (b < 0) then Abs(a) / Abs(b) else -(Abs(a) / Abs(b))
  }

  /** C remainder: it takes the sign of the dividend. */
  function Remainder(a: int, b: int): int
    requires b != 0
  {
    if a < 0 then -(Abs(a) % Abs(b)) else Abs(a) % Abs(b)
  }

  /** What the C standard promises of / and %, together. */
  lemma DivisionIdentity(a: int, b: int)
    requires b != 0
    ensures Quotient(a, b) * b + Remainder(a, b) == a
    ensures Abs(Remainder(a, b)) < Abs(b)
    ensures Remainder(a, b) == 0 || (Remainder(a, b) < 0) == (a < 0)
  {
    var q, r := Abs(a) / Abs(b), Abs(a) % Abs(b);
    assert Abs(a) == Abs(b) * q + r;
    if b < 0 {
      assert Abs(b) * q == -(b * q);
    }
  }

  /** The only quotient of two values that does not fit is the one both division sites single out. */
  lemma QuotientFits(a: intmax, b: intmax)
    requires b != 0 && !(a == INTMAX_MIN && b == -1)
    ensures INTMAX_MIN <= Quotient(a, b) <= INTMAX_MAX
    ensures INTMAX_MIN <= Remainder(a, b) <= INTMAX_MAX
  {
    DivBounds(Abs(a), Abs(b));
  }

  lemma DivBounds(n: nat, d: nat)
    requires d > 0
    ensures n / d <= n && n % d <= n
    ensures d >= 2 ==> 2 * (n / d) <= n
  {
    FactorBounds(n / d, d, n % d);
  }

  lemma {:induction false} FactorBounds(q: nat, d: nat, r: nat)
    requires d > 0
    ensures q <= d * q + r && r <= d * q + r
    ensures d >= 2 ==> 2 * q <= d * q + r
  {
    if q > 0 {
      FactorBounds(q - 1, d, r);
      assert d * q == d * (q - 1) + d;
    }
  }

  datatype BitOp = BitAnd | BitOr | BitXor

  function Bit(op: BitOp, x: nat, y: nat): nat
    requires x <= 1 && y <= 1
  {
    match op
    case BitAnd => if x == 1 && y == 1 then 1 else 0
    case BitOr => if x == 1 || y == 1 then 1 else 0
    case BitXor => if x != y then 1 else 0
  }

  function BitwiseNat(op: BitOp, a: nat, b: nat): nat
    decreases a + b
  {
    if a == 0 && b == 0 then 0 else 2 * BitwiseNat(op, a / 2, b / 2) + Bit(op, a % 2, b % 2)
  }

  function Bitwise(op: BitOp, a: intmax, b: intmax): intmax {
    Wrap(BitwiseNat(op, a % MODULUS, b % MODULUS))
  }

  /** Shift counts outside 0..31 are undefined in C; the machine uses the low five bits. */
  function ShiftLeft(a: intmax, b: intmax): intmax {
    Wrap(a * Power(2, b % 32))
  }

  /** An arithmetic right shift is a division that rounds down. */
  function ShiftRight(a: intmax, b: intmax): intmax {
    PowerOfTwoPositive(b % 32);
    Wrap(a / Power(2, b % 32))
  }

  lemma {:induction false} PowerOfTwoPositive(e: nat)
    ensures Power(2, e) > 0
  {
    if e > 0 {
      PowerOfTwoPositive(e - 1);
    }
  }
}
