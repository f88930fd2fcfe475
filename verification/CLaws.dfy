/** Laws of the C semantics. */
module CLaws {
  // What C11 says about operators in terms of other operators or of numbers.

  import opened Options
  import opened Words
  import opened Ast
  import opened CSemantics

  // ----- arithmetic is mathematical where the result fits -----

  /** The result C11 asks for, as a number. */
  function Exact(op: BinaryOpType, a: Word, b: Word): int
    requires op == Add || op == Sub || op == Mul
  {
    if op == Add then a + b else if op == Sub then a - b else a * b
  }

  /** `+`, `-` and `*` give the number if it is an int, and otherwise what is left of it modulo 2 to the 32. */
  lemma ArithmeticExact(op: BinaryOpType, a: Word, b: Word) returns (k: int)
    requires op == Add || op == Sub || op == Mul
    ensures ApplyBinary(op, a, b).Some?
    ensures ApplyBinary(op, a, b).value == Exact(op, a, b) + k * 0x1_0000_0000
    ensures -0x8000_0000 <= Exact(op, a, b) < 0x8000_0000 ==> ApplyBinary(op, a, b) == Some(Exact(op, a, b))
  {
    k := WrapIs(Exact(op, a, b));
  }

  /** Unary minus is exact except on the least int, which it keeps. */
  lemma NegateExact(a: Word)
    ensures ApplyUnary(Negate, a) == if a == -0x8000_0000 then a else -a
  {
    var k := WrapIs(0 - a);
  }

  /** The bit of weight 2 to the k. */
  function Bit(b: int, k: nat): int
    decreases k
  {
    if k == 0 then b % 2 else Bit(b / 2, k - 1)
  }

  function AllOnes(n: nat): nat { if n == 0 then 0 else 2 * AllOnes(n - 1) + 1 }

  lemma {:induction false} ComplementBit(b: int, n: nat, k: nat)
    requires k < n
    ensures Bit(AllOnes(n) - b, k) == 1 - Bit(b, k)
    decreases k
  {
    if k > 0 {
      assert (AllOnes(n) - b) / 2 == AllOnes(n - 1) - b / 2;
      ComplementBit(b / 2, n - 1, k - 1);
    }
  }

  lemma Ones32()
    ensures AllOnes(32) == 0xffff_ffff
  {
    assert AllOnes(4) == 0xf;
    assert AllOnes(8) == 0xff;
    assert AllOnes(12) == 0xfff;
    assert AllOnes(16) == 0xffff;
    assert AllOnes(20) == 0xf_ffff;
    assert AllOnes(24) == 0xff_ffff;
    assert AllOnes(28) == 0xfff_ffff;
  }

  /** `~` flips every one of the 32 bits (C11 6.5.3.3 p4). */
  lemma ComplementFlips(a: Word, k: nat)
    requires k < 32
    ensures Bit(ToBits(ApplyUnary(Complement, a)), k) == 1 - Bit(ToBits(a), k)
  {
    Ones32();
    ComplementBit(ToBits(a), 32, k);
  }

  /** (a / b) * b + a % b is a, and the remainder is small (C11 6.5.5 p6); both are missing together. */
  lemma DivisionLaw(a: Word, b: Word)
    ensures var q, r := ApplyBinary(Div, a, b), ApplyBinary(Rem, a, b);
      && (q.Some? <==> r.Some?) && (q.None? <==> b == 0 || (a == -0x8000_0000 && b == -1))
      && (q.Some? ==> b * q.value + r.value == a && Abs(r.value) < Abs(b) && (r.value != 0 ==> (r.value < 0) == (a < 0)))
  {
    if Divides(a, b) {
      QuotientFits(a, b);
      DivisionTruncates(a, b);
      var j := WrapIs(Quotient(a, b));
      var k := WrapIs(Remainder(a, b));
    }
  }

  // ----- operators in terms of others -----

  /** !e is 0 == e (C11 6.5.3.3 p5). */
  lemma NotIsZero(e: Expr, sc: Scopes)
    ensures Eval(Unary(Not, e), sc) == Eval(Binary(Equal, Constant(0), e), sc)
  {
    var q := Eval(e, sc);
    if q.Done? { assert {} + q.writes == q.writes; }
    assert Eval(Constant(0), sc) == Done(0, sc, {});
  }

  /** a && b is a ? 0 != b : 0 (C11 6.5.13 p3 and p4). */
  lemma AndIsConditional(a: Expr, b: Expr, sc: Scopes)
    ensures Eval(Binary(And, a, b), sc) == Eval(Conditional(a, Binary(NotEqual, Constant(0), b), Constant(0)), sc)
  {
    var p := Eval(a, sc);
    if p.Done? {
      NotZero(b, p.sc);
      assert Eval(Constant(0), p.sc) == Done(0, p.sc, {}) && p.writes + {} == p.writes;
    }
  }

  /** a || b is a ? 1 : 0 != b (C11 6.5.14 p3 and p4). */
  lemma OrIsConditional(a: Expr, b: Expr, sc: Scopes)
    ensures Eval(Binary(Or, a, b), sc) == Eval(Conditional(a, Constant(1), Binary(NotEqual, Constant(0), b)), sc)
  {
    var p := Eval(a, sc);
    if p.Done? {
      NotZero(b, p.sc);
      assert Eval(Constant(1), p.sc) == Done(1, p.sc, {}) && p.writes + {} == p.writes;
    }
  }

  lemma NotZero(b: Expr, sc: Scopes)
    ensures var q := Eval(b, sc);
      Eval(Binary(NotEqual, Constant(0), b), sc) == if q.Done? then Done(Truth(q.v != 0), q.sc, q.writes) else q
  {
    var q := Eval(b, sc);
    assert Eval(Constant(0), sc) == Done(0, sc, {});
    if q.Done? { assert {} + q.writes == q.writes; }
  }

  /** Comparisons are 0 or 1, and each is the opposite or the mirror image of another (C11 6.5.8 p6, 6.5.9 p3). */
  lemma ComparisonLaws(a: Word, b: Word)
    ensures ApplyBinary(LessThan, a, b) == Some(if b - a > 0 then 1 else 0)
    ensures ApplyBinary(GreaterThan, a, b) == ApplyBinary(LessThan, b, a)
    ensures ApplyBinary(GreaterOrEqual, a, b) == Some(1 - ApplyBinary(LessThan, a, b).value)
    ensures ApplyBinary(LessOrEqual, a, b) == ApplyBinary(GreaterOrEqual, b, a)
    ensures ApplyBinary(Equal, a, b) == Some(if b - a == 0 then 1 else 0)
    ensures ApplyBinary(NotEqual, a, b) == Some(1 - ApplyBinary(Equal, a, b).value)
  {}
}
