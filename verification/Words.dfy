/** 32-bit arithmetic. */
module Words {
  // Signed values as the C program sees them, and the unsigned bit patterns a register
  // or a memory word holds.

  type Word = x: int | -0x8000_0000 <= x < 0x8000_0000

  /** What a comparison or a logical operator computes. */
  function Truth(b: bool): Word { if b then 1 else 0 }

  /** Division is defined unless the quotient does not fit. */
  predicate Divides(a: Word, b: Word) { b != 0 && !(a == -0x8000_0000 && b == -1) }

  type Bits = x: int | 0 <= x < 0x1_0000_0000

  /** The two's complement reading of a bit pattern, and its inverse. */
  function Signed(b: Bits): (w: Word)
  {
    if b < 0x8000_0000 then b else b - 0x1_0000_0000
  }

  function ToBits(w: Word): (b: Bits)
    ensures Signed(b) == w
  {
    if w < 0 then w + 0x1_0000_0000 else w
  }

  function Mod32(x: int): Bits { x % 0x1_0000_0000 }

  /** The signed word congruent to x modulo 2 to the 32. */
  function Wrap(x: int): Word { Signed(Mod32(x)) }

  lemma ModUnique(x: int, y: int, k: int)
    requires x == y + k * 0x1_0000_0000
    ensures Mod32(x) == Mod32(y)
  {}

  /** Wrapping keeps what fits, and otherwise adds or takes away a multiple of 2 to the 32. */
  lemma WrapIs(x: int) returns (k: int)
    ensures Wrap(x) == x + k * 0x1_0000_0000
    ensures -0x8000_0000 <= x < 0x8000_0000 ==> Wrap(x) == x
  {
    k := (Wrap(x) - x) / 0x1_0000_0000;
  }

  /** A bit pattern is its word, or 2 to the 32 more than it. */
  lemma BitsAre(w: Word)
    ensures ToBits(w) == w || ToBits(w) == w + 0x1_0000_0000
    ensures 0 <= w ==> ToBits(w) == w
  {}

  /** A product of bit patterns is the product of the signed values, modulo 2 to the 32. */
  lemma MulBits(a: Word, b: Word)
    ensures Mod32(ToBits(a) * ToBits(b)) == ToBits(Wrap(a * b))
  {
    var i := if a < 0 then 1 else 0;
    var j := if b < 0 then 1 else 0;
    var m := 0x1_0000_0000;
    assert ToBits(a) == a + i * m && ToBits(b) == b + j * m;
    assert ToBits(a) * ToBits(b) == a * b + (i * b + j * a + i * j * m) * m;
    ModUnique(ToBits(a) * ToBits(b), a * b, i * b + j * a + i * j * m);
  }

  // ----- division truncated toward zero (C11 6.5.5 p6) -----

  function Abs(x: int): nat { if x < 0 then -x else x }

  function Quotient(a: int, b: int): int
    requires b != 0
  {
    if (a < 0) == (b < 0) then Abs(a) / Abs(b) else -(Abs(a) / Abs(b))
  }

  function Remainder(a: int, b: int): int
    requires b != 0
  {
    a - b * Quotient(a, b)
  }

  lemma MulMono(q: nat, k: nat, d: nat)
    requires k <= d
    ensures q * k <= q * d
  {
    assert q * d == q * k + q * (d - k);
  }

  lemma NatDivision(n: nat, d: nat)
    requires d > 0
    ensures n == n / d * d + n % d && 0 <= n / d <= n
  {
    MulMono(n / d, 1, d);
  }

  lemma SignedProduct(a: int, b: int)
    requires b != 0
    ensures b * Quotient(a, b) == if a < 0 then -(Abs(a) / Abs(b) * Abs(b)) else Abs(a) / Abs(b) * Abs(b)
  {
    var q, d := Abs(a) / Abs(b), Abs(b);
    MulSigns(q, d);
  }

  lemma MulSigns(q: int, d: int)
    ensures d * q == q * d && (-d) * q == -(q * d) && d * (-q) == -(q * d) && (-d) * (-q) == q * d
  {}

  /** The quotient drops the fraction, and the remainder is small and takes the sign of the dividend. */
  lemma DivisionTruncates(a: int, b: int)
    requires b != 0
    ensures Abs(Remainder(a, b)) < Abs(b)
    ensures Remainder(a, b) != 0 ==> (Remainder(a, b) < 0) == (a < 0)
    ensures Abs(Quotient(a, b)) <= Abs(a)
  {
    NatDivision(Abs(a), Abs(b));
    SignedProduct(a, b);
  }

  /** Those properties determine quotient and remainder. */
  lemma DivisionUnique(a: int, b: int, q: int, r: int)
    requires b != 0 && a == b * q + r && Abs(r) < Abs(b) && (r != 0 ==> (r < 0) == (a < 0))
    ensures q == Quotient(a, b) && r == Remainder(a, b)
  {
    DivisionTruncates(a, b);
    var k := q - Quotient(a, b);
    var p := b * k;
    assert p == Remainder(a, b) - r by { MulMinus(b, q, Quotient(a, b)); }
    SmallMultiple(b, k, p);
  }

  lemma MulMinus(b: int, x: int, y: int)
    ensures b * (x - y) == b * x - b * y
  {}

  lemma SmallMultiple(b: int, k: int, p: int)
    requires p == b * k && Abs(p) < Abs(b)
    ensures k == 0
  {
    MulSigns(Abs(k), Abs(b));
    if k != 0 {
      MulMono(Abs(b), 1, Abs(k));
    }
  }

  /** Of two words the quotient is a word except for MIN / -1. */
  lemma QuotientFits(a: Word, b: Word)
    requires b != 0
    ensures -0x8000_0000 <= Quotient(a, b) < 0x8000_0000 <==> !(a == -0x8000_0000 && b == -1)
    ensures -0x8000_0000 <= Remainder(a, b) < 0x8000_0000
  {
    DivisionTruncates(a, b);
    if a == -0x8000_0000 && b < -1 {
      var n, d := Abs(a), Abs(b);
      assert n == n / d * d + n % d;
      MulMono(n / d, 2, d);
    }
  }
}
