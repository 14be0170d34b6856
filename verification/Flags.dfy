/** The carry, borrow and overflow tests of arm_data_processing.c, and exactly what they decide. */
module Flags {
  import opened Words

  const ADDITION: int := 0
  const SOUSTRACTION: int := 1

  predicate BorrowFrom(a: word, b: word) {
    b > a
  }

  predicate BorrowFromTri(a: word, b: word, c: word) {
    a < Wrap(b + c) || b > Wrap(a - c) || c > Wrap(a - b)
  }

  predicate CarryFrom(a: word, b: word) {
    a > Wrap(0xffffffff - b) || b > Wrap(0xfffffff - a)
  }

  predicate CarryFromTri(a: word, b: word, c: word) {
    a > Wrap(0xffffffff - b - c) || b > Wrap(0xfffffff - a - c) || c > Wrap(0xfffffff - a - b)
  }

  predicate OverflowFrom(op: int, a: word, b: word) {
    if op == ADDITION then
      Bit(a, 31) == Bit(b, 31) && Bit(a, 31) != Bit(Wrap(a + b), 31)
    else if op == SOUSTRACTION then
      Bit(a, 31) != Bit(b, 31) && Bit(a, 31) != Bit(Wrap(a - b), 31)
    else false
  }

  predicate OverflowFromTri(op: int, a: word, b: word, c: word) {
    OverflowFrom(op, a, b) || OverflowFrom(op, a, c) || OverflowFrom(op, b, c)
    || OverflowFrom(op, Wrap(a + b), c)
  }

  // ---- borrow ------------------------------------------------------------

  /** The three wrapped comparisons decide `a - b - c < 0` for every operand but one triple. */
  lemma BorrowTriExact(a: word, b: word, c: bit)
    ensures BorrowFromTri(a, b, c)
            <==> a < b + c && !(a == 0 && b == 0xFFFF_FFFF && c == 1)
  {
  }

  // ---- carry -------------------------------------------------------------

  /** The carry test compares with 0x0FFFFFFF when `a` is small. */
  lemma CarryExact(a: word, b: word)
    ensures CarryFrom(a, b)
            <==> if a > 0x0FFF_FFFF then a + b >= 0x1_0000_0000 else a + b > 0x0FFF_FFFF
  {
  }

  /** The carry flag of an addition is right exactly when the operands are outside the range
      in which the test reports a carry that does not happen. */
  lemma CarryRightExactly(a: word, b: word)
    ensures (CarryFrom(a, b) <==> a + b >= 0x1_0000_0000)
            <==> !(a <= 0x0FFF_FFFF && 0x1000_0000 <= a + b <= 0xFFFF_FFFF)
  {
    CarryExact(a, b);
  }

  lemma CarryTriExact(a: word, b: word, c: bit)
    ensures CarryFromTri(a, b, c)
            <==> if a + c <= 0x0FFF_FFFF then a + b + c > 0x0FFF_FFFF
                 else (a + b + c >= 0x1_0000_0000 && !(a == 0x0FFF_FFFF && b == 0xFFFF_FFFF && c == 1))
                      || (a == 0x0FFF_FFFF && b == 0 && c == 1)
  {
  }

  /** A true three-operand carry is missed at one triple only. */
  lemma CarryTriMisses(a: word, b: word, c: bit)
    ensures a + b + c >= 0x1_0000_0000 && !CarryFromTri(a, b, c)
            <==> a == 0x0FFF_FFFF && b == 0xFFFF_FFFF && c == 1
  {
    CarryTriExact(a, b, c);
  }

  /** The operands for which the three-operand carry test is wrong. */
  predicate CarriedMisjudged(a: word, b: word, c: bit) {
    (a + c <= 0x0FFF_FFFF && 0x1000_0000 <= a + b + c <= 0xFFFF_FFFF)
    || (a == 0x0FFF_FFFF && c == 1 && (b == 0 || b == 0xFFFF_FFFF))
  }

  lemma CarryTriRight(a: word, b: word, c: bit)
    ensures (CarryFromTri(a, b, c) <==> a + b + c >= 0x1_0000_0000) <==> !CarriedMisjudged(a, b, c)
  {
    CarryTriExact(a, b, c);
  }

  // ---- overflow ----------------------------------------------------------

  predicate FitsSigned(x: int) {
    -0x8000_0000 <= x < 0x8000_0000
  }

  /** Two-operand overflow is exactly leaving the two's-complement range. */
  lemma OverflowExact(a: word, b: word)
    ensures OverflowFrom(ADDITION, a, b) <==> !FitsSigned(Signed(a) + Signed(b))
    ensures OverflowFrom(SOUSTRACTION, a, b) <==> !FitsSigned(Signed(a) - Signed(b))
  {
    AdditionOverflow(a, b);
    SubtractionOverflow(a, b);
  }

  lemma AdditionOverflow(a: word, b: word)
    ensures OverflowFrom(ADDITION, a, b) <==> !FitsSigned(Signed(a) + Signed(b))
  {
    TopBit(a);
    TopBit(b);
    TopBit(Wrap(a + b));
  }

  lemma SubtractionOverflow(a: word, b: word)
    ensures OverflowFrom(SOUSTRACTION, a, b) <==> !FitsSigned(Signed(a) - Signed(b))
  {
    TopBit(a);
    TopBit(b);
    TopBit(Wrap(a - b));
  }

  lemma SignedWrap(x: int)
    requires -0x1_0000_0000 <= x < 0x1_0000_0000
    ensures Signed(Wrap(x)) == if x < -0x8000_0000 then x + 0x1_0000_0000
                               else if x < 0x8000_0000 then x
                               else x - 0x1_0000_0000
  {
  }

  lemma WrapSigned(a: word, b: word)
    ensures Wrap(a + b) == Wrap(Signed(a) + Signed(b))
    ensures Wrap(a - b) == Wrap(Signed(a) - Signed(b))
  {
  }

  /** The operands for which, with the carry set, the three-operand test of an addition reports an
      overflow that is none. */
  predicate AddedMisjudged(a: word, b: word) {
    (Signed(a) == 0x7FFF_FFFF && Signed(b) < 0) || (Signed(b) == 0x7FFF_FFFF && Signed(a) < 0)
    || Signed(a) + Signed(b) == -0x8000_0001
  }

  /** That test never misses an overflow, and is right exactly outside those operands. */
  lemma OverflowTriAddition(a: word, b: word, c: bit)
    ensures !FitsSigned(Signed(a) + Signed(b) + c) ==> OverflowFromTri(ADDITION, a, b, c)
    ensures (OverflowFromTri(ADDITION, a, b, c) <==> !FitsSigned(Signed(a) + Signed(b) + c))
            <==> !(c == 1 && AddedMisjudged(a, b))
  {
    OverflowExact(a, b);
    OverflowExact(a, c);
    OverflowExact(b, c);
    OverflowExact(Wrap(a + b), c);
    WrapSigned(a, b);
    SignedWrap(Signed(a) + Signed(b));
  }

  /** A failing input: 0x7FFFFFFF + 0xFFFFFFFF + 1 fits and is reported. */
  lemma OverflowTriAdditionWrong()
    ensures FitsSigned(Signed(0x7FFF_FFFF) + Signed(0xFFFF_FFFF) + 1)
            && OverflowFromTri(ADDITION, 0x7FFF_FFFF, 0xFFFF_FFFF, 1)
  {
    OverflowTriAddition(0x7FFF_FFFF, 0xFFFF_FFFF, 1);
  }

  /** With a borrow of 0 the subtraction test is exact; with a borrow of 1 it reports the overflow
      of `a - b` and three cases of its own. */
  lemma OverflowTriSubtraction(a: word, b: word, c: bit)
    ensures OverflowFromTri(SOUSTRACTION, a, b, c)
            <==> !FitsSigned(Signed(a) - Signed(b))
                 || (c == 1 && (a == 0x8000_0000 || b == 0x8000_0000 || Wrap(a + b) == 0x8000_0000))
  {
    OverflowExact(a, b);
    OverflowExact(a, c);
    OverflowExact(b, c);
    OverflowExact(Wrap(a + b), c);
  }

  /** With a borrow, the operands for which the subtraction test is not the overflow of `a - b - 1`:
      the difference of the operands is the first one out of range, or just in range from below
      without one of the three cases, or in range with one of them. */
  predicate BorrowedMisjudged(a: word, b: word) {
    var d := Signed(a) - Signed(b);
    var special := a == 0x8000_0000 || b == 0x8000_0000 || Wrap(a + b) == 0x8000_0000;
    d == 0x8000_0000 || (d == -0x8000_0000 && !special) || (-0x8000_0000 < d < 0x8000_0000 && special)
  }

  lemma OverflowTriSubtractionRight(a: word, b: word, c: bit)
    ensures (OverflowFromTri(SOUSTRACTION, a, b, c) <==> !FitsSigned(Signed(a) - Signed(b) - c))
            <==> !(c == 1 && BorrowedMisjudged(a, b))
  {
    OverflowTriSubtraction(a, b, c);
  }

  /** So an overflow of `a - b - 1` can go unreported, and one can be reported that is none. */
  lemma OverflowTriSubtractionWrong()
    ensures !FitsSigned(Signed(0x8000_0001) - Signed(1) - 1) && !OverflowFromTri(SOUSTRACTION, 0x8000_0001, 1, 1)
    ensures FitsSigned(Signed(0x8000_0000) - Signed(0xFFFF_FFFF) - 1)
            && OverflowFromTri(SOUSTRACTION, 0x8000_0000, 0xFFFF_FFFF, 1)
  {
    OverflowTriSubtraction(0x8000_0001, 1, 1);
    OverflowTriSubtraction(0x8000_0000, 0xFFFF_FFFF, 1);
  }
}
