/** The carry and overflow tests of arm_data_processing.c when Rd is Rn: the source then gives them the
    result in place of the first operand. Exactly when they are still right, by the operands. */
module InPlaceFlags {
  import opened Words
  import opened Flags

  // ---- two operands are three with a zero --------------------------------

  lemma WithoutCarry(a: word, b: word)
    ensures CarryFromTri(a, b, 0) <==> CarryFrom(a, b)
    ensures BorrowFromTri(a, b, 0) <==> BorrowFrom(a, b)
    ensures OverflowFromTri(ADDITION, a, b, 0) <==> OverflowFrom(ADDITION, a, b)
    ensures OverflowFromTri(SOUSTRACTION, a, b, 0) <==> OverflowFrom(SOUSTRACTION, a, b)
  {
    CarryExact(a, b);
    CarryTriExact(a, b, 0);
    BorrowTriExact(a, b, 0);
    OverflowExact(a, b);
    OverflowTriAddition(a, b, 0);
    OverflowTriSubtraction(a, b, 0);
  }

  // ---- carry and borrow --------------------------------------------------

  /** The operands of an addition whose carry is wrong when tested on the sum: the sum carries and the
      test sees no second carry, or it does not carry and the test sees one. */
  predicate CarriedInPlaceMisjudged(a: word, b: word, x: bit) {
    var sum := a + b + x;
    if sum >= 0x1_0000_0000 then
      if sum + x <= 0x1_0FFF_FFFF then sum + b + x <= 0x1_0FFF_FFFF
      else sum + b + x < 0x2_0000_0000 || (a == 0x0FFF_FFFF && b == 0xFFFF_FFFF && x == 1)
    else
      if sum + x <= 0x0FFF_FFFF then sum + b + x > 0x0FFF_FFFF
      else sum + b + x >= 0x1_0000_0000 || (a == 0x0FFF_FFFE && b == 0 && x == 1)
  }

  lemma CarryInPlace(a: word, b: word, x: bit)
    ensures (CarryFromTri(Wrap(a + b + x), b, x) <==> a + b + x >= 0x1_0000_0000)
            <==> !CarriedInPlaceMisjudged(a, b, x)
  {
    CarryTriExact(Wrap(a + b + x), b, x);
    SumWraps(a, b, x);
  }

  lemma SumWraps(a: word, b: word, x: bit)
    ensures Wrap(a + b + x) == if a + b + x >= 0x1_0000_0000 then a + b + x - 0x1_0000_0000 else a + b + x
  {
  }

  lemma DifferenceWraps(a: word, b: word, x: bit)
    ensures Wrap(a - b - x) == if a < b + x then a - b - x + 0x1_0000_0000 else a - b - x
  {
  }

  /** The operands of a subtraction whose borrow is wrong when tested on the difference. */
  predicate BorrowedInPlaceMisjudged(a: word, b: word, x: bit) {
    if a >= b + x then a < 2 * (b + x)
    else a + 0x1_0000_0000 >= 2 * (b + x) || (a == 0 && b == 0xFFFF_FFFF && x == 1)
  }

  lemma BorrowInPlace(a: word, b: word, x: bit)
    ensures (BorrowFromTri(Wrap(a - b - x), b, x) <==> a < b + x) <==> !BorrowedInPlaceMisjudged(a, b, x)
  {
    BorrowTriExact(Wrap(a - b - x), b, x);
    DifferenceWraps(a, b, x);
  }

  /** The reversed subtraction keeps its minuend: of all operands, only two zeros and a borrow fail. */
  lemma ReversedBorrowInPlace(a: word, b: word, x: bit)
    ensures (BorrowFromTri(b, Wrap(b - a - x), x) <==> b < a + x) <==> !(a == 0 && b == 0 && x == 1)
  {
    BorrowTriExact(b, Wrap(b - a - x), x);
    DifferenceWraps(b, a, x);
  }

  // ---- overflow ----------------------------------------------------------

  /** The operands of an addition whose overflow is wrong when tested on the sum. Without a carry in,
      every overflow is missed. */
  predicate AddedInPlaceMisjudged(a: word, b: word, x: bit) {
    var sum := Signed(a) + Signed(b) + x;
    if x == 0 then !FitsSigned(sum) || !FitsSigned(sum + Signed(b))
    else if sum >= 0x8000_0000 then b != 0x7FFF_FFFF
    else if sum < -0x8000_0000 then sum != -0x8000_0001
    else !FitsSigned(sum + Signed(b) + 1) || sum + Signed(b) == -0x8000_0001 || (a == 0x7FFF_FFFF && b == 0xFFFF_FFFF)
  }

  lemma OverflowInPlace(a: word, b: word, x: bit)
    ensures (OverflowFromTri(ADDITION, Wrap(a + b + x), b, x) <==> !FitsSigned(Signed(a) + Signed(b) + x))
            <==> !AddedInPlaceMisjudged(a, b, x)
  {
    var sum: word := Wrap(a + b + x);
    OverflowTriAddition(sum, b, x);
    SignedSum(a, b, x);
  }

  lemma SignedSum(a: word, b: word, x: bit)
    ensures var t := Signed(a) + Signed(b) + x;
            Signed(Wrap(a + b + x)) == if t < -0x8000_0000 then t + 0x1_0000_0000
                                       else if t < 0x8000_0000 then t else t - 0x1_0000_0000
  {
  }

  lemma SignedDifference(a: word, b: word, x: bit)
    ensures var t := Signed(a) - Signed(b) - x;
            Signed(Wrap(a - b - x)) == if t < -0x8000_0000 then t + 0x1_0000_0000
                                       else if t < 0x8000_0000 then t else t - 0x1_0000_0000
  {
  }

  /** The operands of a subtraction whose overflow is wrong when tested on the difference. Without a
      borrow, every overflow is missed. */
  predicate SubtractedInPlaceMisjudged(a: word, b: word, x: bit) {
    var d := Signed(a) - Signed(b) - x;
    if x == 0 then !FitsSigned(d) || !FitsSigned(d - Signed(b))
    else if d >= 0x8000_0000 then !(d == 0x8000_0000 || b == 0x8000_0000)
    else if d < -0x8000_0000 then a != 0x8000_0001
    else !FitsSigned(d - Signed(b)) || d == -0x8000_0000 || b == 0x8000_0000 || a == 0x8000_0001
  }

  lemma DifferenceOverflowInPlace(a: word, b: word, x: bit)
    ensures (OverflowFromTri(SOUSTRACTION, Wrap(a - b - x), b, x) <==> !FitsSigned(Signed(a) - Signed(b) - x))
            <==> !SubtractedInPlaceMisjudged(a, b, x)
  {
    OverflowTriSubtraction(Wrap(a - b - x), b, x);
    SignedDifference(a, b, x);
    DifferenceSpecial(a, b, x);
  }

  /** The special cases of the three-operand test, by the operands. */
  lemma DifferenceSpecial(a: word, b: word, x: bit)
    ensures Wrap(Wrap(a - b - x) + b) == Wrap(a - x)
    ensures x == 1 ==> (Wrap(a - x) == 0x8000_0000 <==> a == 0x8000_0001)
  {
  }

  /** The operands of a reversed subtraction whose overflow is wrong when tested on the difference:
      none without a borrow. */
  predicate ReversedInPlaceMisjudged(a: word, b: word, x: bit) {
    var d := Signed(b) - Signed(a) - x;
    x == 1 &&
    if d >= 0x8000_0000 then false
    else if d < -0x8000_0000 then a == 0x7FFF_FFFF && b != 0x8000_0000
    else a == 0x7FFF_FFFF || b == 0x8000_0000 || d == -0x8000_0000 || Wrap(2 * b - a - 1) == 0x8000_0000
  }

  lemma ReversedOverflowInPlace(a: word, b: word, x: bit)
    ensures (OverflowFromTri(SOUSTRACTION, b, Wrap(b - a - x), x) <==> !FitsSigned(Signed(b) - Signed(a) - x))
            <==> !ReversedInPlaceMisjudged(a, b, x)
  {
    OverflowTriSubtraction(b, Wrap(b - a - x), x);
    SignedDifference(b, a, x);
    ReversedSpecial(a, b, x);
  }

  lemma ReversedSpecial(a: word, b: word, x: bit)
    ensures Wrap(b + Wrap(b - a - x)) == Wrap(2 * b - a - x)
    ensures Signed(b) - Signed(a) - x < -0x8000_0000 && a == 0x7FFF_FFFF && b != 0x8000_0000 ==>
              Wrap(2 * b - a - x) != 0x8000_0000
  {
  }

  // ---- either destination ------------------------------------------------

  /** When the C and V of an addition, a subtraction or a reversed subtraction with a carry or borrow
      in are wrong; `same` says that Rd is Rn. */
  predicate AddCarryWrong(same: bool, a: word, b: word, x: bit) {
    if same then CarriedInPlaceMisjudged(a, b, x) else CarriedMisjudged(a, b, x)
  }

  predicate AddOverflowWrong(same: bool, a: word, b: word, x: bit) {
    if same then AddedInPlaceMisjudged(a, b, x) else x == 1 && AddedMisjudged(a, b)
  }

  predicate SubCarryWrong(same: bool, a: word, b: word, x: bit) {
    if same then BorrowedInPlaceMisjudged(a, b, x) else a == 0 && b == 0xFFFF_FFFF && x == 1
  }

  predicate SubOverflowWrong(same: bool, a: word, b: word, x: bit) {
    if same then SubtractedInPlaceMisjudged(a, b, x) else x == 1 && BorrowedMisjudged(a, b)
  }

  predicate ReversedCarryWrong(same: bool, a: word, b: word, x: bit) {
    a == (if same then 0 else 0xFFFF_FFFF) && b == 0 && x == 1
  }

  predicate ReversedOverflowWrong(same: bool, a: word, b: word, x: bit) {
    if same then ReversedInPlaceMisjudged(a, b, x) else x == 1 && BorrowedMisjudged(b, a)
  }

  lemma AdditionTests(same: bool, a: word, b: word, x: bit)
    ensures var n := if same then Wrap(a + b + x) else a;
            ((CarryFromTri(n, b, x) <==> a + b + x >= 0x1_0000_0000) <==> !AddCarryWrong(same, a, b, x))
            && ((OverflowFromTri(ADDITION, n, b, x) <==> !FitsSigned(Signed(a) + Signed(b) + x))
                <==> !AddOverflowWrong(same, a, b, x))
  {
    if same {
      CarryInPlace(a, b, x);
      OverflowInPlace(a, b, x);
    } else {
      CarryTriRight(a, b, x);
      OverflowTriAddition(a, b, x);
    }
  }

  lemma SubtractionTests(same: bool, a: word, b: word, x: bit)
    ensures var n := if same then Wrap(a - b - x) else a;
            ((BorrowFromTri(n, b, x) <==> a < b + x) <==> !SubCarryWrong(same, a, b, x))
            && ((OverflowFromTri(SOUSTRACTION, n, b, x) <==> !FitsSigned(Signed(a) - Signed(b) - x))
                <==> !SubOverflowWrong(same, a, b, x))
  {
    if same {
      BorrowInPlace(a, b, x);
      DifferenceOverflowInPlace(a, b, x);
    } else {
      BorrowTriExact(a, b, x);
      OverflowTriSubtractionRight(a, b, x);
    }
  }

  lemma ReversedTests(same: bool, a: word, b: word, x: bit)
    ensures var n := if same then Wrap(b - a - x) else a;
            ((BorrowFromTri(b, n, x) <==> b < a + x) <==> !ReversedCarryWrong(same, a, b, x))
            && ((OverflowFromTri(SOUSTRACTION, b, n, x) <==> !FitsSigned(Signed(b) - Signed(a) - x))
                <==> !ReversedOverflowWrong(same, a, b, x))
  {
    if same {
      ReversedBorrowInPlace(a, b, x);
      ReversedOverflowInPlace(a, b, x);
    } else {
      BorrowTriExact(b, a, x);
      OverflowTriSubtractionRight(b, a, x);
    }
  }
}
