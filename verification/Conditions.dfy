/** The sixteen conditions for every flag pattern, and after every flag-setting instruction. */
module Conditions {
  import opened Words
  import opened Registers
  import opened Flags
  import opened Core
  import opened DataProcessing
  import opened Instruction
  import opened InPlaceFlags
  import opened AluLaws
  import opened Encoding

  /** A word with the given condition. */
  function Conditional(cond: nat): word
    requires cond < 16
  {
    0x1000_0000 * cond
  }

  predicate Holds(cpsr: word, cond: nat)
    requires cond < 16
  {
    InstCond(cpsr, Conditional(cond))
  }

  /** The condition of an instruction is that of its bits 31 to 28, whatever the others. */
  lemma ConditionField(cpsr: word, ins: word)
    ensures Shr(ins, 28) == ins / 0x1000_0000 < 16
    ensures InstCond(cpsr, ins) <==> Holds(cpsr, ins / 0x1000_0000)
  {
    PowValues();
    ShrIsQuotient(ins, 28);
    ConditionOf(Shr(ins, 28));
    SameCondition(cpsr, ins, Conditional(Shr(ins, 28)), Shr(ins, 28));
  }

  lemma SameCondition(cpsr: word, ins: word, other: word, cond: nat)
    requires Shr(ins, 28) == cond && Shr(other, 28) == cond
    ensures InstCond(cpsr, ins) <==> InstCond(cpsr, other)
  {
  }

  /** EQ, CS, MI and VS are the four flags. */
  lemma FlagConditions(cpsr: word)
    ensures Holds(cpsr, 0x0) <==> Bit(cpsr, 30) == 1
    ensures Holds(cpsr, 0x2) <==> Bit(cpsr, 29) == 1
    ensures Holds(cpsr, 0x4) <==> Bit(cpsr, 31) == 1
    ensures Holds(cpsr, 0x6) <==> Bit(cpsr, 28) == 1
  {
    FlagCondition(cpsr, 0x0);
    FlagCondition(cpsr, 0x2);
    FlagCondition(cpsr, 0x4);
    FlagCondition(cpsr, 0x6);
  }

  lemma FlagCondition(cpsr: word, cond: nat)
    requires cond in {0x0, 0x2, 0x4, 0x6}
    ensures Holds(cpsr, cond)
            <==> Bit(cpsr, if cond == 0x0 then 30 else if cond == 0x2 then 29 else if cond == 0x4 then 31 else 28) == 1
  {
    ConditionOf(cond);
  }

  /** The others are made of these: NE, CC, PL and VC their opposites, HI and LS of CS and EQ, GE and LT of
      MI and VS, GT and LE of GE, LT and EQ; AL and NV always hold. */
  lemma DerivedConditions(cpsr: word)
    ensures Holds(cpsr, 0x1) <==> !Holds(cpsr, 0x0)
    ensures Holds(cpsr, 0x3) <==> !Holds(cpsr, 0x2)
    ensures Holds(cpsr, 0x5) <==> !Holds(cpsr, 0x4)
    ensures Holds(cpsr, 0x7) <==> !Holds(cpsr, 0x6)
    ensures Holds(cpsr, 0x8) <==> Holds(cpsr, 0x2) && Holds(cpsr, 0x1)
    ensures Holds(cpsr, 0x9) <==> Holds(cpsr, 0x3) || Holds(cpsr, 0x0)
    ensures Holds(cpsr, 0xA) <==> (Holds(cpsr, 0x4) <==> Holds(cpsr, 0x6))
    ensures Holds(cpsr, 0xB) <==> !Holds(cpsr, 0xA)
    ensures Holds(cpsr, 0xC) <==> Holds(cpsr, 0xA) && Holds(cpsr, 0x1)
    ensures Holds(cpsr, 0xD) <==> Holds(cpsr, 0xB) || Holds(cpsr, 0x0)
    ensures Holds(cpsr, 0xE) && Holds(cpsr, 0xF)
  {
    Opposites(cpsr);
    UnsignedOrder(cpsr);
    SignedOrder(cpsr);
  }

  lemma Opposites(cpsr: word)
    ensures Holds(cpsr, 0x1) <==> !Holds(cpsr, 0x0)
    ensures Holds(cpsr, 0x3) <==> !Holds(cpsr, 0x2)
    ensures Holds(cpsr, 0x5) <==> !Holds(cpsr, 0x4)
    ensures Holds(cpsr, 0x7) <==> !Holds(cpsr, 0x6)
    ensures Holds(cpsr, 0xB) <==> !Holds(cpsr, 0xA)
    ensures Holds(cpsr, 0xE) && Holds(cpsr, 0xF)
  {
    PairOf(cpsr, 0x0);
    PairOf(cpsr, 0x2);
    PairOf(cpsr, 0x4);
    PairOf(cpsr, 0x6);
    PairOf(cpsr, 0xA);
    PairOf(cpsr, 0xE);
  }

  lemma PairOf(cpsr: word, cond: nat)
    requires cond < 15 && cond % 2 == 0
    ensures if cond < 14 then Holds(cpsr, cond + 1) <==> !Holds(cpsr, cond) else Holds(cpsr, 14) && Holds(cpsr, 15)
  {
    ConditionOf(cond);
    ConditionOf(cond + 1);
    ConditionsPair(cpsr, Conditional(cond), Conditional(cond + 1));
  }

  lemma UnsignedOrder(cpsr: word)
    ensures Holds(cpsr, 0x8) <==> Holds(cpsr, 0x2) && Holds(cpsr, 0x1)
    ensures Holds(cpsr, 0x9) <==> Holds(cpsr, 0x3) || Holds(cpsr, 0x0)
  {
    CombinedConditions(cpsr, 0x8);
    CombinedConditions(cpsr, 0x9);
    FlagConditions(cpsr);
    Opposites(cpsr);
  }

  lemma SignedOrder(cpsr: word)
    ensures Holds(cpsr, 0xA) <==> (Holds(cpsr, 0x4) <==> Holds(cpsr, 0x6))
    ensures Holds(cpsr, 0xC) <==> Holds(cpsr, 0xA) && Holds(cpsr, 0x1)
    ensures Holds(cpsr, 0xD) <==> Holds(cpsr, 0xB) || Holds(cpsr, 0x0)
  {
    CombinedConditions(cpsr, 0xA);
    CombinedConditions(cpsr, 0xC);
    CombinedConditions(cpsr, 0xD);
    FlagConditions(cpsr);
    Opposites(cpsr);
  }

  /** HI, LS, GE, GT and LE by the flags. */
  lemma CombinedConditions(cpsr: word, cond: nat)
    requires cond < 16
    ensures var n, z, c, v := Bit(cpsr, 31) == 1, Bit(cpsr, 30) == 1, Bit(cpsr, 29) == 1, Bit(cpsr, 28) == 1;
            (cond == 0x8 ==> (Holds(cpsr, cond) <==> c && !z)) && (cond == 0x9 ==> (Holds(cpsr, cond) <==> !c || z))
            && (cond == 0xA ==> (Holds(cpsr, cond) <==> n == v))
            && (cond == 0xC ==> (Holds(cpsr, cond) <==> n == v && !z))
            && (cond == 0xD ==> (Holds(cpsr, cond) <==> n != v || z))
  {
    ConditionOf(cond);
  }

  lemma ConditionOf(cond: nat)
    requires cond < 16
    ensures Shr(Conditional(cond), 28) == cond
  {
    PowValues();
    ShrIsQuotient(Conditional(cond), 28);
  }

  // ---- after an instruction ----------------------------------------------

  /** After any S-form: EQ and MI tell of the result left in Rd. */
  lemma ResultConditions(m: Machine, ins: word)
    requires SetsFlags(m, ins)
    ensures var m' := ProcessData(m, ins).m;
            (Holds(Cpsr(m'), 0x0) <==> Read(m'.regs, Rd(ins)) == 0)
            && (Holds(Cpsr(m'), 0x4) <==> Read(m'.regs, Rd(ins)) >= 0x8000_0000)
  {
    SFormFlags(m, ins);
    FlagConditions(Cpsr(ProcessData(m, ins).m));
    var a, sh := ReadReg(m, Rn(ins)), ShifterOperand(m, ins).value;
    ModeOfLow(Cpsr(m));
    ModeOfLow(Cpsr(ProcessData(m, ins).m));
    ReadWritten(m, Rd(ins), AluResult(Opcode(ins), a, sh.value, CarryBit(m)), Rd(ins));
  }

  /** After ADDS and ADCS, CS tells of the carry and VS of the signed overflow, outside the misjudged
      operands. */
  lemma AdditionConditions(m: Machine, ins: word)
    requires SetsFlags(m, ins) && Opcode(ins) in {0x4, 0x5}
    ensures var flags, a, b := Cpsr(ProcessData(m, ins).m), ReadReg(m, Rn(ins)), ShifterOperand(m, ins).value.value;
            var same, x := Rd(ins) == Rn(ins), TakenIn(Opcode(ins), CarryBit(m));
            ((Holds(flags, 0x2) <==> a + b + x >= 0x1_0000_0000) <==> !AddCarryWrong(same, a, b, x))
            && ((Holds(flags, 0x6) <==> !FitsSigned(Signed(a) + Signed(b) + x)) <==> !AddOverflowWrong(same, a, b, x))
  {
    AdditionFlags(m, ins);
    FlagConditions(Cpsr(ProcessData(m, ins).m));
  }

  /** CS and VS as bits. */
  function CarryHolds(flags: word): bit {
    BitOf(Holds(flags, 0x2))
  }

  function OverflowHolds(flags: word): bit {
    BitOf(Holds(flags, 0x6))
  }

  lemma HeldFlags(flags: word)
    ensures CarryHolds(flags) == Bit(flags, 29) && OverflowHolds(flags) == Bit(flags, 28)
  {
    FlagConditions(flags);
  }

  /** After SUBS and SBCS, and after RSBS and RSCS, CS tells of "no borrow" and VS of the signed overflow,
      outside the misjudged operands. */
  lemma SubtractionConditions(m: Machine, ins: word)
    requires SetsFlags(m, ins) && Opcode(ins) in {0x2, 0x6, 0x3, 0x7}
    ensures var flags, a, b := Cpsr(ProcessData(m, ins).m), ReadReg(m, Rn(ins)), ShifterOperand(m, ins).value.value;
            var same, x := Rd(ins) == Rn(ins), TakenIn(Opcode(ins), CarryBit(m));
            if Opcode(ins) in {0x2, 0x6} then
              SubtractionBits(CarryHolds(flags), OverflowHolds(flags), same, a, b, x)
            else ReversedBits(CarryHolds(flags), OverflowHolds(flags), same, a, b, x)
  {
    HeldFlags(Cpsr(ProcessData(m, ins).m));
    if Opcode(ins) in {0x2, 0x6} {
      SubtractionFlags(m, ins);
    } else {
      ReversedFlags(m, ins);
    }
  }

  /** After a logical S-form CS tells of the shifter's carry-out, and VC holds. */
  lemma LogicalConditions(m: Machine, ins: word)
    requires SetsFlags(m, ins) && Opcode(ins) in {0x0, 0x1, 0xc, 0xd, 0xe, 0xf}
    ensures var flags := Cpsr(ProcessData(m, ins).m);
            CarryHolds(flags) == ShifterOperand(m, ins).value.carry && Holds(flags, 0x7)
  {
    LogicalFlags(m, ins);
    HeldFlags(Cpsr(ProcessData(m, ins).m));
    DerivedConditions(Cpsr(ProcessData(m, ins).m));
  }

  /** GE, LT, GT and LE compare an integer with zero. */
  predicate Compared(flags: word, x: int) {
    (Holds(flags, 0xA) <==> x >= 0) && (Holds(flags, 0xB) <==> x < 0)
    && (Holds(flags, 0xC) <==> x > 0) && (Holds(flags, 0xD) <==> x <= 0)
  }

  /** N, Z and V as a sum leaves them. */
  predicate SumBits(flags: word, a: word, b: word) {
    (Bit(flags, 30) == 1 <==> Wrap(a + b) == 0) && (Bit(flags, 31) == 1 <==> Wrap(a + b) >= 0x8000_0000)
    && (Bit(flags, 28) == 1 <==> !FitsSigned(Signed(a) + Signed(b)))
  }

  /** After ADDS with Rd different from Rn they compare the exact signed sum with zero, whatever flags it
      leaves. */
  lemma AdditionDecides(m: Machine, ins: word)
    requires SetsFlags(m, ins) && Opcode(ins) == 0x4 && Rd(ins) != Rn(ins)
    ensures Compared(Cpsr(ProcessData(m, ins).m),
                     Signed(ReadReg(m, Rn(ins))) + Signed(ShifterOperand(m, ins).value.value))
  {
    SumFlags(m, ins);
    SumOrder(Cpsr(ProcessData(m, ins).m), ReadReg(m, Rn(ins)), ShifterOperand(m, ins).value.value);
  }

  lemma SumOrder(flags: word, a: word, b: word)
    requires SumBits(flags, a, b)
    ensures Compared(flags, Signed(a) + Signed(b))
  {
    FlagConditions(flags);
    DerivedConditions(flags);
    SumSign(a, b);
  }

  lemma SumFlags(m: Machine, ins: word)
    requires SetsFlags(m, ins) && Opcode(ins) == 0x4 && Rd(ins) != Rn(ins)
    ensures SumBits(Cpsr(ProcessData(m, ins).m), ReadReg(m, Rn(ins)), ShifterOperand(m, ins).value.value)
  {
    SFormFlags(m, ins);
    OverflowExact(ReadReg(m, Rn(ins)), ShifterOperand(m, ins).value.value);
  }

  /** The sign of a wrapped sum, corrected by its overflow, is that of the exact sum. */
  lemma SumSign(a: word, b: word)
    ensures var sum, w := Signed(a) + Signed(b), Wrap(a + b);
            (sum >= 0 <==> (w >= 0x8000_0000 <==> !FitsSigned(sum)))
            && (w == 0 <==> sum == 0 || sum == -0x1_0000_0000)
  {
  }
}
