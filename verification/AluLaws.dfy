/** What the sixteen opcodes compute, and what the S-forms leave in the flags. */
module AluLaws {
  import opened Words
  import opened Registers
  import opened Flags
  import opened Shifter
  import opened Core
  import opened DataProcessing
  import opened InPlaceFlags
  import opened Encoding

  // ---- results -----------------------------------------------------------

  /** AND, EOR, ORR, BIC, MVN, TST and TEQ, bit by bit. */
  lemma LogicalBits(a: word, b: word, c: bit, i: nat)
    requires i < 32
    ensures var x, y := Bit(a, i) == 1, Bit(b, i) == 1;
            (Bit(AluResult(0x0, a, b, c), i) == 1 <==> x && y)
            && (Bit(AluResult(0x1, a, b, c), i) == 1 <==> x != y)
            && (Bit(AluResult(0x8, a, b, c), i) == 1 <==> x && y)
            && (Bit(AluResult(0x9, a, b, c), i) == 1 <==> x != y)
            && (Bit(AluResult(0xc, a, b, c), i) == 1 <==> x || y)
            && (Bit(AluResult(0xe, a, b, c), i) == 1 <==> x && !y)
            && (Bit(AluResult(0xf, a, b, c), i) == 1 <==> !y)
  {
    BitwiseBit(AND, a, b, 32, i);
    BitwiseBit(XOR, a, b, 32, i);
    BitwiseBit(OR, a, b, 32, i);
    BitwiseBit(AND, a, Not(b), 32, i);
    NotBitOf(b, i);
  }

  lemma NotBitOf(b: word, i: nat)
    requires i < 32
    ensures Bit(Not(b), i) == 1 - Bit(b, i)
  {
    PowValues();
    NotBit(b, 32, i);
  }

  /** Subtraction undoes addition, with and without a carry or borrow, and the reversed forms are
      the plain ones with their operands exchanged. */
  lemma ArithmeticInverses(a: word, b: word, c: bit)
    ensures AluResult(0x2, AluResult(0x4, a, b, c), b, c) == a
    ensures AluResult(0x6, AluResult(0x5, a, b, c), b, 1 - c) == a
    ensures AluResult(0x3, b, AluResult(0x4, a, b, c), c) == a
    ensures AluResult(0x7, b, AluResult(0x5, a, b, c), 1 - c) == a
    ensures AluResult(0xa, a, b, c) == AluResult(0x2, a, b, c) && AluResult(0xb, a, b, c) == AluResult(0x4, a, b, c)
  {
    AddThenSubtract(a, b, 0);
    AddThenSubtract(a, b, c);
  }

  lemma AddThenSubtract(a: word, b: word, c: bit)
    ensures Wrap(Wrap(a + b + c) - b - c) == a
  {
  }

  // ---- flags -------------------------------------------------------------

  /** An S-form that is no test and does not write R15. */
  predicate SetsFlags(m: Machine, ins: word) {
    ShifterOperand(m, ins).Some? && Opcode(ins) !in {0x8, 0x9, 0xa, 0xb} && Bit(ins, 20) == 1 && Rd(ins) != 15
  }

  /** The value Rn has when C and V are computed: the result, if Rd is Rn. */
  function FlagOperand(m: Machine, ins: word, result: word): word {
    if Rd(ins) == Rn(ins) then result else ReadReg(m, Rn(ins))
  }

  /** N and Z describe the result left in Rd; C and V are computed from the shifter operand and the
      value Rn has once Rd is written. Everything else stays. */
  lemma SFormFlags(m: Machine, ins: word)
    requires SetsFlags(m, ins)
    ensures var sh, op, e := ShifterOperand(m, ins).value, Opcode(ins), ProcessData(m, ins);
            var result := AluResult(op, ReadReg(m, Rn(ins)), sh.value, CarryBit(m));
            var a := FlagOperand(m, ins, result);
            e.outcome == DONE && e.m.mem == m.mem
            && e.m.regs.main == WriteReg(m, Rd(ins), result).regs.main
            && e.m.regs.banked == WriteReg(m, Rd(ins), result).regs.banked
            && e.m.regs.psr[1..] == m.regs.psr[1..]
            && Cpsr(e.m) % 0x1000_0000 == Cpsr(m) % 0x1000_0000
            && (Bit(Cpsr(e.m), 31) == 1 <==> result >= 0x8000_0000)
            && (Bit(Cpsr(e.m), 30) == 1 <==> result == 0)
            && Bit(Cpsr(e.m), 29) == AluCarry(op, a, sh.value, CarryBit(m), sh.carry)
            && Bit(Cpsr(e.m), 28) == AluOverflow(op, a, sh.value, CarryBit(m))
  {
    var sh, op := ShifterOperand(m, ins).value, Opcode(ins);
    var result := AluResult(op, ReadReg(m, Rn(ins)), sh.value, CarryBit(m));
    var written := WriteReg(m, Rd(ins), result);
    var a := FlagOperand(m, ins, result);
    ReadWritten(m, Rd(ins), result, Rn(ins));
    assert ProcessData(m, ins).m == SetAluFlags(written, op, a, sh, result);
    AluFlagBits(written, op, a, sh, result);
  }

  lemma AluFlagBits(m: Machine, op: nat, a: word, sh: Shifted, result: word)
    ensures var m' := SetAluFlags(m, op, a, sh, result);
            m'.mem == m.mem && m'.regs.main == m.regs.main && m'.regs.banked == m.regs.banked
            && m'.regs.psr[1..] == m.regs.psr[1..]
            && Cpsr(m') % 0x1000_0000 == Cpsr(m) % 0x1000_0000
            && (Bit(Cpsr(m'), 31) == 1 <==> result >= 0x8000_0000) && (Bit(Cpsr(m'), 30) == 1 <==> result == 0)
            && Bit(Cpsr(m'), 29) == AluCarry(op, a, sh.value, CarryBit(m), sh.carry)
            && Bit(Cpsr(m'), 28) == AluOverflow(op, a, sh.value, CarryBit(m))
  {
    var n, z := Bit(result, 31), BitOf(result == 0);
    var c, v := AluCarry(op, a, sh.value, CarryBit(m), sh.carry), AluOverflow(op, a, sh.value, CarryBit(m));
    FlagWordBits(Cpsr(m), n, z, c, v);
    FlagMultiples(n, z, c, v, Cpsr(m));
    TopBit(result);
  }

  /** AND, EOR, ORR, MOV, BIC, MVN with S: C is the shifter's carry-out. V is cleared where the manual
      leaves it alone, so it is unaffected exactly when it was clear. */
  lemma LogicalFlags(m: Machine, ins: word)
    requires SetsFlags(m, ins) && Opcode(ins) in {0x0, 0x1, 0xc, 0xd, 0xe, 0xf}
    ensures var flags := Cpsr(ProcessData(m, ins).m);
            Bit(flags, 29) == ShifterOperand(m, ins).value.carry && Bit(flags, 28) == 0
            && (Bit(flags, 28) == Bit(Cpsr(m), 28) <==> Bit(Cpsr(m), 28) == 0)
  {
    SFormFlags(m, ins);
  }

  /** A failing input: `MOVS R2, R1` with V set. */
  lemma LogicalOverflowLost(m: Machine)
    ensures var before, ins := SetFlags(m, 0, 0, 0, 1), EncodedWord(AlwaysS(0xd), 0, 0x2001);
            Bit(Cpsr(before), 28) == 1 && Bit(Cpsr(ProcessData(before, ins).m), 28) == 0
  {
    var before := SetFlags(m, 0, 0, 0, 1);
    FlagWordBits(Cpsr(m), 0, 0, 0, 1);
    PlainForm(before, 0xd, 0, 2, 1);
    LogicalFlags(before, EncodedWord(AlwaysS(0xd), 0, 0x2001));
  }

  lemma PlainForm(m: Machine, op: nat, rn: regno, rd: regno, rm: regno)
    requires op < 16
    ensures var ins := EncodedWord(AlwaysS(op), rn, 0x1000 * rd + rm);
            Opcode(ins) == op && Bit(ins, 20) == 1 && Rn(ins) == rn && Rd(ins) == rd
            && ShifterOperand(m, ins) == Some(Shifted(ReadReg(m, rm), CarryBit(m)))
  {
    var ins := EncodedWord(AlwaysS(op), rn, 0x1000 * rd + rm);
    AlwaysFields(op);
    RegisterForm(ins, AlwaysS(op), rn, rd, rm);
    PlainOperand(m, ins, rm);
  }

  // ---- arithmetic S-forms ------------------------------------------------

  /** The carry or borrow that an arithmetic opcode takes in. */
  function TakenIn(op: nat, c: bit): bit {
    if op == 0x5 then c else if op == 0x6 || op == 0x7 then 1 - c else 0
  }

  /** C and V of `a + b + x` as they should be, exactly outside the operands each test misjudges, which
      are others when Rd is Rn. */
  predicate AdditionBits(c: bit, v: bit, same: bool, a: word, b: word, x: bit) {
    ((c == 1 <==> a + b + x >= 0x1_0000_0000) <==> !AddCarryWrong(same, a, b, x))
    && ((v == 1 <==> !FitsSigned(Signed(a) + Signed(b) + x)) <==> !AddOverflowWrong(same, a, b, x))
  }

  /** The same of `a - b - x`, C being "no borrow". */
  predicate SubtractionBits(c: bit, v: bit, same: bool, a: word, b: word, x: bit) {
    ((c == 1 <==> a >= b + x) <==> !SubCarryWrong(same, a, b, x))
    && ((v == 1 <==> !FitsSigned(Signed(a) - Signed(b) - x)) <==> !SubOverflowWrong(same, a, b, x))
  }

  /** The same of `b - a - x`. */
  predicate ReversedBits(c: bit, v: bit, same: bool, a: word, b: word, x: bit) {
    ((c == 1 <==> b >= a + x) <==> !ReversedCarryWrong(same, a, b, x))
    && ((v == 1 <==> !FitsSigned(Signed(b) - Signed(a) - x)) <==> !ReversedOverflowWrong(same, a, b, x))
  }

  /** ADD and ADC with S, whether Rd is Rn or not: exactly when C is the carry and V the signed overflow. */
  lemma AdditionFlags(m: Machine, ins: word)
    requires SetsFlags(m, ins) && Opcode(ins) in {0x4, 0x5}
    ensures var flags := Cpsr(ProcessData(m, ins).m);
            AdditionBits(Bit(flags, 29), Bit(flags, 28), Rd(ins) == Rn(ins), ReadReg(m, Rn(ins)),
                         ShifterOperand(m, ins).value.value, TakenIn(Opcode(ins), CarryBit(m)))
  {
    SFormFlags(m, ins);
    var sh, op, a, c := ShifterOperand(m, ins).value, Opcode(ins), ReadReg(m, Rn(ins)), CarryBit(m);
    AdditionAlu(op, Rd(ins) == Rn(ins), a, sh.value, c, sh.carry);
  }

  lemma AdditionAlu(op: nat, same: bool, a: word, b: word, c: bit, shifter: bit)
    requires op in {0x4, 0x5}
    ensures var n := if same then AluResult(op, a, b, c) else a;
            AdditionBits(AluCarry(op, n, b, c, shifter), AluOverflow(op, n, b, c), same, a, b, TakenIn(op, c))
  {
    var n := if same then AluResult(op, a, b, c) else a;
    AdditionIs(op, a, b, c, shifter);
    AdditionIs(op, n, b, c, shifter);
    AdditionTestBits(same, a, b, TakenIn(op, c));
  }

  lemma AdditionTestBits(same: bool, a: word, b: word, x: bit)
    ensures var n := if same then Wrap(a + b + x) else a;
            AdditionBits(BitOf(CarryFromTri(n, b, x)), BitOf(OverflowFromTri(ADDITION, n, b, x)), same, a, b, x)
  {
    AdditionTests(same, a, b, x);
  }

  lemma AdditionIs(op: nat, n: word, b: word, c: bit, shifter: bit)
    requires op in {0x4, 0x5}
    ensures var x := TakenIn(op, c);
            AluResult(op, n, b, c) == Wrap(n + b + x)
            && AluCarry(op, n, b, c, shifter) == BitOf(CarryFromTri(n, b, x))
            && AluOverflow(op, n, b, c) == BitOf(OverflowFromTri(ADDITION, n, b, x))
  {
    WithoutCarry(n, b);
  }

  /** SUB and SBC with S: exactly when C is "no borrow" and V the signed overflow. */
  lemma SubtractionFlags(m: Machine, ins: word)
    requires SetsFlags(m, ins) && Opcode(ins) in {0x2, 0x6}
    ensures var flags := Cpsr(ProcessData(m, ins).m);
            SubtractionBits(Bit(flags, 29), Bit(flags, 28), Rd(ins) == Rn(ins), ReadReg(m, Rn(ins)),
                            ShifterOperand(m, ins).value.value, TakenIn(Opcode(ins), CarryBit(m)))
  {
    SFormFlags(m, ins);
    var sh, op, a, c := ShifterOperand(m, ins).value, Opcode(ins), ReadReg(m, Rn(ins)), CarryBit(m);
    SubtractionAlu(op, Rd(ins) == Rn(ins), a, sh.value, c, sh.carry);
  }

  lemma SubtractionAlu(op: nat, same: bool, a: word, b: word, c: bit, shifter: bit)
    requires op in {0x2, 0x6}
    ensures var n := if same then AluResult(op, a, b, c) else a;
            SubtractionBits(AluCarry(op, n, b, c, shifter), AluOverflow(op, n, b, c), same, a, b, TakenIn(op, c))
  {
    var n := if same then AluResult(op, a, b, c) else a;
    SubtractionIs(op, a, b, c, shifter);
    SubtractionIs(op, n, b, c, shifter);
    SubtractionTestBits(same, a, b, TakenIn(op, c));
  }

  lemma SubtractionTestBits(same: bool, a: word, b: word, x: bit)
    ensures var n := if same then Wrap(a - b - x) else a;
            SubtractionBits(BitOf(!BorrowFromTri(n, b, x)), BitOf(OverflowFromTri(SOUSTRACTION, n, b, x)),
                            same, a, b, x)
  {
    SubtractionTests(same, a, b, x);
  }

  lemma SubtractionIs(op: nat, n: word, b: word, c: bit, shifter: bit)
    requires op in {0x2, 0x6}
    ensures var x := TakenIn(op, c);
            AluResult(op, n, b, c) == Wrap(n - b - x)
            && AluCarry(op, n, b, c, shifter) == BitOf(!BorrowFromTri(n, b, x))
            && AluOverflow(op, n, b, c) == BitOf(OverflowFromTri(SOUSTRACTION, n, b, x))
  {
    WithoutCarry(n, b);
  }

  /** RSB and RSC with S: the same with the operands exchanged. */
  lemma ReversedFlags(m: Machine, ins: word)
    requires SetsFlags(m, ins) && Opcode(ins) in {0x3, 0x7}
    ensures var flags := Cpsr(ProcessData(m, ins).m);
            ReversedBits(Bit(flags, 29), Bit(flags, 28), Rd(ins) == Rn(ins), ReadReg(m, Rn(ins)),
                         ShifterOperand(m, ins).value.value, TakenIn(Opcode(ins), CarryBit(m)))
  {
    SFormFlags(m, ins);
    var sh, op, a, c := ShifterOperand(m, ins).value, Opcode(ins), ReadReg(m, Rn(ins)), CarryBit(m);
    ReversedAlu(op, Rd(ins) == Rn(ins), a, sh.value, c, sh.carry);
  }

  lemma ReversedAlu(op: nat, same: bool, a: word, b: word, c: bit, shifter: bit)
    requires op in {0x3, 0x7}
    ensures var n := if same then AluResult(op, a, b, c) else a;
            ReversedBits(AluCarry(op, n, b, c, shifter), AluOverflow(op, n, b, c), same, a, b, TakenIn(op, c))
  {
    var n := if same then AluResult(op, a, b, c) else a;
    ReversedIs(op, a, b, c, shifter);
    ReversedIs(op, n, b, c, shifter);
    ReversedTestBits(same, a, b, TakenIn(op, c));
  }

  lemma ReversedTestBits(same: bool, a: word, b: word, x: bit)
    ensures var n := if same then Wrap(b - a - x) else a;
            ReversedBits(BitOf(!BorrowFromTri(b, n, x)), BitOf(OverflowFromTri(SOUSTRACTION, b, n, x)), same, a, b, x)
  {
    ReversedTests(same, a, b, x);
  }

  lemma ReversedIs(op: nat, n: word, b: word, c: bit, shifter: bit)
    requires op in {0x3, 0x7}
    ensures var x := TakenIn(op, c);
            AluResult(op, n, b, c) == Wrap(b - n - x)
            && AluCarry(op, n, b, c, shifter) == BitOf(!BorrowFromTri(b, n, x))
            && AluOverflow(op, n, b, c) == BitOf(OverflowFromTri(SOUSTRACTION, b, n, x))
  {
    WithoutCarry(b, n);
  }

  /** RSBS is right for all operands, even when Rd is Rn. */
  lemma ReverseAlwaysRight(m: Machine, ins: word)
    requires SetsFlags(m, ins) && Opcode(ins) == 0x3
    ensures var flags, a, b := Cpsr(ProcessData(m, ins).m), ReadReg(m, Rn(ins)), ShifterOperand(m, ins).value.value;
            (Bit(flags, 29) == 1 <==> b >= a) && (Bit(flags, 28) == 1 <==> !FitsSigned(Signed(b) - Signed(a)))
  {
    ReversedFlags(m, ins);
  }

  /** SUBS with Rd = Rn tests the borrow on the result: its carry is right exactly when the result and
      the minuend compare alike with the subtrahend. */
  lemma SubtractInPlace(m: Machine, ins: word)
    requires SetsFlags(m, ins) && Opcode(ins) == 0x2 && Rd(ins) == Rn(ins)
    ensures var a, b := ReadReg(m, Rn(ins)), ShifterOperand(m, ins).value.value;
            (CarryBit(ProcessData(m, ins).m) == 1 <==> a >= b)
            <==> if a >= b then a >= 2 * b else a + 0x1_0000_0000 < 2 * b
  {
    SubtractionFlags(m, ins);
  }

  /** Failing inputs of `SUBS R0, R0, R1`: 1 - 1 leaves C clear although nothing is borrowed, and
      0x80000001 - 1 sets V although the difference fits. */
  lemma SubtractInPlaceFails(m: Machine)
    ensures var ins := EncodedWord(AlwaysS(0x2), 0, 0x0001);
            Bit(Cpsr(ProcessData(WithOperands(m, 1, 1), ins).m), 29) == 0
            && Bit(Cpsr(ProcessData(WithOperands(m, 0x8000_0001, 1), ins).m), 28) == 1
  {
    SubtractInPlaceBits(m, 1, 1);
    SubtractInPlaceBits(m, 0x8000_0001, 1);
  }

  lemma SubtractInPlaceBits(m: Machine, x: word, y: word)
    ensures var flags := Cpsr(ProcessData(WithOperands(m, x, y), EncodedWord(AlwaysS(0x2), 0, 0x0001)).m);
            SubtractionBits(Bit(flags, 29), Bit(flags, 28), true, x, y, 0)
  {
    InPlaceForm(m, 0x2, x, y);
    SubtractionFlags(WithOperands(m, x, y), EncodedWord(AlwaysS(0x2), 0, 0x0001));
  }

  /** Failing inputs of `ADDS R0, R0, R1`: 0 + 0x08000000 sets C although nothing carries, and
      0x7FFFFFFF + 1 leaves V clear although the sum overflows. */
  lemma AddInPlaceFails(m: Machine)
    ensures var ins := EncodedWord(AlwaysS(0x4), 0, 0x0001);
            Bit(Cpsr(ProcessData(WithOperands(m, 0, 0x0800_0000), ins).m), 29) == 1
            && Bit(Cpsr(ProcessData(WithOperands(m, 0x7FFF_FFFF, 1), ins).m), 28) == 0
  {
    AddInPlaceBits(m, 0, 0x0800_0000);
    AddInPlaceBits(m, 0x7FFF_FFFF, 1);
  }

  lemma AddInPlaceBits(m: Machine, x: word, y: word)
    ensures var flags := Cpsr(ProcessData(WithOperands(m, x, y), EncodedWord(AlwaysS(0x4), 0, 0x0001)).m);
            AdditionBits(Bit(flags, 29), Bit(flags, 28), true, x, y, 0)
  {
    InPlaceForm(m, 0x4, x, y);
    AdditionFlags(WithOperands(m, x, y), EncodedWord(AlwaysS(0x4), 0, 0x0001));
  }

  /** A failing input of `RSCS R0, R0, R1`: 0 - 0 with C clear borrows, and leaves C set. */
  lemma ReverseInPlaceFails(m: Machine)
    ensures var before := WithOperands(SetFlags(m, 0, 0, 0, 0), 0, 0);
            CarryBit(before) == 0
            && Bit(Cpsr(ProcessData(before, EncodedWord(AlwaysS(0x7), 0, 0x0001)).m), 29) == 1
  {
    FlagWordBits(Cpsr(m), 0, 0, 0, 0);
    InPlaceForm(SetFlags(m, 0, 0, 0, 0), 0x7, 0, 0);
    ReversedFlags(WithOperands(SetFlags(m, 0, 0, 0, 0), 0, 0), EncodedWord(AlwaysS(0x7), 0, 0x0001));
  }

  function WithOperands(m: Machine, x: word, y: word): Machine {
    WriteReg(WriteReg(m, 0, x), 1, y)
  }

  lemma InPlaceForm(m: Machine, op: nat, x: word, y: word)
    requires op < 16 && !IsTest(op)
    ensures var before, ins := WithOperands(m, x, y), EncodedWord(AlwaysS(op), 0, 0x0001);
            SetsFlags(before, ins) && Opcode(ins) == op && Rd(ins) == Rn(ins) == 0
            && ReadReg(before, 0) == x && ShifterOperand(before, ins).value.value == y
  {
    PlainForm(WithOperands(m, x, y), op, 0, 0, 1);
    ReadWritten(m, 0, x, 0);
    ReadWritten(WriteReg(m, 0, x), 1, y, 0);
    ReadWritten(WriteReg(m, 0, x), 1, y, 1);
  }

  /** TST, TEQ, CMP and CMN, with or without S: only the flags change, by the result and the operands. */
  lemma TestFlags(m: Machine, ins: word)
    requires ShifterOperand(m, ins).Some? && Opcode(ins) in {0x8, 0x9, 0xa, 0xb}
    ensures var sh, op, e := ShifterOperand(m, ins).value, Opcode(ins), ProcessData(m, ins);
            var a := ReadReg(m, Rn(ins));
            var result := AluResult(op, a, sh.value, CarryBit(m));
            e.outcome == DONE && e.m.mem == m.mem
            && e.m.regs.main == m.regs.main && e.m.regs.banked == m.regs.banked
            && e.m.regs.psr[1..] == m.regs.psr[1..]
            && Cpsr(e.m) % 0x1000_0000 == Cpsr(m) % 0x1000_0000
            && (Bit(Cpsr(e.m), 31) == 1 <==> result >= 0x8000_0000)
            && (Bit(Cpsr(e.m), 30) == 1 <==> result == 0)
            && Bit(Cpsr(e.m), 29) == AluCarry(op, a, sh.value, CarryBit(m), sh.carry)
            && (op <= 0x9 ==> Bit(Cpsr(e.m), 29) == sh.carry && Bit(Cpsr(e.m), 28) == 0)
            && (op == 0xa ==> CompareBits(Cpsr(e.m), a, sh.value))
            && (op == 0xb ==> NegatedCompareBits(Cpsr(e.m), a, sh.value))
  {
    var sh, op := ShifterOperand(m, ins).value, Opcode(ins);
    var a := ReadReg(m, Rn(ins));
    var result := AluResult(op, a, sh.value, CarryBit(m));
    assert ProcessData(m, ins).m == SetAluFlags(m, op, a, sh, result);
    AluFlagBits(m, op, a, sh, result);
    OverflowExact(a, sh.value);
    CarryRightExactly(a, sh.value);
  }

  lemma CompareFlagBits(m: Machine, ins: word)
    requires ShifterOperand(m, ins).Some? && Opcode(ins) == 0xa
    ensures CompareBits(Cpsr(ProcessData(m, ins).m), ReadReg(m, Rn(ins)), ShifterOperand(m, ins).value.value)
  {
    TestFlags(m, ins);
  }

  /** CMP: C is "no borrow" and V signed overflow of the difference. */
  predicate CompareBits(flags: word, a: word, b: word) {
    (Bit(flags, 29) == 1 <==> a >= b) && (Bit(flags, 28) == 1 <==> !FitsSigned(Signed(a) - Signed(b)))
  }

  /** CMN: V is signed overflow of the sum, and C its carry exactly outside the misjudged range. */
  predicate NegatedCompareBits(flags: word, a: word, b: word) {
    ((Bit(flags, 29) == 1 <==> a + b >= 0x1_0000_0000)
     <==> !(a <= 0x0FFF_FFFF && 0x1000_0000 <= a + b <= 0xFFFF_FFFF))
    && (Bit(flags, 28) == 1 <==> !FitsSigned(Signed(a) + Signed(b)))
  }
}
