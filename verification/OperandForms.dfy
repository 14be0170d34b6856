/** The operands and offsets of encoded words: which numbers of the word and which registers they come
    from. */
module OperandForms {
  import opened Words
  import opened Registers
  import opened Core
  import opened Shifter
  import opened DataProcessing
  import opened LoadStore
  import opened Encoding

  // ---- immediates --------------------------------------------------------

  /** A data-processing word with an immediate: eight bits and four bits of rotation. */
  function ImmediateWord(top: nat, rn: regno, rd: regno, rot: nat, imm: byte): word
    requires top < 0x1000 && rot < 16
  {
    EncodedWord(top, rn, 0x1000 * rd + 0x100 * rot + imm)
  }

  /** Its operand is the eight bits rotated right by twice the four; the carry stays if these are zero, and
      is the top bit of the operand otherwise. */
  lemma ImmediateOperand(m: Machine, top: nat, rn: regno, rd: regno, rot: nat, imm: byte)
    requires top < 0x1000 && top / 32 % 2 == 1 && rot < 16
    ensures var s := ShifterOperand(m, ImmediateWord(top, rn, rd, rot, imm));
            s.Some?
            && (forall i: nat :: i < 32 ==> Bit(s.value.value, i) == Bit(imm, (i + 2 * rot) % 32))
            && s.value.carry == if rot == 0 then CarryBit(m) else Bit(s.value.value, 31)
  {
    var ins, low := ImmediateWord(top, rn, rd, rot, imm), 0x1000 * rd + 0x100 * rot + imm;
    ImmediateFields(low, rd, rot, imm);
    TopFields(ins, top, rn, low);
    ShiftFields(ins, top, rn, low);
    ImmediateRotates(imm, CarryBit(m), rot);
  }

  lemma ImmediateFields(low: nat, rd: regno, rot: nat, imm: byte)
    requires low == 0x1000 * rd + 0x100 * rot + imm && rot < 16
    ensures low / 0x100 % 16 == rot && low % 0x100 == imm
  {
    FieldIs(0x100, 16, rd, rot, imm);
    LowestIs(0x100, 16 * rd + rot, imm);
  }

  lemma ImmediateRotates(imm: byte, c: bit, rot: nat)
    requires rot < 16
    ensures var s := ShiftBy(Rotate, Shifted(imm, c), 2 * rot);
            (forall i: nat :: i < 32 ==> Bit(s.value, i) == Bit(imm, (i + 2 * rot) % 32))
            && s.carry == if rot == 0 then c else Bit(s.value, 31)
  {
    forall i: nat | i < 32
      ensures Bit(ShiftBy(Rotate, Shifted(imm, c), 2 * rot).value, i) == Bit(imm, (i + 2 * rot) % 32)
    {
      RotateBit(imm, c, 2 * rot, i);
    }
    if rot > 0 {
      RotateCarry(Shifted(imm, c), 2 * rot);
    }
  }

  // ---- shifted registers -------------------------------------------------

  /** Rm shifted by an immediate amount, in a data-processing word or a transfer. */
  function ShiftedWord(top: nat, rn: regno, rd: regno, amount: nat, shift: nat, rm: regno): word
    requires top < 0x1000 && amount < 32 && shift < 4
  {
    EncodedWord(top, rn, 0x1000 * rd + 0x80 * amount + 0x20 * shift + rm)
  }

  /** LSL, LSR and ASR by the amount, 0 meaning 32 for the last two; ROR #0 enters the carry at the top, and
      any other ROR is what the source makes it. */
  lemma ShiftedOperand(m: Machine, top: nat, rn: regno, rd: regno, amount: nat, shift: nat, rm: regno)
    requires top < 0x1000 && top / 32 % 2 == 0 && amount < 32 && shift < 4
    ensures var x := Shifted(ReadReg(m, rm), CarryBit(m));
            ShifterOperand(m, ShiftedWord(top, rn, rd, amount, shift, rm))
            == Some(if shift == 0 then ShiftBy(Left, x, amount)
                    else if shift == 1 then ShiftBy(LogicalRight, x, if amount == 0 then 32 else amount)
                    else if shift == 2 then ShiftBy(ArithmeticRight, x, if amount == 0 then 32 else amount)
                    else if amount == 0 then Shifted(x.value / 2 + x.carry * 0x8000_0000, x.value % 2)
                    else ShiftBy(ArithmeticRight, x, amount))
  {
    var ins := ShiftedWord(top, rn, rd, amount, shift, rm);
    var low := 0x1000 * rd + 0x80 * amount + 0x20 * shift + rm;
    ShiftedFields(low, rd, amount, shift, rm);
    TopFields(ins, top, rn, low);
    LowFields(ins, top, rn, low);
  }

  lemma ShiftedFields(low: nat, rd: regno, amount: nat, shift: nat, rm: regno)
    requires low == 0x1000 * rd + 0x80 * amount + 0x20 * shift + rm && amount < 32 && shift < 4
    ensures low / 0x80 % 32 == amount && low / 0x20 % 4 == shift && low / 0x10 % 2 == 0 && low % 0x10 == rm
    ensures low / 0x1000 == rd
  {
    LowestIs(0x1000, rd, 0x80 * amount + 0x20 * shift + rm);
    FieldIs(0x80, 32, rd, amount, 0x20 * shift + rm);
    FieldIs(0x20, 4, 32 * rd + amount, shift, rm);
    FieldIs(0x10, 2, 0x80 * rd + 4 * amount + shift, 0, rm);
    LowestIs(0x10, 0x100 * rd + 8 * amount + 2 * shift, rm);
  }

  /** Rm shifted by the low byte of Rs. */
  function RegisterShiftedWord(top: nat, rn: regno, rd: regno, rs: regno, shift: nat, rm: regno): word
    requires top < 0x1000 && shift < 4
  {
    EncodedWord(top, rn, 0x1000 * rd + 0x100 * rs + 0x20 * shift + 0x10 + rm)
  }

  lemma RegisterShiftedOperand(m: Machine, top: nat, rn: regno, rd: regno, rs: regno, shift: nat, rm: regno)
    requires top < 0x1000 && top / 32 % 2 == 0 && shift < 4
    ensures var x, n := Shifted(ReadReg(m, rm), CarryBit(m)), ReadReg(m, rs) % 0x100;
            ShifterOperand(m, RegisterShiftedWord(top, rn, rd, rs, shift, rm))
            == Some(if shift == 0 then ShiftBy(Left, x, n)
                    else if shift == 1 then ShiftBy(LogicalRight, x, n)
                    else if shift == 2 then ShiftBy(ArithmeticRight, x, n)
                    else if n > 0 && n % 16 == 0 then Shifted(x.value, Bit(x.value, 31))
                    else ShiftBy(ArithmeticRight, x, n % 16))
  {
    var ins := RegisterShiftedWord(top, rn, rd, rs, shift, rm);
    var low := 0x1000 * rd + 0x100 * rs + 0x20 * shift + 0x10 + rm;
    RegisterShiftedFields(low, rd, rs, shift, rm);
    TopFields(ins, top, rn, low);
    LowFields(ins, top, rn, low);
    ShiftFields(ins, top, rn, low);
    ByRegister(m, ins, rs, shift, rm);
    RegisterShiftSteps(shift, Shifted(ReadReg(m, rm), CarryBit(m)), ReadReg(m, rs) % 0x100);
  }

  lemma ByRegister(m: Machine, ins: word, rs: regno, shift: nat, rm: regno)
    requires Bit(ins, 25) == 0 && Bit(ins, 4) == 1 && Bit(ins, 7) == 0
    requires Bits(ins, 11, 8) == rs && Bits(ins, 6, 5) == shift && Bits(ins, 3, 0) == rm
    ensures ShifterOperand(m, ins)
            == Some(RegisterShift(shift, Shifted(ReadReg(m, rm), CarryBit(m)), ReadReg(m, rs) % 0x100))
  {
  }

  lemma RegisterShiftSteps(shift: nat, x: Shifted, n: nat)
    requires shift < 4
    ensures RegisterShift(shift, x, n)
            == if shift == 0 then ShiftBy(Left, x, n)
               else if shift == 1 then ShiftBy(LogicalRight, x, n)
               else if shift == 2 then ShiftBy(ArithmeticRight, x, n)
               else if n > 0 && n % 16 == 0 then Shifted(x.value, Bit(x.value, 31))
               else ShiftBy(ArithmeticRight, x, n % 16)
  {
  }

  lemma RegisterShiftedFields(low: nat, rd: regno, rs: regno, shift: nat, rm: regno)
    requires low == 0x1000 * rd + 0x100 * rs + 0x20 * shift + 0x10 + rm && shift < 4
    ensures low / 0x100 % 16 == rs && low / 0x20 % 4 == shift && low / 0x10 % 2 == 1 && low % 0x10 == rm
    ensures low / 0x80 % 2 == 0
  {
    FieldIs(0x100, 16, rd, rs, 0x20 * shift + 0x10 + rm);
    FieldIs(0x20, 4, 0x20 * rd + 2 * rs, shift, 0x10 + rm);
    FieldIs(0x10, 2, 0x80 * rd + 8 * rs + shift, 1, rm);
    LowestIs(0x10, 0x100 * rd + 0x10 * rs + 2 * shift + 1, rm);
    FieldIs(0x80, 2, 0x10 * rd + rs, 0, 0x20 * shift + 0x10 + rm);
  }

  // ---- offsets -----------------------------------------------------------

  /** A word or byte transfer with a twelve-bit immediate moves its base by that number. */
  lemma ImmediateOffset(m: Machine, top: nat, rn: regno, rd: regno, offset: nat)
    requires top < 0x1000 && top / 32 % 2 == 0 && offset < 0x1000
    ensures WordOffset(m, EncodedWord(top, rn, 0x1000 * rd + offset)) == Some(offset)
  {
    var ins, low := EncodedWord(top, rn, 0x1000 * rd + offset), 0x1000 * rd + offset;
    OffsetAndRd(rd, offset);
    TopFields(ins, top, rn, low);
    LowFields(ins, top, rn, low);
  }

  /** With a register, by Rm shifted. */
  lemma RegisterOffset(m: Machine, top: nat, rn: regno, rd: regno, amount: nat, shift: nat, rm: regno)
    requires top < 0x1000 && top / 32 % 2 == 1 && amount < 32 && shift < 4
    ensures WordOffset(m, ShiftedWord(top, rn, rd, amount, shift, rm))
            == Some(ScaledOffset(shift, ReadReg(m, rm), amount, CarryBit(m)))
  {
    var ins := ShiftedWord(top, rn, rd, amount, shift, rm);
    var low := 0x1000 * rd + 0x80 * amount + 0x20 * shift + rm;
    ShiftedFields(low, rd, amount, shift, rm);
    TopFields(ins, top, rn, low);
    LowFields(ins, top, rn, low);
  }

  /** A half-word transfer has four bits of its immediate above the operation and four below it. */
  lemma HalfImmediateOffset(m: Machine, top: nat, rn: regno, rd: regno, high: nat, operation: nat, below: nat)
    requires top < 0x1000 && top / 4 % 2 == 1 && high < 16 && operation < 16 && below < 16
    ensures HalfOffset(m, EncodedWord(top, rn, 0x1000 * rd + 0x100 * high + 0x10 * operation + below))
            == 16 * high + below
  {
    var low := 0x1000 * rd + 0x100 * high + 0x10 * operation + below;
    HalfFields(EncodedWord(top, rn, low), top, rn, low, rd, high, operation, below);
  }

  /** Or the register in its lowest four bits. */
  lemma HalfRegisterOffset(m: Machine, top: nat, rn: regno, rd: regno, high: nat, operation: nat, rm: regno)
    requires top < 0x1000 && top / 4 % 2 == 0 && high < 16 && operation < 16
    ensures HalfOffset(m, EncodedWord(top, rn, 0x1000 * rd + 0x100 * high + 0x10 * operation + rm)) == ReadReg(m, rm)
  {
    var low := 0x1000 * rd + 0x100 * high + 0x10 * operation + rm;
    HalfFields(EncodedWord(top, rn, low), top, rn, low, rd, high, operation, rm);
  }

  lemma HalfFields(
      ins: word, top: nat, rn: regno, low: nat, rd: regno, high: nat, operation: nat, below: nat)
    requires top < 0x1000 && high < 16 && operation < 16 && below < 16
    requires low == 0x1000 * rd + 0x100 * high + 0x10 * operation + below && ins == EncodedWord(top, rn, low)
    ensures Bit(ins, 22) == top / 4 % 2 && Bits(ins, 11, 8) == high && Bits(ins, 3, 0) == below && Rd(ins) == rd
    ensures Bits(ins, 7, 4) == operation
  {
    TopFields(ins, top, rn, low);
    LowFields(ins, top, rn, low);
    ShiftFields(ins, top, rn, low);
    ClassFields(ins, top, rn, low);
    HalfParts(low, rd, high, operation, below);
  }

  lemma HalfParts(low: nat, rd: regno, high: nat, operation: nat, below: nat)
    requires low == 0x1000 * rd + 0x100 * high + 0x10 * operation + below
    requires high < 16 && operation < 16 && below < 16
    ensures low / 0x1000 == rd && low / 0x100 % 16 == high && low / 0x10 % 16 == operation && low % 0x10 == below
  {
    LowestIs(0x1000, rd, 0x100 * high + 0x10 * operation + below);
    FieldIs(0x100, 16, rd, high, 0x10 * operation + below);
    FieldIs(0x10, 16, 0x10 * rd + high, operation, below);
    LowestIs(0x10, 0x100 * rd + 0x10 * high + operation, below);
  }
}
