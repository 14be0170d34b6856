/** Instruction words built from their fields. */
module Encoding {
  import opened Words
  import opened Registers
  import opened Core
  import opened Shifter
  import opened DataProcessing

  /** The word with the given bits 31 to 20, 19 to 16 and 15 to 0. */
  function EncodedWord(top: nat, rn: regno, low: nat): word
    requires top < 0x1000 && low < 0x1_0000
  {
    0x10_0000 * top + 0x1_0000 * rn + low
  }

  lemma TopFields(ins: word, top: nat, rn: regno, low: nat)
    requires top < 0x1000 && low < 0x1_0000 && ins == EncodedWord(top, rn, low)
    ensures Bit(ins, 20) == top % 2 && Bit(ins, 21) == top / 2 % 2 && Bit(ins, 22) == top / 4 % 2
    ensures Bit(ins, 23) == top / 8 % 2 && Bit(ins, 24) == top / 16 % 2 && Bit(ins, 25) == top / 32 % 2
    ensures Bits(ins, 27, 26) == top / 64 % 4 && Bits(ins, 24, 21) == top / 2 % 16 && Rn(ins) == rn
  {
    Powers();
    FieldQuotient(ins, 20);
    FieldQuotient(ins, 21);
    FieldQuotient(ins, 22);
    FieldQuotient(ins, 23);
    FieldQuotient(ins, 24);
    FieldQuotient(ins, 25);
    FieldQuotient(ins, 26);
    FieldQuotient(ins, 16);
    TopQuotients(ins, top, rn, low);
  }

  lemma LowFields(ins: word, top: nat, rn: regno, low: nat)
    requires top < 0x1000 && low < 0x1_0000 && ins == EncodedWord(top, rn, low)
    ensures Bits(ins, 15, 0) == low && Rd(ins) == low / 0x1000 && Bits(ins, 11, 0) == low % 0x1000
    ensures Bits(ins, 11, 7) == low / 0x80 % 32 && Bits(ins, 6, 5) == low / 0x20 % 4
    ensures Bit(ins, 4) == low / 0x10 % 2 && Bit(ins, 7) == low / 0x80 % 2 && Bits(ins, 3, 0) == low % 0x10
  {
    Powers();
    FieldQuotient(ins, 12);
    FieldQuotient(ins, 7);
    FieldQuotient(ins, 5);
    FieldQuotient(ins, 4);
    LowQuotients(ins, 16 * top + rn, low);
    HalfMod(ins / 0x80, 16);
    HalfMod(low / 0x80, 16);
  }

  /** The fields of immediates and of register shifts. */
  lemma ShiftFields(ins: word, top: nat, rn: regno, low: nat)
    requires top < 0x1000 && low < 0x1_0000 && ins == EncodedWord(top, rn, low)
    ensures Bits(ins, 11, 8) == low / 0x100 % 16 && Bits(ins, 7, 0) == low % 0x100
  {
    Powers();
    PowValues();
    FieldQuotient(ins, 8);
    var high := 16 * top + rn;
    LinearParts(0x100, 0x100 * high, low);
    LinearParts(16, 0x10 * high, low / 0x100);
  }

  /** Bits 31 to 20 of an unconditional S-form with a register operand. */
  function AlwaysS(op: nat): (top: nat)
    requires op < 16
    ensures top < 0x1000
  {
    0xE01 + 2 * op
  }

  lemma AlwaysFields(op: nat)
    requires op < 16
    ensures var top := AlwaysS(op);
            top / 32 % 2 == 0 && top % 2 == 1 && top / 2 % 16 == op && top / 0x100 == 0xE
  {
  }

  /** A data-processing word with a plain register operand: `op{S} Rd, Rn, Rm`. */
  lemma RegisterForm(ins: word, top: nat, rn: regno, rd: regno, rm: regno)
    requires top < 0x1000 && top / 32 % 2 == 0 && ins == EncodedWord(top, rn, 0x1000 * rd + rm)
    ensures Opcode(ins) == top / 2 % 16 && Bit(ins, 20) == top % 2 && Rn(ins) == rn && Rd(ins) == rd
    ensures Bit(ins, 25) == 0 && Bit(ins, 4) == 0 && Bits(ins, 6, 5) == 0 && Bits(ins, 11, 7) == 0
    ensures Bits(ins, 3, 0) == rm
  {
    PlainLow(0x1000 * rd + rm, rd, rm);
    TopFields(ins, top, rn, 0x1000 * rd + rm);
    LowFields(ins, top, rn, 0x1000 * rd + rm);
  }

  lemma PlainLow(low: nat, rd: regno, rm: regno)
    requires low == 0x1000 * rd + rm
    ensures low / 0x1000 == rd && low / 0x80 % 32 == 0 && low / 0x20 % 4 == 0 && low / 0x10 % 2 == 0 && low % 0x10 == rm
  {
    assert low / 0x80 == 0x20 * rd && low / 0x20 == 0x80 * rd && low / 0x10 == 0x100 * rd;
  }

  /** Its operands: Rn, and Rm with the old carry. */
  lemma PlainOperand(m: Machine, ins: word, rm: regno)
    requires Bit(ins, 25) == 0 && Bit(ins, 4) == 0 && Bits(ins, 6, 5) == 0 && Bits(ins, 11, 7) == 0
    requires Bits(ins, 3, 0) == rm
    ensures ShifterOperand(m, ins) == Some(Shifted(ReadReg(m, rm), CarryBit(m)))
  {
  }

  /** The field of a word between a part above it and a part below it. */
  lemma FieldIs(p: int, q: int, above: int, field: int, below: int)
    requires p > 0 && q > 0 && 0 <= field < q && 0 <= below < p
    ensures (p * (q * above + field) + below) / p % q == field
  {
    DivModUnique(p * (q * above + field) + below, p, q * above + field, below);
    DivModUnique(q * above + field, q, above, field);
  }

  lemma LowestIs(p: int, above: int, below: int)
    requires 0 <= below < p
    ensures (p * above + below) / p == above && (p * above + below) % p == below
  {
    DivModUnique(p * above + below, p, above, below);
  }

  lemma OffsetAndRd(rd: regno, offset: nat)
    requires offset < 0x1000
    ensures (0x1000 * rd + offset) / 0x1000 == rd && (0x1000 * rd + offset) % 0x1000 == offset
  {
  }

  /** The fields the dispatcher looks at. */
  lemma ClassFields(ins: word, top: nat, rn: regno, low: nat)
    requires top < 0x1000 && low < 0x1_0000 && ins == EncodedWord(top, rn, low)
    ensures Shr(ins, 28) == top / 0x100 && Bits(ins, 27, 25) == top / 32 % 8 && Bits(ins, 27, 24) == top / 16 % 16
    ensures Bits(ins, 21, 20) == top % 4
    ensures Bits(ins, 7, 4) == low / 16 % 16
  {
    Powers();
    assert Pow2(3) == 8;
    PowValues();
    FieldQuotient(ins, 4);
    FieldQuotient(ins, 20);
    FieldQuotient(ins, 23);
    FieldQuotient(ins, 24);
    FieldQuotient(ins, 25);
    FieldQuotient(ins, 28);
    TopQuotients(ins, top, rn, low);
    ConditionQuotient(ins, top, rn, low);
    NibbleQuotient(16 * top + rn, low);
  }

  lemma ConditionQuotient(ins: int, top: int, rn: int, low: int)
    requires 0 <= top && 0 <= rn < 16 && 0 <= low < 0x1_0000
    requires ins == 0x10_0000 * top + 0x1_0000 * rn + low
    ensures ins / 0x1000_0000 == top / 0x100
  {
    assert ins / 0x10_0000 == top;
  }

  lemma NibbleQuotient(high: int, low: int)
    requires 0 <= low < 0x1_0000
    ensures (0x1_0000 * high + low) / 0x10 % 16 == low / 0x10 % 16
  {
    LinearParts(0x10, 0x1000 * high, low);
    LinearParts(0x10, 0x100 * high, low / 0x10);
  }

  lemma TopQuotients(ins: int, top: int, rn: int, low: int)
    requires 0 <= top && 0 <= rn < 16 && 0 <= low < 0x1_0000
    requires ins == 0x10_0000 * top + 0x1_0000 * rn + low
    ensures ins / 0x1_0000 % 16 == rn
    ensures ins / 0x10_0000 == top && ins / 0x20_0000 == top / 2 && ins / 0x40_0000 == top / 4
    ensures ins / 0x80_0000 == top / 8 && ins / 0x100_0000 == top / 16
    ensures ins / 0x200_0000 == top / 32 && ins / 0x400_0000 == top / 64
  {
    assert ins / 0x1_0000 == 16 * top + rn;
    assert ins / 0x10_0000 == top;
  }

  lemma LowQuotients(ins: int, high: int, low: int)
    requires 0 <= high && 0 <= low < 0x1_0000 && ins == 0x1_0000 * high + low
    ensures ins % 0x1_0000 == low && ins / 0x1000 % 16 == low / 0x1000 && ins % 0x1000 == low % 0x1000
    ensures ins / 0x80 % 32 == low / 0x80 % 32 && ins / 0x20 % 4 == low / 0x20 % 4
    ensures ins / 0x10 % 2 == low / 0x10 % 2 && ins % 0x10 == low % 0x10
  {
    UpperQuotients(ins, high, low);
    LowerQuotients(ins, high, low);
    FullRemainders(high, low);
    ShiftedRemainders(high, low / 0x1000, low / 0x80, low / 0x20, low / 0x10);
  }

  lemma UpperQuotients(ins: int, high: int, low: int)
    requires 0 <= high && 0 <= low < 0x1_0000 && ins == 0x1_0000 * high + low
    ensures ins / 0x1000 == 16 * high + low / 0x1000 && ins / 0x80 == 0x200 * high + low / 0x80
  {
    LinearParts(0x1000, 16 * high, low);
    LinearParts(0x80, 0x200 * high, low);
  }

  lemma LowerQuotients(ins: int, high: int, low: int)
    requires 0 <= high && 0 <= low < 0x1_0000 && ins == 0x1_0000 * high + low
    ensures ins / 0x20 == 0x800 * high + low / 0x20 && ins / 0x10 == 0x1000 * high + low / 0x10
  {
    LinearParts(0x20, 0x800 * high, low);
    LinearParts(0x10, 0x1000 * high, low);
  }

  lemma FullRemainders(high: int, low: int)
    ensures 0 <= low < 0x1_0000 ==> (0x1_0000 * high + low) % 0x1_0000 == low
    ensures (0x1_0000 * high + low) % 0x1000 == low % 0x1000 && (0x1_0000 * high + low) % 0x10 == low % 0x10
  {
    LinearParts(0x1_0000, high, low);
    LinearParts(0x1000, 16 * high, low);
    LinearParts(0x10, 0x1000 * high, low);
  }

  lemma ShiftedRemainders(high: int, a: int, b: int, c: int, d: int)
    ensures 0 <= a < 16 ==> (16 * high + a) % 16 == a
    ensures (0x200 * high + b) % 32 == b % 32 && (0x800 * high + c) % 4 == c % 4
    ensures (0x1000 * high + d) % 2 == d % 2
  {
    LinearParts(16, high, a);
    LinearParts(32, 16 * high, b);
    LinearParts(4, 0x200 * high, c);
    LinearParts(2, 0x800 * high, d);
  }

  lemma FieldQuotient(ins: word, k: nat)
    requires k < 32
    ensures Shr(ins, k) == ins / Pow2(k) && Bit(ins, k) == ins / Pow2(k) % 2
  {
    ShrIsQuotient(ins, k);
    BitShift(ins, k, 0);
  }

  lemma Powers()
    ensures Pow2(2) == 4 && Pow2(4) == 0x10 && Pow2(5) == 0x20 && Pow2(7) == 0x80 && Pow2(12) == 0x1000
    ensures Pow2(16) == 0x1_0000 && Pow2(20) == 0x10_0000 && Pow2(21) == 0x20_0000 && Pow2(22) == 0x40_0000
    ensures Pow2(23) == 0x80_0000 && Pow2(24) == 0x100_0000 && Pow2(25) == 0x200_0000
    ensures Pow2(26) == 0x400_0000
  {
    assert Pow2(2) == 4;
    assert Pow2(4) == 0x10;
    assert Pow2(8) == 0x100;
    assert Pow2(12) == 0x1000;
    assert Pow2(16) == 0x1_0000;
    assert Pow2(20) == 0x10_0000;
    assert Pow2(24) == 0x100_0000;
  }
}
