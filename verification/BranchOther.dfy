/** Branches, MRS and software interrupts (arm_branch_other.c). */
module BranchOther {
  import opened Words
  import opened Registers
  import opened Core
  import opened DataProcessing

  // ---- meaning -----------------------------------------------------------

  /** The two's-complement reading of a 24-bit field. */
  function SignExtend24(field: nat): int
    requires field < 0x100_0000
  {
    if field < 0x80_0000 then field else field - 0x100_0000
  }

  function BranchField(ins: word): (field: nat)
    ensures field < 0x100_0000
  {
    PowValues();
    Bits(ins, 23, 0)
  }

  /** B and BL: R15 moves by four times the signed field; BL first saves the next address. */
  function Branch(m: Machine, ins: word): Machine {
    var pc := ReadReg(m, 15);
    var linked := if Bit(ins, 24) == 1 then WriteReg(m, 14, Wrap(pc - 4)) else m;
    WriteReg(linked, 15, Wrap(pc + 4 * SignExtend24(BranchField(ins))))
  }

  predicate IsMrs(ins: word) {
    Bits(ins, 11, 0) == 0 && Bits(ins, 19, 16) == 0xf && Bits(ins, 21, 20) == 0
  }

  function Miscellaneous(m: Machine, ins: word): Effect {
    if IsMrs(ins) then
      Effect(WriteReg(m, Rd(ins), if Bit(ins, 22) == 1 then ReadSpsr(m.regs) else Cpsr(m)), DONE)
    else Effect(m, Returned(UNDEFINED_INSTRUCTION))
  }

  function SoftwareInterrupt(ins: word): Outcome {
    if Bit(ins, 24) == 1 then (if ins % 0x100_0000 == 0x123456 then Exited else Returned(SOFTWARE_INTERRUPT))
    else Returned(UNDEFINED_INSTRUCTION)
  }

  // ---- the source's steps ------------------------------------------------

  /** `arm_branch` */
  method ArmBranch(p: ArmCore, ins: word) returns (res: Outcome)
    requires p.Valid()
    modifies p.reg.main, p.reg.banked
    ensures p.State() == Branch(old(p.State()), ins) && res == DONE
  {
    ImmediateFields(ins);
    var immed: int := Bits(ins, 22, 0);
    var pc := p.ReadRegister(15);
    if Bit(ins, 24) == 1 {
      p.WriteRegister(14, Wrap(pc - 4));
    }
    var offset := ExtendImmediate(immed, Bit(ins, 23));
    assert Signed(offset) == 4 * SignExtend24(BranchField(ins));
    p.WriteRegister(15, Wrap(pc + Signed(offset)));
    return DONE;
  }

  /** Sign extension to 30 bits, then multiplication by four. */
  method ExtendImmediate(immed23: word, sign: bit) returns (immed: word)
    requires immed23 < 0x80_0000
    ensures Signed(immed) == 4 * SignExtend24(sign * 0x80_0000 + immed23)
  {
    immed := immed23;
    if sign == 1 {
      SignBits(immed);
      immed := Or(immed, Shl(0x7f, 23));
    }
    ExtendedOffset(immed23, sign);
    TimesFour(immed);
    immed := Shl(immed, 2);
  }

  lemma ExtendedOffset(x: int, sign: bit)
    requires 0 <= x < 0x80_0000
    ensures Signed(Wrap(4 * (x + sign * 0x3f80_0000))) == 4 * SignExtend24(sign * 0x80_0000 + x)
  {
  }

  lemma SignBits(x: word)
    requires x < 0x80_0000
    ensures Or(x, Shl(0x7f, 23)) == x + 0x3f80_0000
  {
    assert Pow2(23) == 0x80_0000 by {
      PowValues();
      assert Pow2(24) == 2 * Pow2(23);
    }
    assert Shl(0x7f, 23) == 0x3f80_0000;
    OrHighLow(x, 0x3f80_0000, 23);
  }

  lemma TimesFour(x: word)
    ensures Shl(x, 2) == Wrap(4 * x)
  {
    assert Pow2(2) == 4;
  }

  /** The 24-bit field is its sign bit and its 23 low bits. */
  lemma ImmediateFields(ins: word)
    ensures Bits(ins, 22, 0) < 0x80_0000
    ensures BranchField(ins) == Bit(ins, 23) * 0x80_0000 + Bits(ins, 22, 0)
  {
    assert Pow2(24) == 0x100_0000 && Pow2(23) == 0x80_0000 by {
      PowValues();
      assert Pow2(24) == 2 * Pow2(23);
    }
    BitShift(ins, 23, 0);
    ShrIsQuotient(ins, 23);
    SplitField(ins);
  }

  lemma SplitField(x: nat)
    ensures x % 0x100_0000 == x / 0x80_0000 % 2 * 0x80_0000 + x % 0x80_0000
  {
  }

  /** `arm_miscellaneous` */
  method ArmMiscellaneous(p: ArmCore, ins: word) returns (res: Outcome)
    requires p.Valid()
    modifies p.reg.main, p.reg.banked
    ensures Effect(p.State(), res) == Miscellaneous(old(p.State()), ins)
  {
    if !IsMrs(ins) {
      return Returned(UNDEFINED_INSTRUCTION);
    }
    var value: word;
    if Bit(ins, 22) == 1 {
      value := p.reg.ReadSpsrRegister();
    } else {
      value := p.ReadCpsr();
    }
    p.WriteRegister(Rd(ins), value);
    return DONE;
  }

  /** `arm_coprocessor_others_swi`: SWI 0x123456 ends the simulation. */
  method ArmCoprocessorOthersSwi(ins: word) returns (res: Outcome)
    ensures res == SoftwareInterrupt(ins)
  {
    if Bit(ins, 24) == 1 {
      if ins % 0x100_0000 == 0x123456 {
        return Exited;
      }
      return Returned(SOFTWARE_INTERRUPT);
    }
    return Returned(UNDEFINED_INSTRUCTION);
  }
}
