/** Data-processing instructions (arm_data_processing.c). */
module DataProcessing {
  import opened Words
  import opened Registers
  import opened RegisterRuns
  import opened Shifter
  import opened Flags
  import opened Core

  datatype Option<+T> = None | Some(value: T)

  function BitOf(b: bool): bit {
    if b then 1 else 0
  }

  // ---- meaning -----------------------------------------------------------

  /** The shifter operand, as repeated one-bit steps.

      An immediate LSR or ASR by 0 means 32. The source computes ROR by an immediate with its
      arithmetic shift, and by a register with the arithmetic shift of the amount modulo 16. */
  function ShifterOperand(m: Machine, ins: word): Option<Shifted> {
    if Bit(ins, 25) == 1 then
      Some(ShiftBy(Rotate, Shifted(Bits(ins, 7, 0), CarryBit(m)), 2 * Bits(ins, 11, 8)))
    else if Bit(ins, 4) == 0 then
      Some(ImmediateShift(Bits(ins, 6, 5), Shifted(ReadReg(m, Bits(ins, 3, 0)), CarryBit(m)), Bits(ins, 11, 7)))
    else if Bit(ins, 7) == 0 then
      Some(RegisterShift(Bits(ins, 6, 5), Shifted(ReadReg(m, Bits(ins, 3, 0)), CarryBit(m)),
                         ReadReg(m, Bits(ins, 11, 8)) % 0x100))
    else None
  }

  function ImmediateShift(shift: nat, rm: Shifted, n: nat): Shifted {
    if shift == 0 then ShiftBy(Left, rm, n)
    else if shift == 1 then ShiftBy(LogicalRight, rm, if n == 0 then 32 else n)
    else if shift == 2 then ShiftBy(ArithmeticRight, rm, if n == 0 then 32 else n)
    else if n == 0 then RotateExtended(rm)
    else ShiftBy(ArithmeticRight, rm, n)
  }

  function RegisterShift(shift: nat, rm: Shifted, n: nat): Shifted {
    if shift == 0 then ShiftBy(Left, rm, n)
    else if shift == 1 then ShiftBy(LogicalRight, rm, n)
    else if shift == 2 then ShiftBy(ArithmeticRight, rm, n)
    else if n == 0 then rm
    else if n % 16 == 0 then Shifted(rm.value, Bit(rm.value, 31))
    else ShiftBy(ArithmeticRight, rm, n % 16)
  }

  /** The value each opcode computes from Rn, the shifter operand and the carry flag. */
  function AluResult(op: nat, a: word, b: word, c: bit): word {
    if op == 0x0 || op == 0x8 then And(a, b)
    else if op == 0x1 || op == 0x9 then Xor(a, b)
    else if op == 0x2 || op == 0xa then Wrap(a - b)
    else if op == 0x3 then Wrap(b - a)
    else if op == 0x4 || op == 0xb then Wrap(a + b)
    else if op == 0x5 then Wrap(a + b + c)
    else if op == 0x6 then Wrap(a - b - (1 - c))
    else if op == 0x7 then Wrap(b - a - (1 - c))
    else if op == 0xc then Or(a, b)
    else if op == 0xd then b
    else if op == 0xe then And(a, Not(b))
    else Not(b)
  }

  /** The carry flag; `shifter` is the shifter's carry-out. */
  function AluCarry(op: nat, a: word, b: word, c: bit, shifter: bit): bit {
    if op == 0x2 || op == 0xa then BitOf(!BorrowFrom(a, b))
    else if op == 0x3 then BitOf(!BorrowFrom(b, a))
    else if op == 0x4 || op == 0xb then BitOf(CarryFrom(a, b))
    else if op == 0x5 then BitOf(CarryFromTri(a, b, c))
    else if op == 0x6 then BitOf(!BorrowFromTri(a, b, 1 - c))
    else if op == 0x7 then BitOf(!BorrowFromTri(b, a, 1 - c))
    else shifter
  }

  function AluOverflow(op: nat, a: word, b: word, c: bit): bit {
    if op == 0x2 || op == 0xa then BitOf(OverflowFrom(SOUSTRACTION, a, b))
    else if op == 0x3 then BitOf(OverflowFrom(SOUSTRACTION, b, a))
    else if op == 0x4 || op == 0xb then BitOf(OverflowFrom(ADDITION, a, b))
    else if op == 0x5 then BitOf(OverflowFromTri(ADDITION, a, b, c))
    else if op == 0x6 then BitOf(OverflowFromTri(SOUSTRACTION, a, b, 1 - c))
    else if op == 0x7 then BitOf(OverflowFromTri(SOUSTRACTION, b, a, 1 - c))
    else 0
  }

  predicate IsTest(op: nat) {
    0x8 <= op <= 0xb
  }

  /** The CPSR with new flags: bits 27 to 0 stay. */
  function FlagWord(cpsr: word, n: bit, z: bit, c: bit, v: bit): word {
    cpsr % 0x1000_0000 + n * 0x8000_0000 + z * 0x4000_0000 + c * 0x2000_0000 + v * 0x1000_0000
  }

  function SetFlags(m: Machine, n: bit, z: bit, c: bit, v: bit): Machine {
    m.(regs := m.regs.(psr := m.regs.psr[0 := FlagWord(Cpsr(m), n, z, c, v)]))
  }

  /** N and Z describe `result`; C and V are computed from the operand `a`. */
  function SetAluFlags(m: Machine, op: nat, a: word, sh: Shifted, result: word): Machine {
    SetFlags(m, Bit(result, 31), BitOf(result == 0),
             AluCarry(op, a, sh.value, CarryBit(m), sh.carry), AluOverflow(op, a, sh.value, CarryBit(m)))
  }

  /** Copies the SPSR to the CPSR, in modes that have one. */
  function RestoreCpsr(m: Machine): Machine {
    if HasSpsr(m.regs) then m.(regs := WriteCpsr(m.regs, ReadSpsr(m.regs))) else m
  }

  /** An instruction once its operands are decoded. Tests set the flags whatever `s` is; the other
      opcodes read Rn again, after Rd has been written, to compute C and V. */
  function Process(m: Machine, op: nat, s: bit, rn: regno, rd: regno, sh: Shifted): Machine {
    var result := AluResult(op, ReadReg(m, rn), sh.value, CarryBit(m));
    if IsTest(op) then SetAluFlags(m, op, ReadReg(m, rn), sh, result)
    else
      var written := WriteReg(m, rd, result);
      if s == 0 then written
      else if rd == 15 then RestoreCpsr(written)
      else SetAluFlags(written, op, ReadReg(written, rn), sh, result)
  }

  function Opcode(ins: word): nat {
    Bits(ins, 24, 21)
  }

  function Rn(ins: word): regno {
    assert Pow2(4) == 16;
    Bits(ins, 19, 16)
  }

  function Rd(ins: word): regno {
    assert Pow2(4) == 16;
    Bits(ins, 15, 12)
  }

  function ProcessData(m: Machine, ins: word): Effect {
    match ShifterOperand(m, ins)
    case None => Effect(m, Returned(UNDEFINED_INSTRUCTION))
    case Some(sh) => Effect(Process(m, Opcode(ins), Bit(ins, 20), Rn(ins), Rd(ins), sh), DONE)
  }

  // ---- the closed forms of the source ------------------------------------

  lemma LslImmediate(v: word, c: bit, n: nat)
    requires n < 32
    ensures ImmediateShift(0, Shifted(v, c), n) == Shifted(Shl(v, n), if n == 0 then c else Bit(v, 32 - n))
  {
    LeftValue(v, c, n);
    if n > 0 {
      LeftCarry(v, c, n);
    }
  }

  lemma LsrImmediate(v: word, c: bit, n: nat)
    requires n < 32
    ensures ImmediateShift(1, Shifted(v, c), n)
            == if n == 0 then Shifted(0, Bit(v, 31)) else Shifted(Shr(v, n), Bit(v, n - 1))
  {
    if n == 0 {
      RightBeyond(v, c, 32);
    } else {
      RightValue(v, c, n);
      RightCarry(v, c, n);
    }
  }

  lemma AsrImmediate(v: word, c: bit, n: nat)
    requires n < 32
    ensures ImmediateShift(2, Shifted(v, c), n)
            == if n == 0 then (if Bit(v, 31) == 0 then Shifted(0, 0) else Shifted(0xffffffff, 1))
               else Shifted(Asr(v, n), Bit(v, n - 1))
  {
    if n == 0 {
      TopBit(v);
      ArithmeticBeyond(v, c, 32);
    } else {
      AsrSteps(v, c, n);
    }
  }

  lemma AsrSteps(v: word, c: bit, n: nat)
    requires 1 <= n < 32
    ensures ShiftBy(ArithmeticRight, Shifted(v, c), n) == Shifted(Asr(v, n), Bit(v, n - 1))
  {
    AsrValue(v, n);
    ArithmeticValue(v, c, n);
    ArithmeticCarry(v, c, n);
  }

  /** ROR by an immediate as the source computes it, and RRX. */
  lemma RorImmediate(v: word, c: bit, n: nat)
    requires n < 32
    ensures ImmediateShift(3, Shifted(v, c), n)
            == if n == 0 then Shifted(Or(Shl(c, 31), Shr(v, 1)), Bit(v, 0))
               else Shifted(Asr(v, n), Bit(v, n - 1))
  {
    if n == 0 {
      ExtendedValue(Shifted(v, c));
    } else {
      AsrSteps(v, c, n);
    }
  }

  lemma LslRegister(v: word, c: bit, n: nat)
    ensures RegisterShift(0, Shifted(v, c), n)
            == if n == 0 then Shifted(v, c)
               else if n < 32 then Shifted(Shl(v, n), Bit(v, 32 - n))
               else if n == 32 then Shifted(0, v % 2)
               else Shifted(0, 0)
  {
    LeftValue(v, c, n);
    if 0 < n <= 32 {
      LeftCarry(v, c, n);
      ShlAll(v);
    } else if n > 32 {
      LeftBeyond(v, c, n);
    }
  }

  lemma LsrRegister(v: word, c: bit, n: nat)
    ensures RegisterShift(1, Shifted(v, c), n)
            == if n == 0 then Shifted(v, c)
               else if n < 32 then Shifted(Shr(v, n), Bit(v, n - 1))
               else if n == 32 then Shifted(0, Bit(v, 31))
               else Shifted(0, 0)
  {
    if n >= 32 {
      RightBeyond(v, c, n);
    } else if n > 0 {
      RightValue(v, c, n);
      RightCarry(v, c, n);
    }
  }

  lemma AsrRegister(v: word, c: bit, n: nat)
    ensures RegisterShift(2, Shifted(v, c), n)
            == if n == 0 then Shifted(v, c)
               else if n < 32 then Shifted(Asr(v, n), Bit(v, n - 1))
               else if Bit(v, 31) == 0 then Shifted(0, 0)
               else Shifted(0xffffffff, 1)
  {
    if n >= 32 {
      TopBit(v);
      ArithmeticBeyond(v, c, n);
    } else if n > 0 {
      AsrSteps(v, c, n);
    }
  }

  lemma RorRegister(v: word, c: bit, n: nat)
    ensures RegisterShift(3, Shifted(v, c), n)
            == if n == 0 then Shifted(v, c)
               else if n % 16 == 0 then Shifted(v, Bit(v, 31))
               else Shifted(Asr(v, n % 16), Bit(v, n % 16 - 1))
  {
    if n % 16 != 0 {
      AsrSteps(v, c, n % 16);
    }
  }

  /** A rotated immediate and its carry-out. */
  lemma RotatedImmediate(v: word, c: bit, n: nat)
    requires n < 32
    ensures ShiftBy(Rotate, Shifted(v, c), n) == Shifted(Ror(v, n), if n == 0 then c else Bit(Ror(v, n), 31))
  {
    RorRotates(v, c, n);
    if n > 0 {
      RotateCarry(Shifted(v, c), n);
    }
  }

  /** The fields the source reads from bits 11 to 4. */
  lemma ShifterFields(ins: word)
    ensures var code := Shr(ins, 4) % 0x100;
            Bit(ins, 4) == code % 2 && Bits(ins, 6, 5) == code / 2 % 4 && Bit(ins, 7) == code / 8 % 2
            && Bits(ins, 11, 7) == Shr(code, 3) == code / 8 && Bits(ins, 11, 8) == Shr(Shr(code, 3), 1)
  {
    var y := Shr(ins, 4);
    FieldsBelow(y);
    SmallShifts(y);
    SmallShifts(y % 0x100);
    ShrShr(y % 0x100, 3, 1);
    BitShift(ins, 4, 0);
    BitShift(ins, 4, 3);
    ShrShr(ins, 4, 1);
    ShrShr(ins, 4, 3);
    ShrShr(ins, 4, 4);
    assert Pow2(2) == 4 && Pow2(4) == 16 && Pow2(5) == 32;
  }

  lemma FieldsBelow(y: nat)
    ensures y % 0x100 % 2 == y % 2 && y % 0x100 / 2 % 4 == y / 2 % 4 && y % 0x100 / 8 % 2 == y / 8 % 2
    ensures y % 0x100 / 8 == y / 8 % 32 && y % 0x100 / 16 == y / 16 % 16
  {
    FieldsOf(y, y / 0x100, y % 0x100);
  }

  lemma FieldsOf(y: nat, q: nat, r: nat)
    requires y == 0x100 * q + r && r < 0x100
    ensures r % 2 == y % 2 && r / 2 % 4 == y / 2 % 4 && r / 8 % 2 == y / 8 % 2
    ensures r / 8 == y / 8 % 32 && r / 16 == y / 16 % 16
  {
    FieldBelow(q, r);
    FieldMods(q, r / 2, r / 8);
    LinearParts(2, 128 * q, r);
    LinearParts(16, q, r / 16);
  }

  lemma FieldBelow(q: nat, r: nat)
    requires r < 0x100
    ensures (0x100 * q + r) / 2 == 128 * q + r / 2
    ensures (0x100 * q + r) / 8 == 32 * q + r / 8
    ensures (0x100 * q + r) / 16 == 16 * q + r / 16
  {
    LinearParts(2, 128 * q, r);
    LinearParts(8, 32 * q, r);
    LinearParts(16, 16 * q, r);
  }

  lemma FieldMods(q: nat, x: nat, z: nat)
    ensures (128 * q + x) % 4 == x % 4 && (32 * q + z) % 2 == z % 2
    ensures z < 32 ==> (32 * q + z) % 32 == z
  {
    LinearParts(4, 32 * q, x);
    LinearParts(2, 16 * q, z);
    LinearParts(32, q, z);
  }

  lemma SmallShifts(y: nat)
    ensures Shr(y, 1) == y / 2 && Shr(y, 3) == y / 8 && Shr(y, 4) == y / 16
    ensures Bit(y, 0) == y % 2 && Bit(y, 3) == y / 8 % 2
  {
    assert Pow2(1) == 2 && Pow2(3) == 8 && Pow2(4) == 16;
    ShrIsQuotient(y, 1);
    ShrIsQuotient(y, 3);
    ShrIsQuotient(y, 4);
    BitShift(y, 3, 0);
  }

  // ---- the source's steps ------------------------------------------------

  /** The first half of `arm_data_processing_shift`. */
  method ComputeShifter(p: ArmCore, ins: word) returns (ok: bool, shifter: word, carry: bit)
    requires p.Valid()
    ensures ok == ShifterOperand(p.State(), ins).Some?
    ensures ok ==> ShifterOperand(p.State(), ins).value == Shifted(shifter, carry)
  {
    var cpsr := p.ReadCpsr();
    carry := Bit(cpsr, 29);
    ShifterFields(ins);
    assert Pow2(4) == 16 && Pow2(8) == 0x100;
    if Bit(ins, 25) == 1 {
      var rotation := Bits(ins, 11, 8) * 2;
      RotatedImmediate(Bits(ins, 7, 0), carry, rotation);
      shifter := Ror(Bits(ins, 7, 0), rotation);
      if rotation != 0 {
        carry := Bit(shifter, 31);
      }
      return true, shifter, carry;
    }
    var code := Shr(ins, 4) % 0x100;
    var amount := Shr(code, 3);
    var rm := p.ReadRegister(Bits(ins, 3, 0));
    if code % 2 == 0 {
      shifter, carry := ShiftedByImmediate(code / 2 % 4, amount, rm, carry);
      return true, shifter, carry;
    } else if code / 8 % 2 == 0 {
      var rs := p.ReadRegister(Shr(amount, 1));
      shifter, carry := ShiftedByRegister(code / 2 % 4, rs % 0x100, rm, carry);
      return true, shifter, carry;
    } else {
      return false, 0, carry;
    }
  }

  /** Shifts whose amount is in the instruction. */
  method ShiftedByImmediate(shift: nat, amount: nat, rm: word, c: bit) returns (shifter: word, carry: bit)
    requires shift < 4 && amount < 32
    ensures Shifted(shifter, carry) == ImmediateShift(shift, Shifted(rm, c), amount)
  {
    carry := c;
    if shift == 0 && amount == 0 {
      LslImmediate(rm, c, amount);
      ShlZero(rm);
      shifter := rm;
    } else if shift == 0 {
      LslImmediate(rm, c, amount);
      shifter := Shl(rm, amount);
      if amount > 0 {
        carry := Bit(rm, 32 - amount);
      }
    } else if shift == 1 {
      LsrImmediate(rm, c, amount);
      if amount == 0 {
        shifter := 0;
        carry := Bit(rm, 31);
      } else {
        shifter := Shr(rm, amount);
        carry := Bit(rm, amount - 1);
      }
    } else if shift == 2 {
      AsrImmediate(rm, c, amount);
      if amount == 0 {
        if Bit(rm, 31) == 0 {
          shifter := 0;
          carry := 0;
        } else {
          shifter := 0xffffffff;
          carry := 1;
        }
      } else {
        shifter := Asr(rm, amount);
        carry := Bit(rm, amount - 1);
      }
    } else {
      RorImmediate(rm, c, amount);
      if amount == 0 {
        shifter := Or(Shl(carry, 31), Shr(rm, 1));
        carry := Bit(rm, 0);
      } else {
        shifter := Asr(rm, amount);
        carry := Bit(rm, amount - 1);
      }
    }
  }

  /** Shifts whose amount is the low byte of a register. */
  method ShiftedByRegister(shift: nat, rs: nat, rm: word, c: bit) returns (shifter: word, carry: bit)
    requires shift < 4 && rs < 0x100
    ensures Shifted(shifter, carry) == RegisterShift(shift, Shifted(rm, c), rs)
  {
    shifter, carry := rm, c;
    if shift == 0 {
      LslRegister(rm, c, rs);
      if rs == 0 {
      } else if rs < 32 {
        shifter := Shl(rm, rs);
        carry := Bit(rm, 32 - rs);
      } else if rs == 32 {
        shifter := 0;
        carry := rm % 2;
      } else {
        shifter := 0;
        carry := 0;
      }
    } else if shift == 1 {
      LsrRegister(rm, c, rs);
      if rs == 0 {
      } else if rs < 32 {
        shifter := Shr(rm, rs);
        carry := Bit(rm, rs - 1);
      } else if rs == 32 {
        shifter := 0;
        carry := Bit(rm, 31);
      } else {
        shifter := 0;
        carry := 0;
      }
    } else if shift == 2 {
      AsrRegister(rm, c, rs);
      if rs == 0 {
      } else if rs < 32 {
        shifter := Asr(rm, rs);
        carry := Bit(rm, rs - 1);
      } else if Bit(rm, 31) == 0 {
        shifter := 0;
        carry := 0;
      } else {
        shifter := 0xffffffff;
        carry := 1;
      }
    } else {
      RorRegister(rm, c, rs);
      if rs == 0 {
      } else if rs % 0x10 == 0 {
        carry := Bit(rm, 31);
      } else {
        shifter := Asr(rm, rs % 0x10);
        carry := Bit(rm, rs % 0x10 - 1);
      }
    }
  }

  /** `arm_data_processing_shift` */
  method ArmDataProcessingShift(p: ArmCore, ins: word) returns (res: Outcome)
    requires p.Valid()
    modifies p.reg.main, p.reg.banked, p.reg.psr
    ensures Effect(p.State(), res) == ProcessData(old(p.State()), ins)
  {
    var ok, shifter, carry := ComputeShifter(p, ins);
    if !ok {
      return Returned(UNDEFINED_INSTRUCTION);
    }
    var op, s, rn, rd := Bits(ins, 24, 21), Bit(ins, 20), Rn(ins), Rd(ins);
    assert Pow2(4) == 16;
    Execute(p, op, s, rn, rd, shifter, carry);
    return DONE;
  }

  /** Its switch on the opcode. */
  method Execute(p: ArmCore, op: nat, s: bit, rn: regno, rd: regno, shifter: word, carry: bit)
    requires p.Valid() && op < 16
    modifies p.reg.main, p.reg.banked, p.reg.psr
    ensures p.State() == Process(old(p.State()), op, s, rn, rd, Shifted(shifter, carry))
  {
    var a := p.ReadRegister(rn);
    var cpsr := p.ReadCpsr();
    var c := Bit(cpsr, 29);
    var result := Compute(op, a, shifter, c);
    if 0x8 <= op <= 0xb {
      var flagC, flagV := ComputeFlags(op, a, shifter, c, carry);
      WriteFlags(p, Bit(result, 31), BitOf(result == 0), flagC, flagV);
      return;
    }
    p.WriteRegister(rd, result);
    if s == 1 && rd == 15 {
      if p.reg.CurrentModeHasSpsr() {
        p.reg.WriteCpsrRegister(p.reg.ReadSpsrRegister());
      }
    } else if s == 1 {
      var d := p.ReadRegister(rd);
      var n := p.ReadRegister(rn);
      var flagC, flagV := ComputeFlags(op, n, shifter, c, carry);
      WriteFlags(p, Bit(d, 31), BitOf(d == 0), flagC, flagV);
    }
  }

  method Compute(op: nat, a: word, shifter: word, c: bit) returns (result: word)
    requires op < 16
    ensures result == AluResult(op, a, shifter, c)
  {
    match op
    case 0 => result := And(a, shifter);
    case 1 => result := Xor(a, shifter);
    case 2 => result := Wrap(a - shifter);
    case 3 => result := Wrap(shifter - a);
    case 4 => result := Wrap(a + shifter);
    case 5 => result := Wrap(a + shifter + c);
    case 6 => result := Wrap(a - shifter - BitOf(c == 0));
    case 7 => result := Wrap(shifter - a - BitOf(c == 0));
    case 8 => result := And(a, shifter);
    case 9 => result := Xor(a, shifter);
    case 10 => result := Wrap(a - shifter);
    case 11 => result := Wrap(a + shifter);
    case 12 => result := Or(a, shifter);
    case 13 => result := shifter;
    case 14 => result := And(a, Not(shifter));
    case _ => result := Not(shifter);
  }

  method ComputeFlags(op: nat, a: word, shifter: word, c: bit, carry: bit) returns (flagC: bit, flagV: bit)
    requires op < 16
    ensures flagC == AluCarry(op, a, shifter, c, carry)
    ensures flagV == AluOverflow(op, a, shifter, c)
  {
    flagC, flagV := carry, 0;
    if op == 2 || op == 10 {
      flagC := BitOf(!BorrowFrom(a, shifter));
      flagV := BitOf(OverflowFrom(SOUSTRACTION, a, shifter));
    } else if op == 3 {
      flagC := BitOf(!BorrowFrom(shifter, a));
      flagV := BitOf(OverflowFrom(SOUSTRACTION, shifter, a));
    } else if op == 4 || op == 11 {
      flagC := BitOf(CarryFrom(a, shifter));
      flagV := BitOf(OverflowFrom(ADDITION, a, shifter));
    } else if op == 5 {
      flagC := BitOf(CarryFromTri(a, shifter, c));
      flagV := BitOf(OverflowFromTri(ADDITION, a, shifter, c));
    } else if op == 6 {
      flagC := BitOf(!BorrowFromTri(a, shifter, BitOf(c == 0)));
      flagV := BitOf(OverflowFromTri(SOUSTRACTION, a, shifter, BitOf(c == 0)));
    } else if op == 7 {
      flagC := BitOf(!BorrowFromTri(shifter, a, BitOf(c == 0)));
      flagV := BitOf(OverflowFromTri(SOUSTRACTION, shifter, a, BitOf(c == 0)));
    }
  }

  method WriteFlags(p: ArmCore, flagN: bit, flagZ: bit, flagC: bit, flagV: bit)
    requires p.Valid()
    modifies p.reg.psr
    ensures p.State() == SetFlags(old(p.State()), flagN, flagZ, flagC, flagV)
  {
    var cpsr := p.ReadCpsr();
    FlagBits(cpsr, flagN, flagZ, flagC, flagV);
    FlagMultiples(flagN, flagZ, flagC, flagV, cpsr);
    var flags := Or(Or(Or(Shl(flagN, 31), Shl(flagZ, 30)), Shl(flagC, 29)), Shl(flagV, 28));
    var value := Or(cpsr % 0x1000_0000, flags);
    WriteFlagBits(p.reg.Contents(), value);
    p.reg.WriteCpsrRegister(value);
  }

  /** The shifts and ors of `write_flags` place four disjoint bits above bit 27. */
  lemma FlagBits(cpsr: word, n: bit, z: bit, c: bit, v: bit)
    ensures Or(cpsr % 0x1000_0000, Or(Or(Or(Shl(n, 31), Shl(z, 30)), Shl(c, 29)), Shl(v, 28)))
            == FlagWord(cpsr, n, z, c, v)
  {
    ShlFlags(n, z, c, v);
    FlagMultiples(n, z, c, v, cpsr);
    OrFlags(Shl(n, 31), Shl(z, 30), Shl(c, 29), Shl(v, 28), cpsr % 0x1000_0000);
  }

  /** The flags read back from the word `write_flags` builds. */
  lemma FlagWordBits(cpsr: word, n: bit, z: bit, c: bit, v: bit)
    ensures var w := FlagWord(cpsr, n, z, c, v);
            Bit(w, 31) == n && Bit(w, 30) == z && Bit(w, 29) == c && Bit(w, 28) == v
  {
    var w := FlagWord(cpsr, n, z, c, v);
    BitShift(w, 28, 0);
    BitShift(w, 28, 1);
    BitShift(w, 28, 2);
    BitShift(w, 28, 3);
    ShrIsQuotient(w, 28);
    PowValues();
    TopNibble(cpsr % 0x1000_0000, n, z, c, v);
    NibbleBits(n, z, c, v);
  }

  lemma TopNibble(low: nat, n: bit, z: bit, c: bit, v: bit)
    requires low < 0x1000_0000
    ensures (low + n * 0x8000_0000 + z * 0x4000_0000 + c * 0x2000_0000 + v * 0x1000_0000) / 0x1000_0000
            == 8 * n + 4 * z + 2 * c + v
  {
  }

  lemma NibbleBits(n: bit, z: bit, c: bit, v: bit)
    ensures var x := 8 * n + 4 * z + 2 * c + v;
            Bit(x, 0) == v && Bit(x, 1) == c && Bit(x, 2) == z && Bit(x, 3) == n
  {
    PairAbove(2 * n + z, c, v);
    PairBits(n, z);
  }

  lemma PairBits(p: bit, q: bit)
    ensures Bit(2 * p + q, 0) == q && Bit(2 * p + q, 1) == p
  {
    assert Bit(2 * p + q, 1) == Bit(p, 0);
  }

  /** Two bits put below a number. */
  lemma PairAbove(y: nat, p: bit, q: bit)
    ensures var x := 4 * y + 2 * p + q;
            Bit(x, 0) == q && Bit(x, 1) == p && Bit(x, 2) == Bit(y, 0) && Bit(x, 3) == Bit(y, 1)
  {
    var x := 4 * y + 2 * p + q;
    BitShift(x, 2, 0);
    BitShift(x, 2, 1);
    assert Shr(x, 2) == Shr(x / 2, 1) == Shr(x / 2 / 2, 0) == y;
    assert Bit(x, 1) == Bit(x / 2, 0);
  }

  lemma OrFlags(n: word, z: word, c: word, v: word, low: word)
    requires n % 0x8000_0000 == 0 && z < 0x8000_0000 && (n + z) % 0x4000_0000 == 0
    requires c < 0x4000_0000 && (n + z + c) % 0x2000_0000 == 0
    requires v < 0x2000_0000 && (n + z + c + v) % 0x1000_0000 == 0
    requires low < 0x1000_0000 && n + z + c + v + low < 0x1_0000_0000
    ensures Or(low, Or(Or(Or(n, z), c), v)) == low + n + z + c + v
  {
    OrUpperFlags(n, z, c);
    OrLowerFlag(Or(Or(n, z), c), v, low);
  }

  lemma OrLowerFlag(u: word, v: word, low: word)
    requires u % 0x2000_0000 == 0 && v < 0x2000_0000 && (u + v) % 0x1000_0000 == 0
    requires low < 0x1000_0000 && u + v + low < 0x1_0000_0000
    ensures Or(low, Or(u, v)) == low + u + v
  {
    OrFlag(u, v, 0x2000_0000);
    OrFlag(u + v, low, 0x1000_0000);
    OrSwap(low, u + v);
  }

  lemma OrUpperFlags(n: word, z: word, c: word)
    requires n % 0x8000_0000 == 0 && z < 0x8000_0000 && (n + z) % 0x4000_0000 == 0
    requires c < 0x4000_0000 && n + z + c < 0x1_0000_0000
    ensures Or(Or(n, z), c) == n + z + c
  {
    OrFlag(n, z, 0x8000_0000);
    OrFlag(n + z, c, 0x4000_0000);
  }

  lemma OrSwap(x: word, y: word)
    ensures Or(x, y) == Or(y, x)
  {
    OrCommutes(x, y, 32);
  }

  lemma FlagMultiples(n: bit, z: bit, c: bit, v: bit, cpsr: word)
    ensures var x: int := n * 0x8000_0000;
            var y: int := x + z * 0x4000_0000;
            var w: int := y + c * 0x2000_0000;
            var f: int := w + v * 0x1000_0000;
            x % 0x8000_0000 == 0 && y % 0x4000_0000 == 0 && w % 0x2000_0000 == 0
            && f % 0x1000_0000 == 0
    ensures FlagWord(cpsr, n, z, c, v) % 0x1000_0000 == cpsr % 0x1000_0000
  {
  }

  lemma OrFlag(x: word, f: word, p: nat)
    requires p in {0x1000_0000, 0x2000_0000, 0x4000_0000, 0x8000_0000} && f < p && x % p == 0
    ensures Or(x, f) == x + f
  {
    PowFlags();
    var k := if p == 0x1000_0000 then 28 else if p == 0x2000_0000 then 29
             else if p == 0x4000_0000 then 30 else 31;
    WordBound(x);
    OrDisjoint(x, f, k, 32);
  }

  lemma PowFlags()
    ensures Pow2(28) == 0x1000_0000 && Pow2(29) == 0x2000_0000
    ensures Pow2(30) == 0x4000_0000 && Pow2(31) == 0x8000_0000
  {
    PowValues();
    assert Pow2(29) == 2 * Pow2(28);
  }

  lemma ShlFlags(n: bit, z: bit, c: bit, v: bit)
    ensures Shl(n, 31) == n * 0x8000_0000 && Shl(z, 30) == z * 0x4000_0000
    ensures Shl(c, 29) == c * 0x2000_0000 && Shl(v, 28) == v * 0x1000_0000
  {
    PowFlags();
  }
}
