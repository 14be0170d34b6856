/** What each opcode computes, by the integers and bits of its operands, and what an instruction leaves in
    the machine with and without the S bit. */
module Meanings {
  import opened Words
  import opened Registers
  import opened Core
  import opened Shifter
  import opened DataProcessing
  import opened AluLaws
  import opened BlockTransfers

  // ---- results -----------------------------------------------------------

  /** `r` is the 32-bit pattern of the integer `exact`. */
  predicate Represents(r: word, exact: int) {
    (exact - r) % 0x1_0000_0000 == 0
  }

  /** The bits of `r` are those of `a` and `b` combined by the truth table `t`, of 00, 01, 10 and 11. */
  predicate Combines(r: word, a: word, b: word, t: (bool, bool, bool, bool)) {
    forall i: nat :: i < 32 ==> (Bit(r, i) == 1 <==> Entry(t, Bit(a, i), Bit(b, i)))
  }

  predicate Entry(t: (bool, bool, bool, bool), x: bit, y: bit) {
    if x == 0 then (if y == 0 then t.0 else t.1) else (if y == 0 then t.2 else t.3)
  }

  /** The meaning of an opcode with operands `a` (Rn) and `b` (the shifter operand) and carry `c`. */
  predicate Means(op: nat, a: word, b: word, c: bit, r: word) {
    match op
    case 0x0 => Combines(r, a, b, (false, false, false, true))
    case 0x1 => Combines(r, a, b, (false, true, true, false))
    case 0x2 => Represents(r, a - b)
    case 0x3 => Represents(r, b - a)
    case 0x4 => Represents(r, a + b)
    case 0x5 => Represents(r, a + b + c)
    case 0x6 => Represents(r, a - b - 1 + c)
    case 0x7 => Represents(r, b - a - 1 + c)
    case 0x8 => Combines(r, a, b, (false, false, false, true))
    case 0x9 => Combines(r, a, b, (false, true, true, false))
    case 0xa => Represents(r, a - b)
    case 0xb => Represents(r, a + b)
    case 0xc => Combines(r, a, b, (false, true, true, true))
    case 0xd => r == b
    case 0xe => Combines(r, a, b, (false, false, true, false))
    case 0xf => Combines(r, a, b, (true, false, true, false))
    case _ => false
  }

  /** The results of the sixteen opcodes have these meanings. */
  lemma ResultMeans(op: nat, a: word, b: word, c: bit)
    requires op < 16
    ensures Means(op, a, b, c, AluResult(op, a, b, c))
  {
    if op in {0x0, 0x1, 0x8, 0x9, 0xc, 0xe, 0xf} {
      LogicalMeans(op, a, b, c);
    } else if op in {0x2, 0x3, 0xa} {
      WrapRepresents(a - b);
      WrapRepresents(b - a);
    } else if op in {0x4, 0x5, 0xb} {
      WrapRepresents(a + b);
      WrapRepresents(a + b + c);
    } else if op != 0xd {
      WrapRepresents(a - b - (1 - c));
      WrapRepresents(b - a - (1 - c));
    }
  }

  lemma LogicalMeans(op: nat, a: word, b: word, c: bit)
    requires op in {0x0, 0x1, 0x8, 0x9, 0xc, 0xe, 0xf}
    ensures Means(op, a, b, c, AluResult(op, a, b, c))
  {
    var t := if op == 0x0 || op == 0x8 then (false, false, false, true)
             else if op == 0x1 || op == 0x9 then (false, true, true, false)
             else if op == 0xc then (false, true, true, true)
             else if op == 0xe then (false, false, true, false) else (true, false, true, false);
    forall i: nat | i < 32 ensures Bit(AluResult(op, a, b, c), i) == 1 <==> Entry(t, Bit(a, i), Bit(b, i)) {
      LogicalBits(a, b, c, i);
    }
  }

  lemma WrapRepresents(x: int)
    ensures Represents(Wrap(x), x)
  {
    LinearParts(0x1_0000_0000, x / 0x1_0000_0000, 0);
  }

  // ---- instructions that write Rd ----------------------------------------

  /** Rd holds the meaning of the opcode; the memory and every other register, in any bank, are as before. */
  ghost predicate Computed(m: Machine, ins: word, m': Machine)
    requires ShifterOperand(m, ins).Some?
  {
    m'.mem == m.mem
    && Means(Opcode(ins), ReadReg(m, Rn(ins)), ShifterOperand(m, ins).value.value, CarryBit(m),
             WrittenTo(m, Rd(ins), m'))
    && forall slot :: IsSlot(slot) && slot != SlotOf(Mode(m.regs), Rd(ins)) ==>
         ReadSlot(m'.regs, slot) == ReadSlot(m.regs, slot)
  }

  /** What `m'` holds in the slot that `r` names in the mode of `m`. */
  function WrittenTo(m: Machine, r: regno, m': Machine): word {
    ReadSlot(m'.regs, SlotOf(Mode(m.regs), r))
  }

  lemma ResultComputed(m: Machine, ins: word, m': Machine)
    requires ShifterOperand(m, ins).Some?
    requires var result := AluResult(Opcode(ins), ReadReg(m, Rn(ins)), ShifterOperand(m, ins).value.value, CarryBit(m));
             var written := WriteReg(m, Rd(ins), result);
             m'.mem == m.mem && m'.regs.main == written.regs.main && m'.regs.banked == written.regs.banked
    ensures Computed(m, ins, m')
  {
    var a, b, c := ReadReg(m, Rn(ins)), ShifterOperand(m, ins).value.value, CarryBit(m);
    OpcodeBound(ins);
    ResultMeans(Opcode(ins), a, b, c);
    forall slot | IsSlot(slot) && slot != SlotOf(Mode(m.regs), Rd(ins))
      ensures ReadSlot(m'.regs, slot) == ReadSlot(m.regs, slot)
    {
      SlotKept(m, Rd(ins), AluResult(Opcode(ins), a, b, c), slot);
    }
  }

  lemma OpcodeBound(ins: word)
    ensures Opcode(ins) < 16
  {
    assert Pow2(4) == 16;
  }

  /** Without the S bit an opcode that is no test computes into Rd, R15 included, and leaves all six status
      registers alone. */
  lemma PlainProcessing(m: Machine, ins: word)
    requires ShifterOperand(m, ins).Some? && Opcode(ins) !in {0x8, 0x9, 0xa, 0xb} && Bit(ins, 20) == 0
    ensures var e := ProcessData(m, ins);
            e.outcome == DONE && Computed(m, ins, e.m) && e.m.regs.psr == m.regs.psr
  {
    ResultComputed(m, ins, ProcessData(m, ins).m);
  }

  /** With the S bit and Rd other than R15 it computes into Rd, and of the status registers changes only
      the four flags. */
  lemma SFormProcessing(m: Machine, ins: word)
    requires SetsFlags(m, ins)
    ensures var e := ProcessData(m, ins);
            e.outcome == DONE && Computed(m, ins, e.m) && e.m.regs.psr[1..] == m.regs.psr[1..]
            && Cpsr(e.m) % 0x1000_0000 == Cpsr(m) % 0x1000_0000
  {
    SFormFlags(m, ins);
    ResultComputed(m, ins, ProcessData(m, ins).m);
  }

  /** With the S bit and Rd = R15 it computes into R15; in modes without an SPSR nothing else changes. */
  lemma ReturnWithoutSpsr(m: Machine, ins: word)
    requires ShifterOperand(m, ins).Some? && Opcode(ins) !in {0x8, 0x9, 0xa, 0xb} && Bit(ins, 20) == 1 && Rd(ins) == 15
    ensures var e := ProcessData(m, ins);
            e.outcome == DONE && Computed(m, ins, e.m)
            && (Mode(m.regs) in {USR, SYS} ==> e.m.regs.psr == m.regs.psr)
  {
    ResultComputed(m, ins, ProcessData(m, ins).m);
  }

  /** A word with no operand form is refused and changes nothing. */
  lemma RefusedProcessing(m: Machine, ins: word)
    requires Bit(ins, 25) == 0 && Bit(ins, 4) == 1 && Bit(ins, 7) == 1
    ensures ProcessData(m, ins) == Effect(m, Returned(2))
  {
  }
}
