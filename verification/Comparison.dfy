/** A comparison followed by a condition decides the order of the operands. */
module Comparison {
  import opened Words
  import opened Flags
  import opened Shifter
  import opened Core
  import opened DataProcessing
  import opened Instruction
  import AluLaws

  lemma WrapZero(a: word, b: word)
    ensures Wrap(a - b) == 0 <==> a == b
  {
  }

  /** The flags after `CMP`. */
  lemma CompareFlags(m: Machine, ins: word)
    requires ShifterOperand(m, ins).Some? && Opcode(ins) == 0xa
    ensures var a, b := ReadReg(m, Rn(ins)), ShifterOperand(m, ins).value.value;
            var flags := Cpsr(ProcessData(m, ins).m);
            (Bit(flags, 31) == 1 <==> Wrap(a - b) >= 0x8000_0000) && (Bit(flags, 30) == 1 <==> a == b)
            && (Bit(flags, 29) == 1 <==> a >= b)
            && (Bit(flags, 28) == 1 <==> !FitsSigned(Signed(a) - Signed(b)))
  {
    var a, sh := ReadReg(m, Rn(ins)), ShifterOperand(m, ins).value;
    AluLaws.TestFlags(m, ins);
    CompareResult(Opcode(ins), a, sh.value, CarryBit(m));
    WrapZero(a, sh.value);
    AluLaws.CompareFlagBits(m, ins);
  }

  lemma CompareResult(op: nat, a: word, b: word, c: bit)
    requires op == 0xa
    ensures AluResult(op, a, b, c) == Wrap(a - b)
  {
  }

  lemma SignedOrder(a: word, b: word)
    ensures Signed(a) < Signed(b)
            <==> ((Wrap(a - b) >= 0x8000_0000) != !FitsSigned(Signed(a) - Signed(b)))
  {
    WrapSigned(a, b);
    SignedWrap(Signed(a) - Signed(b));
  }

  /** What a condition says of the operands of a comparison. */
  predicate Ordered(cond: nat, a: word, b: word) {
    match cond
    case 0x0 => a == b
    case 0x1 => a != b
    case 0x2 => a >= b
    case 0x3 => a < b
    case 0x4 => Wrap(a - b) >= 0x8000_0000
    case 0x5 => Wrap(a - b) < 0x8000_0000
    case 0x6 => !FitsSigned(Signed(a) - Signed(b))
    case 0x7 => FitsSigned(Signed(a) - Signed(b))
    case 0x8 => a > b
    case 0x9 => a <= b
    case 0xA => Signed(a) >= Signed(b)
    case 0xB => Signed(a) < Signed(b)
    case 0xC => Signed(a) > Signed(b)
    case 0xD => Signed(a) <= Signed(b)
    case _ => true
  }

  /** For every pair of operands, in every mode, and whatever the old flags: after `CMP a, b` each
      condition of a later instruction holds exactly when the operands are in the order it names. */
  lemma CompareDecides(m: Machine, ins: word, next: word)
    requires ShifterOperand(m, ins).Some? && Opcode(ins) == 0xa
    ensures InstCond(Cpsr(ProcessData(m, ins).m), next)
            <==> Ordered(Shr(next, 28), ReadReg(m, Rn(ins)), ShifterOperand(m, ins).value.value)
  {
    CompareFlags(m, ins);
    SignedOrder(ReadReg(m, Rn(ins)), ShifterOperand(m, ins).value.value);
  }
}
