/** What becomes of MSR, BX and their neighbours, which the source does not implement: the dispatcher
    takes them for tests without the S bit. */
module StatusWrites {
  import opened Words
  import opened Registers
  import opened Memory
  import opened Core
  import opened DataProcessing
  import opened Instruction
  import opened Encoding
  import AluLaws

  /** A word of the MSR encodings, by a register or an immediate: bits 27, 26, 23 and 20 clear, 24 and 21
      set. Those by a register contain BX, BLX by a register and CLZ. */
  predicate IsStatusWord(ins: word) {
    Bits(ins, 27, 24) in {0x1, 0x3} && Bit(ins, 23) == 0 && Bit(ins, 21) == 1 && Bit(ins, 20) == 0
    && (Bits(ins, 27, 24) == 0x1 ==> Bits(ins, 7, 4) != 0xb)
  }

  /** The opcode, bit by bit. */
  lemma OpcodeBits(ins: word)
    ensures Opcode(ins) == 8 * Bit(ins, 24) + 4 * Bit(ins, 23) + 2 * Bit(ins, 22) + Bit(ins, 21)
  {
    var y := Shr(ins, 21);
    assert Pow2(4) == 16;
    BitShift(ins, 21, 0);
    BitShift(ins, 21, 1);
    BitShift(ins, 21, 2);
    BitShift(ins, 21, 3);
    NibbleOf(y);
    BitsAbove(y);
  }

  lemma NeighbourBits(ins: word)
    ensures Bit(ins, 24) == Bits(ins, 27, 24) % 2 && Bits(ins, 21, 20) == 2 * Bit(ins, 21) + Bit(ins, 20)
  {
    assert Pow2(2) == 4 && Pow2(4) == 16;
    BitShift(ins, 20, 0);
    BitShift(ins, 20, 1);
    BitShift(ins, 24, 0);
    HalfMod(Shr(ins, 24), 8);
    HalfMod(Shr(ins, 20), 2);
    BitsAbove(Shr(ins, 20));
  }

  lemma NibbleOf(x: nat)
    ensures x % 16 == x % 2 + 2 * (x / 2 % 2) + 4 * (x / 2 / 2 % 2) + 8 * (x / 2 / 2 / 2 % 2)
  {
    HalfMod(x, 8);
    HalfMod(x / 2, 4);
    HalfMod(x / 2 / 2, 2);
  }

  lemma BitsAbove(y: nat)
    ensures Bit(y, 0) == y % 2 && Bit(y, 1) == y / 2 % 2
    ensures Bit(y, 2) == y / 2 / 2 % 2 && Bit(y, 3) == y / 2 / 2 / 2 % 2
  {
    assert Bit(y, 2) == Bit(y / 2, 1) == Bit(y / 2 / 2, 0);
    assert Bit(y, 3) == Bit(y / 2, 2) == Bit(y / 2 / 2, 1) == Bit(y / 2 / 2 / 2, 0);
  }

  /** Each such word is dispatched as TEQ or CMN. */
  lemma StatusWordsAreTests(ins: word)
    requires IsStatusWord(ins)
    ensures Classify(ins) == Processing && Opcode(ins) == (if Bit(ins, 22) == 0 then 0x9 else 0xb)
  {
    OpcodeBits(ins);
    NeighbourBits(ins);
  }

  /** So its step changes nothing but R15 and the four flags, or is refused: no status register is
      written, no mode is entered and no branch is taken. */
  lemma StatusStep(m: Machine, junk: word)
    requires Accepts(m.mem.size, FetchAddress(m), 4)
    requires IsStatusWord(FetchedWord(m, junk)) && InstCond(Cpsr(m), FetchedWord(m, junk))
    ensures var ins, e := FetchedWord(m, junk), StepMachine(m, junk);
            e.outcome == (if ShifterOperand(Advanced(m), ins).Some? then DONE else Returned(UNDEFINED_INSTRUCTION))
            && e.m.mem == m.mem && e.m.regs.main == Advanced(m).regs.main && e.m.regs.banked == m.regs.banked
            && e.m.regs.psr[1..] == m.regs.psr[1..] && Cpsr(e.m) % 0x1000_0000 == Cpsr(m) % 0x1000_0000
            && (ShifterOperand(Advanced(m), ins).None? ==> Cpsr(e.m) == Cpsr(m))
  {
    var ins := FetchedWord(m, junk);
    StatusWordsAreTests(ins);
    ProcessingStep(m, junk);
    if ShifterOperand(Advanced(m), ins).Some? {
      AluLaws.TestFlags(Advanced(m), ins);
    }
  }

  lemma ProcessingStep(m: Machine, junk: word)
    requires Accepts(m.mem.size, FetchAddress(m), 4)
    requires Classify(FetchedWord(m, junk)) == Processing && InstCond(Cpsr(m), FetchedWord(m, junk))
    ensures StepMachine(m, junk) == ProcessData(Advanced(m), FetchedWord(m, junk))
  {
  }

  /** Two of them: `BX R14` and `MSR CPSR_c, R0`. */
  lemma BranchExchangeIsTest(m: Machine, ins: word)
    requires ins == EncodedWord(0xE12, 15, 0xFF1E) || ins == EncodedWord(0xE12, 1, 0xF000)
    ensures IsStatusWord(ins) && Shr(ins, 28) == 0xE && ShifterOperand(m, ins).Some?
  {
    var top: nat, low: nat := 0xE12, if ins == EncodedWord(0xE12, 15, 0xFF1E) then 0xFF1E else 0xF000;
    LiteralFields(top, low);
    StatusFields(m, ins, top, if ins == EncodedWord(0xE12, 15, 0xFF1E) then 15 else 1, low);
  }

  lemma LiteralFields(top: nat, low: nat)
    requires top == 0xE12 && low in {0xFF1E, 0xF000}
    ensures top < 0x1000 && low < 0x1_0000 && top / 0x100 == 0xE && top / 16 % 16 == 0x1 && top / 8 % 2 == 0
    ensures top / 2 % 2 == 1 && top % 2 == 0 && low / 16 % 16 != 0xb && low / 0x80 % 2 == 0
  {
  }

  lemma StatusFields(m: Machine, ins: word, top: nat, rn: regno, low: nat)
    requires top < 0x1000 && low < 0x1_0000 && ins == EncodedWord(top, rn, low)
    requires top / 0x100 == 0xE && top / 16 % 16 == 0x1 && top / 8 % 2 == 0 && top / 2 % 2 == 1 && top % 2 == 0
    requires low / 16 % 16 != 0xb && low / 0x80 % 2 == 0
    ensures IsStatusWord(ins) && Shr(ins, 28) == 0xE && ShifterOperand(m, ins).Some?
  {
    TopFields(ins, top, rn, low);
    ClassFields(ins, top, rn, low);
    LowFields(ins, top, rn, low);
  }
}
