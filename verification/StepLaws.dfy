/** Steps of encoded words: branches, MRS and SWI, and the step after a refused fetch. */
module StepLaws {
  import opened Words
  import opened Registers
  import opened RegisterRuns
  import opened Memory
  import opened Core
  import opened DataProcessing
  import opened BranchOther
  import opened Instruction
  import opened Encoding
  import opened Programs
  import BranchReach

  // ---- branches ----------------------------------------------------------

  /** `B` (0xEA......) and `BL` (0xEB......) with a 24-bit field. */
  function BranchWord(link: bit, field: nat): word
    requires field < 0x100_0000
  {
    0xEA00_0000 + link * 0x100_0000 + field
  }

  lemma BranchFields(ins: word, link: bit, field: nat)
    requires field < 0x100_0000 && ins == BranchWord(link, field)
    ensures Classify(ins) == BranchClass && Shr(ins, 28) == 0xE && Bit(ins, 24) == link && BranchField(ins) == field
  {
    PowValues();
    assert Pow2(4) == 16;
    ShrIsQuotient(ins, 24);
    ShrIsQuotient(ins, 28);
    BitShift(ins, 24, 0);
    LowestIs(0x100_0000, 0xEA + link, field);
    BranchQuotients(ins, link, field);
  }

  lemma BranchQuotients(ins: word, link: bit, field: nat)
    requires field < 0x100_0000 && ins == BranchWord(link, field)
    ensures ins / 0x1000_0000 == 0xE && (0xEA + link) % 16 == 0xa + link && (0xEA + link) % 2 == link
  {
  }

  /** The step at address `A`: R15 becomes `A + 8` plus four times the field, read as a signed number, and
      BL leaves `A + 4` in R14; nothing else changes. */
  lemma BranchWordStep(m: Machine, junk: word, link: bit, field: nat)
    requires field < 0x100_0000 && Accepts(m.mem.size, FetchAddress(m), 4)
    requires FetchedWord(m, junk) == BranchWord(link, field)
    ensures var a, e := FetchAddress(m), StepMachine(m, junk);
            e.outcome == DONE && e.m.mem == m.mem && e.m.regs.psr == m.regs.psr
            && Read(e.m.regs, 15)
               == Wrap(a + 8 + 4 * (if field < 0x80_0000 then field else field - 0x100_0000))
            && forall r: regno :: r != 15 ==>
                 Read(e.m.regs, r) == if r == 14 && link == 1 then a + 4 else Read(m.regs, r)
  {
    BranchFields(FetchedWord(m, junk), link, field);
    AlwaysHolds(Cpsr(m), FetchedWord(m, junk));
    BranchReach.BranchStep(m, junk);
    BranchLands(FetchAddress(m), Read(StepMachine(m, junk).m.regs, 15), FetchedWord(m, junk), field);
  }

  lemma BranchLands(a: word, r15: word, ins: word, field: nat)
    requires field < 0x100_0000 && BranchField(ins) == field
    requires r15 == Wrap(a + 8 + 4 * SignExtend24(BranchField(ins)))
    ensures r15 == Wrap(a + 8 + 4 * (if field < 0x80_0000 then field else field - 0x100_0000))
  {
  }

  // ---- MRS ---------------------------------------------------------------

  /** `MRS Rd, CPSR` (0xE10Fd000) and `MRS Rd, SPSR` (0xE14Fd000). */
  function MrsWord(saved: bit, rd: regno): word {
    EncodedWord(0xE10 + 4 * saved, 15, 0x1000 * rd)
  }

  /** The CPSR, or the SPSR of the current mode: the second to sixth status registers in the order of the
      source's array, and zero in user and system mode. */
  function StatusRead(m: Machine, saved: bit): word {
    if saved == 0 then m.regs.psr[0]
    else match Mode(m.regs)
      case 0x10 => 0
      case 0x1f => 0
      case 0x13 => m.regs.psr[1]
      case 0x17 => m.regs.psr[2]
      case 0x1b => m.regs.psr[3]
      case 0x12 => m.regs.psr[4]
      case _ => m.regs.psr[5]
  }

  lemma MrsFields(ins: word, saved: bit, rd: regno)
    requires ins == MrsWord(saved, rd)
    ensures IsMrs(ins) && Rd(ins) == rd && Bit(ins, 22) == saved
    ensures EncodedClass(0xE10 + 4 * saved, 0x1000 * rd) == MrsClass
  {
    var top, low := 0xE10 + 4 * saved, 0x1000 * rd;
    MrsNumbers(top, low, saved, rd);
    TopFields(ins, top, 15, low);
    LowFields(ins, top, 15, low);
    ClassFields(ins, top, 15, low);
  }

  lemma MrsNumbers(top: nat, low: nat, saved: bit, rd: regno)
    requires top == 0xE10 + 4 * saved && low == 0x1000 * rd
    ensures top / 0x100 == 0xE && top / 32 % 8 == 0 && top / 16 % 2 == 1 && top / 8 % 2 == 0 && top % 4 == 0
    ensures top / 4 % 2 == saved && low % 0x1000 == 0 && low / 0x1000 == rd && low / 16 % 16 == 0
  {
    LowestIs(0x1000, rd, 0);
    FieldIs(0x10, 16, 0x10 * rd, 0, 0);
  }

  /** Its step puts that register in Rd; the memory, the status registers and every other register but R15,
      in any bank, are as before. */
  lemma MrsStep(m: Machine, junk: word, saved: bit, rd: regno)
    requires Accepts(m.mem.size, FetchAddress(m), 4) && FetchedWord(m, junk) == MrsWord(saved, rd)
    ensures var e := StepMachine(m, junk);
            e.outcome == DONE && e.m.mem == m.mem && e.m.regs.psr == m.regs.psr
            && Read(e.m.regs, rd) == StatusRead(m, saved)
    ensures forall slot :: IsSlot(slot) && slot != Main(15) && slot != SlotOf(Mode(m.regs), rd) ==>
              ReadSlot(StepMachine(m, junk).m.regs, slot) == ReadSlot(m.regs, slot)
  {
    var top, at := 0xE10 + 4 * saved, Advanced(m);
    MrsFields(MrsWord(saved, rd), saved, rd);
    EncodedRuns(m, junk, MrsWord(saved, rd), top, 15, 0x1000 * rd);
    MrsWrites(m, saved, rd);
  }

  lemma MrsWrites(m: Machine, saved: bit, rd: regno)
    ensures var e := Miscellaneous(Advanced(m), MrsWord(saved, rd));
            e.outcome == DONE && e.m.mem == m.mem && e.m.regs.psr == m.regs.psr
            && Read(e.m.regs, rd) == StatusRead(m, saved)
            && forall slot :: IsSlot(slot) && slot != Main(15) && slot != SlotOf(Mode(m.regs), rd) ==>
                 ReadSlot(e.m.regs, slot) == ReadSlot(m.regs, slot)
  {
    var at, v := Advanced(m), StatusRead(m, saved);
    MrsFields(MrsWord(saved, rd), saved, rd);
    ReadWritten(at, rd, v, rd);
    SavedByMode(m);
    MrsIs(at, MrsWord(saved, rd));
    forall slot | IsSlot(slot) && slot != Main(15) && slot != SlotOf(Mode(m.regs), rd)
      ensures ReadSlot(WriteReg(at, rd, v).regs, slot) == ReadSlot(m.regs, slot)
    {
      SlotKept(m, 15, Wrap(FetchAddress(m) + 4), slot);
      SlotKept(at, rd, v, slot);
    }
  }

  lemma MrsIs(m: Machine, ins: word)
    requires IsMrs(ins)
    ensures Miscellaneous(m, ins)
            == Effect(WriteReg(m, Rd(ins), if Bit(ins, 22) == 1 then ReadSpsr(m.regs) else Cpsr(m)), DONE)
  {
  }

  lemma SavedByMode(m: Machine)
    ensures ReadSpsr(Advanced(m).regs) == StatusRead(m, 1) && Cpsr(Advanced(m)) == StatusRead(m, 0)
  {
    assert Advanced(m).regs.psr == m.regs.psr;
  }

  /** Any other word that reaches the MRS handler is refused without any change. */
  lemma OtherMiscellaneous(m: Machine, ins: word)
    requires !(Bits(ins, 11, 0) == 0 && Bits(ins, 19, 16) == 15 && Bits(ins, 21, 20) == 0)
    ensures Miscellaneous(m, ins) == Effect(m, Returned(2))
  {
  }

  // ---- SWI ---------------------------------------------------------------

  /** SWI 0x123456 ends the simulation, every other one returns the number of a software interrupt; the
      machine has only moved on. */
  lemma SwiStep(m: Machine, junk: word)
    requires Bits(FetchedWord(m, junk), 27, 24) == 0xf && InstCond(Cpsr(m), FetchedWord(m, junk))
    ensures StepMachine(m, junk)
            == Effect(Advanced(m), if FetchedWord(m, junk) % 0x100_0000 == 0x12_3456 then Exited else Returned(3))
  {
    var ins := FetchedWord(m, junk);
    SwiWords(ins);
    SwiFields(ins);
    assert Cpsr(Advanced(m)) == Cpsr(m);
  }

  // ---- refused fetches ---------------------------------------------------

  /** After a refused fetch the undefined word runs as any other; if its condition fails, or no handler
      takes it, the step returns -1. */
  lemma RefusedFetch(m: Machine, junk: word)
    requires !Accepts(m.mem.size, FetchAddress(m), 4)
    ensures FetchedWord(m, junk) == junk
    ensures !InstCond(Cpsr(m), junk) || Classify(junk) == Nothing ==>
              StepMachine(m, junk) == Effect(Advanced(m), Returned(-1))
    ensures InstCond(Cpsr(m), junk) && Classify(junk) != Nothing ==>
              StepMachine(m, junk) == Dispatch(Advanced(m), junk, DONE)
  {
    assert Cpsr(Advanced(m)) == Cpsr(m);
  }
}
