/** Instructions as steps of the machine: what runs when a word is fetched, and a comparison followed by a
    conditional branch. */
module Programs {
  import opened Words
  import opened Registers
  import opened Memory
  import opened Core
  import opened DataProcessing
  import opened LoadStore
  import opened BranchOther
  import opened Instruction
  import opened Encoding
  import opened Comparison
  import AluLaws
  import BranchReach

  // ---- encoded words -----------------------------------------------------

  /** The class of a word by its numbers: the three bits under the condition, the five after them, and bits
      7 to 4. */
  function EncodedClass(top: nat, low: nat): Class {
    match top / 32 % 8
    case 0 =>
      if low / 16 % 16 == 0xb then HalfTransfer
      else if top / 16 % 2 == 1 && top / 8 % 2 == 0 && top % 4 == 0 then MrsClass
      else Processing
    case 1 => Processing
    case 2 => WordTransfer
    case 3 => if low / 16 % 2 == 0 then WordTransfer else Nothing
    case 4 => BlockTransfer
    case 5 => BranchClass
    case 6 => Nothing
    case _ => if top / 16 % 2 == 1 then SwiClass else Nothing
  }

  lemma ClassEncoded(ins: word, top: nat, rn: regno, low: nat)
    requires top < 0x1000 && low < 0x1_0000 && ins == EncodedWord(top, rn, low)
    ensures Classify(ins) == EncodedClass(top, low) && Shr(ins, 28) == top / 0x100
  {
    ClassFields(ins, top, rn, low);
    TopFields(ins, top, rn, low);
    LowFields(ins, top, rn, low);
    NibblesOfTop(top);
    HalfMod(low / 16, 8);
    NibbleOfHalves(top);
  }

  lemma NibbleOfHalves(top: nat)
    ensures top / 16 % 16 == 2 * (top / 32 % 8) + top / 16 % 2
  {
    HalfMod(top / 16, 8);
    HalvedTop(top);
  }

  /** The step of an unconditional word: the handler of its class, run on the machine after the fetch. */
  lemma EncodedRuns(m: Machine, junk: word, ins: word, top: nat, rn: regno, low: nat)
    requires top < 0x1000 && low < 0x1_0000 && ins == EncodedWord(top, rn, low) && top / 0x100 == 0xE
    requires Accepts(m.mem.size, FetchAddress(m), 4) && FetchedWord(m, junk) == ins
    ensures var e, at := StepMachine(m, junk), Advanced(m);
            match EncodedClass(top, low)
            case HalfTransfer => e == LoadStoreSingle(at, ins)
            case WordTransfer => e == LoadStoreSingle(at, ins)
            case BlockTransfer => e == LoadStoreMultiple(at, ins)
            case BranchClass => e == Effect(Branch(at, ins), DONE)
            case MrsClass => e == Miscellaneous(at, ins)
            case SwiClass => e == Effect(at, SoftwareInterrupt(ins))
            case Processing => e == ProcessData(at, ins)
            case Nothing => e == Effect(at, DONE)
  {
    ClassEncoded(ins, top, rn, low);
    AlwaysRuns(m, junk, ins);
  }

  lemma AlwaysRuns(m: Machine, junk: word, ins: word)
    requires Accepts(m.mem.size, FetchAddress(m), 4) && FetchedWord(m, junk) == ins && Shr(ins, 28) == 0xE
    ensures StepMachine(m, junk) == Dispatch(Advanced(m), ins, DONE)
  {
    AlwaysHolds(Cpsr(Advanced(m)), ins);
    Dispatches(m, junk);
  }

  lemma AlwaysHolds(cpsr: word, ins: word)
    requires Shr(ins, 28) == 0xE
    ensures InstCond(cpsr, ins)
  {
  }

  /** A fetched word whose condition holds is dispatched. */
  lemma Dispatches(m: Machine, junk: word)
    requires Accepts(m.mem.size, FetchAddress(m), 4) && InstCond(Cpsr(Advanced(m)), FetchedWord(m, junk))
    ensures StepMachine(m, junk) == Dispatch(Advanced(m), FetchedWord(m, junk), DONE)
  {
  }

  lemma NibblesOfTop(top: nat)
    ensures top / 64 % 4 == top / 32 % 8 / 2 && top % 4 % 2 == top % 2
    ensures top / 16 % 16 / 2 == top / 32 % 8
  {
    HalfMod(top, 2);
    HalfMod(top / 16, 8);
    HalfMod(top / 32, 4);
    HalvedTop(top);
  }

  lemma HalvedTop(top: nat)
    ensures top / 16 / 2 == top / 32 && top / 32 / 2 == top / 64
  {
  }

  /** `STR Rd, [Rn, #-4]!` and `LDR Rd, [Rn], #4` run as single transfers. */
  lemma PushPopRun(m: Machine, junk: word, ins: word, rd: regno, rn: regno)
    requires ins == EncodedWord(0xE52, rn, 0x1000 * rd + 4) || ins == EncodedWord(0xE49, rn, 0x1000 * rd + 4)
    requires Accepts(m.mem.size, FetchAddress(m), 4) && FetchedWord(m, junk) == ins
    ensures StepMachine(m, junk) == LoadStoreSingle(Advanced(m), ins)
  {
    var top: nat := if ins == EncodedWord(0xE52, rn, 0x1000 * rd + 4) then 0xE52 else 0xE49;
    TransferClass(top);
    EncodedRuns(m, junk, ins, top, rn, 0x1000 * rd + 4);
  }

  lemma TransferClass(top: nat)
    requires top == 0xE52 || top == 0xE49
    ensures top < 0x1000 && top / 0x100 == 0xE && top / 32 % 8 == 2
  {
  }

  /** `STMDB R13!, {list}` and `LDMIA R13!, {list}` run as block transfers. */
  lemma BlocksRun(m: Machine, junk: word, ins: word, list: nat)
    requires list < 0x1_0000 && (ins == EncodedWord(0xE92, 13, list) || ins == EncodedWord(0xE8B, 13, list))
    requires Accepts(m.mem.size, FetchAddress(m), 4) && FetchedWord(m, junk) == ins
    ensures StepMachine(m, junk) == LoadStoreMultiple(Advanced(m), ins)
  {
    var top: nat := if ins == EncodedWord(0xE92, 13, list) then 0xE92 else 0xE8B;
    BlockClass(top);
    EncodedRuns(m, junk, ins, top, 13, list);
  }

  lemma BlockClass(top: nat)
    requires top == 0xE92 || top == 0xE8B
    ensures top < 0x1000 && top / 0x100 == 0xE && top / 32 % 8 == 4
  {
  }

  /** `opS Rd, Rn, Rm` runs as a data-processing instruction, for each of the sixteen opcodes. */
  lemma ProcessingRuns(m: Machine, junk: word, op: nat, rn: regno, rd: regno, rm: regno)
    requires op < 16
    requires Accepts(m.mem.size, FetchAddress(m), 4)
    requires FetchedWord(m, junk) == EncodedWord(AlwaysS(op), rn, 0x1000 * rd + rm)
    ensures StepMachine(m, junk) == ProcessData(Advanced(m), EncodedWord(AlwaysS(op), rn, 0x1000 * rd + rm))
  {
    AlwaysFields(op);
    ProcessingClass(AlwaysS(op), op, 0x1000 * rd + rm, rd, rm);
    EncodedRuns(m, junk, EncodedWord(AlwaysS(op), rn, 0x1000 * rd + rm), AlwaysS(op), rn, 0x1000 * rd + rm);
  }

  lemma ProcessingClass(top: nat, op: nat, low: nat, rd: regno, rm: regno)
    requires op < 16 && top == AlwaysS(op) && low == 0x1000 * rd + rm
    ensures EncodedClass(top, low) == Processing
  {
    AlwaysFields(op);
    AlwaysClass(op);
    PlainNibble(rd, rm);
    HalfMod(top, 2);
  }

  lemma AlwaysClass(op: nat)
    requires op < 16
    ensures AlwaysS(op) / 32 % 8 == 0
  {
  }

  lemma PlainNibble(rd: regno, rm: regno)
    ensures (0x1000 * rd + rm) / 16 % 16 == 0
  {
    assert (0x1000 * rd + rm) / 16 == 0x100 * rd;
  }

  // ---- compare and branch ------------------------------------------------

  /** A CMP is fetched and executed. */
  predicate Compares(m: Machine, junk: word) {
    var ins := FetchedWord(m, junk);
    Accepts(m.mem.size, FetchAddress(m), 4) && Classify(ins) == Processing && Opcode(ins) == 0xa
    && InstCond(Cpsr(m), ins) && ShifterOperand(Advanced(m), ins).Some?
  }

  /** Its step changes flags and R15 only. */
  lemma CompareStep(m: Machine, junk: word)
    requires Compares(m, junk)
    ensures var ins, e := FetchedWord(m, junk), StepMachine(m, junk);
            e == ProcessData(Advanced(m), ins) && e.outcome == DONE && e.m.mem == m.mem
            && e.m.regs.main == Advanced(m).regs.main && e.m.regs.banked == m.regs.banked
    ensures FetchAddress(StepMachine(m, junk).m) == Wrap(FetchAddress(m) + 4)
  {
    var ins := FetchedWord(m, junk);
    CompareRuns(m, junk);
    AluLaws.TestFlags(Advanced(m), ins);
    NextFetch(m, StepMachine(m, junk).m);
  }

  lemma CompareRuns(m: Machine, junk: word)
    requires Compares(m, junk)
    ensures StepMachine(m, junk) == ProcessData(Advanced(m), FetchedWord(m, junk))
  {
  }

  lemma NextFetch(m: Machine, m': Machine)
    requires Accepts(m.mem.size, FetchAddress(m), 4) && m'.regs.main == Advanced(m).regs.main
    ensures FetchAddress(m') == Wrap(FetchAddress(m) + 4)
  {
    PcIsInstructionPlusEight(m);
  }

  /** Where a branch at `at + 4` leads: to its target, or to the next address. */
  function Destination(at: word, branch: word, taken: bool): word {
    if taken then Wrap(at + 12 + 4 * SignExtend24(BranchField(branch))) else Wrap(at + 8)
  }

  /** A comparison at an address `A` and a branch after it: two steps lead to the branch's target when the
      operands are in the order that its condition names, and to `A + 8` when they are not. */
  lemma CompareThenBranch(m: Machine, junk: word, junk': word)
    requires Compares(m, junk)
    requires var m1 := StepMachine(m, junk).m;
             Accepts(m1.mem.size, FetchAddress(m1), 4) && Classify(FetchedWord(m1, junk')) == BranchClass
    ensures var cmp, m1 := FetchedWord(m, junk), StepMachine(m, junk).m;
            var e, branch := StepMachine(m1, junk'), FetchedWord(m1, junk');
            var a, b := ReadReg(Advanced(m), Rn(cmp)), ShifterOperand(Advanced(m), cmp).value.value;
            e.outcome == DONE
            && Read(e.m.regs, 15) == Destination(FetchAddress(m), branch, Ordered(Shr(branch, 28), a, b))
  {
    var m1 := StepMachine(m, junk).m;
    CompareStep(m, junk);
    CompareDecides(Advanced(m), FetchedWord(m, junk), FetchedWord(m1, junk'));
    BranchAfter(FetchAddress(m), m1, junk');
  }

  lemma BranchAfter(at: word, m: Machine, junk: word)
    requires Accepts(m.mem.size, FetchAddress(m), 4) && Classify(FetchedWord(m, junk)) == BranchClass
    requires FetchAddress(m) == Wrap(at + 4)
    ensures StepMachine(m, junk).outcome == DONE
    ensures var branch := FetchedWord(m, junk);
            Read(StepMachine(m, junk).m.regs, 15) == Destination(at, branch, InstCond(Cpsr(m), branch))
  {
    if InstCond(Cpsr(m), FetchedWord(m, junk)) {
      Taken(at, m, junk);
    } else {
      NotTaken(at, m, junk);
    }
  }

  lemma Taken(at: word, m: Machine, junk: word)
    requires Accepts(m.mem.size, FetchAddress(m), 4) && Classify(FetchedWord(m, junk)) == BranchClass
    requires InstCond(Cpsr(m), FetchedWord(m, junk)) && FetchAddress(m) == Wrap(at + 4)
    ensures StepMachine(m, junk).outcome == DONE
    ensures Read(StepMachine(m, junk).m.regs, 15) == Destination(at, FetchedWord(m, junk), true)
  {
    BranchReach.BranchLeads(m, junk);
    Landing(at, FetchAddress(m), FetchedWord(m, junk), Read(StepMachine(m, junk).m.regs, 15));
  }

  lemma Landing(at: word, next: word, branch: word, r15: word)
    requires next == Wrap(at + 4) && r15 == Wrap(next + (8 + 4 * SignExtend24(BranchField(branch))))
    ensures r15 == Destination(at, branch, true)
  {
    WrapSum(at + 4, 8 + 4 * SignExtend24(BranchField(branch)));
  }

  lemma NotTaken(at: word, m: Machine, junk: word)
    requires Accepts(m.mem.size, FetchAddress(m), 4) && FetchAddress(m) == Wrap(at + 4)
    requires !InstCond(Cpsr(m), FetchedWord(m, junk))
    ensures StepMachine(m, junk).outcome == DONE
    ensures Read(StepMachine(m, junk).m.regs, 15) == Destination(at, FetchedWord(m, junk), false)
  {
    SteppedOver(m, junk);
    ReadWritten(m, 15, Wrap(FetchAddress(m) + 4), 15);
    Onward(at, 4);
  }

  lemma SteppedOver(m: Machine, junk: word)
    requires Accepts(m.mem.size, FetchAddress(m), 4) && !InstCond(Cpsr(m), FetchedWord(m, junk))
    ensures StepMachine(m, junk) == Effect(Advanced(m), DONE)
  {
  }

  lemma Onward(a: word, d: int)
    ensures Wrap(Wrap(a + 4) + d) == Wrap(a + 4 + d)
  {
    WrapSum(a + 4, d);
  }
}
