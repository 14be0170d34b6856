/** Where branches go. */
module BranchReach {
  import opened Words
  import opened Registers
  import opened Memory
  import opened Core
  import opened DataProcessing
  import opened BranchOther
  import opened Instruction

  /** The target of a branch whose R15 reads as `pc`. */
  function Target(pc: word, field: nat): word
    requires field < 0x100_0000
  {
    Wrap(pc + 4 * SignExtend24(field))
  }

  /** The field that reaches `target`: the distance must be a multiple of four within 32 MB. */
  function Encode(pc: word, target: word): Option<nat> {
    var d := Signed(Wrap(target - pc));
    if d % 4 == 0 && -0x200_0000 <= d < 0x200_0000 then Some(d / 4 % 0x100_0000) else None
  }

  /** Every target in reach has exactly one encoding, and no other target has any. */
  lemma EncodingExact(pc: word, target: word, field: nat)
    requires field < 0x100_0000
    ensures Target(pc, field) == target <==> Encode(pc, target) == Some(field)
  {
    var s := 4 * SignExtend24(field);
    var d := Signed(Wrap(target - pc));
    DistanceBack(pc, s);
    DistanceForth(pc, target);
    if Target(pc, field) == target {
      assert d == s;
      FieldBack(field);
    } else if Encode(pc, target) == Some(field) {
      FieldForth(d / 4, field);
    }
  }

  lemma DistanceBack(pc: word, s: int)
    requires -0x200_0000 <= s < 0x200_0000
    ensures Signed(Wrap(Wrap(pc + s) - pc)) == s
  {
  }

  lemma DistanceForth(pc: word, target: word)
    ensures Wrap(pc + Signed(Wrap(target - pc))) == target
  {
  }

  lemma FieldBack(field: nat)
    requires field < 0x100_0000
    ensures SignExtend24(field) % 0x100_0000 == field
  {
  }

  lemma FieldForth(k: int, field: nat)
    requires -0x80_0000 <= k < 0x80_0000 && field < 0x100_0000 && k % 0x100_0000 == field
    ensures SignExtend24(field) == k
  {
  }

  /** A step that executes B or BL at address `A`: R15 becomes `A + 8` plus four times the signed
      field, BL leaves `A + 4` in R14 of the current mode, and nothing else changes. */
  lemma BranchStep(m: Machine, junk: word)
    requires Accepts(m.mem.size, FetchAddress(m), 4)
    requires var ins := FetchedWord(m, junk);
             Classify(ins) == BranchClass && InstCond(Cpsr(m), ins)
    ensures var ins, a, e := FetchedWord(m, junk), FetchAddress(m), StepMachine(m, junk);
            e.outcome == DONE && e.m.mem == m.mem && e.m.regs.psr == m.regs.psr
            && Read(e.m.regs, 15) == Wrap(a + 8 + 4 * SignExtend24(BranchField(ins)))
            && forall r: regno :: r != 15 ==>
                 Read(e.m.regs, r) == if r == 14 && Bit(ins, 24) == 1 then a + 4 else Read(m.regs, r)
    ensures forall slot :: IsSlot(slot) && slot != Main(15)
                           && !(slot == SlotOf(Mode(m.regs), 14) && Bit(FetchedWord(m, junk), 24) == 1) ==>
              ReadSlot(StepMachine(m, junk).m.regs, slot) == ReadSlot(m.regs, slot)
  {
    var ins, a := FetchedWord(m, junk), FetchAddress(m);
    BranchStepIs(m, junk);
    var at := Advanced(m);
    var linked := if Bit(ins, 24) == 1 then WriteReg(at, 14, a + 4) else at;
    var target := Wrap(a + 8 + 4 * SignExtend24(BranchField(ins)));
    forall r: regno
      ensures Read(WriteReg(linked, 15, target).regs, r)
              == if r == 15 then target else if r == 14 && Bit(ins, 24) == 1 then a + 4 else Read(m.regs, r)
    {
      ReadWritten(m, 15, Wrap(a + 4), r);
      ReadWritten(at, 14, a + 4, r);
      ReadWritten(linked, 15, target, r);
    }
    forall slot | IsSlot(slot) && slot != Main(15) && !(slot == SlotOf(Mode(m.regs), 14) && Bit(ins, 24) == 1)
      ensures ReadSlot(WriteReg(linked, 15, target).regs, slot) == ReadSlot(m.regs, slot)
    {
      SlotKept(m, 15, Wrap(a + 4), slot);
      if Bit(ins, 24) == 1 {
        SlotKept(at, 14, a + 4, slot);
      }
      SlotKept(linked, 15, target, slot);
    }
  }

  /** Its outcome and R15 alone. */
  lemma BranchLeads(m: Machine, junk: word)
    requires Accepts(m.mem.size, FetchAddress(m), 4)
    requires var ins := FetchedWord(m, junk);
             Classify(ins) == BranchClass && InstCond(Cpsr(m), ins)
    ensures StepMachine(m, junk).outcome == DONE
    ensures Read(StepMachine(m, junk).m.regs, 15)
            == Wrap(FetchAddress(m) + (8 + 4 * SignExtend24(BranchField(FetchedWord(m, junk)))))
  {
    BranchStep(m, junk);
  }

  lemma BranchStepIs(m: Machine, junk: word)
    requires Accepts(m.mem.size, FetchAddress(m), 4)
    requires var ins := FetchedWord(m, junk);
             Classify(ins) == BranchClass && InstCond(Cpsr(m), ins)
    ensures FetchAddress(m) < 0x8000_0000
    ensures StepMachine(m, junk)
            == Effect(Branched(Advanced(m), FetchAddress(m), FetchedWord(m, junk)), DONE)
  {
    BranchArrives(m, FetchedWord(m, junk));
    BranchDispatched(m, junk);
  }

  lemma BranchArrives(m: Machine, ins: word)
    requires Accepts(m.mem.size, FetchAddress(m), 4)
    ensures FetchAddress(m) < 0x8000_0000
    ensures Branch(Advanced(m), ins) == Branched(Advanced(m), FetchAddress(m), ins)
  {
    PcIsInstructionPlusEight(m);
    AcceptedFits(m.mem.size, FetchAddress(m), 4);
    BranchedIs(Advanced(m), FetchAddress(m), ins);
  }

  lemma BranchDispatched(m: Machine, junk: word)
    requires Accepts(m.mem.size, FetchAddress(m), 4)
    requires var ins := FetchedWord(m, junk);
             Classify(ins) == BranchClass && InstCond(Cpsr(m), ins)
    ensures StepMachine(m, junk) == Effect(Branch(Advanced(m), FetchedWord(m, junk)), DONE)
  {
  }

  /** The machine after a branch at address `a`. */
  function Branched(m: Machine, a: word, ins: word): Machine
    requires a + 4 < 0x1_0000_0000
  {
    WriteReg(if Bit(ins, 24) == 1 then WriteReg(m, 14, a + 4) else m, 15,
             Wrap(a + 8 + 4 * SignExtend24(BranchField(ins))))
  }

  lemma BranchedIs(m: Machine, a: word, ins: word)
    requires a < 0x8000_0000 && ReadReg(m, 15) == a + 8
    ensures Branch(m, ins) == Branched(m, a, ins)
  {
    PcPlus(a, ReadReg(m, 15), 4 * SignExtend24(BranchField(ins)));
  }

  lemma PcPlus(a: word, pc: word, d: int)
    requires a < 0x8000_0000 && pc == a + 8
    ensures Wrap(pc - 4) == a + 4 && Wrap(pc + d) == Wrap(a + 8 + d)
  {
  }
}
