/** Condition check, dispatch and the step of the machine (arm_instruction.c). */
module Instruction {
  import opened Words
  import opened Memory
  import opened Core
  import opened DataProcessing
  import opened LoadStore
  import opened BranchOther

  // ---- meaning -----------------------------------------------------------

  /** Whether an instruction's condition field (bits 31 to 28) holds of the flags. */
  predicate InstCond(cpsr: word, ins: word) {
    var n, z, c, v := Bit(cpsr, 31), Bit(cpsr, 30), Bit(cpsr, 29), Bit(cpsr, 28);
    var cond := Shr(ins, 28);
    if cond == 0x0 then z == 1
    else if cond == 0x1 then z == 0
    else if cond == 0x2 then c == 1
    else if cond == 0x3 then c == 0
    else if cond == 0x4 then n == 1
    else if cond == 0x5 then n == 0
    else if cond == 0x6 then v == 1
    else if cond == 0x7 then v == 0
    else if cond == 0x8 then c == 1 && z == 0
    else if cond == 0x9 then c == 0 || z == 1
    else if cond == 0xA then n == v
    else if cond == 0xB then n != v
    else if cond == 0xC then z == 0 && n == v
    else if cond == 0xD then z == 1 || n != v
    else true
  }

  datatype Class =
    | HalfTransfer
    | WordTransfer
    | BlockTransfer
    | BranchClass
    | MrsClass
    | SwiClass
    | Processing
    | Nothing

  /** The class of an instruction by its bits 27 to 24, as in the encoding table of section A3.1 of the
      ARM Architecture Reference Manual, with what the source makes of its extensions. */
  function Classify(ins: word): Class {
    match Bits(ins, 27, 24)
    case 0x0 => if Bits(ins, 7, 4) == 0xb then HalfTransfer else Processing
    case 0x1 =>
      if Bits(ins, 7, 4) == 0xb then HalfTransfer
      else if Bit(ins, 23) == 0 && Bits(ins, 21, 20) == 0 then MrsClass
      else Processing
    case 0x2 => Processing
    case 0x3 => Processing
    case 0x4 => WordTransfer
    case 0x5 => WordTransfer
    case 0x6 => if Bit(ins, 4) == 0 then WordTransfer else Nothing
    case 0x7 => if Bit(ins, 4) == 0 then WordTransfer else Nothing
    case 0x8 => BlockTransfer
    case 0x9 => BlockTransfer
    case 0xa => BranchClass
    case 0xb => BranchClass
    case 0xf => SwiClass
    case _ => Nothing
  }

  /** An instruction that passed its condition; `fetched` is the result of the fetch, which stands
      when no class matches. */
  function Dispatch(m: Machine, ins: word, fetched: Outcome): Effect {
    match Classify(ins)
    case HalfTransfer => LoadStoreSingle(m, ins)
    case WordTransfer => LoadStoreSingle(m, ins)
    case BlockTransfer => LoadStoreMultiple(m, ins)
    case BranchClass => Effect(Branch(m, ins), DONE)
    case MrsClass => Miscellaneous(m, ins)
    case SwiClass => Effect(m, SoftwareInterrupt(ins))
    case Processing => ProcessData(m, ins)
    case Nothing => Effect(m, fetched)
  }

  /** The word executed: `junk` when the fetch is refused. */
  function FetchedWord(m: Machine, junk: word): word {
    if Accepts(m.mem.size, FetchAddress(m), 4) then Load(m.mem, FetchAddress(m), 4) else junk
  }

  function FetchOutcome(m: Machine): Outcome {
    if Accepts(m.mem.size, FetchAddress(m), 4) then DONE else Returned(-1)
  }

  /** One step. A refused fetch does not stop the step: the word is undefined, not the course. */
  function StepMachine(m: Machine, junk: word): Effect {
    var ins := FetchedWord(m, junk);
    if InstCond(Cpsr(Advanced(m)), ins) then Dispatch(Advanced(m), ins, FetchOutcome(m))
    else Effect(Advanced(m), FetchOutcome(m))
  }

  // ---- what the dispatcher leaves out ------------------------------------

  /** The dispatcher has a class for every instruction but coprocessor transfers and operations, and
      the media instructions next to the register-offset transfers. */
  lemma NothingExactly(ins: word)
    ensures var top := Bits(ins, 27, 24);
            Classify(ins) == Nothing <==> top in {0xc, 0xd, 0xe} || (top in {6, 7} && Bit(ins, 4) == 1)
  {
    TopNibbles(ins);
  }

  /** So those instructions are stepped over without an error: nothing but R15 changes. */
  lemma IgnoredSteps(m: Machine, junk: word)
    requires Accepts(m.mem.size, FetchAddress(m), 4)
    requires var ins := FetchedWord(m, junk);
             Bits(ins, 27, 24) in {0xc, 0xd, 0xe} || (Bits(ins, 27, 24) in {6, 7} && Bit(ins, 4) == 1)
    ensures StepMachine(m, junk) == Effect(Advanced(m), DONE)
  {
    NothingExactly(FetchedWord(m, junk));
  }

  /** A step ends the simulation exactly when it executes SWI 0x123456; the machine has then only moved
      on to the next address. */
  lemma ExitsExactly(m: Machine, junk: word)
    ensures var ins := FetchedWord(m, junk);
            StepMachine(m, junk).outcome == Exited
            <==> InstCond(Cpsr(m), ins) && ins % 0x1000_0000 == 0xF12_3456
    ensures StepMachine(m, junk).outcome == Exited ==> StepMachine(m, junk).m == Advanced(m)
  {
    var ins := FetchedWord(m, junk);
    SwiWords(ins);
    SwiFields(ins);
    if Classify(ins) != SwiClass {
      OnlySwiExits(Advanced(m), ins, FetchOutcome(m));
    }
    assert Cpsr(Advanced(m)) == Cpsr(m);
  }

  lemma SwiWords(ins: word)
    ensures Classify(ins) == SwiClass <==> Bits(ins, 27, 24) == 0xf
  {
    TopNibbles(ins);
  }

  lemma OnlySwiExits(m: Machine, ins: word, fetched: Outcome)
    requires Classify(ins) != SwiClass && fetched != Exited
    ensures Dispatch(m, ins, fetched).outcome != Exited
  {
  }

  /** The instruction field of an SWI, by its top nibble and its comment field. */
  lemma SwiFields(ins: word)
    ensures Bits(ins, 27, 24) == 0xf ==> Bit(ins, 24) == 1
    ensures ins % 0x1000_0000 == 0xF12_3456 <==> Bits(ins, 27, 24) == 0xf && ins % 0x100_0000 == 0x12_3456
  {
    PowValues();
    assert Pow2(4) == 16;
    ShrIsQuotient(ins, 24);
    BitShift(ins, 24, 0);
    LowParts(ins);
    HalfMod(ins / 0x100_0000, 8);
  }

  lemma LowParts(x: nat)
    ensures x % 0x1000_0000 == x / 0x100_0000 % 16 * 0x100_0000 + x % 0x100_0000
  {
  }

  /** Each condition and the one after it are opposite, up to GT and LE; the last two always hold. */
  lemma ConditionsPair(cpsr: word, ins: word, opposite: word)
    requires Shr(ins, 28) % 2 == 0 && Shr(opposite, 28) == Shr(ins, 28) + 1 && Shr(opposite, 28) < 16
    ensures if Shr(ins, 28) < 14 then InstCond(cpsr, ins) <==> !InstCond(cpsr, opposite)
            else InstCond(cpsr, ins) && InstCond(cpsr, opposite)
  {
  }

  /** The fields the dispatcher looks at first, by the top nibble below the condition. */
  lemma TopNibbles(ins: word)
    ensures Bits(ins, 27, 24) < 16 && Bits(ins, 27, 25) == Bits(ins, 27, 24) / 2
    ensures Bits(ins, 27, 26) == Bits(ins, 27, 24) / 4 && Bits(ins, 27, 24) == Bits(ins, 27, 23) / 2
    ensures Bits(ins, 27, 23) % 2 == Bit(ins, 23)
  {
    var y := Shr(ins, 23);
    ShrShr(ins, 23, 1);
    ShrShr(ins, 23, 2);
    ShrShr(ins, 23, 3);
    assert Pow2(1) == 2 && Pow2(2) == 4 && Pow2(3) == 8 && Pow2(4) == 16 && Pow2(5) == 32;
    ShrIsQuotient(y, 1);
    ShrIsQuotient(y, 2);
    ShrIsQuotient(y, 3);
    BitShift(ins, 23, 0);
    HalfMod(y, 16);
    NibbleFields(y);
  }

  lemma NibbleFields(y: nat)
    ensures y / 4 % 8 == y / 2 % 16 / 2 && y / 8 % 4 == y / 2 % 16 / 4 && y / 2 % 16 == y % 32 / 2
  {
    HalfMod(y, 16);
    HalfMod(y / 2, 8);
    HalfMod(y / 2 / 2, 4);
    HalvesAgain(y);
    HalvesAgain(y / 2 % 16);
  }

  lemma HalvesAgain(y: nat)
    ensures y / 4 == y / 2 / 2 && y / 8 == y / 2 / 2 / 2
  {
  }

  // ---- the source's steps ------------------------------------------------

  method ArmInstCond(p: ArmCore, ins: word) returns (pass: bool)
    requires p.Valid()
    ensures pass == InstCond(Cpsr(p.State()), ins)
  {
    var flags := p.ReadCpsr();
    var flagN, flagZ, flagC, flagV := Bit(flags, 31), Bit(flags, 30), Bit(flags, 29), Bit(flags, 28);
    match Shr(ins, 28)
    case 0x0 => return flagZ == 1;
    case 0x1 => return flagZ == 0;
    case 0x2 => return flagC == 1;
    case 0x3 => return flagC == 0;
    case 0x4 => return flagN == 1;
    case 0x5 => return flagN == 0;
    case 0x6 => return flagV == 1;
    case 0x7 => return flagV == 0;
    case 0x8 => return flagC == 1 && flagZ == 0;
    case 0x9 => return flagC == 0 || flagZ == 1;
    case 0xA => return flagN == flagV;
    case 0xB => return flagN != flagV;
    case 0xC => return flagZ == 0 && flagN == flagV;
    case 0xD => return flagZ == 1 || flagN != flagV;
    case _ => return true;
  }

  /** The tests of the dispatcher, in its order, find the class of the table. */
  lemma TestsDecide(ins: word)
    ensures Classify(ins)
            == if Bits(ins, 27, 25) == 0 && Bits(ins, 7, 4) == 0xb then HalfTransfer
               else if Bits(ins, 27, 25) == 2 || (Bits(ins, 27, 25) == 3 && Bit(ins, 4) == 0) then WordTransfer
               else if Bits(ins, 27, 25) == 4 then BlockTransfer
               else if Bits(ins, 27, 25) == 5 then BranchClass
               else if Bits(ins, 27, 23) == 2 && Bits(ins, 21, 20) == 0 then MrsClass
               else if Bits(ins, 27, 24) == 0xf then SwiClass
               else if Bits(ins, 27, 26) == 0 then Processing
               else Nothing
  {
    TopNibbles(ins);
  }

  method DispatchInstruction(p: ArmCore, opcode: word, fetched: Outcome) returns (res: Outcome)
    requires p.Valid()
    modifies p.reg.main, p.reg.banked, p.reg.psr, p.mem.data
    ensures Effect(p.State(), res) == Dispatch(old(p.State()), opcode, fetched)
  {
    res := fetched;
    ghost var m := p.State();  // what the handlers start from
    TestsDecide(opcode);
    if Bits(opcode, 27, 25) == 0 && Bits(opcode, 7, 4) == 0xb {
      res := ArmLoadStore(p, opcode);
    } else if Bits(opcode, 27, 25) == 2 || (Bits(opcode, 27, 25) == 3 && Bit(opcode, 4) == 0) {
      res := ArmLoadStore(p, opcode);
    } else if Bits(opcode, 27, 25) == 4 {
      res := ArmLoadStoreMultiple(p, opcode);
    } else if Bits(opcode, 27, 25) == 5 {
      res := ArmBranch(p, opcode);
    } else if Bits(opcode, 27, 23) == 2 && Bits(opcode, 21, 20) == 0 {
      res := ArmMiscellaneous(p, opcode);
    } else if Bits(opcode, 27, 24) == 0xf {
      res := ArmCoprocessorOthersSwi(opcode);
    } else if Bits(opcode, 27, 26) == 0 {
      res := ArmDataProcessingShift(p, opcode);
    }
  }

  /** `arm_execute_instruction` */
  method ArmExecuteInstruction(p: ArmCore, junk: word) returns (res: Outcome)
    requires p.Valid()
    modifies p.reg.main, p.reg.banked, p.reg.psr, p.mem.data
    ensures Effect(p.State(), res) == StepMachine(old(p.State()), junk)
  {
    var ok, opcode := p.Fetch(junk);
    res := if ok then DONE else Returned(-1);
    var pass := ArmInstCond(p, opcode);
    if pass {
      res := DispatchInstruction(p, opcode, res);
    }
  }

  /** The results an instruction can return: never a reset. */
  lemma StepOutcome(m: Machine, junk: word)
    ensures StepMachine(m, junk).outcome in {DONE, Returned(-1), Returned(UNDEFINED_INSTRUCTION),
                                      Returned(SOFTWARE_INTERRUPT), Returned(DATA_ABORT), Exited}
  {
  }

  /** `arm_step`: a non-zero result raises an exception. */
  method ArmStep(p: ArmCore, junk: word) returns (res: Outcome)
    requires p.Valid()
    modifies p.reg.main, p.reg.banked, p.reg.psr, p.mem.data
    ensures Effect(p.State(), res) == StepMachine(old(p.State()), junk)
  {
    NeverResets(p.State(), junk);
    res := ArmExecuteInstruction(p, junk);
    if res.Returned? && res.code != 0 {
      p.ArmException(res.code % 0x100);
    }
  }

  predicate IsReset(res: Outcome) {
    res.Returned? && res.code % 0x100 == RESET
  }

  lemma NeverResets(m: Machine, junk: word)
    ensures !IsReset(StepMachine(m, junk).outcome)
  {
    StepOutcome(m, junk);
    NotReset(StepMachine(m, junk).outcome);
  }

  lemma NotReset(res: Outcome)
    requires res in {DONE, Returned(-1), Returned(UNDEFINED_INSTRUCTION), Returned(SOFTWARE_INTERRUPT),
                     Returned(DATA_ABORT), Exited}
    ensures !IsReset(res)
  {
  }
}
