/** What user-mode programs cannot reach, over runs of any length. */
module Confinement {
  import opened Words
  import opened Registers
  import opened RegisterRuns
  import opened Core
  import opened DataProcessing
  import opened Memory
  import opened Shifter
  import opened LoadStore
  import opened Instruction

  /** Successive steps; each takes the word a refused fetch would leave. A run ends when the
      simulation is asked to exit, and goes on after every other outcome. */
  function Run(m: Machine, junk: seq<word>): Effect {
    if junk == [] then Effect(m, DONE) else
      var e := Run(m, junk[..|junk| - 1]);
      if e.outcome.Exited? then e else StepMachine(e.m, junk[|junk| - 1])
  }

  /** All saved status registers are as before. */
  predicate SameSpsrs(m: Machine, m': Machine) {
    m'.regs.psr[1..] == m.regs.psr[1..]
  }

  /** What one instruction can do to the status registers: change the flags, or copy the SPSR
      of the current mode to the CPSR. */
  predicate PsrStep(m: Machine, m': Machine) {
    SameSpsrs(m, m')
    && (Cpsr(m') % 0x1000_0000 == Cpsr(m) % 0x1000_0000
        || (HasSpsr(m.regs) && m'.regs.psr == WriteCpsr(m.regs, ReadSpsr(m.regs)).psr))
  }

  /** Still in user mode, with only the flags of the CPSR and the user registers open to change. */
  predicate Confined(m: Machine, m': Machine) {
    Mode(m'.regs) == USR && m'.regs.banked == m.regs.banked && SameSpsrs(m, m')
    && Cpsr(m') % 0x1000_0000 == Cpsr(m) % 0x1000_0000
  }

  // ---- one register write, one flag update -------------------------------

  lemma WriteRegKeeps(m: Machine, r: regno, v: word)
    ensures WriteReg(m, r, v).regs.psr == m.regs.psr
    ensures Mode(m.regs) == USR ==> Confined(m, WriteReg(m, r, v))
  {
  }

  lemma SetFlagsKeeps(m: Machine, n: bit, z: bit, c: bit, v: bit)
    ensures PsrStep(m, SetFlags(m, n, z, c, v))
    ensures Mode(m.regs) == USR ==> Confined(m, SetFlags(m, n, z, c, v))
  {
    FlagMultiples(n, z, c, v, Cpsr(m));
    ModeOfLow(Cpsr(SetFlags(m, n, z, c, v)));
    ModeOfLow(Cpsr(m));
  }

  // ---- one instruction ---------------------------------------------------

  lemma ProcessKeeps(m: Machine, op: nat, s: bit, rn: regno, rd: regno, sh: Shifted)
    ensures PsrStep(m, Process(m, op, s, rn, rd, sh))
    ensures Mode(m.regs) == USR ==> Confined(m, Process(m, op, s, rn, rd, sh))
  {
    var result := AluResult(op, ReadReg(m, rn), sh.value, CarryBit(m));
    if IsTest(op) {
      AluFlagsKeep(m, op, ReadReg(m, rn), sh, result);
    } else {
      var written := WriteReg(m, rd, result);
      WriteRegKeeps(m, rd, result);
      if s == 1 && rd != 15 {
        AluFlagsKeep(written, op, ReadReg(written, rn), sh, result);
      }
    }
  }

  lemma AluFlagsKeep(m: Machine, op: nat, a: word, sh: Shifted, result: word)
    ensures PsrStep(m, SetAluFlags(m, op, a, sh, result))
    ensures Mode(m.regs) == USR ==> Confined(m, SetAluFlags(m, op, a, sh, result))
  {
    SetFlagsKeeps(m, Bit(result, 31), BitOf(result == 0), AluCarry(op, a, sh.value, CarryBit(m), sh.carry),
                  AluOverflow(op, a, sh.value, CarryBit(m)));
  }

  lemma SingleTransferKeeps(m: Machine, ins: word, load: bool, w: width, offset: word)
    ensures var e := SingleTransfer(m, ins, load, w, offset);
            PsrStep(m, e.m) && (Mode(m.regs) == USR ==> Confined(m, e.m))
    ensures var e := PreUpdated(m, ins, offset);
            PsrStep(m, e) && (Mode(m.regs) == USR ==> Confined(m, e))
  {
  }

  lemma {:induction false} TransferredKeeps(m: Machine, load: bool, regs: seq<regno>, start: word, up: bool, k: nat)
    requires k <= |regs|
    ensures var m' := Transferred(m, load, regs, start, up, k);
            m'.regs.psr == m.regs.psr && (Mode(m.regs) == USR ==> Confined(m, m'))
  {
    if k > 0 {
      TransferredKeeps(m, load, regs, start, up, k - 1);
    }
  }

  lemma BlockKeeps(m: Machine, ins: word)
    ensures var e := LoadStoreMultiple(m, ins);
            PsrStep(m, e.m) && (Mode(m.regs) == USR ==> Confined(m, e.m))
  {
    var regs, start, up := Listed(ins), StartAddress(m, ins), Upwards(ins);
    var k := AcceptedCount(m.mem.size, start, up, |regs|);
    TransferredKeeps(m, IsLoad(ins), regs, start, up, k);
    WriteRegKeeps(Transferred(m, IsLoad(ins), regs, start, up, k), Rn(ins),
                  Displaced(ReadReg(m, Rn(ins)), 4 * |regs|, up));
  }

  lemma LoadStoreKeeps(m: Machine, ins: word)
    ensures var e := LoadStoreSingle(m, ins);
            PsrStep(m, e.m) && (Mode(m.regs) == USR ==> Confined(m, e.m))
  {
    if WordOffset(m, ins).Some? {
      SingleTransferKeeps(m, ins, IsLoad(ins), if Bit(ins, 22) == 1 then 1 else 4, WordOffset(m, ins).value);
    }
    SingleTransferKeeps(m, ins, IsLoad(ins), 2, HalfOffset(m, ins));
  }

  lemma DispatchKeeps(m: Machine, ins: word, fetched: Outcome)
    ensures var e := Dispatch(m, ins, fetched);
            PsrStep(m, e.m) && (Mode(m.regs) == USR ==> Confined(m, e.m))
  {
    match Classify(ins)
    case HalfTransfer => LoadStoreKeeps(m, ins);
    case WordTransfer => LoadStoreKeeps(m, ins);
    case BlockTransfer => BlockKeeps(m, ins);
    case Processing =>
      var sh := ShifterOperand(m, ins);
      if sh.Some? {
        ProcessKeeps(m, Opcode(ins), Bit(ins, 20), Rn(ins), Rd(ins), sh.value);
      }
    case _ =>
  }

  lemma StepKeeps(m: Machine, junk: word)
    ensures PsrStep(m, StepMachine(m, junk).m)
    ensures Mode(m.regs) == USR ==> Confined(m, StepMachine(m, junk).m)
  {
    WriteRegKeeps(m, 15, Wrap(FetchAddress(m) + 4));
    DispatchKeeps(Advanced(m), FetchedWord(m, junk), FetchOutcome(m));
  }

  // ---- whole runs --------------------------------------------------------

  /** User-mode confinement: whatever the program, the length of the run and the outcomes of its
      steps, user mode is never left, and CPSR bits 27 to 0, every banked register and every
      SPSR keep their contents. */
  lemma {:induction false} UserRunsAreConfined(m: Machine, junk: seq<word>)
    requires Mode(m.regs) == USR
    ensures Confined(m, Run(m, junk).m)
  {
    if junk != [] {
      UserRunsAreConfined(m, junk[..|junk| - 1]);
      StepKeeps(Run(m, junk[..|junk| - 1]).m, junk[|junk| - 1]);
    }
  }

  /** No run, in any mode, changes a saved status register. */
  lemma {:induction false} SpsrsAreNeverWritten(m: Machine, junk: seq<word>)
    ensures SameSpsrs(m, Run(m, junk).m)
  {
    if junk != [] {
      SpsrsAreNeverWritten(m, junk[..|junk| - 1]);
      StepKeeps(Run(m, junk[..|junk| - 1]).m, junk[|junk| - 1]);
    }
  }

  // ---- runs from reset ---------------------------------------------------

  lemma StepReserved(m: Machine, m': Machine)
    requires ReservedClear(m.regs) && PsrStep(m, m')
    ensures ReservedClear(m'.regs)
  {
    PowValues();
    forall k, i: nat | 0 <= k < 6 && i < 32 && Bit(PRIVILEGED_MASK, i) == 1
      ensures Bit(m'.regs.psr[k], i) == 0
    {
      assert Bit(m.regs.psr[k], i) == 0;
      if k > 0 {
        assert m'.regs.psr[k] == m'.regs.psr[1..][k - 1] == m.regs.psr[k];
      } else if Cpsr(m') % 0x1000_0000 == Cpsr(m) % 0x1000_0000 {
        if i >= 28 {
          HighBits(PRIVILEGED_MASK, 28, i);
        }
        LowBits(Cpsr(m'), Cpsr(m), 28, i);
      } else {
        ApplyReserved(m.regs, PutCpsr(ReadSpsr(m.regs)));
        assert Bit(WriteCpsr(m.regs, ReadSpsr(m.regs)).psr[0], i) == 0;
      }
    }
  }

  /** The reserved PSR bits stay clear over every run. */
  lemma {:induction false} RunsKeepReservedClear(m: Machine, junk: seq<word>)
    requires ReservedClear(m.regs)
    ensures ReservedClear(Run(m, junk).m.regs)
  {
    if junk != [] {
      var e := Run(m, junk[..|junk| - 1]);
      RunsKeepReservedClear(m, junk[..|junk| - 1]);
      StepKeeps(e.m, junk[|junk| - 1]);
      if !e.outcome.Exited? {
        StepReserved(e.m, StepMachine(e.m, junk[|junk| - 1]).m);
      }
    }
  }

  /** The register file of a new core. */
  const RESET_REGS: Regs := CREATED.(psr := [0x1d3, 0, 0, 0, 0, 0])

  lemma ResetReserved()
    ensures ReservedClear(RESET_REGS)
  {
    CreatedReserved();
    ResetCreated();
    ApplyReserved(CREATED, PutCpsr(0x1d3));
    assert WriteCpsr(CREATED, 0x1d3) == RESET_REGS;
  }

  /** A machine that only ever executes instructions since reset is in supervisor mode with
      interrupts masked, or has CPSR bits 27 to 0 all zero: an exception return copies an SPSR that
      nothing has written. In particular it never reaches user mode. */
  lemma {:induction false} RunsFromReset(m: Machine, junk: seq<word>)
    requires m.regs == RESET_REGS
    ensures Cpsr(Run(m, junk).m) % 0x1000_0000 in {0x1d3, 0}
  {
    if junk != [] {
      var e := Run(m, junk[..|junk| - 1]);
      RunsFromReset(m, junk[..|junk| - 1]);
      if !e.outcome.Exited? {
        var m' := StepMachine(e.m, junk[|junk| - 1]).m;
        StepKeeps(e.m, junk[|junk| - 1]);
        SavedStatusZero(m, junk[..|junk| - 1]);
        AfterStep(e.m, m');
      }
    }
  }

  lemma ModesFromReset(m: Machine, junk: seq<word>)
    requires m.regs == RESET_REGS
    ensures Mode(Run(m, junk).m.regs) in {SVC, 0}
  {
    RunsFromReset(m, junk);
    ResetMode(Cpsr(Run(m, junk).m));
  }

  lemma ResetMode(x: word)
    requires x % 0x1000_0000 in {0x1d3, 0}
    ensures x % 32 in {SVC, 0}
  {
    ModeOfLow(x);
    if x % 0x1000_0000 == 0x1d3 {
      assert 0x1d3 % 32 == 0x13;
    }
  }

  lemma SavedStatusZero(m: Machine, junk: seq<word>)
    requires m.regs == RESET_REGS
    ensures ReservedClear(Run(m, junk).m.regs) && Run(m, junk).m.regs.psr[1..] == [0, 0, 0, 0, 0]
  {
    ResetReserved();
    RunsKeepReservedClear(m, junk);
    SpsrsAreNeverWritten(m, junk);
    assert RESET_REGS.psr[1..] == [0, 0, 0, 0, 0];
  }

  lemma AfterStep(m: Machine, m': Machine)
    requires ReservedClear(m.regs) && PsrStep(m, m') && m.regs.psr[1..] == [0, 0, 0, 0, 0]
    ensures Cpsr(m') % 0x1000_0000 in {Cpsr(m) % 0x1000_0000, 0}
  {
    if Cpsr(m') % 0x1000_0000 != Cpsr(m) % 0x1000_0000 {
      SpsrZero(m);
    }
  }

  lemma SpsrZero(m: Machine)
    requires ReservedClear(m.regs) && HasSpsr(m.regs) && m.regs.psr[1..] == [0, 0, 0, 0, 0]
    ensures WriteCpsr(m.regs, ReadSpsr(m.regs)).psr[0] == 0
  {
    ExceptionReturnExact(m.regs);
    var k := SpsrIndex(Mode(m.regs));
    assert m.regs.psr[k] == m.regs.psr[1..][k - 1] == 0;
  }

  // ---- exception return --------------------------------------------------

  /** An S-form of any opcode that writes Rd, with Rd = R15, in a mode that has an SPSR: the result
      goes to R15 and the CPSR becomes that SPSR bit for bit. */
  lemma ExceptionReturn(m: Machine, ins: word)
    requires ReservedClear(m.regs) && HasSpsr(m.regs) && ShifterOperand(m, ins).Some?
    requires Opcode(ins) !in {0x8, 0x9, 0xa, 0xb} && Bit(ins, 20) == 1 && Rd(ins) == 15
    ensures var sh := ShifterOperand(m, ins).value;
            var result := AluResult(Opcode(ins), ReadReg(m, Rn(ins)), sh.value, CarryBit(m));
            var e := ProcessData(m, ins);
            e.outcome == DONE && Cpsr(e.m) == ReadSpsr(m.regs) && SameSpsrs(m, e.m)
            && e.m.regs.main == m.regs.main[15 := result] && e.m.regs.banked == m.regs.banked
  {
    var sh := ShifterOperand(m, ins).value;
    var result := AluResult(Opcode(ins), ReadReg(m, Rn(ins)), sh.value, CarryBit(m));
    var written := WriteReg(m, 15, result);
    assert ReservedClear(written.regs) by {
      forall k, i: nat | 0 <= k < 6 && i < 32 && Bit(PRIVILEGED_MASK, i) == 1
        ensures Bit(written.regs.psr[k], i) == 0
      {
        assert Bit(m.regs.psr[k], i) == 0;
      }
    }
    ExceptionReturnExact(written.regs);
  }
}
