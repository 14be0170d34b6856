/** The processor state of arm_core.c: a register file and a memory, with the register views
    and the instruction fetch that every instruction class uses. */
module Core {
  import opened Words
  import opened Registers
  import opened Memory

  // Exception numbers (arm_constants.h); 0 is a normal return and -1 a refused memory access.
  const RESET: int := 1
  const UNDEFINED_INSTRUCTION: int := 2
  const SOFTWARE_INTERRUPT: int := 3
  const DATA_ABORT: int := 5

  /** How an instruction ends: with a result code, or by ending the simulation. */
  datatype Outcome = Returned(code: int) | Exited

  const DONE: Outcome := Returned(0)

  // ---- values ------------------------------------------------------------

  datatype Machine = Machine(regs: Regs, mem: Mem)

  /** A machine together with the way the instruction that led to it ended. */
  datatype Effect = Effect(m: Machine, outcome: Outcome)

  /** What reading R15 yields when it holds `v`: four more, with bit 1 cleared. */
  function PcView(v: word): word {
    var x: int := Wrap(v + 4);
    x - 2 * (x / 2 % 2)
  }

  function ReadReg(m: Machine, r: regno): word {
    if r == 15 then PcView(Read(m.regs, 15)) else Read(m.regs, r)
  }

  function WriteReg(m: Machine, r: regno, v: word): Machine {
    m.(regs := Write(m.regs, r, v))
  }

  function Cpsr(m: Machine): word {
    m.regs.psr[0]
  }

  function CarryBit(m: Machine): bit {
    Bit(Cpsr(m), 29)
  }

  /** The address the next instruction is fetched from. */
  function FetchAddress(m: Machine): word {
    Wrap(ReadReg(m, 15) - 4)
  }

  /** R15 after a fetch. */
  function Advanced(m: Machine): Machine {
    WriteReg(m, 15, Wrap(FetchAddress(m) + 4))
  }

  // ---- register views ----------------------------------------------------

  lemma {:induction false} AndOnes(x: nat, n: nat)
    requires x < Pow2(n)
    ensures Bitwise(AND, x, Pow2(n) - 1, n) == x
  {
    if n > 0 {
      AndOnes(x / 2, n - 1);
    }
  }

  /** Clearing bit 1 leaves the other bits alone. */
  lemma ClearBitOne(x: word)
    ensures And(x, 0xFFFF_FFFD) == x - 2 * (x / 2 % 2)
  {
    var q := x / 2 / 2;
    assert Pow2(30) == 0x4000_0000 by {
      PowValues();
    }
    AndOnes(q, 30);
    assert Bitwise(AND, x / 2, 0x7FFF_FFFE, 31) == 2 * Bitwise(AND, q, 0x3FFF_FFFF, 30);
  }

  /** Every bit of the view of R15 but bit 1 is that of the value plus four. */
  lemma PcViewBits(v: word, i: nat)
    requires i < 32
    ensures Bit(PcView(v), i) == if i == 1 then 0 else Bit(Wrap(v + 4), i)
  {
    var x: word := Wrap(v + 4);
    ClearBitOne(x);
    BitwiseBit(AND, x, 0xFFFF_FFFD, 32, i);
    OnesButOne(i);
  }

  lemma OnesButOne(i: nat)
    requires i < 32
    ensures Bit(0xFFFF_FFFD, i) == if i == 1 then 0 else 1
  {
    PowValues();
    NotBit(2, 32, i);
    BitOfTwo(i);
  }

  lemma BitOfTwo(i: nat)
    ensures Bit(2, i) == if i == 1 then 1 else 0
  {
    if i >= 2 {
      assert Pow2(2) == 4;
      HighBits(2, 2, i);
    } else {
      assert Bit(2, 0) == 0 && Bit(2, 1) == 1;
    }
  }

  /** A fetch, refused or not, leaves in R15 what it read as before, and comes from four bytes below that;
      every other register, in any bank, is as before. */
  lemma AdvancedView(m: Machine)
    ensures Read(Advanced(m).regs, 15) == PcView(Read(m.regs, 15)) == Wrap(FetchAddress(m) + 4)
    ensures Advanced(m).mem == m.mem && Advanced(m).regs.psr == m.regs.psr
    ensures forall slot :: IsSlot(slot) && slot != Main(15) ==>
              ReadSlot(Advanced(m).regs, slot) == ReadSlot(m.regs, slot)
  {
    BackAndForth(PcView(Read(m.regs, 15)));
    ReadWritten(m, 15, Wrap(FetchAddress(m) + 4), 15);
    forall slot | IsSlot(slot) && slot != Main(15)
      ensures ReadSlot(Advanced(m).regs, slot) == ReadSlot(m.regs, slot)
    {
      SlotKept(m, 15, Wrap(FetchAddress(m) + 4), slot);
    }
  }

  lemma BackAndForth(v: word)
    ensures Wrap(Wrap(v - 4) + 4) == v
  {
  }

  /** An instruction at a word-aligned address reads R15 as its own address plus 8. */
  lemma PcIsInstructionPlusEight(m: Machine)
    requires Accepts(m.mem.size, FetchAddress(m), 4)
    ensures Read(Advanced(m).regs, 15) == FetchAddress(m) + 4
    ensures ReadReg(Advanced(m), 15) == FetchAddress(m) + 8
  {
    AcceptedFits(m.mem.size, FetchAddress(m), 4);
    ReadWritten(m, 15, Wrap(FetchAddress(m) + 4), 15);
    AddressPlusEight(FetchAddress(m));
  }

  lemma AddressPlusEight(a: int)
    requires 0 <= a < 0x8000_0000 && a % 4 == 0
    ensures Wrap(a + 4) == a + 4 && PcView(a + 4) == a + 8
  {
    PcViewAligned(a + 4);
  }

  lemma PcViewAligned(v: word)
    requires v % 4 == 0 && v < 0xFFFF_FFF0
    ensures PcView(v) == v + 4
  {
  }

  lemma ReadWritten(m: Machine, r: regno, v: word, q: regno)
    ensures Read(WriteReg(m, r, v).regs, q) == if q == r then v else Read(m.regs, q)
    ensures q != r ==> ReadReg(WriteReg(m, r, v), q) == ReadReg(m, q)
    ensures q == r != 15 ==> ReadReg(WriteReg(m, r, v), q) == v
    ensures WriteReg(m, r, v).regs.psr == m.regs.psr && WriteReg(m, r, v).mem == m.mem
  {
  }

  /** A register write leaves every slot but its own alone. */
  lemma SlotKept(m: Machine, r: regno, v: word, slot: Slot)
    requires IsSlot(slot) && slot != SlotOf(Mode(m.regs), r)
    ensures ReadSlot(WriteReg(m, r, v).regs, slot) == ReadSlot(m.regs, slot)
    ensures Mode(WriteReg(m, r, v).regs) == Mode(m.regs)
  {
  }

  // ---- the object --------------------------------------------------------

  /** `struct arm_core_data` */
  class ArmCore {
    const reg: RegisterArrays
    const mem: MemoryArray

    predicate Valid() {
      reg.Valid() && mem.Valid() && mem.data as object !in Arrays(reg)
    }

    static function Arrays(reg: RegisterArrays): set<object> {
      {reg.main, reg.banked, reg.psr}
    }

    ghost function Footprint(): set<object> {
      Arrays(reg) + {mem.data}
    }

    ghost function State(): Machine
      requires Valid()
      reads Footprint()
    {
      Machine(reg.Contents(), mem.Contents())
    }

    /** A new core starts with a reset. */
    constructor (mem: MemoryArray)
      requires mem.Valid()
      ensures Valid() && this.mem == mem && fresh(reg.main) && fresh(reg.banked) && fresh(reg.psr)
      ensures State().mem == mem.Contents()
      ensures State().regs == CREATED.(psr := [0x1d3, 0, 0, 0, 0, 0])
    {
      this.mem := mem;
      reg := new RegisterArrays();
      new;
      ArmException(RESET);
      ResetCreated();
    }

    method ReadRegister(r: regno) returns (value: word)
      requires Valid()
      ensures value == ReadReg(State(), r)
    {
      value := reg.ReadRegister(r);
      if r == 15 {
        value := Wrap(value + 4);
        ClearBitOne(value);
        value := And(value, 0xFFFF_FFFD);
      }
    }

    method ReadCpsr() returns (value: word)
      requires Valid()
      ensures value == Cpsr(State())
    {
      value := reg.ReadCpsr();
    }

    method WriteRegister(r: regno, value: word)
      requires Valid()
      modifies reg.main, reg.banked
      ensures State() == WriteReg(old(State()), r, value)
    {
      reg.WriteRegister(r, value);
    }

    /** The word read is arbitrary when the access is refused; `junk` stands for it. */
    method Fetch(junk: word) returns (ok: bool, opcode: word)
      requires Valid()
      modifies reg.main, reg.banked
      ensures ok == Accepts(mem.size, FetchAddress(old(State())), 4)
      ensures opcode == if ok then Load(old(State()).mem, FetchAddress(old(State())), 4) else junk
      ensures State() == Advanced(old(State()))
    {
      var pc: int := ReadRegister(15);
      var address: int := Wrap(pc - 4);
      ok, opcode := mem.ReadWord(address);
      if !ok {
        opcode := junk;
      }
      WriteRegister(15, Wrap(address + 4));
    }

    /** `arm_exception`: only a reset does anything. */
    method ArmException(exception: int)
      requires Valid()
      modifies reg.main, reg.psr
      ensures exception != RESET ==> State() == old(State())
      ensures exception == RESET ==>
                State() == old(State()).(regs := WriteUser(WriteCpsr(old(State()).regs, 0x1d3), 15, 0))
    {
      if exception == RESET {
        reg.WriteCpsrRegister(0x1d3);
        reg.WriteUsrRegister(15, 0);
      }
    }
  }

  /** A reset of a new register file selects supervisor mode with interrupts masked. */
  lemma ResetPsr()
    ensures Masked(SYS, 0x1d3, PRIVILEGED_MASK) == 0x1d3
  {
    PowValues();
    assert Pow2(9) == 0x200;
    forall i: nat | i < 32 && Bit(PRIVILEGED_MASK, i) == 1
      ensures Bit(SYS, i) == Bit(0x1d3, i)
    {
      if i >= 9 {
        HighBits(SYS, 9, i);
        HighBits(0x1d3, 9, i);
      } else {
        // PRIVILEGED_MASK has only bit 5 below bit 9, and bit 5 is clear in both words.
        LowBits(PRIVILEGED_MASK, 0x20, 9, i);
        assert i == 5 by {
          SingleBit(i);
        }
      }
    }
    MaskedExact(SYS, 0x1d3, PRIVILEGED_MASK);
  }

  lemma ResetCreated()
    ensures WriteUser(WriteCpsr(CREATED, 0x1d3), 15, 0) == CREATED.(psr := [0x1d3, 0, 0, 0, 0, 0])
  {
    ResetPsr();
    assert PsrMask(CREATED) == PRIVILEGED_MASK;
    assert WriteCpsr(CREATED, 0x1d3) == CREATED.(psr := [0x1d3, 0, 0, 0, 0, 0]);
  }

  lemma SingleBit(i: nat)
    requires i < 9
    ensures Bit(0x20, i) == 1 <==> i == 5
  {
    assert Bit(0x20, 0) == Bit(0x20, 1) == Bit(0x20, 2) == Bit(0x20, 3) == Bit(0x20, 4) == 0;
    assert Bit(0x20, 5) == 1;
    assert Bit(0x20, 6) == Bit(0x20, 7) == Bit(0x20, 8) == 0;
  }
}
