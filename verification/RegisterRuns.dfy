/** What the packed register file means: the banking of section A2.3 of the ARM Architecture
    Reference Manual, and what a read returns after any history of writes. */
module RegisterRuns {
  import opened Words
  import opened Registers

  // ---- masked writes -----------------------------------------------------

  lemma MaskModeBits(i: nat)
    requires i < 5
    ensures Bit(PRIVILEGED_MASK, i) == 0 && Bit(USER_MASK, i) == 1
  {
    assert Bit(PRIVILEGED_MASK, 0) == 0 && Bit(USER_MASK, 0) == 1;
    assert Bit(PRIVILEGED_MASK, 1) == 0 && Bit(USER_MASK, 1) == 1;
    assert Bit(PRIVILEGED_MASK, 2) == 0 && Bit(USER_MASK, 2) == 1;
    assert Bit(PRIVILEGED_MASK, 3) == 0 && Bit(USER_MASK, 3) == 1;
    assert Bit(PRIVILEGED_MASK, 4) == 0 && Bit(USER_MASK, 4) == 1;
  }

  /** A CPSR write selects the mode it asks for, except from user mode, which it never leaves. */
  lemma WriteCpsrMode(f: Regs, v: word)
    ensures Mode(WriteCpsr(f, v)) == if Mode(f) == USR then USR else v % 32
  {
    var after := Masked(f.psr[0], v, PsrMask(f));
    forall i: nat | i < 5
      ensures Bit(after, i) == if Mode(f) == USR then Bit(f.psr[0], i) else Bit(v, i)
    {
      MaskedBit(f.psr[0], v, PsrMask(f), i);
      MaskModeBits(i);
    }
    SameLowBits(after, if Mode(f) == USR then f.psr[0] else v, 5);
  }

  /** The bits of a PSR that a write in a privileged mode leaves alone. */
  predicate Reserved(i: nat) {
    i == 5 || 10 <= i <= 15 || 20 <= i <= 26
  }

  /** A write in user mode also leaves bits 8 to 0 alone: the mode, the state and the interrupt masks. */
  predicate Protected(mode: nat, i: nat) {
    Reserved(i) || (mode == USR && i <= 8)
  }

  lemma LowMaskBits(i: nat)
    requires i < 8
    ensures (Bit(PRIVILEGED_MASK, i) == 1 <==> i == 5) && Bit(USER_MASK, i) == 1
  {
    if i < 5 {
      MaskModeBits(i);
    } else {
      assert Bit(PRIVILEGED_MASK, 5) == 1 && Bit(USER_MASK, 5) == 1;
      assert Bit(PRIVILEGED_MASK, 6) == 0 && Bit(USER_MASK, 6) == 1;
      assert Bit(PRIVILEGED_MASK, 7) == 0 && Bit(USER_MASK, 7) == 1;
    }
  }

  /** Bits 15 to 8 of the masks are 0xFC and 0xFD. */
  lemma MiddleMaskBits(i: nat)
    requires 8 <= i < 16
    ensures (Bit(PRIVILEGED_MASK, i) == 1 <==> i >= 10) && (Bit(USER_MASK, i) == 1 <==> i != 9)
  {
    BitShift(PRIVILEGED_MASK, 8, i - 8);
    BitShift(USER_MASK, 8, i - 8);
    MaskQuotients();
    LowByteBit(0x07F0FC, 0xFC, i - 8);
    LowByteBit(0x07F0FD, 0xFD, i - 8);
    ByteBits(i - 8);
  }

  lemma MaskQuotients()
    ensures Shr(PRIVILEGED_MASK, 8) == 0x07F0FC && Shr(USER_MASK, 8) == 0x07F0FD
  {
    ShrIsQuotient(PRIVILEGED_MASK, 8);
    ShrIsQuotient(USER_MASK, 8);
    PowValues();
  }

  lemma LowByteBit(x: nat, y: nat, i: nat)
    requires x % 0x100 == y < 0x100 && i < 8
    ensures Bit(x, i) == Bit(y, i)
  {
    PowValues();
    LowBits(x, y, 8, i);
  }

  lemma ByteBits(i: nat)
    requires i < 8
    ensures (Bit(0xFC, i) == 1 <==> i >= 2) && (Bit(0xFD, i) == 1 <==> i != 1)
  {
    UpperSix(0x3F);
    BitShift(0xFC, 2, if i >= 2 then i - 2 else 0);
    BitShift(0xFD, 2, if i >= 2 then i - 2 else 0);
    assert Shr(0xFC, 2) == Shr(0xFD, 2) == 0x3F;
    assert Bit(0xFC, 0) == Bit(0xFC, 1) == 0;
    assert Bit(0xFD, 0) == 1 && Bit(0xFD, 1) == 0;
  }

  lemma UpperSix(x: nat)
    requires x == 0x3F
    ensures forall i: nat :: i < 6 ==> Bit(x, i) == 1
  {
    assert Pow2(6) == 0x40;
    forall i: nat | i < 6 ensures Bit(x, i) == 1 {
      NotBit(0, 6, i);
      ZeroBit(i);
    }
  }

  /** Bits 31 to 16 of both masks are 0x07F0. */
  lemma HighMaskBits(i: nat)
    requires 16 <= i < 32
    ensures (Bit(PRIVILEGED_MASK, i) == 1 <==> 20 <= i <= 26) && Bit(USER_MASK, i) == Bit(PRIVILEGED_MASK, i)
  {
    BitShift(PRIVILEGED_MASK, 16, i - 16);
    BitShift(USER_MASK, 16, i - 16);
    ShrIsQuotient(PRIVILEGED_MASK, 16);
    ShrIsQuotient(USER_MASK, 16);
    PowValues();
    HalfBits(i - 16);
  }

  lemma HalfBits(i: nat)
    requires i < 16
    ensures Bit(0x07F0, i) == 1 <==> 4 <= i <= 10
  {
    if i >= 11 {
      assert Pow2(11) == 0x800;
      HighBits(0x07F0, 11, i);
    } else {
      BitsOf07F0();
    }
  }

  lemma BitsOf07F0()
    ensures Bit(0x07F0, 0) == Bit(0x07F0, 1) == Bit(0x07F0, 2) == Bit(0x07F0, 3) == 0
    ensures Bit(0x07F0, 4) == Bit(0x07F0, 5) == Bit(0x07F0, 6) == Bit(0x07F0, 7) == 1
    ensures Bit(0x07F0, 8) == Bit(0x07F0, 9) == Bit(0x07F0, 10) == 1
  {
    assert Bit(0x07F0, 4) == Bit(0x7F, 0);
  }

  /** Which bits a CPSR write changes: in every mode, exactly those that are not protected there. */
  lemma WriteCpsrBits(f: Regs, v: word, i: nat)
    requires i < 32
    ensures Bit(WriteCpsr(f, v).psr[0], i) == if Protected(Mode(f), i) then Bit(f.psr[0], i) else Bit(v, i)
  {
    MaskedBit(f.psr[0], v, PsrMask(f), i);
    if i < 8 {
      LowMaskBits(i);
    } else if i < 16 {
      MiddleMaskBits(i);
    } else {
      HighMaskBits(i);
    }
  }

  /** And an SPSR write, in the modes that have one: those that are not reserved. */
  lemma WriteSpsrBits(f: Regs, v: word, i: nat)
    requires HasSpsr(f) && i < 32
    ensures Bit(ReadSpsr(WriteSpsr(f, v)), i) == if Reserved(i) then Bit(ReadSpsr(f), i) else Bit(v, i)
  {
    MaskedBit(ReadSpsr(f), v, PRIVILEGED_MASK, i);
    if i < 8 {
      LowMaskBits(i);
    } else if i < 16 {
      MiddleMaskBits(i);
    } else {
      HighMaskBits(i);
    }
  }

  // ---- banking -----------------------------------------------------------

  predicate ValidMode(mode: nat) {
    mode in {USR, FIQ, IRQ, SVC, ABT, UND, SYS}
  }

  /** The banks of the manual's register table; user and system mode share one. */
  datatype Bank = Common | FiqBank | IrqBank | SvcBank | AbtBank | UndBank

  /** One of the 31 architectural general registers. */
  datatype ArchReg = ArchReg(bank: Bank, r: regno)

  function ModeBank(mode: nat): Bank
    requires ValidMode(mode)
  {
    if mode == FIQ then FiqBank
    else if mode == IRQ then IrqBank
    else if mode == SVC then SvcBank
    else if mode == ABT then AbtBank
    else if mode == UND then UndBank
    else Common
  }

  /** FIQ mode has its own R8 to R14, the other exception modes their own R13 and R14. */
  function ArchName(mode: nat, r: regno): ArchReg
    requires ValidMode(mode)
  {
    if (mode == FIQ && 8 <= r <= 14) || 13 <= r <= 14
    then ArchReg(ModeBank(mode), r)
    else ArchReg(Common, r)
  }

  /** Two (mode, register) pairs share a slot exactly when they name the same architectural register. */
  lemma SlotsAreArchitectural(m1: nat, r1: regno, m2: nat, r2: regno)
    requires ValidMode(m1) && ValidMode(m2)
    ensures SlotOf(m1, r1) == SlotOf(m2, r2) <==> ArchName(m1, r1) == ArchName(m2, r2)
  {
  }

  /** The slots by the mode codes and register numbers: the order of the source's two arrays. */
  lemma SlotTable(r: regno)
    ensures SlotOf(0x10, r) == SlotOf(0x1f, r) == Main(r)
    ensures SlotOf(0x11, r) == if 8 <= r <= 14 then Banked(r) else Main(r)
    ensures SlotOf(0x13, r) == if r == 14 then Banked(0) else if r == 13 then Banked(1) else Main(r)
    ensures SlotOf(0x17, r) == if r == 14 then Banked(2) else if r == 13 then Banked(3) else Main(r)
    ensures SlotOf(0x1b, r) == if r == 14 then Banked(4) else if r == 13 then Banked(5) else Main(r)
    ensures SlotOf(0x12, r) == if r == 14 then Banked(6) else if r == 13 then Banked(7) else Main(r)
  {
  }

  /** No slot is wasted: each of the 31 holds some architectural register. */
  lemma EverySlotIsUsed(slot: Slot) returns (mode: nat, r: regno)
    requires IsSlot(slot)
    ensures ValidMode(mode) && SlotOf(mode, r) == slot
  {
    match slot
    case Main(i) => mode, r := USR, i;
    case Banked(i) =>
      if i >= 8 {
        mode, r := FIQ, i;
      } else {
        mode := if i < 2 then SVC else if i < 4 then ABT else if i < 6 then UND else IRQ;
        r := if i % 2 == 0 then 14 else 13;
      }
  }

  // ---- histories of writes -----------------------------------------------

  datatype RegOp =
    | PutReg(r: regno, v: word)
    | PutUser(r: regno, v: word)
    | PutCpsr(v: word)
    | PutSpsr(v: word)

  function Apply(f: Regs, op: RegOp): Regs {
    match op
    case PutReg(r, v) => Write(f, r, v)
    case PutUser(r, v) => WriteUser(f, r, v)
    case PutCpsr(v) => WriteCpsr(f, v)
    case PutSpsr(v) => WriteSpsr(f, v)
  }

  function Run(f: Regs, ops: seq<RegOp>): Regs {
    if ops == [] then f else Apply(Run(f, ops[..|ops| - 1]), ops[|ops| - 1])
  }

  /** The mode after a history, from the CPSR writes alone. */
  function ModeAfter(mode: nat, ops: seq<RegOp>): nat {
    if ops == [] then mode else
      var m := ModeAfter(mode, ops[..|ops| - 1]);
      match ops[|ops| - 1]
      case PutCpsr(v) => if m == USR then USR else v % 32
      case _ => m
  }

  /** The history only ever selects mode codes the architecture defines. */
  predicate ThroughValidModes(mode: nat, ops: seq<RegOp>) {
    ValidMode(ModeAfter(mode, ops)) &&
    (ops != [] ==> ThroughValidModes(mode, ops[..|ops| - 1]))
  }

  /** The value last written to an architectural register, `initial` if none was. */
  function LastWritten(mode: nat, ops: seq<RegOp>, name: ArchReg, initial: word): word
    requires ThroughValidModes(mode, ops)
  {
    if ops == [] then initial else
      var earlier := ops[..|ops| - 1];
      match ops[|ops| - 1]
      case PutReg(r, v) =>
        if ArchName(ModeAfter(mode, earlier), r) == name then v
        else LastWritten(mode, earlier, name, initial)
      case PutUser(r, v) =>
        if ArchReg(Common, r) == name then v else LastWritten(mode, earlier, name, initial)
      case _ => LastWritten(mode, earlier, name, initial)
  }

  /** The value last written to bit `i` of a status register (0 is CPSR) by a write allowed to
      change that bit. */
  function LastPsrBit(mode: nat, ops: seq<RegOp>, k: nat, i: nat, initial: bit): bit {
    if ops == [] then initial else
      var earlier := ops[..|ops| - 1];
      var m := ModeAfter(mode, earlier);
      var before := LastPsrBit(mode, earlier, k, i, initial);
      match ops[|ops| - 1]
      case PutCpsr(v) =>
        if k == 0 && Bit(if m == USR then USER_MASK else PRIVILEGED_MASK, i) == 0 then Bit(v, i)
        else before
      case PutSpsr(v) =>
        if ModeHasSpsr(m) && k == SpsrIndex(m) && Bit(PRIVILEGED_MASK, i) == 0 then Bit(v, i)
        else before
      case _ => before
  }

  lemma {:induction false} RunMode(f: Regs, ops: seq<RegOp>)
    ensures Mode(Run(f, ops)) == ModeAfter(Mode(f), ops)
  {
    if ops != [] {
      var g := Run(f, ops[..|ops| - 1]);
      RunMode(f, ops[..|ops| - 1]);
      match ops[|ops| - 1]
      case PutCpsr(v) => WriteCpsrMode(g, v);
      case _ =>
    }
  }

  /** Refinement of the register file: after any history, register `r` read in any mode holds
      the last value written to the architectural register it names there. */
  lemma {:induction false} ReadsLastWritten(f: Regs, ops: seq<RegOp>, mode: nat, r: regno)
    requires ThroughValidModes(Mode(f), ops) && ValidMode(mode)
    ensures ReadSlot(Run(f, ops), SlotOf(mode, r))
            == LastWritten(Mode(f), ops, ArchName(mode, r), ReadSlot(f, SlotOf(mode, r)))
  {
    if ops != [] {
      var earlier := ops[..|ops| - 1];
      ReadsLastWritten(f, earlier, mode, r);
      RunMode(f, earlier);
      match ops[|ops| - 1]
      case PutReg(r', v) =>
        SlotsAreArchitectural(ModeAfter(Mode(f), earlier), r', mode, r);
      case PutUser(r', v) =>
        SlotsAreArchitectural(USR, r', mode, r);
      case _ =>
    }
  }

  /** What `read_register` returns at the end of a history. */
  lemma CurrentReadLastWritten(f: Regs, ops: seq<RegOp>, r: regno)
    requires ThroughValidModes(Mode(f), ops)
    ensures var mode := ModeAfter(Mode(f), ops);
            Read(Run(f, ops), r)
            == LastWritten(Mode(f), ops, ArchName(mode, r), ReadSlot(f, SlotOf(mode, r)))
  {
    RunMode(f, ops);
    ReadsLastWritten(f, ops, ModeAfter(Mode(f), ops), r);
  }

  /** Refinement of the status registers, bit by bit, whatever the mode codes. */
  lemma {:induction false} PsrBitLastWritten(f: Regs, ops: seq<RegOp>, k: nat, i: nat)
    requires k < 6 && i < 32
    ensures Bit(Run(f, ops).psr[k], i) == LastPsrBit(Mode(f), ops, k, i, Bit(f.psr[k], i))
  {
    if ops != [] {
      var earlier := ops[..|ops| - 1];
      var g := Run(f, earlier);
      PsrBitLastWritten(f, earlier, k, i);
      RunMode(f, earlier);
      match ops[|ops| - 1]
      case PutCpsr(v) => MaskedBit(g.psr[0], v, PsrMask(g), i);
      case PutSpsr(v) => MaskedBit(g.psr[SpsrIndex(Mode(g))], v, PRIVILEGED_MASK, i);
      case _ =>
    }
  }

  // ---- status registers by mode ------------------------------------------

  predicate ExceptionMode(mode: nat) {
    mode in {FIQ, IRQ, SVC, ABT, UND}
  }

  /** Each exception mode has an SPSR of its own, in the order of the source's array. */
  lemma SpsrsAreDistinct(m1: nat, m2: nat)
    requires ExceptionMode(m1) && ExceptionMode(m2)
    ensures SpsrIndex(m1) == SpsrIndex(m2) <==> m1 == m2
    ensures SpsrIndex(m1) == if m1 == SVC then 1 else if m1 == ABT then 2 else if m1 == UND then 3
                             else if m1 == IRQ then 4 else 5
  {
  }

  /** The value last written to bit `i` of the SPSR of `target` by a write made in that mode. */
  function LastSpsrBit(mode: nat, ops: seq<RegOp>, target: nat, i: nat, initial: bit): bit {
    if ops == [] then initial else
      var earlier := ops[..|ops| - 1];
      var before := LastSpsrBit(mode, earlier, target, i, initial);
      match ops[|ops| - 1]
      case PutSpsr(v) => if ModeAfter(mode, earlier) == target && !Reserved(i) then Bit(v, i) else before
      case _ => before
  }

  /** After any history through valid modes, each SPSR bit is the one last written in its own mode. */
  lemma {:induction false} SpsrBitLastWritten(f: Regs, ops: seq<RegOp>, target: nat, i: nat)
    requires ThroughValidModes(Mode(f), ops) && ExceptionMode(target) && i < 32
    ensures Bit(Run(f, ops).psr[SpsrIndex(target)], i)
            == LastSpsrBit(Mode(f), ops, target, i, Bit(f.psr[SpsrIndex(target)], i))
  {
    if ops != [] {
      var earlier := ops[..|ops| - 1];
      SpsrBitLastWritten(f, earlier, target, i);
      RunMode(f, earlier);
      match ops[|ops| - 1]
      case PutSpsr(v) => SpsrStep(Run(f, earlier), v, target, i);
      case _ =>
    }
  }

  lemma SpsrStep(g: Regs, v: word, target: nat, i: nat)
    requires ValidMode(Mode(g)) && ExceptionMode(target) && i < 32
    ensures Bit(WriteSpsr(g, v).psr[SpsrIndex(target)], i)
            == if Mode(g) == target && !Reserved(i) then Bit(v, i) else Bit(g.psr[SpsrIndex(target)], i)
  {
    if HasSpsr(g) {
      SpsrsAreDistinct(Mode(g), target);
      WriteSpsrBits(g, v, i);
    }
  }

  // ---- reserved bits -----------------------------------------------------

  /** Every PSR has the reserved bits clear. */
  ghost predicate ReservedClear(f: Regs) {
    forall k, i: nat {:trigger Bit(f.psr[k], i)} ::
      0 <= k < 6 && i < 32 && Bit(PRIVILEGED_MASK, i) == 1 ==> Bit(f.psr[k], i) == 0
  }

  lemma MaskInclusion(i: nat)
    requires i < 32 && Bit(PRIVILEGED_MASK, i) == 1
    ensures Bit(USER_MASK, i) == 1
  {
    assert Pow2(9) == 0x200;
    if i < 9 {
      NotBit(0, 9, i);
      ZeroBit(i);
      LowBits(USER_MASK, Pow2(9) - 1, 9, i);
    } else {
      BitShift(PRIVILEGED_MASK, 9, i - 9);
      BitShift(USER_MASK, 9, i - 9);
      ShrIsQuotient(PRIVILEGED_MASK, 9);
      ShrIsQuotient(USER_MASK, 9);
    }
  }

  lemma ApplyReserved(f: Regs, op: RegOp)
    requires ReservedClear(f)
    ensures ReservedClear(Apply(f, op))
  {
    forall k, i: nat | 0 <= k < 6 && i < 32 && Bit(PRIVILEGED_MASK, i) == 1
      ensures Bit(Apply(f, op).psr[k], i) == 0
    {
      assert Bit(f.psr[k], i) == 0;
      match op
      case PutCpsr(v) =>
        MaskInclusion(i);
        MaskedBit(f.psr[0], v, PsrMask(f), i);
      case PutSpsr(v) =>
        MaskedBit(f.psr[SpsrIndex(Mode(f))], v, PRIVILEGED_MASK, i);
      case _ =>
    }
  }

  lemma CreatedReserved()
    ensures ReservedClear(CREATED)
  {
    forall k, i: nat | 0 <= k < 6 && i < 32 && Bit(PRIVILEGED_MASK, i) == 1
      ensures Bit(CREATED.psr[k], i) == 0
    {
      if k == 0 {
        if i < 5 {
          MaskModeBits(i);
        } else {
          HighBits(SYS, 5, i);
        }
      } else {
        ZeroBit(i);
      }
    }
  }

  /** The reserved bits stay clear through any history of writes. */
  lemma {:induction false} ReservedAlwaysClear(ops: seq<RegOp>)
    ensures ReservedClear(Run(CREATED, ops))
  {
    if ops == [] {
      CreatedReserved();
    } else {
      ReservedAlwaysClear(ops[..|ops| - 1]);
      ApplyReserved(Run(CREATED, ops[..|ops| - 1]), ops[|ops| - 1]);
    }
  }

  /** With the reserved bits clear, returning from an exception restores the SPSR bit for bit. */
  lemma ExceptionReturnExact(f: Regs)
    requires ReservedClear(f) && HasSpsr(f)
    ensures WriteCpsr(f, ReadSpsr(f)) == f.(psr := f.psr[0 := ReadSpsr(f)])
  {
    forall i: nat | i < 32 && Bit(PRIVILEGED_MASK, i) == 1
      ensures Bit(f.psr[0], i) == Bit(ReadSpsr(f), i)
    {
      assert Bit(f.psr[0], i) == 0;
      assert Bit(f.psr[SpsrIndex(Mode(f))], i) == 0;
    }
    MaskedExact(f.psr[0], ReadSpsr(f), PRIVILEGED_MASK);
  }

  /** A CPSR write that keeps the low 28 bits takes effect exactly, in every mode. */
  lemma WriteFlagBits(f: Regs, v: word)
    requires v % 0x1000_0000 == f.psr[0] % 0x1000_0000
    ensures WriteCpsr(f, v) == f.(psr := f.psr[0 := v])
  {
    PowValues();
    forall i: nat | i < 32 && Bit(PsrMask(f), i) == 1
      ensures Bit(f.psr[0], i) == Bit(v, i)
    {
      if i < 28 {
        LowBits(v, f.psr[0], 28, i);
      } else {
        HighBits(PsrMask(f), 28, i);
      }
    }
    MaskedExact(f.psr[0], v, PsrMask(f));
  }
}
