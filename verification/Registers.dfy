/** The register file of registers.c: 31 general registers packed into a 16-slot and a
    15-slot array, and six program status registers. */
module Registers {
  import opened Words

  // Processor modes (arm_constants.h).
  const USR: nat := 0x10
  const FIQ: nat := 0x11
  const IRQ: nat := 0x12
  const SVC: nat := 0x13
  const ABT: nat := 0x17
  const UND: nat := 0x1b
  const SYS: nat := 0x1f

  /** PSR bits a write in a privileged mode leaves alone. */
  const PRIVILEGED_MASK: word := 0x07F0_FC20
  /** PSR bits a write in user mode leaves alone. */
  const USER_MASK: word := 0x07F0_FDFF

  type regno = x: int | 0 <= x < 16

  // ---- values ------------------------------------------------------------

  /** The contents of the three arrays. `psr` holds CPSR, SPSR_svc, SPSR_abt, SPSR_und, SPSR_irq
      and SPSR_fiq in this order. */
  datatype RegisterFile = RegisterFile(main: seq<word>, banked: seq<word>, psr: seq<word>) {
    predicate Sized() {
      |main| == 16 && |banked| == 15 && |psr| == 6
    }
  }

  type Regs = f: RegisterFile | f.Sized()
    witness RegisterFile(seq(16, _ => 0), seq(15, _ => 0), seq(6, _ => 0))

  /** Where a general register lives. */
  datatype Slot = Main(i: nat) | Banked(i: nat)

  function Mode(f: Regs): (mode: nat)
    ensures mode < 32
  {
    f.psr[0] % 32
  }

  predicate ModeHasSpsr(mode: nat) {
    mode != USR && mode != SYS
  }

  predicate HasSpsr(f: Regs) {
    ModeHasSpsr(Mode(f))
  }

  lemma ModeOfLow(x: word)
    ensures x % 32 == x % 0x1000_0000 % 32
  {
    var q, r := x / 0x1000_0000, x % 0x1000_0000;
    assert x == 32 * (0x80_0000 * q) + r;
  }

  lemma ModeByte(x: nat)
    ensures x % 0x100 % 0x20 == x % 32
  {
    var q, r := x / 0x100, x % 0x100;
    assert x == 32 * (8 * q) + r;
  }

  /** `get_banked_register_from_mode` */
  function BankedIndex(mode: nat, r: nat): nat {
    if mode == FIQ then r
    else if mode == SVC then r % 2
    else if mode == ABT then r % 2 + 2
    else if mode == UND then r % 2 + 4
    else r % 2 + 6
  }

  /** `get_register_from_mode` */
  function SpsrIndex(mode: nat): (i: nat)
    ensures 1 <= i <= 5
  {
    if mode == SVC then 1
    else if mode == ABT then 2
    else if mode == UND then 3
    else if mode == IRQ then 4
    else 5
  }

  /** The slot that register `r` names in `mode`. Codes that are not modes behave as IRQ. */
  function SlotOf(mode: nat, r: regno): (slot: Slot)
    ensures slot.Main? ==> slot.i == r
    ensures slot.Banked? ==> slot.i < 15 && 8 <= r <= 14 && ModeHasSpsr(mode)
  {
    if r < 8 || r == 15 || !ModeHasSpsr(mode) then Main(r)
    else if mode != FIQ && r < 13 then Main(r)
    else Banked(BankedIndex(mode, r))
  }

  predicate IsSlot(slot: Slot) {
    match slot
    case Main(i) => i < 16
    case Banked(i) => i < 15
  }

  function ReadSlot(f: Regs, slot: Slot): word
    requires IsSlot(slot)
  {
    match slot
    case Main(i) => f.main[i]
    case Banked(i) => f.banked[i]
  }

  function WriteSlot(f: Regs, slot: Slot, v: word): Regs
    requires IsSlot(slot)
  {
    match slot
    case Main(i) => f.(main := f.main[i := v])
    case Banked(i) => f.(banked := f.banked[i := v])
  }

  function Read(f: Regs, r: regno): word {
    ReadSlot(f, SlotOf(Mode(f), r))
  }

  function Write(f: Regs, r: regno, v: word): Regs {
    WriteSlot(f, SlotOf(Mode(f), r), v)
  }

  function WriteUser(f: Regs, r: regno, v: word): Regs {
    f.(main := f.main[r := v])
  }

  /** The low `n` bits of a word made of the bits of `was` inside `mask` and of `v` outside it. */
  function Merge(was: nat, v: nat, mask: nat, n: nat): nat
    decreases was, v, mask, n
  {
    if n == 0 then 0 else
      2 * Merge(was / 2, v / 2, mask / 2, n - 1) + (if mask % 2 == 1 then was % 2 else v % 2)
  }

  lemma {:induction false} MergeBound(was: nat, v: nat, mask: nat, n: nat)
    ensures Merge(was, v, mask, n) < Pow2(n)
    decreases n
  {
    if n > 0 {
      MergeBound(was / 2, v / 2, mask / 2, n - 1);
    }
  }

  /** What a PSR holds after a write of `v` that must not touch the bits of `mask`. */
  function Masked(was: word, v: word, mask: word): word {
    MergeBound(was, v, mask, 32);
    PowValues();
    Merge(was, v, mask, 32)
  }

  function PsrMask(f: Regs): word {
    if Mode(f) != USR then PRIVILEGED_MASK else USER_MASK
  }

  function WriteCpsr(f: Regs, v: word): Regs {
    f.(psr := f.psr[0 := Masked(f.psr[0], v, PsrMask(f))])
  }

  function ReadSpsr(f: Regs): word {
    if HasSpsr(f) then f.psr[SpsrIndex(Mode(f))] else 0
  }

  function WriteSpsr(f: Regs, v: word): Regs {
    if HasSpsr(f) then
      var i := SpsrIndex(Mode(f));
      f.(psr := f.psr[i := Masked(f.psr[i], v, PRIVILEGED_MASK)])
    else f
  }

  // ---- masked writes -----------------------------------------------------

  lemma {:induction false} MergeBit(was: nat, v: nat, mask: nat, n: nat, i: nat)
    requires i < n
    ensures Bit(Merge(was, v, mask, n), i) == if Bit(mask, i) == 1 then Bit(was, i) else Bit(v, i)
    decreases n
  {
    if i > 0 {
      MergeBit(was / 2, v / 2, mask / 2, n - 1, i - 1);
    }
  }

  lemma MaskedBit(was: word, v: word, mask: word, i: nat)
    requires i < 32
    ensures Bit(Masked(was, v, mask), i) == if Bit(mask, i) == 1 then Bit(was, i) else Bit(v, i)
  {
    MergeBit(was, v, mask, 32, i);
  }

  /** The or-and sequence of the source merges exactly the bits outside the mask. */
  lemma OrAndMerges(was: word, v: word, mask: word)
    ensures And(Or(was, Not(mask)), Or(v, mask)) == Masked(was, v, mask)
  {
    PowValues();
    var code := And(Or(was, Not(mask)), Or(v, mask));
    forall i: nat | i < 32 ensures Bit(code, i) == Bit(Masked(was, v, mask), i) {
      MaskedBit(was, v, mask, i);
      BitwiseBit(AND, Or(was, Not(mask)), Or(v, mask), 32, i);
      BitwiseBit(OR, was, Not(mask), 32, i);
      BitwiseBit(OR, v, mask, 32, i);
      NotBit(mask, 32, i);
    }
    SameBits(code, Masked(was, v, mask), 32);
  }

  /** A masked write stores its value exactly when the value agrees with the old contents on
      every protected bit. */
  lemma MaskedExact(was: word, v: word, mask: word)
    ensures Masked(was, v, mask) == v
            <==> forall i: nat :: i < 32 && Bit(mask, i) == 1 ==> Bit(was, i) == Bit(v, i)
  {
    PowValues();
    if forall i: nat :: i < 32 && Bit(mask, i) == 1 ==> Bit(was, i) == Bit(v, i) {
      forall i: nat | i < 32 ensures Bit(Masked(was, v, mask), i) == Bit(v, i) {
        MaskedBit(was, v, mask, i);
      }
      SameBits(Masked(was, v, mask), v, 32);
    } else {
      var i: nat :| i < 32 && Bit(mask, i) == 1 && Bit(was, i) != Bit(v, i);
      MaskedBit(was, v, mask, i);
    }
  }

  /** The state `registers_create` makes. */
  const CREATED: Regs := RegisterFile(seq(16, _ => 0), seq(15, _ => 0), [SYS, 0, 0, 0, 0, 0])

  // ---- the object --------------------------------------------------------

  /** `struct registers_data` */
  class RegisterArrays {
    const main: array<word>
    const banked: array<word>
    const psr: array<word>

    predicate Valid() {
      main.Length == 16 && banked.Length == 15 && psr.Length == 6 &&
      main != banked && main != psr && banked != psr
    }

    ghost function Contents(): Regs
      requires Valid()
      reads main, banked, psr
    {
      RegisterFile(main[..], banked[..], psr[..])
    }

    constructor ()
      ensures Valid() && fresh(main) && fresh(banked) && fresh(psr)
      ensures Contents() == CREATED
    {
      main := new word[16](_ => 0);
      banked := new word[15](_ => 0);
      psr := new word[6](_ => 0);
      new;
      psr[0] := SYS;
    }

    function GetMode(): (mode: nat)
      requires Valid()
      reads main, banked, psr
      ensures mode == Mode(Contents())
    {
      ModeByte(psr[0]);
      psr[0] % 0x100 % 0x20
    }

    predicate CurrentModeHasSpsr()
      requires Valid()
      reads main, banked, psr
      ensures CurrentModeHasSpsr() == HasSpsr(Contents())
    {
      GetMode() != USR && GetMode() != SYS
    }

    predicate InAPrivilegedMode()
      requires Valid()
      reads main, banked, psr
      ensures InAPrivilegedMode() <==> Mode(Contents()) != USR
    {
      GetMode() != USR
    }

    function ReadRegister(reg: regno): (value: word)
      requires Valid()
      reads main, banked, psr
      ensures value == Read(Contents(), reg)
    {
      if reg < 8 || reg == 15 || !CurrentModeHasSpsr() then main[reg]
      else if GetMode() != FIQ && reg < 13 then main[reg]
      else banked[BankedIndex(GetMode(), reg)]
    }

    function ReadCpsr(): (value: word)
      requires Valid()
      reads psr
    {
      psr[0]
    }

    function ReadSpsrRegister(): (value: word)
      requires Valid()
      reads main, banked, psr
      ensures value == ReadSpsr(Contents())
    {
      if CurrentModeHasSpsr() then psr[SpsrIndex(GetMode())] else 0
    }

    method WriteRegister(reg: regno, value: word)
      requires Valid()
      modifies main, banked
      ensures Contents() == Write(old(Contents()), reg, value)
    {
      if reg < 8 || reg == 15 || !CurrentModeHasSpsr() {
        main[reg] := value;
      } else {
        var mode := GetMode();
        if mode != FIQ && reg < 13 {
          main[reg] := value;
        } else {
          banked[BankedIndex(mode, reg)] := value;
        }
      }
    }

    method WriteUsrRegister(reg: regno, value: word)
      requires Valid()
      modifies main
      ensures Contents() == WriteUser(old(Contents()), reg, value)
    {
      main[reg] := value;
    }

    method WriteCpsrRegister(value: word)
      requires Valid()
      modifies psr
      ensures Contents() == WriteCpsr(old(Contents()), value)
    {
      var mask := if InAPrivilegedMode() then PRIVILEGED_MASK else USER_MASK;
      OrAndMerges(psr[0], value, mask);
      var masked := Or(value, mask);
      psr[0] := Or(psr[0], Not(mask));
      psr[0] := And(psr[0], masked);
    }

    method WriteSpsrRegister(value: word)
      requires Valid()
      modifies psr
      ensures Contents() == WriteSpsr(old(Contents()), value)
    {
      if CurrentModeHasSpsr() {
        var i := SpsrIndex(GetMode());
        OrAndMerges(psr[i], value, PRIVILEGED_MASK);
        var masked := Or(value, PRIVILEGED_MASK);
        psr[i] := Or(psr[i], Not(PRIVILEGED_MASK));
        psr[i] := And(psr[i], masked);
      }
    }
  }
}
