/** What one STR, STRB or STRH leaves for the LDR, LDRB or LDRH of the same place. */
module SingleTransfers {
  import opened Words
  import opened Registers
  import opened Memory
  import opened MemoryRuns
  import opened Shifter
  import opened Core
  import opened DataProcessing
  import opened LoadStore

  // ---- scaled offsets ----------------------------------------------------

  /** A scaled offset is the shifter's value of as many one-bit steps, but for LSR #0, which gives the 0
      of 32 steps, and ASR #0. */
  lemma ScaledOffsets(rm: word, n: nat, c: bit)
    requires n < 32
    ensures var s := Shifted(rm, c);
            ScaledOffset(0, rm, n, c) == ShiftBy(Left, s, n).value
            && ScaledOffset(1, rm, n, c) == ShiftBy(LogicalRight, s, if n == 0 then 32 else n).value
            && (n > 0 ==> ScaledOffset(2, rm, n, c) == ShiftBy(ArithmeticRight, s, n).value)
            && ScaledOffset(3, rm, n, c) == if n == 0 then RotateExtended(s).value else ShiftBy(Rotate, s, n).value
  {
    LeftValue(rm, c, n);
    RightBeyond(rm, c, 32);
    RightValue(rm, c, n);
    RorRotates(rm, c, n);
    if n > 0 {
      AsrSteps(rm, c, n);
    }
  }

  /** ASR #0 gives all ones for a negative Rm and leaves any other alone, so it is the ASR by 32 that it
      encodes exactly when Rm is zero or negative. */
  lemma ArithmeticOffsetZero(rm: word, c: bit)
    ensures ScaledOffset(2, rm, 0, c) == if rm < 0x8000_0000 then rm else 0xFFFF_FFFF
    ensures ScaledOffset(2, rm, 0, c) == ShiftBy(ArithmeticRight, Shifted(rm, c), 32).value
            <==> rm == 0 || rm >= 0x8000_0000
  {
    ArithmeticBeyond(rm, c, 32);
    TopBit(rm);
    WordBound(rm);
    AsrZero(rm);
  }

  lemma AsrZero(v: word)
    ensures Asr(v, 0) == if Bit(v, 31) == 1 then 0xFFFF_FFFF else v
  {
    assert (32 - 0) % 32 == 0;
    WordBound(v);
    if Bit(v, 31) == 1 {
      ShlZero(0xFFFF_FFFF);
      PowValues();
      OrOnes(v, 32);
    } else {
      OrZero(v, 32);
    }
  }

  lemma {:induction false} OrOnes(x: nat, n: nat)
    requires x < Pow2(n)
    ensures Bitwise(OR, x, Pow2(n) - 1, n) == Pow2(n) - 1
  {
    if n > 0 {
      OrOnes(x / 2, n - 1);
    }
  }

  // ---- whole transfers ---------------------------------------------------

  /** The address of a transfer: the base, moved first in the pre-indexed and offset forms. */
  function Effective(m: Machine, ins: word, offset: word): word {
    var base := ReadReg(m, Rn(ins));
    if PreIndexed(ins) then Displaced(base, offset, Upwards(ins)) else base
  }

  /** The base after a completed transfer that does not load it. */
  function BaseAfter(m: Machine, ins: word, offset: word): word {
    var base := ReadReg(m, Rn(ins));
    if PreIndexed(ins) && !WritesBack(ins) then base else Displaced(base, offset, Upwards(ins))
  }

  /** The register stored, read once a pre-indexed base has been written back. */
  function Source(m: Machine, ins: word, offset: word): word {
    ReadReg(PreUpdated(m, ins, offset), Rd(ins))
  }

  /** A post-indexed word or byte form with the W bit, which the source refuses. */
  predicate IsTranslated(ins: word, w: width) {
    !PreIndexed(ins) && WritesBack(ins) && w != 2
  }

  /** A transfer completes exactly when it is no T form and its address is accepted. A refused
      address leaves memory and all registers alone but for a pre-indexed base, already moved. */
  lemma CompletesExactly(m: Machine, ins: word, load: bool, w: width, offset: word)
    ensures var e := SingleTransfer(m, ins, load, w, offset);
            (e.outcome == DONE <==> Accepts(m.mem.size, Effective(m, ins, offset), w) && !IsTranslated(ins, w))
            && (!Accepts(m.mem.size, Effective(m, ins, offset), w) ==>
                  e == Effect(PreUpdated(m, ins, offset), Returned(DATA_ABORT)) && e.m.mem == m.mem)
  {
    ReadWritten(m, Rn(ins), Displaced(ReadReg(m, Rn(ins)), offset, Upwards(ins)), Rn(ins));
  }

  /** A completed store: the `w` bytes hold the low bytes of the source, every access apart from
      them reads as before, and of the registers only a base that moves has changed. */
  lemma StoreSingle(m: Machine, ins: word, w: width, offset: word, b: word, u: width)
    requires SingleTransfer(m, ins, false, w, offset).outcome == DONE
    requires Accepts(m.mem.size, b, u)
    ensures var e, a := SingleTransfer(m, ins, false, w, offset), Effective(m, ins, offset);
            e.m.mem.size == m.mem.size
            && Load(e.m.mem, a, w) == Source(m, ins, offset) % Pow2(8 * w)
            && (b + u <= a || a + w <= b ==> Load(e.m.mem, b, u) == Load(m.mem, b, u))
            && e.m.regs == if PreIndexed(ins) && !WritesBack(ins) then m.regs
                           else Write(m.regs, Rn(ins), BaseAfter(m, ins, offset))
  {
    CompletesExactly(m, ins, false, w, offset);
    var a, v := Effective(m, ins, offset), Source(m, ins, offset);
    var m1 := PreUpdated(m, ins, offset);
    TruncatedTwice(v, w);
    StoreLoad(m.mem, a, w, Truncated(v, w));
    var moved := Displaced(ReadReg(m, Rn(ins)), offset, Upwards(ins));
    var m2 := m1.(mem := Store(m.mem, a, w, Truncated(v, w)));
    var m3 := if PreIndexed(ins) then m2 else WriteReg(m2, Rn(ins), moved);
    assert SingleTransfer(m, ins, false, w, offset).m == m3;
    if b + u <= a || a + w <= b {
      StoreElsewhere(m.mem, a, w, Truncated(v, w), b, u);
    }
  }

  lemma TruncatedTwice(v: word, w: width)
    ensures Truncated(v, w) % Pow2(8 * w) == v % Pow2(8 * w)
  {
    PowValues();
  }

  /** What register `r` reads after a completed load of `v`: the base moves as for a store, and moves
      last if post-indexed, even when it is itself loaded. */
  function AfterLoad(m: Machine, ins: word, offset: word, v: word, r: regno): word {
    if r == Rn(ins) && !PreIndexed(ins) then BaseAfter(m, ins, offset)
    else if r == Rd(ins) then v
    else if r == Rn(ins) && WritesBack(ins) then BaseAfter(m, ins, offset)
    else Read(m.regs, r)
  }

  /** A completed load: Rd holds the value, zero-extended, and the base is moved; memory, the status
      registers and every other register, in any bank, are as before. */
  lemma LoadSingle(m: Machine, ins: word, w: width, offset: word)
    requires SingleTransfer(m, ins, true, w, offset).outcome == DONE
    ensures Accepts(m.mem.size, Effective(m, ins, offset), w)
    ensures var e, v := SingleTransfer(m, ins, true, w, offset), Load(m.mem, Effective(m, ins, offset), w);
            e.m.mem == m.mem && e.m.regs.psr == m.regs.psr
            && (forall r: regno :: Read(e.m.regs, r) == AfterLoad(m, ins, offset, v, r))
            && forall slot :: IsSlot(slot) && !NamedBy(m, ins, slot) ==>
                 ReadSlot(e.m.regs, slot) == ReadSlot(m.regs, slot)
  {
    CompletesExactly(m, ins, true, w, offset);
    var moved := Displaced(ReadReg(m, Rn(ins)), offset, Upwards(ins));
    var m1, v := PreUpdated(m, ins, offset), Load(m.mem, Effective(m, ins, offset), w);
    var m2 := WriteReg(m1, Rd(ins), v);
    var m3 := if PreIndexed(ins) then m2 else WriteReg(m2, Rn(ins), moved);
    assert SingleTransfer(m, ins, true, w, offset).m == m3;
    forall r: regno ensures Read(m3.regs, r) == AfterLoad(m, ins, offset, v, r) {
      ReadWritten(m, Rn(ins), moved, r);
      ReadWritten(m1, Rd(ins), v, r);
      ReadWritten(m2, Rn(ins), moved, r);
    }
    forall slot | IsSlot(slot) && !NamedBy(m, ins, slot) ensures ReadSlot(m3.regs, slot) == ReadSlot(m.regs, slot) {
      SlotKept(m, Rn(ins), moved, slot);
      SlotKept(m1, Rd(ins), v, slot);
      SlotKept(m2, Rn(ins), moved, slot);
    }
  }

  /** The slots of Rd and Rn in the current mode. */
  predicate NamedBy(m: Machine, ins: word, slot: Slot) {
    slot == SlotOf(Mode(m.regs), Rd(ins)) || slot == SlotOf(Mode(m.regs), Rn(ins))
  }

  /** Store then load of the same width at the same address, whatever the addressing modes, the
      mode of the processor and the registers in between: Rd gets the low bytes that were stored. */
  lemma SingleRoundTrip(m: Machine, store: word, up: word, m2: Machine, load: word, down: word, w: width)
    requires SingleTransfer(m, store, false, w, up).outcome == DONE
    requires m2.mem == SingleTransfer(m, store, false, w, up).m.mem
    requires Effective(m2, load, down) == Effective(m, store, up)
    requires !IsTranslated(load, w) && (Rd(load) != Rn(load) || PreIndexed(load))
    ensures SingleTransfer(m2, load, true, w, down).outcome == DONE
    ensures Read(SingleTransfer(m2, load, true, w, down).m.regs, Rd(load)) == Source(m, store, up) % Pow2(8 * w)
  {
    CompletesExactly(m, store, false, w, up);
    StoreSingle(m, store, w, up, Effective(m, store, up), w);
    CompletesExactly(m2, load, true, w, down);
    LoadSingle(m2, load, w, down);
  }
}
