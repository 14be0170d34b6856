/** LDR, STR, LDRB, STRB, LDRH and STRH by the fields of their words: how many bytes move, where, and
    between which cells and registers. */
module TransferForms {
  import opened Words
  import opened Registers
  import opened Memory
  import opened MemoryRuns
  import opened Core
  import opened DataProcessing
  import opened LoadStore
  import opened SingleTransfers
  import opened ByteOrder
  import opened Instruction

  // ---- addresses ---------------------------------------------------------

  /** Bit 24 clear: the base itself. Bit 24 set: the base plus the offset if bit 23 is set, else minus it. */
  lemma AddressByBits(m: Machine, ins: word, offset: word)
    ensures var base := ReadReg(m, Rn(ins));
            Effective(m, ins, offset) == if Bit(ins, 24) == 0 then base
                                         else if Bit(ins, 23) == 1 then (base + offset) % 0x1_0000_0000
                                         else (base - offset) % 0x1_0000_0000
  {
  }

  /** The base afterwards: as before for a plain offset, else moved. */
  lemma BaseByBits(m: Machine, ins: word, offset: word)
    ensures var base := ReadReg(m, Rn(ins));
            BaseAfter(m, ins, offset) == if Bit(ins, 24) == 1 && Bit(ins, 21) == 0 then base
                                         else if Bit(ins, 23) == 1 then (base + offset) % 0x1_0000_0000
                                         else (base - offset) % 0x1_0000_0000
  {
  }

  // ---- forms -------------------------------------------------------------

  /** A byte (bit 22 set) or word transfer with the given offset that is no T form. */
  predicate ByteForm(m: Machine, ins: word, offset: word) {
    Bits(ins, 27, 26) == 1 && Bit(ins, 22) == 1 && WordOffset(m, ins) == Some(offset)
    && (Bit(ins, 24) == 1 || Bit(ins, 21) == 0)
  }

  predicate WordForm(m: Machine, ins: word, offset: word) {
    Bits(ins, 27, 26) == 1 && Bit(ins, 22) == 0 && WordOffset(m, ins) == Some(offset)
    && (Bit(ins, 24) == 1 || Bit(ins, 21) == 0)
  }

  predicate HalfForm(m: Machine, ins: word, offset: word) {
    Bits(ins, 27, 26) == 0 && IsHalfForm(ins) && Bits(ins, 6, 5) == 1 && HalfOffset(m, ins) == offset
  }

  /** The registers after a load of `v`: those of the current mode as `AfterLoad` says, the others and the
      status registers as before. */
  ghost predicate LoadedRegisters(m: Machine, ins: word, offset: word, v: word, m': Machine) {
    m'.regs.psr == m.regs.psr && (forall r: regno :: Read(m'.regs, r) == AfterLoad(m, ins, offset, v, r))
    && forall slot :: IsSlot(slot) && !NamedBy(m, ins, slot) ==> ReadSlot(m'.regs, slot) == ReadSlot(m.regs, slot)
  }

  /** The registers after a store: only a base that moves has changed. */
  predicate StoredRegisters(m: Machine, ins: word, offset: word, m': Machine) {
    m'.regs == if Bit(ins, 24) == 1 && Bit(ins, 21) == 0 then m.regs
               else Write(m.regs, Rn(ins), BaseAfter(m, ins, offset))
  }

  /** A refused address aborts, with only a pre-indexed base moved. */
  predicate Aborts(m: Machine, ins: word, offset: word, e: Effect) {
    e == Effect(PreUpdated(m, ins, offset), Returned(5)) && e.m.mem == m.mem
  }

  lemma FormIs(m: Machine, ins: word, offset: word)
    ensures ByteForm(m, ins, offset) ==> LoadStoreSingle(m, ins) == SingleTransfer(m, ins, IsLoad(ins), 1, offset)
    ensures WordForm(m, ins, offset) ==> LoadStoreSingle(m, ins) == SingleTransfer(m, ins, IsLoad(ins), 4, offset)
    ensures HalfForm(m, ins, offset) ==> LoadStoreSingle(m, ins) == SingleTransfer(m, ins, IsLoad(ins), 2, offset)
  {
  }

  // ---- transfers of a given width ----------------------------------------

  lemma LoadsWidth(m: Machine, ins: word, w: width, offset: word)
    requires w == 2 || Bit(ins, 24) == 1 || Bit(ins, 21) == 0
    ensures var e, a := SingleTransfer(m, ins, true, w, offset), Effective(m, ins, offset);
            if Accepts(m.mem.size, a, w)
            then e.outcome == DONE && e.m.mem == m.mem && LoadedRegisters(m, ins, offset, Load(m.mem, a, w), e.m)
            else Aborts(m, ins, offset, e)
  {
    CompletesExactly(m, ins, true, w, offset);
    if Accepts(m.mem.size, Effective(m, ins, offset), w) {
      LoadSingle(m, ins, w, offset);
    }
  }

  lemma StoresWidth(m: Machine, ins: word, w: width, offset: word)
    requires w == 2 || Bit(ins, 24) == 1 || Bit(ins, 21) == 0
    ensures var e, a := SingleTransfer(m, ins, false, w, offset), Effective(m, ins, offset);
            if Accepts(m.mem.size, a, w)
            then e.outcome == DONE && e.m.mem == Store(m.mem, a, w, Truncated(Source(m, ins, offset), w))
                 && StoredRegisters(m, ins, offset, e.m)
            else Aborts(m, ins, offset, e)
  {
    CompletesExactly(m, ins, false, w, offset);
    if Accepts(m.mem.size, Effective(m, ins, offset), w) {
      StoreSingle(m, ins, w, offset, Effective(m, ins, offset), w);
    }
  }

  // ---- bytes -------------------------------------------------------------

  /** LDRB completes at every address up to the size, aligned or not, and loads the one byte there. */
  lemma LoadByte(m: Machine, ins: word, offset: word)
    requires ByteForm(m, ins, offset) && Bit(ins, 20) == 1
    ensures var e, a := LoadStoreSingle(m, ins), Effective(m, ins, offset);
            if a <= m.mem.size
            then e.outcome == DONE && e.m.mem == m.mem && LoadedRegisters(m, ins, offset, m.mem.data[a], e.m)
            else Aborts(m, ins, offset, e)
  {
    FormIs(m, ins, offset);
    LoadsWidth(m, ins, 1, offset);
    if Effective(m, ins, offset) <= m.mem.size {
      ByteRead(m.mem, Effective(m, ins, offset));
    }
  }

  /** STRB changes the one byte there to the lowest of the source. */
  lemma StoreByte(m: Machine, ins: word, offset: word)
    requires ByteForm(m, ins, offset) && Bit(ins, 20) == 0
    ensures var e, a := LoadStoreSingle(m, ins), Effective(m, ins, offset);
            if a <= m.mem.size
            then e.outcome == DONE && e.m.mem == m.mem.(data := m.mem.data[a := Source(m, ins, offset) % 0x100])
                 && StoredRegisters(m, ins, offset, e.m)
            else Aborts(m, ins, offset, e)
  {
    FormIs(m, ins, offset);
    StoresWidth(m, ins, 1, offset);
    if Effective(m, ins, offset) <= m.mem.size {
      OneByte(m.mem, Effective(m, ins, offset), Source(m, ins, offset));
    }
  }

  lemma OneByte(m: Mem, a: word, v: word)
    requires a <= m.size
    ensures Store(m, a, 1, v % 0x100) == m.(data := m.data[a := v % 0x100])
  {
    assert ByteOf(v % 0x100, 0) == v % 0x100;
    assert Store(m, a, 1, v % 0x100).data == m.data[a := v % 0x100];
  }

  // ---- words and half-words ----------------------------------------------

  /** LDR and STR complete at the multiples of four whose last byte is not beyond the size, and move four
      bytes. */
  lemma MoveWord(m: Machine, ins: word, offset: word)
    requires WordForm(m, ins, offset)
    ensures var e, a := LoadStoreSingle(m, ins), Effective(m, ins, offset);
            (a % 4 == 0 && a + 3 <= m.mem.size <==> Accepts(m.mem.size, a, 4))
            && if !Accepts(m.mem.size, a, 4) then Aborts(m, ins, offset, e)
               else if Bit(ins, 20) == 1 then
                 e.outcome == DONE && e.m.mem == m.mem && LoadedRegisters(m, ins, offset, Load(m.mem, a, 4), e.m)
               else e.outcome == DONE && e.m.mem == Store(m.mem, a, 4, Source(m, ins, offset))
                    && StoredRegisters(m, ins, offset, e.m)
  {
    FormIs(m, ins, offset);
    AcceptsExactly(m.mem.size, Effective(m, ins, offset), 4);
    if IsLoad(ins) {
      LoadsWidth(m, ins, 4, offset);
    } else {
      StoresWidth(m, ins, 4, offset);
    }
  }

  /** LDRH and STRH complete at the even addresses whose next byte is not beyond the size, and move two
      bytes. */
  lemma MoveHalf(m: Machine, ins: word, offset: word)
    requires HalfForm(m, ins, offset)
    ensures var e, a := LoadStoreSingle(m, ins), Effective(m, ins, offset);
            (a % 2 == 0 && a + 1 <= m.mem.size <==> Accepts(m.mem.size, a, 2))
            && if !Accepts(m.mem.size, a, 2) then Aborts(m, ins, offset, e)
               else if Bit(ins, 20) == 1 then
                 e.outcome == DONE && e.m.mem == m.mem && LoadedRegisters(m, ins, offset, Load(m.mem, a, 2), e.m)
               else e.outcome == DONE && e.m.mem == Store(m.mem, a, 2, Source(m, ins, offset) % 0x1_0000)
                    && StoredRegisters(m, ins, offset, e.m)
  {
    FormIs(m, ins, offset);
    AcceptsExactly(m.mem.size, Effective(m, ins, offset), 2);
    if IsLoad(ins) {
      LoadsWidth(m, ins, 2, offset);
    } else {
      StoresWidth(m, ins, 2, offset);
    }
  }

  // ---- refusals ----------------------------------------------------------

  /** The T forms make their access at the base, and are refused only then. */
  lemma TranslatedForms(m: Machine, ins: word, offset: word)
    requires Bits(ins, 27, 26) == 1 && WordOffset(m, ins) == Some(offset) && Bit(ins, 24) == 0 && Bit(ins, 21) == 1
    ensures var e, base, w: width := LoadStoreSingle(m, ins), ReadReg(m, Rn(ins)), if Bit(ins, 22) == 1 then 1 else 4;
            if !Accepts(m.mem.size, base, w) then e == Effect(m, Returned(5))
            else if Bit(ins, 20) == 1 then e == Effect(WriteReg(m, Rd(ins), Load(m.mem, base, w)), Returned(2))
            else e == Effect(m.(mem := Store(m.mem, base, w, Truncated(ReadReg(m, Rd(ins)), w))), Returned(2))
  {
  }

  /** A word with the bits of a half-word or signed transfer. */
  predicate ExtraTransfer(ins: word) {
    Bits(ins, 27, 25) == 0 && Bit(ins, 7) == 1 && Bit(ins, 4) == 1 && Bits(ins, 31, 28) != 15
    && (Bit(ins, 24) == 1 || Bits(ins, 6, 5) != 0)
  }

  /** Media words, and words that are no transfer, are refused without any change; signed transfers and the
      like once a pre-indexed base is written back. */
  lemma OtherForms(m: Machine, ins: word)
    ensures Bits(ins, 27, 26) == 1 && Bit(ins, 25) == 1 && Bit(ins, 4) == 1 ==>
              LoadStoreSingle(m, ins) == Effect(m, Returned(2))
    ensures Bits(ins, 27, 26) != 1 && !ExtraTransfer(ins) ==> LoadStoreSingle(m, ins) == Effect(m, Returned(2))
    ensures Bits(ins, 27, 26) != 1 && ExtraTransfer(ins) && Bits(ins, 6, 5) != 1 ==>
              LoadStoreSingle(m, ins)
              == Effect(if Bit(ins, 24) == 1 && Bit(ins, 21) == 1
                        then WriteReg(m, Rn(ins), Effective(m, ins, HalfOffset(m, ins))) else m, Returned(2))
  {
  }

  /** LDM and STM with bit 22 set are refused without any change. */
  lemma BlockWithSRefused(m: Machine, ins: word)
    requires Bit(ins, 22) == 1
    ensures LoadStoreMultiple(m, ins) == Effect(m, Returned(2))
  {
  }

  /** Every half-word transfer that is dispatched moves a half-word, unless its condition is the
      unconditional one. */
  lemma DispatchedHalves(ins: word)
    requires Classify(ins) == HalfTransfer
    ensures Bits(ins, 27, 26) == 0 && Bits(ins, 6, 5) == 1 && (IsHalfForm(ins) <==> ins / 0x1000_0000 != 15)
  {
    TopNibbles(ins);
    MiddleNibble(ins);
    ConditionBits(ins);
  }

  lemma ConditionBits(ins: word)
    ensures Bits(ins, 31, 28) == ins / 0x1000_0000
  {
    PowValues();
    assert Pow2(4) == 16;
    ShrIsQuotient(ins, 28);
  }

  lemma MiddleNibble(ins: word)
    requires Bits(ins, 7, 4) == 0xb
    ensures Bit(ins, 7) == 1 && Bit(ins, 4) == 1 && Bits(ins, 6, 5) == 1
  {
    var y := Shr(ins, 4);
    assert Pow2(2) == 4 && Pow2(4) == 16;
    BitShift(ins, 4, 0);
    BitShift(ins, 4, 3);
    ShrShr(ins, 4, 1);
    assert Shr(y, 1) == Shr(y / 2, 0) == y / 2;
    assert Bit(y, 3) == Bit(y / 2, 2) == Bit(y / 2 / 2, 1) == Bit(y / 2 / 2 / 2, 0);
    HalfMod(y, 8);
    HalfMod(y / 2, 4);
    HalfMod(y / 2, 2);
    HalfMod(y / 2 / 2, 2);
  }
}
