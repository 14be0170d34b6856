/** An STM followed by an LDM: the same mode restores the registers, a push and a pop exchange them. */
module BlockRoundTrips {
  import opened Words
  import opened Registers
  import opened Memory
  import opened Core
  import opened DataProcessing
  import opened LoadStore
  import opened BlockTransfers
  import opened Encoding

  // ---- the lists ---------------------------------------------------------

  lemma {:induction false} ListedSame(x: nat, y: nat, r: nat)
    requires r <= 16 && forall i: nat :: i < r ==> Bit(x, i) == Bit(y, i)
    ensures ListedBelow(x, r) == ListedBelow(y, r)
  {
    if r > 0 {
      ListedSame(x, y, r - 1);
    }
  }

  /** Dropping R15 from a list drops its last register only. */
  lemma WithoutPc(list: nat)
    ensures ListedBelow(list % 0x8000, 16) == ListedBelow(list, 15) <= ListedBelow(list, 16)
    ensures forall r: regno :: r in ListedBelow(list, 15) <==> r in ListedBelow(list, 16) && r != 15
  {
    var low := list % 0x8000;
    assert Pow2(15) == 0x8000 by {
      PowValues();
      assert Pow2(16) == 2 * Pow2(15);
    }
    forall i: nat | i < 15 ensures Bit(low, i) == Bit(list, i) {
      LowBits(low, list, 15, i);
    }
    ListedSame(low, list, 15);
    HighBits(low, 15, 15);
    ListedPrefix(list, 15, 16);
    ListedBelowIsSorted(list, 15);
    ListedBelowIsSorted(list, 16);
  }

  // ---- a load of stored words --------------------------------------------

  /** The word LDM transfer `j` reads was stored by STM transfer `i`. */
  predicate SameWord(m: Machine, stm: word, m2: Machine, ldm: word, i: nat, j: nat) {
    AddressOf(StartAddress(m2, ldm), Upwards(ldm), j) == AddressOf(StartAddress(m, stm), Upwards(stm), i)
  }

  /** A completed STM, and an LDM run on the memory it left. */
  predicate Follows(m: Machine, stm: word, m2: Machine, ldm: word) {
    IsBlock(stm, false) && IsBlock(ldm, true) && LoadStoreMultiple(m, stm).outcome == DONE
    && m2.mem == LoadStoreMultiple(m, stm).m.mem
  }

  lemma StoredWord(m: Machine, stm: word, i: nat)
    requires IsBlock(stm, false) && LoadStoreMultiple(m, stm).outcome == DONE && i < Count(stm)
    ensures var a, mem := AddressOf(StartAddress(m, stm), Upwards(stm), i), LoadStoreMultiple(m, stm).m.mem;
            mem.size == m.mem.size && Accepts(mem.size, a, 4) && Load(mem, a, 4) == ReadReg(m, Listed(stm)[i])
  {
    var n := Count(stm);
    var start, up := StartAddress(m, stm), Upwards(stm);
    AcceptedMeaning(m.mem.size, start, up, n);
    ListedIsSorted(stm);
    StoresFill(m, Listed(stm), start, up, n, i);
    assert LoadStoreMultiple(m, stm).m.mem == Transferred(m, false, Listed(stm), start, up, n).mem;
  }

  /** LDM transfer `j` reads some word of the STM. */
  predicate ReadsStored(m: Machine, stm: word, m2: Machine, ldm: word, j: nat) {
    exists i: nat :: i < Count(stm) && SameWord(m, stm, m2, ldm, i, j)
  }

  /** If every transfer of the LDM reads a word of the STM, the LDM completes. */
  lemma LoadCompletes(m: Machine, stm: word, m2: Machine, ldm: word)
    requires Follows(m, stm, m2, ldm)
    requires forall j: nat :: j < Count(ldm) ==> ReadsStored(m, stm, m2, ldm, j)
    ensures LoadStoreMultiple(m2, ldm).outcome == DONE && DoneCount(m2, ldm) == Count(ldm)
  {
    var k := DoneCount(m2, ldm);
    AcceptedMeaning(m2.mem.size, StartAddress(m2, ldm), Upwards(ldm), Count(ldm));
    if k < Count(ldm) {
      assert ReadsStored(m, stm, m2, ldm, k);
      var i: nat :| i < Count(stm) && SameWord(m, stm, m2, ldm, i, k);
      StoredWord(m, stm, i);
      assert false;
    }
  }

  /** And each register, except R15 and a base written back, gets the register stored there. */
  lemma LoadGets(m: Machine, stm: word, m2: Machine, ldm: word, i: nat, j: nat)
    requires Follows(m, stm, m2, ldm) && DoneCount(m2, ldm) == Count(ldm)
    requires j < Count(ldm) && i < Count(stm) && SameWord(m, stm, m2, ldm, i, j)
    requires Listed(ldm)[j] != 15 && !(WritesBack(ldm) && Listed(ldm)[j] == Rn(ldm))
    ensures Read(LoadStoreMultiple(m2, ldm).m.regs, Listed(ldm)[j]) == ReadReg(m, Listed(stm)[i])
  {
    var regs, start, up, n := Listed(ldm), StartAddress(m2, ldm), Upwards(ldm), Count(ldm);
    StoredWord(m, stm, i);
    ListedIsSorted(ldm);
    AcceptedMeaning(m2.mem.size, start, up, n);
    LoadsFill(m2, regs, start, up, n, j);
    if WritesBack(ldm) {
      ReadWritten(Transferred(m2, true, regs, start, up, n), Rn(ldm),
                  Displaced(ReadReg(m2, Rn(ldm)), 4 * n, up), regs[j]);
    }
  }

  // ---- the same mode -----------------------------------------------------

  /** STM then LDM in the same mode, from the same base, with the same list but for R15: the LDM
      completes, and every register stored, except R15 and a base written back, has its value back,
      whatever happened to the registers in between. */
  lemma StoreThenLoadRestores(m: Machine, stm: word, m2: Machine, ldm: word)
    requires Follows(m, stm, m2, ldm)
    requires PreIndexed(ldm) == PreIndexed(stm) && Upwards(ldm) == Upwards(stm)
    requires Bits(ldm, 15, 0) == Bits(stm, 15, 0) % 0x8000
    requires ReadReg(m2, Rn(ldm)) == ReadReg(m, Rn(stm))
    ensures LoadStoreMultiple(m2, ldm).outcome == DONE
    ensures forall r: regno :: r in Listed(stm) && r != 15 && !(WritesBack(ldm) && r == Rn(ldm)) ==>
              Read(LoadStoreMultiple(m2, ldm).m.regs, r) == Read(m.regs, r)
  {
    WithoutPc(Bits(stm, 15, 0));
    var s, l := Listed(stm), Listed(ldm);
    assert l <= s;
    forall j: nat | j < Count(ldm) ensures ReadsStored(m, stm, m2, ldm, j) {
      assert SameWord(m, stm, m2, ldm, j, j);
    }
    LoadCompletes(m, stm, m2, ldm);
    forall r: regno | r in s && r != 15 && !(WritesBack(ldm) && r == Rn(ldm))
      ensures Read(LoadStoreMultiple(m2, ldm).m.regs, r) == Read(m.regs, r)
    {
      var j :| 0 <= j < |l| && l[j] == r;
      LoadGets(m, stm, m2, ldm, j, j);
    }
  }

  // ---- push and pop ------------------------------------------------------

  /** A push (STMDB) and a pop (LDMIA) of one list without R15, the pop from where the push ended. */
  predicate PushThenPop(m: Machine, stm: word, m2: Machine, ldm: word) {
    Follows(m, stm, m2, ldm)
    && PreIndexed(stm) && !Upwards(stm) && !PreIndexed(ldm) && Upwards(ldm)
    && Bits(ldm, 15, 0) == Bits(stm, 15, 0) && 15 !in Listed(stm)
    && ReadReg(m2, Rn(ldm)) == Displaced(ReadReg(m, Rn(stm)), 4 * Count(stm), false)
    && !(WritesBack(ldm) && Rn(ldm) in Listed(ldm))
  }

  lemma PushPopWords(m: Machine, stm: word, m2: Machine, ldm: word, j: nat)
    requires PushThenPop(m, stm, m2, ldm) && j < Count(stm)
    ensures SameWord(m, stm, m2, ldm, Count(stm) - 1 - j, j)
  {
    PushAddress(m, stm, Count(stm) - 1 - j);
    PopAddress(m2, ldm, ReadReg(m, Rn(stm)), Count(stm), j);
  }

  lemma PushAddress(m: Machine, stm: word, i: nat)
    requires PreIndexed(stm) && !Upwards(stm)
    ensures AddressOf(StartAddress(m, stm), Upwards(stm), i) == Wrap(ReadReg(m, Rn(stm)) - 4 - 4 * i)
  {
    WrapSum(ReadReg(m, Rn(stm)) - 4, -4 * i);
  }

  lemma PopAddress(m: Machine, ldm: word, base: word, n: nat, j: nat)
    requires !PreIndexed(ldm) && Upwards(ldm) && ReadReg(m, Rn(ldm)) == Displaced(base, 4 * n, false)
    ensures AddressOf(StartAddress(m, ldm), Upwards(ldm), j) == Wrap(base - 4 * n + 4 * j)
  {
    WrapSum(base - 4 * n, 4 * j);
  }

  lemma PushPopCompletes(m: Machine, stm: word, m2: Machine, ldm: word)
    requires PushThenPop(m, stm, m2, ldm)
    ensures LoadStoreMultiple(m2, ldm).outcome == DONE && DoneCount(m2, ldm) == Count(ldm)
  {
    forall j: nat | j < Count(ldm) ensures ReadsStored(m, stm, m2, ldm, j) {
      PushPopWords(m, stm, m2, ldm, j);
    }
    LoadCompletes(m, stm, m2, ldm);
  }

  /** The source stores downwards from the lowest register, so a pop completes and gives each
      register the value that the register at the opposite place of the list was pushed with. */
  lemma PushPopReverses(m: Machine, stm: word, m2: Machine, ldm: word, j: nat)
    requires PushThenPop(m, stm, m2, ldm) && j < Count(stm)
    ensures LoadStoreMultiple(m2, ldm).outcome == DONE
    ensures Read(LoadStoreMultiple(m2, ldm).m.regs, Listed(stm)[j])
            == Read(m.regs, Listed(stm)[Count(stm) - 1 - j])
  {
    PushPopCompletes(m, stm, m2, ldm);
    PushPopWords(m, stm, m2, ldm, j);
    LoadGets(m, stm, m2, ldm, Count(stm) - 1 - j, j);
  }

  /** Register `r` holds after the pop what it held before the push. */
  predicate Restored(m: Machine, m2: Machine, ldm: word, r: regno) {
    Read(LoadStoreMultiple(m2, ldm).m.regs, r) == Read(m.regs, r)
  }

  /** The registers at place `j` from either end of the list are equal. */
  predicate Mirrored(m: Machine, regs: seq<regno>, j: nat)
    requires j < |regs|
  {
    Read(m.regs, regs[j]) == Read(m.regs, regs[|regs| - 1 - j])
  }

  /** So a push and a pop restore the registers exactly when the pushed values read the same from
      both ends of the list; a single register always comes back. */
  lemma PushPopRestoresExactly(m: Machine, stm: word, m2: Machine, ldm: word)
    requires PushThenPop(m, stm, m2, ldm)
    ensures (forall r: regno :: r in Listed(stm) ==> Restored(m, m2, ldm, r))
            <==> forall j: nat :: j < Count(stm) ==> Mirrored(m, Listed(stm), j)
  {
    var s := Listed(stm);
    forall j: nat | j < |s| ensures Restored(m, m2, ldm, s[j]) <==> Mirrored(m, s, j) {
      PushPopReverses(m, stm, m2, ldm, j);
    }
    if forall j: nat :: j < |s| ==> Mirrored(m, s, j) {
      forall r: regno | r in s ensures Restored(m, m2, ldm, r) {
        var j :| 0 <= j < |s| && s[j] == r;
        assert Mirrored(m, s, j);
      }
    }
  }

  /** `STMDB R13!, {list}` is the word 0xE92Dlist and `LDMIA R13!, {list}` the word 0xE8BDlist: in
      every machine with room below an aligned R13 they are a push and a pop. */
  lemma StackPointerPushPop(m: Machine, list: nat)
    requires 0 < list < 0x8000 && Bit(list, 13) == 0
    requires ReadReg(m, 13) % 4 == 0 && 4 * PopCount(list, 16) <= ReadReg(m, 13) <= m.mem.size + 1
    ensures var stm, ldm := EncodedWord(0xE92, 13, list), EncodedWord(0xE8B, 13, list);
            PushThenPop(m, stm, LoadStoreMultiple(m, stm).m, ldm)
  {
    var up: nat, down: nat := 0xE92, 0xE8B;
    TopBits(up, down);
    WordsPushPop(m, EncodedWord(up, 13, list), up, EncodedWord(down, 13, list), down, list);
  }

  /** Bits 24 to 20 of the two instructions: before, down, writeback, store; after, up, writeback, load. */
  predicate PushPopBits(up: nat, down: nat) {
    up < 0x1000 && down < 0x1000
    && up % 2 == 0 && up / 2 % 2 == 1 && up / 4 % 2 == 0 && up / 8 % 2 == 0 && up / 16 % 2 == 1
    && down % 2 == 1 && down / 2 % 2 == 1 && down / 4 % 2 == 0 && down / 8 % 2 == 1 && down / 16 % 2 == 0
  }

  lemma TopBits(up: nat, down: nat)
    requires up == 0xE92 && down == 0xE8B
    ensures PushPopBits(up, down)
  {
  }

  lemma WordsPushPop(m: Machine, stm: word, up: nat, ldm: word, down: nat, list: nat)
    requires list < 0x8000 && Bit(list, 13) == 0
    requires ReadReg(m, 13) % 4 == 0 && 4 * PopCount(list, 16) <= ReadReg(m, 13) <= m.mem.size + 1
    requires PushPopBits(up, down) && stm == EncodedWord(up, 13, list) && ldm == EncodedWord(down, 13, list)
    ensures PushThenPop(m, stm, LoadStoreMultiple(m, stm).m, ldm)
  {
    PushFields(stm, up, list);
    PopFields(ldm, down, list);
    ListPushPop(m, stm, ldm, list);
  }

  lemma ListPushPop(m: Machine, stm: word, ldm: word, list: nat)
    requires list < 0x8000 && Bit(list, 13) == 0
    requires ReadReg(m, 13) % 4 == 0 && 4 * PopCount(list, 16) <= ReadReg(m, 13) <= m.mem.size + 1
    requires IsBlock(stm, false) && PreIndexed(stm) && !Upwards(stm) && WritesBack(stm)
    requires Rn(stm) == 13 && Bits(stm, 15, 0) == list
    requires IsBlock(ldm, true) && !PreIndexed(ldm) && Upwards(ldm)
    requires Rn(ldm) == 13 && Bits(ldm, 15, 0) == list
    ensures PushThenPop(m, stm, LoadStoreMultiple(m, stm).m, ldm)
  {
    ListLacks(stm, list);
    ListLacks(ldm, list);
    PushCompletes(m, stm);
    PushMoves(m, stm);
  }

  lemma ListLacks(ins: word, list: nat)
    requires Bits(ins, 15, 0) == list < 0x8000 && Bit(list, 13) == 0
    ensures 13 !in Listed(ins) && 15 !in Listed(ins) && Count(ins) == PopCount(list, 16)
  {
    ListedIsSorted(ins);
    HighListBit(list);
  }

  lemma PushCompletes(m: Machine, stm: word)
    requires IsBlock(stm, false) && PreIndexed(stm) && !Upwards(stm) && Rn(stm) == 13
    requires ReadReg(m, 13) % 4 == 0 && 4 * Count(stm) <= ReadReg(m, 13) <= m.mem.size + 1
    ensures LoadStoreMultiple(m, stm).outcome == DONE
  {
    LowestPushed(ReadReg(m, 13), Count(stm), m.mem.size);
    CompletesExactly(m, stm);
  }

  lemma PushMoves(m: Machine, stm: word)
    requires IsBlock(stm, false) && !Upwards(stm) && WritesBack(stm) && Rn(stm) == 13
    requires LoadStoreMultiple(m, stm).outcome == DONE
    ensures ReadReg(LoadStoreMultiple(m, stm).m, 13) == Displaced(ReadReg(m, 13), 4 * Count(stm), false)
  {
    CompletedTransfer(m, stm);
  }

  lemma PushFields(stm: word, top: nat, list: nat)
    requires top < 0x1000 && list < 0x8000 && stm == EncodedWord(top, 13, list)
    requires top % 2 == 0 && top / 2 % 2 == 1 && top / 4 % 2 == 0 && top / 8 % 2 == 0 && top / 16 % 2 == 1
    ensures IsBlock(stm, false) && PreIndexed(stm) && !Upwards(stm) && WritesBack(stm)
    ensures Rn(stm) == 13 && Bits(stm, 15, 0) == list
  {
    TopFields(stm, top, 13, list);
    LowFields(stm, top, 13, list);
  }

  lemma PopFields(ldm: word, top: nat, list: nat)
    requires top < 0x1000 && list < 0x8000 && ldm == EncodedWord(top, 13, list)
    requires top % 2 == 1 && top / 2 % 2 == 1 && top / 4 % 2 == 0 && top / 8 % 2 == 1 && top / 16 % 2 == 0
    ensures IsBlock(ldm, true) && !PreIndexed(ldm) && Upwards(ldm) && WritesBack(ldm)
    ensures Rn(ldm) == 13 && Bits(ldm, 15, 0) == list
  {
    TopFields(ldm, top, 13, list);
    LowFields(ldm, top, 13, list);
  }

  lemma HighListBit(list: nat)
    requires list < 0x8000
    ensures Bit(list, 15) == 0
  {
    assert Pow2(15) == 0x8000 by {
      PowValues();
      assert Pow2(16) == 2 * Pow2(15);
    }
    HighBits(list, 15, 15);
  }

  lemma LowestPushed(base: word, n: nat, size: nat)
    requires base % 4 == 0 && 4 * n <= base <= size + 1
    ensures var low := LowestAddress(base, true, false, n); low % 4 == 0 && low + 4 * n <= size + 1
  {
    assert LowestAddress(base, true, false, n) == base - 4 * n;
  }

  /** A failing input: R0 and R1 pushed with different values come back exchanged. */
  lemma PushPopExchanges(m: Machine)
    requires ReadReg(m, 13) % 4 == 0 && 8 <= ReadReg(m, 13) <= m.mem.size + 1
    requires Read(m.regs, 0) != Read(m.regs, 1)
    ensures var stm, ldm := EncodedWord(0xE92, 13, 3), EncodedWord(0xE8B, 13, 3);
            var m2 := LoadStoreMultiple(m, stm).m;
            PushThenPop(m, stm, m2, ldm)
            && Read(LoadStoreMultiple(m2, ldm).m.regs, 0) == Read(m.regs, 1)
            && Read(LoadStoreMultiple(m2, ldm).m.regs, 1) == Read(m.regs, 0)
            && !Restored(m, m2, ldm, 0)
  {
    var list: nat := 3;
    TwoListed(list);
    StackPointerPushPop(m, list);
    ListOfWord(EncodedWord(0xE92, 13, list), 0xE92, list);
    Exchanged(m, EncodedWord(0xE92, 13, list), EncodedWord(0xE8B, 13, list));
  }

  lemma Exchanged(m: Machine, stm: word, ldm: word)
    requires PushThenPop(m, stm, LoadStoreMultiple(m, stm).m, ldm) && Listed(stm) == [0, 1]
    requires Read(m.regs, 0) != Read(m.regs, 1)
    ensures var m2 := LoadStoreMultiple(m, stm).m;
            Read(LoadStoreMultiple(m2, ldm).m.regs, 0) == Read(m.regs, 1)
            && Read(LoadStoreMultiple(m2, ldm).m.regs, 1) == Read(m.regs, 0)
            && !Restored(m, m2, ldm, 0)
  {
    PushPopReverses(m, stm, LoadStoreMultiple(m, stm).m, ldm, 0);
    PushPopReverses(m, stm, LoadStoreMultiple(m, stm).m, ldm, 1);
  }

  lemma ListOfWord(ins: word, top: nat, list: nat)
    requires top < 0x1000 && list < 0x1_0000 && ins == EncodedWord(top, 13, list)
    ensures Listed(ins) == ListedBelow(list, 16)
  {
    LowFields(ins, top, 13, list);
  }

  lemma TwoListed(list: nat)
    requires list == 3
    ensures ListedBelow(list, 16) == [0, 1] && PopCount(list, 16) == 2 && Bit(list, 13) == 0
  {
    assert Pow2(2) == 4;
    NoneListed(list, 16);
    HighBits(list, 2, 13);
    assert Bit(list, 0) == 1 && Bit(list, 1) == Bit(1, 0) == 1;
    assert ListedBelow(list, 1) == [0];
    assert ListedBelow(list, 2) == [0] + [1];
    assert PopCount(list, 1) == 1 && PopCount(list, 2) == 2;
  }

  lemma {:induction false} NoneListed(list: nat, r: nat)
    requires list < Pow2(2) && 2 <= r <= 16
    ensures ListedBelow(list, r) == ListedBelow(list, 2) && PopCount(list, r) == PopCount(list, 2)
  {
    if r > 2 {
      NoneListed(list, r - 1);
      HighBits(list, 2, r - 1);
    }
  }
}
