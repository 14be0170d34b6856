/** What LDM and STM do to registers and memory, and how they undo one another. */
module BlockTransfers {
  import opened Words
  import opened Registers
  import opened Memory
  import opened MemoryRuns
  import opened Core
  import opened DataProcessing
  import opened LoadStore

  // ---- register lists ----------------------------------------------------

  predicate Ascending(s: seq<regno>) {
    forall i, j :: 0 <= i < j < |s| ==> s[i] < s[j]
  }

  /** A list yields its registers once each, in ascending order. */
  lemma {:induction false} ListedBelowIsSorted(list: nat, r: nat)
    requires r <= 16
    ensures var s := ListedBelow(list, r);
            Ascending(s) && |s| <= r && (forall q: regno :: q in s <==> q < r && Bit(list, q) == 1)
  {
    if r > 0 {
      ListedBelowIsSorted(list, r - 1);
      var s := ListedBelow(list, r - 1);
      forall i | 0 <= i < |s| ensures s[i] < r - 1 {
        var q := s[i];
        assert q in s;
      }
    }
  }

  /** The number of bits set below bit `r`. */
  function PopCount(list: nat, r: nat): nat {
    if r == 0 then 0 else PopCount(list, r - 1) + Bit(list, r - 1)
  }

  lemma {:induction false} ListedCount(list: nat, r: nat)
    requires r <= 16
    ensures |ListedBelow(list, r)| == PopCount(list, r)
  {
    if r > 0 {
      ListedCount(list, r - 1);
    }
  }

  // ---- addresses ---------------------------------------------------------

  /** `k` is the number of transfers before the first refused address. */
  lemma {:induction false} AcceptedMeaning(size: nat, start: word, up: bool, n: nat)
    ensures var k := AcceptedCount(size, start, up, n);
            (forall j: nat :: j < k ==> Accepts(size, AddressOf(start, up, j), 4))
            && (k < n ==> !Accepts(size, AddressOf(start, up, k), 4))
  {
    if n > 0 {
      AcceptedMeaning(size, start, up, n - 1);
    }
  }

  /** Two word transfers of one instruction do not overlap. */
  lemma AddressesApart(size: nat, start: word, up: bool, i: nat, j: nat)
    requires i < j < 16 && 0 < size < 0x8000_0000
    requires Accepts(size, AddressOf(start, up, i), 4) && Accepts(size, AddressOf(start, up, j), 4)
    ensures var a, b := AddressOf(start, up, i), AddressOf(start, up, j); a + 4 <= b || b + 4 <= a
  {
    var a, b := AddressOf(start, up, i), AddressOf(start, up, j);
    AcceptedFits(size, a, 4);
    AcceptedFits(size, b, 4);
    AddressesDiffer(start, up, i, j);
    AlignedApart(a, b);
  }

  lemma AddressesDiffer(start: word, up: bool, i: nat, j: nat)
    requires i < j < 16
    ensures AddressOf(start, up, i) != AddressOf(start, up, j)
  {
    if up {
      WrapsDiffer(start + 4 * i, 4 * (j - i));
    } else {
      WrapsDiffer(start - 4 * j, 4 * (j - i));
    }
  }

  lemma WrapsDiffer(x: int, d: int)
    requires 0 < d < 0x1_0000_0000
    ensures Wrap(x) != Wrap(x + d)
  {
  }

  lemma AlignedApart(a: int, b: int)
    requires a % 4 == 0 && b % 4 == 0 && a != b
    ensures a + 4 <= b || b + 4 <= a
  {
  }

  /** The lowest address of a transfer of `n` words, by section A5.4 of the ARM Architecture
      Reference Manual. */
  function LowestAddress(base: word, before: bool, up: bool, n: nat): word {
    if up then (if before then Wrap(base + 4) else base)
    else if before then Wrap(base - 4 * n)
    else Wrap(base - 4 * n + 4)
  }

  function StartOf(base: word, before: bool, up: bool): word {
    if before then Displaced(base, 4, up) else base
  }

  /** The `j`-th of the consecutive words of the manual, in the order the source visits them: the
      downward modes start with the highest. */
  function ManualAddress(base: word, before: bool, up: bool, n: nat, j: nat): word {
    Wrap(LowestAddress(base, before, up, n) + 4 * (if up then j else n - 1 - j))
  }

  lemma AddressesAreConsecutive(base: word, before: bool, up: bool, n: nat, j: nat)
    requires j < n
    ensures AddressOf(StartOf(base, before, up), up, j) == ManualAddress(base, before, up, n, j)
  {
    if up {
      if before {
        WrapSum(base + 4, 4 * j);
      }
    } else if before {
      WrapSum(base - 4, -4 * j);
      WrapSum(base - 4 * n, 4 * (n - 1 - j));
    } else {
      WrapSum(base - 4 * n + 4, 4 * (n - 1 - j));
    }
  }

  lemma AcceptsWord(size: nat, a: word)
    requires a % 4 == 0 && a + 3 <= size < 0x8000_0000
    ensures Accepts(size, a, 4)
  {
    assert Pow2(2) == 4;
  }

  /** Consecutive words are all accepted exactly when the first is aligned and the last fits. */
  lemma RangeExactly(size: nat, low: word, n: nat)
    requires 0 < size < 0x8000_0000 && 0 < n <= 16
    ensures (forall j: nat :: j < n ==> Accepts(size, AddressOf(low, true, j), 4))
            <==> low % 4 == 0 && low + 4 * n <= size + 1
  {
    if forall j: nat :: j < n ==> Accepts(size, AddressOf(low, true, j), 4) {
      EndsInRange(size, low, n);
    }
    if low % 4 == 0 && low + 4 * n <= size + 1 {
      forall j: nat | j < n ensures Accepts(size, AddressOf(low, true, j), 4) {
        InsideRange(size, low, n, j);
      }
    }
  }

  lemma EndsInRange(size: nat, low: word, n: nat)
    requires 0 < size < 0x8000_0000 && 0 < n <= 16
    requires Accepts(size, AddressOf(low, true, 0), 4) && Accepts(size, AddressOf(low, true, n - 1), 4)
    ensures low % 4 == 0 && low + 4 * n <= size + 1
  {
    AcceptedFits(size, AddressOf(low, true, 0), 4);
    AcceptedFits(size, AddressOf(low, true, n - 1), 4);
    NextAddress(low, true, 0);
    LastWord(low, n, size);
  }

  lemma InsideRange(size: nat, low: word, n: nat, j: nat)
    requires 0 < size < 0x8000_0000 && j < n && low % 4 == 0 && low + 4 * n <= size + 1
    ensures Accepts(size, AddressOf(low, true, j), 4)
  {
    AcceptsWord(size, low + 4 * j);
  }

  lemma LastWord(low: word, n: nat, size: nat)
    requires 0 < n <= 16 && size < 0x8000_0000
    requires low % 4 == 0 && low + 4 <= size + 1 && Wrap(low + 4 * (n - 1)) + 4 <= size + 1
    ensures low + 4 * n <= size + 1
  {
  }

  /** The words of a transfer are all accepted exactly when those of the manual lie in the memory. */
  lemma WordsExactly(size: nat, base: word, before: bool, up: bool, n: nat)
    requires 0 < size < 0x8000_0000 && 0 < n <= 16
    ensures var low := LowestAddress(base, before, up, n);
            (forall j: nat :: j < n ==> Accepts(size, AddressOf(StartOf(base, before, up), up, j), 4))
            <==> low % 4 == 0 && low + 4 * n <= size + 1
  {
    var low, start := LowestAddress(base, before, up, n), StartOf(base, before, up);
    RangeExactly(size, low, n);
    if low % 4 == 0 && low + 4 * n <= size + 1 {
      forall j: nat | j < n ensures Accepts(size, AddressOf(start, up, j), 4) {
        WordPlace(base, before, up, n, j);
      }
    }
    if forall j: nat :: j < n ==> Accepts(size, AddressOf(start, up, j), 4) {
      forall j: nat | j < n ensures Accepts(size, AddressOf(low, true, j), 4) {
        var i := if up then j else n - 1 - j;
        WordPlace(base, before, up, n, i);
        assert Accepts(size, AddressOf(start, up, i), 4);
      }
    }
  }

  lemma WordPlace(base: word, before: bool, up: bool, n: nat, j: nat)
    requires j < n
    ensures AddressOf(StartOf(base, before, up), up, j)
            == AddressOf(LowestAddress(base, before, up, n), true, if up then j else n - 1 - j)
  {
    AddressesAreConsecutive(base, before, up, n, j);
  }

  // ---- storing -----------------------------------------------------------

  /** Address `x` is in one of the first `k` words. */
  predicate Covered(start: word, up: bool, k: nat, x: nat) {
    exists j: nat :: j < k && AddressOf(start, up, j) <= x < AddressOf(start, up, j) + 4
  }

  /** After `k` accepted stores: the registers are as before, each word holds its register, and
      no byte outside the `k` words has changed. */
  ghost predicate Stored(m: Machine, m': Machine, regs: seq<regno>, start: word, up: bool, k: nat)
    requires k <= |regs|
  {
    m'.regs == m.regs && m'.mem.size == m.mem.size && m'.mem.bigEndian == m.mem.bigEndian
    && (forall j: nat :: j < k ==>
          Accepts(m.mem.size, AddressOf(start, up, j), 4)
          && Load(m'.mem, AddressOf(start, up, j), 4) == ReadReg(m, regs[j]))
    && (forall x: nat :: x <= m.mem.size && !Covered(start, up, k, x) ==> m'.mem.data[x] == m.mem.data[x])
  }

  lemma {:induction false} StoresKeep(m: Machine, regs: seq<regno>, start: word, up: bool, k: nat)
    requires k <= |regs|
    ensures var m' := Transferred(m, false, regs, start, up, k);
            m'.regs == m.regs && m'.mem.size == m.mem.size && m'.mem.bigEndian == m.mem.bigEndian
  {
    if k > 0 {
      StoresKeep(m, regs, start, up, k - 1);
    }
  }

  lemma StoreOneWrites(m: Machine, r: regno, a: word, b: word)
    requires Accepts(m.mem.size, a, 4) && Accepts(m.mem.size, b, 4)
    requires b == a || b + 4 <= a || a + 4 <= b
    ensures Load(StoreOne(m, r, a).mem, b, 4) == if b == a then ReadReg(m, r) else Load(m.mem, b, 4)
  {
    if b == a {
      StoreLoadWord(m.mem, a, ReadReg(m, r));
    } else {
      StoreElsewhere(m.mem, a, 4, ReadReg(m, r), b, 4);
    }
  }

  lemma {:induction false} StoresFill(m: Machine, regs: seq<regno>, start: word, up: bool, k: nat, j: nat)
    requires j < k <= |regs| <= 16
    requires forall i: nat :: i < k ==> Accepts(m.mem.size, AddressOf(start, up, i), 4)
    ensures Transferred(m, false, regs, start, up, k).mem.size == m.mem.size
    ensures Load(Transferred(m, false, regs, start, up, k).mem, AddressOf(start, up, j), 4) == ReadReg(m, regs[j])
  {
    var m1 := Transferred(m, false, regs, start, up, k - 1);
    StoresKeep(m, regs, start, up, k - 1);
    if j < k - 1 {
      AddressesApart(m.mem.size, start, up, j, k - 1);
      StoresFill(m, regs, start, up, k - 1, j);
    }
    StoreOneWrites(m1, regs[k - 1], AddressOf(start, up, k - 1), AddressOf(start, up, j));
  }

  lemma {:induction false} StoresElsewhere(m: Machine, regs: seq<regno>, start: word, up: bool, k: nat, x: nat)
    requires k <= |regs| && x <= m.mem.size && !Covered(start, up, k, x)
    ensures Transferred(m, false, regs, start, up, k).mem.size == m.mem.size
    ensures Transferred(m, false, regs, start, up, k).mem.data[x] == m.mem.data[x]
  {
    if k > 0 {
      var a := AddressOf(start, up, k - 1);
      assert !Covered(start, up, k - 1, x);
      assert !(a <= x < a + 4);
      StoresElsewhere(m, regs, start, up, k - 1, x);
    }
  }

  lemma {:induction false} StoresAre(m: Machine, regs: seq<regno>, start: word, up: bool, k: nat)
    requires k <= |regs| <= 16
    requires forall j: nat :: j < k ==> Accepts(m.mem.size, AddressOf(start, up, j), 4)
    ensures Stored(m, Transferred(m, false, regs, start, up, k), regs, start, up, k)
  {
    var m' := Transferred(m, false, regs, start, up, k);
    StoresKeep(m, regs, start, up, k);
    forall j: nat | j < k ensures Load(m'.mem, AddressOf(start, up, j), 4) == ReadReg(m, regs[j]) {
      StoresFill(m, regs, start, up, k, j);
    }
    forall x: nat | x <= m.mem.size && !Covered(start, up, k, x) ensures m'.mem.data[x] == m.mem.data[x] {
      StoresElsewhere(m, regs, start, up, k, x);
    }
  }

  lemma StoreLoadWord(m: Mem, a: word, v: word)
    requires Accepts(m.size, a, 4)
    ensures Load(Store(m, a, 4, v), a, 4) == v
  {
    StoreLoad(m, a, 4, v);
    WholeWord(v);
  }

  lemma WholeWord(v: word)
    ensures v % Pow2(8 * 4) == v
  {
    PowValues();
  }

  // ---- loading -----------------------------------------------------------

  /** After `k` accepted loads: memory and status registers are as before, each listed register
      holds its word, and no other general register has changed, in any bank. */
  ghost predicate Loaded(m: Machine, m': Machine, regs: seq<regno>, start: word, up: bool, k: nat)
    requires k <= |regs|
  {
    m'.mem == m.mem && m'.regs.psr == m.regs.psr
    && (forall j: nat :: j < k ==>
          Accepts(m.mem.size, AddressOf(start, up, j), 4)
          && Read(m'.regs, regs[j]) == LoadedValue(regs[j], Load(m.mem, AddressOf(start, up, j), 4)))
    && (forall slot :: IsSlot(slot) && !Named(m, regs, k, slot) ==> ReadSlot(m'.regs, slot) == ReadSlot(m.regs, slot))
  }

  /** A slot that one of the first `k` registers names. */
  predicate Named(m: Machine, regs: seq<regno>, k: nat, slot: Slot)
    requires k <= |regs|
  {
    exists j: nat :: j < k && SlotOf(Mode(m.regs), regs[j]) == slot
  }

  lemma {:induction false} LoadsKeep(m: Machine, regs: seq<regno>, start: word, up: bool, k: nat)
    requires k <= |regs|
    ensures var m' := Transferred(m, true, regs, start, up, k); m'.mem == m.mem && m'.regs.psr == m.regs.psr
  {
    if k > 0 {
      LoadsKeep(m, regs, start, up, k - 1);
    }
  }

  lemma LoadOneWrites(m: Machine, r: regno, a: word, q: regno)
    requires Accepts(m.mem.size, a, 4)
    ensures Read(LoadOne(m, r, a).regs, q) == if q == r then LoadedValue(r, Load(m.mem, a, 4)) else Read(m.regs, q)
  {
    ReadWritten(m, r, LoadedValue(r, Load(m.mem, a, 4)), q);
  }

  lemma {:induction false} LoadsFill(m: Machine, regs: seq<regno>, start: word, up: bool, k: nat, j: nat)
    requires j < k <= |regs| && Ascending(regs)
    requires forall i: nat :: i < k ==> Accepts(m.mem.size, AddressOf(start, up, i), 4)
    ensures Read(Transferred(m, true, regs, start, up, k).regs, regs[j])
            == LoadedValue(regs[j], Load(m.mem, AddressOf(start, up, j), 4))
  {
    var m1 := Transferred(m, true, regs, start, up, k - 1);
    LoadsKeep(m, regs, start, up, k - 1);
    LoadOneWrites(m1, regs[k - 1], AddressOf(start, up, k - 1), regs[j]);
    if j < k - 1 {
      LoadsFill(m, regs, start, up, k - 1, j);
    }
  }

  lemma {:induction false} LoadsElsewhere(m: Machine, regs: seq<regno>, start: word, up: bool, k: nat, slot: Slot)
    requires k <= |regs| && IsSlot(slot) && !Named(m, regs, k, slot)
    ensures ReadSlot(Transferred(m, true, regs, start, up, k).regs, slot) == ReadSlot(m.regs, slot)
  {
    if k > 0 {
      var m1 := Transferred(m, true, regs, start, up, k - 1);
      LoadsKeep(m, regs, start, up, k - 1);
      assert !Named(m, regs, k - 1, slot);
      assert SlotOf(Mode(m.regs), regs[k - 1]) != slot;
      LoadsElsewhere(m, regs, start, up, k - 1, slot);
      LoadOneElsewhere(m1, regs[k - 1], AddressOf(start, up, k - 1), slot);
    }
  }

  lemma LoadOneElsewhere(m: Machine, r: regno, a: word, slot: Slot)
    requires IsSlot(slot) && SlotOf(Mode(m.regs), r) != slot
    ensures ReadSlot(LoadOne(m, r, a).regs, slot) == ReadSlot(m.regs, slot)
  {
  }

  lemma {:induction false} LoadsAre(m: Machine, regs: seq<regno>, start: word, up: bool, k: nat)
    requires k <= |regs| && Ascending(regs)
    requires forall j: nat :: j < k ==> Accepts(m.mem.size, AddressOf(start, up, j), 4)
    ensures Loaded(m, Transferred(m, true, regs, start, up, k), regs, start, up, k)
  {
    var m' := Transferred(m, true, regs, start, up, k);
    LoadsKeep(m, regs, start, up, k);
    forall j: nat | j < k
      ensures Read(m'.regs, regs[j]) == LoadedValue(regs[j], Load(m.mem, AddressOf(start, up, j), 4))
    {
      LoadsFill(m, regs, start, up, k, j);
    }
    forall slot | IsSlot(slot) && !Named(m, regs, k, slot)
      ensures ReadSlot(m'.regs, slot) == ReadSlot(m.regs, slot)
    {
      LoadsElsewhere(m, regs, start, up, k, slot);
    }
  }

  // ---- whole instructions ------------------------------------------------

  /** An LDM or STM the source accepts, of one direction. */
  predicate IsBlock(ins: word, load: bool) {
    Bit(ins, 22) == 0 && IsLoad(ins) == load
  }

  function Count(ins: word): nat {
    |Listed(ins)|
  }

  lemma ListedIsSorted(ins: word)
    ensures Ascending(Listed(ins)) && Count(ins) <= 16 && Count(ins) == PopCount(Bits(ins, 15, 0), 16)
    ensures forall r: regno :: r in Listed(ins) <==> Bit(Bits(ins, 15, 0), r) == 1
  {
    ListedBelowIsSorted(Bits(ins, 15, 0), 16);
    ListedCount(Bits(ins, 15, 0), 16);
  }

  /** The number of transfers done: all, or those before the first refused address. */
  function DoneCount(m: Machine, ins: word): (k: nat)
    ensures k <= Count(ins)
  {
    AcceptedCount(m.mem.size, StartAddress(m, ins), Upwards(ins), Count(ins))
  }

  /** `k` transfers were accepted, and the next one, if there is one, is refused. */
  predicate FirstRefused(m: Machine, ins: word, k: nat) {
    (forall j: nat :: j < k ==> Accepts(m.mem.size, AddressOf(StartAddress(m, ins), Upwards(ins), j), 4))
    && (k < Count(ins) ==> !Accepts(m.mem.size, AddressOf(StartAddress(m, ins), Upwards(ins), k), 4))
  }

  /** STM: it stores the listed registers up to the first refused address, and aborts exactly when
      there is one; no register changes except by the writeback of a completed transfer. */
  lemma StoreMultiple(m: Machine, ins: word)
    requires IsBlock(ins, false)
    ensures var e, k := LoadStoreMultiple(m, ins), DoneCount(m, ins);
            FirstRefused(m, ins, k)
            && e.outcome == (if k < Count(ins) then Returned(DATA_ABORT) else DONE)
            && Stored(m, e.m.(regs := m.regs), Listed(ins), StartAddress(m, ins), Upwards(ins), k)
            && e.m.regs == if k == Count(ins) && WritesBack(ins)
                           then Write(m.regs, Rn(ins), Displaced(ReadReg(m, Rn(ins)), 4 * k, Upwards(ins)))
                           else m.regs
  {
    var start, up, k := StartAddress(m, ins), Upwards(ins), DoneCount(m, ins);
    AcceptedMeaning(m.mem.size, start, up, Count(ins));
    ListedIsSorted(ins);
    StoresAre(m, Listed(ins), start, up, k);
    var m' := Transferred(m, false, Listed(ins), start, up, k);
    assert LoadStoreMultiple(m, ins).m.(regs := m.regs) == m';
  }

  /** LDM: it loads the listed registers up to the first refused address, and aborts exactly when
      there is one; an abort leaves the base without writeback. */
  lemma LoadMultiple(m: Machine, ins: word)
    requires IsBlock(ins, true)
    ensures var e, k := LoadStoreMultiple(m, ins), DoneCount(m, ins);
            FirstRefused(m, ins, k)
            && e.outcome == (if k < Count(ins) then Returned(DATA_ABORT) else DONE)
            && exists m' ::
                 Loaded(m, m', Listed(ins), StartAddress(m, ins), Upwards(ins), k)
                 && e.m == if k == Count(ins) && WritesBack(ins)
                           then WriteReg(m', Rn(ins), Displaced(ReadReg(m, Rn(ins)), 4 * k, Upwards(ins)))
                           else m'
  {
    var start, up, k := StartAddress(m, ins), Upwards(ins), DoneCount(m, ins);
    AcceptedMeaning(m.mem.size, start, up, Count(ins));
    ListedIsSorted(ins);
    LoadsAre(m, Listed(ins), start, up, k);
    var m' := Transferred(m, true, Listed(ins), start, up, k);
    assert Loaded(m, m', Listed(ins), start, up, k);
  }

  /** An LDM or STM completes exactly when its list is empty or the words that the manual gives it
      are aligned and lie in the memory. */
  lemma CompletesExactly(m: Machine, ins: word)
    requires Bit(ins, 22) == 0
    ensures var low := LowestAddress(ReadReg(m, Rn(ins)), PreIndexed(ins), Upwards(ins), Count(ins));
            LoadStoreMultiple(m, ins).outcome == DONE
            <==> Count(ins) == 0 || (low % 4 == 0 && low + 4 * Count(ins) <= m.mem.size + 1)
  {
    var base, before, up, n := ReadReg(m, Rn(ins)), PreIndexed(ins), Upwards(ins), Count(ins);
    DoneExactly(m, ins);
    ListedIsSorted(ins);
    AcceptedMeaning(m.mem.size, StartOf(base, before, up), up, n);
    if n > 0 {
      WordsExactly(m.mem.size, base, before, up, n);
    }
  }

  lemma DoneExactly(m: Machine, ins: word)
    requires Bit(ins, 22) == 0
    ensures StartAddress(m, ins) == StartOf(ReadReg(m, Rn(ins)), PreIndexed(ins), Upwards(ins))
    ensures LoadStoreMultiple(m, ins).outcome == DONE <==> DoneCount(m, ins) == Count(ins)
  {
  }

  /** A completed transfer touches exactly one word per bit of the list: the consecutive words of
      the manual. With writeback the base moves by four times their number. */
  lemma CompletedTransfer(m: Machine, ins: word)
    requires Bit(ins, 22) == 0 && LoadStoreMultiple(m, ins).outcome == DONE
    ensures var base, up, n := ReadReg(m, Rn(ins)), Upwards(ins), Count(ins);
            n == PopCount(Bits(ins, 15, 0), 16)
            && (forall j: nat :: j < n ==>
                  AddressOf(StartAddress(m, ins), up, j) == ManualAddress(base, PreIndexed(ins), up, n, j))
            && (WritesBack(ins) ==> Read(LoadStoreMultiple(m, ins).m.regs, Rn(ins)) == Displaced(base, 4 * n, up))
  {
    var base, up, n := ReadReg(m, Rn(ins)), Upwards(ins), Count(ins);
    ListedIsSorted(ins);
    assert StartAddress(m, ins) == StartOf(base, PreIndexed(ins), up);
    forall j: nat | j < n
      ensures AddressOf(StartAddress(m, ins), up, j) == ManualAddress(base, PreIndexed(ins), up, n, j)
    {
      AddressesAreConsecutive(base, PreIndexed(ins), up, n, j);
    }
    if WritesBack(ins) {
      var m' := Transferred(m, IsLoad(ins), Listed(ins), StartAddress(m, ins), up, n);
      ReadWritten(m', Rn(ins), Displaced(base, 4 * n, up), Rn(ins));
    }
  }

  // ---- loading R15 -------------------------------------------------------

  /** A completed LDM with R15 in its list, and a base that is not written back into R15, leaves in R15
      the word of its last transfer with bit 0 cleared. */
  lemma LoadedPc(m: Machine, ins: word, i: nat)
    requires IsBlock(ins, true) && LoadStoreMultiple(m, ins).outcome == DONE && i < 32
    requires Bit(Bits(ins, 15, 0), 15) == 1 && (Rn(ins) != 15 || !WritesBack(ins))
    ensures Count(ins) > 0
    ensures var a := AddressOf(StartAddress(m, ins), Upwards(ins), Count(ins) - 1);
            Accepts(m.mem.size, a, 4)
            && Bit(Read(LoadStoreMultiple(m, ins).m.regs, 15), i) == if i == 0 then 0 else Bit(Load(m.mem, a, 4), i)
  {
    DoneExactly(m, ins);
    LoadedPcWord(m, ins);
    EvenBits(Load(m.mem, AddressOf(StartAddress(m, ins), Upwards(ins), Count(ins) - 1), 4), i);
  }

  lemma LoadedPcWord(m: Machine, ins: word)
    requires IsBlock(ins, true) && DoneCount(m, ins) == Count(ins)
    requires Bit(Bits(ins, 15, 0), 15) == 1 && (Rn(ins) != 15 || !WritesBack(ins))
    ensures Count(ins) > 0
    ensures var a := AddressOf(StartAddress(m, ins), Upwards(ins), Count(ins) - 1);
            Accepts(m.mem.size, a, 4)
            && Read(LoadStoreMultiple(m, ins).m.regs, 15) == Load(m.mem, a, 4) - Load(m.mem, a, 4) % 2
  {
    var start, up, n := StartAddress(m, ins), Upwards(ins), Count(ins);
    ListedIsSorted(ins);
    LastListed(Bits(ins, 15, 0));
    AcceptedMeaning(m.mem.size, start, up, n);
    LoadsFill(m, Listed(ins), start, up, n, n - 1);
    LastLoaded(m, ins);
  }

  lemma LastLoaded(m: Machine, ins: word)
    requires IsBlock(ins, true) && DoneCount(m, ins) == Count(ins) && (Rn(ins) != 15 || !WritesBack(ins))
    ensures Read(LoadStoreMultiple(m, ins).m.regs, 15)
            == Read(Transferred(m, true, Listed(ins), StartAddress(m, ins), Upwards(ins), Count(ins)).regs, 15)
  {
    var n := Count(ins);
    ReadWritten(Transferred(m, true, Listed(ins), StartAddress(m, ins), Upwards(ins), n), Rn(ins),
                Displaced(ReadReg(m, Rn(ins)), 4 * n, Upwards(ins)), 15);
  }

  lemma LastListed(list: nat)
    requires Bit(list, 15) == 1
    ensures ListedBelow(list, 16) == ListedBelow(list, 15) + [15]
  {
  }

  lemma EvenBits(v: word, i: nat)
    requires i < 32
    ensures Bit(v - v % 2, i) == if i == 0 then 0 else Bit(v, i)
  {
    if i > 0 {
      assert (v - v % 2) / 2 == v / 2;
    }
  }
}
