/** A stack kept with `STR Rd, [Rn, #-4]!` and `LDR Rd, [Rn], #4`. */
module StackDiscipline {
  import opened Words
  import opened Registers
  import opened Memory
  import opened MemoryRuns
  import opened Core
  import opened DataProcessing
  import opened LoadStore
  import opened BlockTransfers
  import opened Encoding

  /** A word transfer of `rd` with base `rn` and immediate offset 4. */
  predicate OffsetFour(ins: word, rd: regno, rn: regno) {
    Bits(ins, 27, 26) == 1 && Bit(ins, 25) == 0 && Bits(ins, 11, 0) == 4 && Bit(ins, 22) == 0
    && Rd(ins) == rd && Rn(ins) == rn && rd != rn && rd != 15 && rn != 15
  }

  predicate IsPush(ins: word, rd: regno, rn: regno) {
    OffsetFour(ins, rd, rn) && !IsLoad(ins) && PreIndexed(ins) && WritesBack(ins) && !Upwards(ins)
  }

  predicate IsPop(ins: word, rd: regno, rn: regno) {
    OffsetFour(ins, rd, rn) && IsLoad(ins) && !PreIndexed(ins) && !WritesBack(ins) && Upwards(ins)
  }

  /** `STR Rd, [Rn, #-4]!` is the word 0xE52nd004. */
  lemma PushWord(rd: regno, rn: regno)
    requires rd != rn && rd != 15 && rn != 15
    ensures IsPush(EncodedWord(0xE52, rn, 0x1000 * rd + 4), rd, rn)
  {
    var top: nat, low: nat := 0xE52, 0x1000 * rd + 4;
    TransferTop(top);
    OffsetAndRd(rd, 4);
    IsOffsetFour(EncodedWord(top, rn, low), top, low, rd, rn);
    Directions(EncodedWord(top, rn, low), top, low, rn);
  }

  /** `LDR Rd, [Rn], #4` is the word 0xE49nd004. */
  lemma PopWord(rd: regno, rn: regno)
    requires rd != rn && rd != 15 && rn != 15
    ensures IsPop(EncodedWord(0xE49, rn, 0x1000 * rd + 4), rd, rn)
  {
    var top: nat, low: nat := 0xE49, 0x1000 * rd + 4;
    TransferTop(top);
    OffsetAndRd(rd, 4);
    IsOffsetFour(EncodedWord(top, rn, low), top, low, rd, rn);
    Directions(EncodedWord(top, rn, low), top, low, rn);
  }

  lemma TransferTop(top: nat)
    requires top == 0xE52 || top == 0xE49
    ensures top < 0x1000 && top / 64 % 4 == 1 && top / 32 % 2 == 0 && top / 4 % 2 == 0
    ensures top == 0xE52 ==> top % 2 == 0 && top / 2 % 2 == 1 && top / 8 % 2 == 0 && top / 16 % 2 == 1
    ensures top == 0xE49 ==> top % 2 == 1 && top / 2 % 2 == 0 && top / 8 % 2 == 1 && top / 16 % 2 == 0
  {
  }

  lemma IsOffsetFour(ins: word, top: nat, low: nat, rd: regno, rn: regno)
    requires top < 0x1000 && low < 0x1_0000 && ins == EncodedWord(top, rn, low)
    requires rd != rn && rd != 15 && rn != 15 && low / 0x1000 == rd && low % 0x1000 == 4
    requires top / 64 % 4 == 1 && top / 32 % 2 == 0 && top / 4 % 2 == 0
    ensures OffsetFour(ins, rd, rn)
  {
    TopFields(ins, top, rn, low);
    LowFields(ins, top, rn, low);
  }

  lemma Directions(ins: word, top: nat, low: nat, rn: regno)
    requires top < 0x1000 && low < 0x1_0000 && ins == EncodedWord(top, rn, low)
    ensures (IsLoad(ins) <==> top % 2 == 1) && (WritesBack(ins) <==> top / 2 % 2 == 1)
    ensures (Upwards(ins) <==> top / 8 % 2 == 1) && (PreIndexed(ins) <==> top / 16 % 2 == 1)
  {
    TopFields(ins, top, rn, low);
  }

  // ---- one instruction ---------------------------------------------------

  lemma OffsetIsFour(m: Machine, ins: word, rd: regno, rn: regno)
    requires OffsetFour(ins, rd, rn)
    ensures WordOffset(m, ins) == Some(4)
    ensures LoadStoreSingle(m, ins) == SingleTransfer(m, ins, IsLoad(ins), 4, 4)
  {
  }

  lemma PushOne(m: Machine, ins: word, rd: regno, rn: regno)
    requires IsPush(ins, rd, rn)
    requires Accepts(m.mem.size, Displaced(ReadReg(m, rn), 4, false), 4)
    ensures var a := Displaced(ReadReg(m, rn), 4, false);
            LoadStoreSingle(m, ins)
            == Effect(WriteReg(m, rn, a).(mem := Store(m.mem, a, 4, ReadReg(m, rd))), DONE)
  {
    OffsetIsFour(m, ins, rd, rn);
    var a := Displaced(ReadReg(m, rn), 4, false);
    ReadWritten(m, rn, a, rd);
  }

  lemma PopOne(m: Machine, ins: word, rd: regno, rn: regno)
    requires IsPop(ins, rd, rn) && Accepts(m.mem.size, ReadReg(m, rn), 4)
    ensures var a := ReadReg(m, rn);
            LoadStoreSingle(m, ins)
            == Effect(WriteReg(WriteReg(m, rd, Load(m.mem, a, 4)), rn, Displaced(a, 4, true)), DONE)
  {
    OffsetIsFour(m, ins, rd, rn);
  }

  // ---- pushes ------------------------------------------------------------

  /** The machine after pushing the values in turn; each is put in Rd before its STR. */
  function Pushed(m: Machine, ins: word, rd: regno, values: seq<word>): Machine {
    if values == [] then m else
      var m1 := Pushed(m, ins, rd, values[..|values| - 1]);
      LoadStoreSingle(WriteReg(m1, rd, values[|values| - 1]), ins).m
  }

  /** The stack pointer when `n` words are on a stack that starts at `base`. */
  function StackTop(base: word, n: nat): word {
    Displaced(base, 4 * n, false)
  }

  /** The address of the `i`-th word of the stack. */
  function StackWord(base: word, i: nat): word {
    StackTop(base, i + 1)
  }

  lemma StackSteps(base: word, n: nat)
    ensures StackTop(base, 0) == base
    ensures Displaced(StackTop(base, n), 4, false) == StackWord(base, n)
    ensures Displaced(StackWord(base, n), 4, true) == StackTop(base, n)
  {
    DisplacedTwice(base, 4 * n, 4, false);
    DisplacedBack(base, 4 * n, 4, false);
  }

  /** The memory accepts the first `n` words of the stack. */
  predicate Room(size: nat, base: word, n: nat) {
    forall i: nat :: i < n ==> Accepts(size, StackWord(base, i), 4)
  }

  lemma {:induction false} StackIsContiguous(size: nat, base: word, n: nat, i: nat)
    requires 0 < size < 0x8000_0000 && Room(size, base, n) && i < n
    ensures StackWord(base, i) == StackWord(base, 0) - 4 * i
  {
    if i > 0 {
      StackIsContiguous(size, base, n, i - 1);
      StackSteps(base, i);
      StepDown(size, StackWord(base, i - 1));
    }
  }

  /** An accepted address is followed downwards by an accepted one without wrapping round. */
  lemma StepDown(size: nat, a: word)
    requires 0 < size < 0x8000_0000 && Accepts(size, a, 4) && Accepts(size, Displaced(a, 4, false), 4)
    ensures Displaced(a, 4, false) == a - 4
  {
    AcceptedFits(size, a, 4);
    AcceptedFits(size, Displaced(a, 4, false), 4);
  }

  /** The words of a non-empty stack are accepted exactly when its base is word-aligned, not beyond
      the end of the memory, and far enough from its beginning. */
  lemma RoomExactly(size: nat, base: word, n: nat)
    requires 0 < size < 0x8000_0000 && n > 0
    ensures Room(size, base, n) <==> base % 4 == 0 && 4 * n <= base <= size + 1
  {
    if Room(size, base, n) {
      RoomBounds(size, base, n);
    }
    if base % 4 == 0 && 4 * n <= base <= size + 1 {
      forall i: nat | i < n ensures Accepts(size, StackWord(base, i), 4) {
        InsideRoom(size, base, n, i);
      }
    }
  }

  lemma InsideRoom(size: nat, base: word, n: nat, i: nat)
    requires 0 < size < 0x8000_0000 && base % 4 == 0 && 4 * n <= base <= size + 1 && i < n
    ensures Accepts(size, StackWord(base, i), 4)
  {
    var a: int := base - 4 * (i + 1);
    assert StackWord(base, i) == a;
    AcceptsWord(size, a);
  }

  lemma RoomBounds(size: nat, base: word, n: nat)
    requires 0 < size < 0x8000_0000 && n > 0 && Room(size, base, n)
    ensures base % 4 == 0 && 4 * n <= base <= size + 1
  {
    var first, last := StackWord(base, 0), StackWord(base, n - 1);
    assert Accepts(size, first, 4);
    AcceptedFits(size, first, 4);
    assert first == Wrap(base - 4);
    FirstWord(base, size);
    StackIsContiguous(size, base, n, n - 1);
    assert last == first - 4 * (n - 1);
  }

  lemma FirstWord(base: word, size: nat)
    requires size < 0x8000_0000 && Wrap(base - 4) % 4 == 0 && Wrap(base - 4) + 4 <= size + 1
    ensures base % 4 == 0 && Wrap(base - 4) == base - 4 && base <= size + 1
  {
  }

  lemma {:induction false} PushesKeep(m: Machine, ins: word, rd: regno, rn: regno, values: seq<word>)
    requires IsPush(ins, rd, rn) && Room(m.mem.size, ReadReg(m, rn), |values|)
    ensures var m' := Pushed(m, ins, rd, values);
            m'.mem.size == m.mem.size && ReadReg(m', rn) == StackTop(ReadReg(m, rn), |values|)
  {
    if values == [] {
      StackSteps(ReadReg(m, rn), 0);
    } else {
      var n := |values| - 1;
      var m1 := Pushed(m, ins, rd, values[..n]);
      PushesKeep(m, ins, rd, rn, values[..n]);
      PushStep(m1, ins, rd, rn, values[n], ReadReg(m, rn), n);
    }
  }

  /** One push on a stack of `n` words. */
  lemma PushStep(m: Machine, ins: word, rd: regno, rn: regno, v: word, base: word, n: nat)
    requires IsPush(ins, rd, rn) && ReadReg(m, rn) == StackTop(base, n)
    requires Accepts(m.mem.size, StackWord(base, n), 4)
    ensures var e := LoadStoreSingle(WriteReg(m, rd, v), ins);
            e.outcome == DONE && e.m.mem == Store(m.mem, StackWord(base, n), 4, v)
            && ReadReg(e.m, rn) == StackWord(base, n)
  {
    var loaded := WriteReg(m, rd, v);
    ReadWritten(m, rd, v, rn);
    ReadWritten(m, rd, v, rd);
    StackSteps(base, n);
    PushOne(loaded, ins, rd, rn);
    ReadWritten(loaded, rn, StackWord(base, n), rn);
  }

  lemma {:induction false} PushesFill(m: Machine, ins: word, rd: regno, rn: regno, values: seq<word>, i: nat)
    requires IsPush(ins, rd, rn) && Room(m.mem.size, ReadReg(m, rn), |values|) && i < |values|
    ensures Pushed(m, ins, rd, values).mem.size == m.mem.size
    ensures Load(Pushed(m, ins, rd, values).mem, StackWord(ReadReg(m, rn), i), 4) == values[i]
  {
    var base, n, size := ReadReg(m, rn), |values| - 1, m.mem.size;
    var m1 := Pushed(m, ins, rd, values[..n]);
    PushesKeep(m, ins, rd, rn, values[..n]);
    PushStep(m1, ins, rd, rn, values[n], base, n);
    if i == n {
      StoreLoadWord(m1.mem, StackWord(base, n), values[n]);
    } else {
      PushesFill(m, ins, rd, rn, values[..n], i);
      StackIsContiguous(size, base, |values|, i);
      StackIsContiguous(size, base, |values|, n);
      StoreElsewhere(m1.mem, StackWord(base, n), 4, values[n], StackWord(base, i), 4);
    }
  }

  /** Byte `x` is in one of the first `n` words of the stack. */
  predicate OnStack(base: word, n: nat, x: nat) {
    exists i: nat :: i < n && StackWord(base, i) <= x < StackWord(base, i) + 4
  }

  lemma OffStack(base: word, n: nat, x: nat)
    requires !OnStack(base, n + 1, x)
    ensures !OnStack(base, n, x) && !(StackWord(base, n) <= x < StackWord(base, n) + 4)
  {
  }

  lemma ByteKept(m: Machine, ins: word, rd: regno, rn: regno, v: word, base: word, n: nat, x: nat)
    requires IsPush(ins, rd, rn) && ReadReg(m, rn) == StackTop(base, n)
    requires Accepts(m.mem.size, StackWord(base, n), 4) && x <= m.mem.size
    requires !(StackWord(base, n) <= x < StackWord(base, n) + 4)
    ensures var m' := LoadStoreSingle(WriteReg(m, rd, v), ins).m;
            m'.mem.size == m.mem.size && m'.mem.data[x] == m.mem.data[x]
  {
    PushStep(m, ins, rd, rn, v, base, n);
    ByteElsewhere(m.mem, StackWord(base, n), 4, v, x);
  }

  lemma {:induction false} PushesElsewhere(m: Machine, ins: word, rd: regno, rn: regno, values: seq<word>, x: nat)
    requires IsPush(ins, rd, rn) && Room(m.mem.size, ReadReg(m, rn), |values|)
    requires x <= m.mem.size && !OnStack(ReadReg(m, rn), |values|, x)
    ensures Pushed(m, ins, rd, values).mem.size == m.mem.size
    ensures Pushed(m, ins, rd, values).mem.data[x] == m.mem.data[x]
  {
    if values != [] {
      var base, n := ReadReg(m, rn), |values| - 1;
      var a := StackWord(base, n);
      var m1 := Pushed(m, ins, rd, values[..n]);
      OffStack(base, n, x);
      PushesKeep(m, ins, rd, rn, values[..n]);
      PushesElsewhere(m, ins, rd, rn, values[..n], x);
      ByteKept(m1, ins, rd, rn, values[n], base, n, x);
    }
  }

  // ---- pops --------------------------------------------------------------

  /** The machine after `n` pops. */
  function Popped(m: Machine, ins: word, n: nat): Machine {
    if n == 0 then m else LoadStoreSingle(Popped(m, ins, n - 1), ins).m
  }

  /** The values Rd takes on in `n` pops. */
  function PoppedValues(m: Machine, ins: word, rd: regno, n: nat): (s: seq<word>)
    ensures |s| == n
  {
    if n == 0 then [] else PoppedValues(m, ins, rd, n - 1) + [Read(Popped(m, ins, n).regs, rd)]
  }

  function Reversed(s: seq<word>): seq<word> {
    seq(|s|, i requires 0 <= i < |s| => s[|s| - 1 - i])
  }

  /** The values are on the stack that starts at `base`, and Rn points at the last. */
  predicate Holds(m: Machine, rn: regno, base: word, values: seq<word>) {
    Room(m.mem.size, base, |values|) && ReadReg(m, rn) == StackTop(base, |values|)
    && forall i: nat :: i < |values| ==> Load(m.mem, StackWord(base, i), 4) == values[i]
  }

  /** `m'` has the memory of `m`, and `k` words are left on its stack. */
  predicate Left(m: Machine, m': Machine, rn: regno, base: word, k: nat) {
    m'.mem == m.mem && ReadReg(m', rn) == StackTop(base, k)
  }

  lemma {:induction false} PopsMove(
      m: Machine, ins: word, rd: regno, rn: regno, base: word, values: seq<word>, n: nat)
    requires IsPop(ins, rd, rn) && n <= |values| && Holds(m, rn, base, values)
    ensures Left(m, Popped(m, ins, n), rn, base, |values| - n)
  {
    if n > 0 {
      PopsMove(m, ins, rd, rn, base, values, n - 1);
      PopMoves(m, Popped(m, ins, n - 1), Popped(m, ins, n), ins, rd, rn, base, values, n);
    }
  }

  /** One more pop. */
  lemma PopMoves(m: Machine, before: Machine, after: Machine, ins: word, rd: regno, rn: regno, base: word,
                 values: seq<word>, n: nat)
    requires IsPop(ins, rd, rn) && 0 < n <= |values| && Holds(m, rn, base, values)
    requires Left(m, before, rn, base, |values| - (n - 1)) && after == LoadStoreSingle(before, ins).m
    ensures Left(m, after, rn, base, |values| - n)
  {
    TopAccepted(m, rn, base, values, n);
    PopStep(before, ins, rd, rn);
    StackSteps(base, |values| - n);
  }

  lemma {:induction false} PopsRead(m: Machine, ins: word, rd: regno, rn: regno, base: word, values: seq<word>, n: nat)
    requires IsPop(ins, rd, rn) && n <= |values| && Holds(m, rn, base, values)
    ensures PoppedValues(m, ins, rd, n) == Reversed(values)[..n]
  {
    if n > 0 {
      PopsRead(m, ins, rd, rn, base, values, n - 1);
      PopGets(m, ins, rd, rn, base, values, n);
      ReversedGrows(values, n);
    }
  }

  lemma PopGets(m: Machine, ins: word, rd: regno, rn: regno, base: word, values: seq<word>, n: nat)
    requires IsPop(ins, rd, rn) && 0 < n <= |values| && Holds(m, rn, base, values)
    ensures LoadStoreSingle(Popped(m, ins, n - 1), ins).outcome == DONE
    ensures Read(Popped(m, ins, n).regs, rd) == values[|values| - n]
  {
    PopsMove(m, ins, rd, rn, base, values, n - 1);
    TopAccepted(m, rn, base, values, n);
    PopStep(Popped(m, ins, n - 1), ins, rd, rn);
  }

  /** The word the `n`-th pop reads. */
  lemma TopAccepted(m: Machine, rn: regno, base: word, values: seq<word>, n: nat)
    requires 0 < n <= |values| && Holds(m, rn, base, values)
    ensures var a := StackTop(base, |values| - (n - 1));
            Accepts(m.mem.size, a, 4) && Load(m.mem, a, 4) == values[|values| - n]
  {
    var i: nat := |values| - n;
    assert StackWord(base, i) == StackTop(base, |values| - (n - 1));
    assert Accepts(m.mem.size, StackWord(base, i), 4);
  }

  lemma ReversedGrows(values: seq<word>, n: nat)
    requires 0 < n <= |values|
    ensures Reversed(values)[..n] == Reversed(values)[..n - 1] + [values[|values| - n]]
  {
  }

  lemma PopStep(m: Machine, ins: word, rd: regno, rn: regno)
    requires IsPop(ins, rd, rn) && Accepts(m.mem.size, ReadReg(m, rn), 4)
    ensures var a, m' := ReadReg(m, rn), LoadStoreSingle(m, ins).m;
            LoadStoreSingle(m, ins).outcome == DONE && m'.mem == m.mem && Read(m'.regs, rd) == Load(m.mem, a, 4)
            && ReadReg(m', rn) == Displaced(a, 4, true)
  {
    var a := ReadReg(m, rn);
    var v := Load(m.mem, a, 4);
    PopOne(m, ins, rd, rn);
    ReadWritten(m, rd, v, rd);
    ReadWritten(WriteReg(m, rd, v), rn, Displaced(a, 4, true), rd);
    ReadWritten(WriteReg(m, rd, v), rn, Displaced(a, 4, true), rn);
  }

  // ---- the discipline ----------------------------------------------------

  /** After any number of pushes, and anything else that leaves the memory and Rn alone, as many pops
      return the values last in first out and bring Rn back to where it was. */
  lemma {:induction false} LastInFirstOut(
      m: Machine, push: word, pop: word, rd: regno, rn: regno, values: seq<word>, m2: Machine)
    requires IsPush(push, rd, rn) && IsPop(pop, rd, rn) && Room(m.mem.size, ReadReg(m, rn), |values|)
    requires m2.mem == Pushed(m, push, rd, values).mem
    requires ReadReg(m2, rn) == ReadReg(Pushed(m, push, rd, values), rn)
    ensures PoppedValues(m2, pop, rd, |values|) == Reversed(values)
    ensures ReadReg(Popped(m2, pop, |values|), rn) == ReadReg(m, rn)
    ensures Popped(m2, pop, |values|).mem == m2.mem
  {
    var base, n := ReadReg(m, rn), |values|;
    PushedHolds(m, push, rd, rn, values, m2);
    PopsMove(m2, pop, rd, rn, base, values, n);
    PopsRead(m2, pop, rd, rn, base, values, n);
    StackSteps(base, 0);
    assert Reversed(values)[..n] == Reversed(values);
  }

  lemma PushedHolds(m: Machine, push: word, rd: regno, rn: regno, values: seq<word>, m2: Machine)
    requires IsPush(push, rd, rn) && Room(m.mem.size, ReadReg(m, rn), |values|)
    requires m2.mem == Pushed(m, push, rd, values).mem
    requires ReadReg(m2, rn) == ReadReg(Pushed(m, push, rd, values), rn)
    ensures Holds(m2, rn, ReadReg(m, rn), values)
  {
    var base, n := ReadReg(m, rn), |values|;
    PushesKeep(m, push, rd, rn, values);
    forall i: nat | i < n ensures Load(m2.mem, StackWord(base, i), 4) == values[i] {
      PushesFill(m, push, rd, rn, values, i);
    }
  }

  /** The pushes write no byte outside the words of the stack. */
  lemma {:induction false} PushesStayOnStack(m: Machine, push: word, rd: regno, rn: regno, values: seq<word>)
    requires IsPush(push, rd, rn) && Room(m.mem.size, ReadReg(m, rn), |values|)
    ensures var mem := Pushed(m, push, rd, values).mem;
            mem.size == m.mem.size
            && forall x: nat :: x <= m.mem.size && !OnStack(ReadReg(m, rn), |values|, x) ==>
                 mem.data[x] == m.mem.data[x]
  {
    PushesKeep(m, push, rd, rn, values);
    forall x: nat | x <= m.mem.size && !OnStack(ReadReg(m, rn), |values|, x)
      ensures Pushed(m, push, rd, values).mem.data[x] == m.mem.data[x]
    {
      PushesElsewhere(m, push, rd, rn, values, x);
    }
  }
}
