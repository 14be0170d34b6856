/** A program in memory that pushes registers one by one and pops as many, run step by step. */
module StackProgram {
  import opened Words
  import opened Registers
  import opened Memory
  import opened MemoryRuns
  import opened Core
  import opened LoadStore
  import opened Instruction
  import opened Encoding
  import opened BlockTransfers
  import opened StackDiscipline
  import opened Programs
  import Confinement

  // ---- programs ----------------------------------------------------------

  /** `STR Rd, [Rn, #-4]!` */
  function PushOf(rn: regno, rd: regno): word {
    EncodedWord(0xE52, rn, 0x1000 * rd + 4)
  }

  /** `LDR Rd, [Rn], #4` */
  function PopOf(rn: regno, rd: regno): word {
    EncodedWord(0xE49, rn, 0x1000 * rd + 4)
  }

  /** The code at `at`: `STR r, [Rn, #-4]!` for each pushed register, then `LDR r, [Rn], #4` for each
      popped one. Its stack starts at `base`. */
  datatype Code = Code(at: word, base: word, rn: regno, pushed: seq<regno>, popped: seq<regno>) {
    function Word(k: nat): word
      requires k < |pushed| + |popped|
    {
      if k < |pushed| then PushOf(rn, pushed[k]) else PopOf(rn, popped[k - |pushed|])
    }

    /** As many pops as pushes, of registers other than Rn and R15. */
    predicate Balanced() {
      |popped| == |pushed| && rn != 15
      && forall r: regno :: r in pushed || r in popped ==> r != rn && r != 15
    }

    /** The code lies below the stack or above it. */
    predicate Apart() {
      at + 8 * |pushed| <= base - 4 * |pushed| || base <= at
    }
  }

  predicate WordAt(mem: Mem, x: int, v: word) {
    0 <= x < 0x1_0000_0000 && Accepts(mem.size, x, 4) && Load(mem, x, 4) == v
  }

  /** The machine is about to run the code, with room for the stack. */
  predicate Starts(m: Machine, c: Code) {
    c.Balanced() && c.Apart() && FetchAddress(m) == c.at && ReadReg(m, c.rn) == c.base
    && Room(m.mem.size, c.base, |c.pushed|)
    && forall k: nat :: k < 2 * |c.pushed| ==> WordAt(m.mem, c.at + 4 * k, c.Word(k))
  }

  /** What register `r` holds after `j` pops: the register pushed at the opposite place to the last one
      popped into `r`, or its old value. */
  function AfterPops(m: Machine, c: Code, j: nat, r: regno): word
    requires c.Balanced() && j <= |c.popped|
  {
    if j == 0 then Read(m.regs, r)
    else if c.popped[j - 1] == r then Read(m.regs, c.pushed[|c.pushed| - j])
    else AfterPops(m, c, j - 1, r)
  }

  /** The state after `p` pushes and `j` pops of the code, from `m0`. */
  predicate Reached(m0: Machine, c: Code, m: Machine, p: nat, j: nat)
    requires c.Balanced() && j <= p <= |c.pushed|
  {
    m.regs.psr == m0.regs.psr && FetchAddress(m) == c.at + 4 * (p + j) && ReadReg(m, c.rn) == StackTop(c.base, p - j)
    && SameBeside(m0.mem, m.mem, c)
    && (forall i: nat :: i < p ==> WordAt(m.mem, StackWord(c.base, i), Read(m0.regs, c.pushed[i])))
    && forall r: regno :: r != 15 && r != c.rn ==> Read(m.regs, r) == AfterPops(m0, c, j, r)
  }

  /** The run so far has not ended, and reached that state. */
  predicate Went(m0: Machine, c: Code, e: Effect, p: nat, j: nat)
    requires c.Balanced() && j <= p <= |c.pushed|
  {
    e.outcome == DONE && Reached(m0, c, e.m, p, j)
  }

  /** Memories that differ on the stack only. */
  predicate SameBeside(mem: Mem, mem': Mem, c: Code) {
    mem'.size == mem.size && mem'.bigEndian == mem.bigEndian
    && forall x: nat :: x <= mem.size && !OnStack(c.base, |c.pushed|, x) ==> mem'.data[x] == mem.data[x]
  }

  // ---- one step ----------------------------------------------------------

  /** The code is not on the stack, so it is as at the start. */
  lemma CodeStays(m0: Machine, c: Code, mem: Mem, k: nat)
    requires Starts(m0, c) && SameBeside(m0.mem, mem, c) && k < 2 * |c.pushed|
    ensures WordAt(mem, c.at + 4 * k, c.Word(k)) && (c.at + 4 * k) % 4 == 0 && c.at + 4 * k < 0x8000_0000
  {
    var x: int := c.at + 4 * k;
    assert WordAt(m0.mem, x, c.Word(k));
    AcceptedFits(m0.mem.size, x, 4);
    forall b: nat | x <= b < x + 4 ensures mem.data[b] == m0.mem.data[b] {
      CodeOffStack(m0.mem.size, c, b);
    }
    SameBytes(m0.mem, mem, x, 4);
  }

  lemma CodeFetched(m0: Machine, c: Code, m: Machine, junk: word, k: nat)
    requires Starts(m0, c) && SameBeside(m0.mem, m.mem, c) && k < 2 * |c.pushed| && FetchAddress(m) == c.at + 4 * k
    ensures Accepts(m.mem.size, FetchAddress(m), 4) && FetchedWord(m, junk) == c.Word(k)
    ensures FetchAddress(m) % 4 == 0 && FetchAddress(m) < 0x8000_0000
  {
    CodeStays(m0, c, m.mem, k);
  }

  lemma CodeOffStack(size: nat, c: Code, x: nat)
    requires 0 < size < 0x8000_0000 && Room(size, c.base, |c.pushed|) && c.Apart()
    requires c.at <= x < c.at + 8 * |c.pushed|
    ensures !OnStack(c.base, |c.pushed|, x)
  {
    if OnStack(c.base, |c.pushed|, x) {
      var i: nat :| i < |c.pushed| && StackWord(c.base, i) <= x < StackWord(c.base, i) + 4;
      RoomExactly(size, c.base, |c.pushed|);
      StackPlace(c.base, |c.pushed|, i);
      assert false;
    }
  }

  lemma StackPlace(base: word, n: nat, i: nat)
    requires 4 * n <= base && i < n
    ensures StackWord(base, i) == base - 4 * (i + 1)
  {
  }

  /** R15 behind a word of the code fetches the next one. */
  lemma FetchesNext(m: Machine, a: int)
    requires 0 <= a < 0x8000_0000 && a % 4 == 0 && Read(m.regs, 15) == Wrap(a + 4)
    ensures FetchAddress(m) == a + 4
  {
    FetchOf(a + 4);
  }

  lemma FetchOf(v: word)
    requires v % 4 == 0 && v <= 0x8000_0000
    ensures Wrap(PcView(v) - 4) == v
  {
    PcViewAligned(v);
  }

  /** What a push does: Rn moves down, R15 on, and the word below the stack takes the register. */
  predicate PushDone(m: Machine, e: Effect, rd: regno, rn: regno, base: word, p: nat) {
    Accepts(m.mem.size, StackWord(base, p), 4)
    && e.outcome == DONE && e.m.regs.psr == m.regs.psr
    && e.m.mem == Store(m.mem, StackWord(base, p), 4, Read(m.regs, rd))
    && forall r: regno ::
         Read(e.m.regs, r) == if r == rn then StackWord(base, p) else if r == 15 then Wrap(FetchAddress(m) + 4)
                              else Read(m.regs, r)
  }

  /** What a pop does. */
  predicate PopDone(m: Machine, e: Effect, rd: regno, rn: regno, base: word, p: nat) {
    Accepts(m.mem.size, StackWord(base, p), 4)
    && e.outcome == DONE && e.m.regs.psr == m.regs.psr && e.m.mem == m.mem
    && forall r: regno ::
         Read(e.m.regs, r) == if r == rn then StackTop(base, p) else if r == rd then Load(m.mem, StackWord(base, p), 4)
                              else if r == 15 then Wrap(FetchAddress(m) + 4) else Read(m.regs, r)
  }

  lemma PushEffect(m: Machine, junk: word, rd: regno, rn: regno, base: word, p: nat)
    requires rd != rn && rd != 15 && rn != 15
    requires Accepts(m.mem.size, FetchAddress(m), 4) && FetchedWord(m, junk) == PushOf(rn, rd)
    requires ReadReg(m, rn) == StackTop(base, p) && Accepts(m.mem.size, StackWord(base, p), 4)
    ensures PushDone(m, StepMachine(m, junk), rd, rn, base, p)
  {
    PushPopRun(m, junk, PushOf(rn, rd), rd, rn);
    PushWord(rd, rn);
    PushTransfer(m, PushOf(rn, rd), rd, rn, base, p);
  }

  lemma PushTransfer(m: Machine, ins: word, rd: regno, rn: regno, base: word, p: nat)
    requires IsPush(ins, rd, rn)
    requires ReadReg(m, rn) == StackTop(base, p) && Accepts(m.mem.size, StackWord(base, p), 4)
    ensures PushDone(m, LoadStoreSingle(Advanced(m), ins), rd, rn, base, p)
  {
    PushValue(m, ins, rd, rn, base, p);
    forall r: regno
      ensures Read(LoadStoreSingle(Advanced(m), ins).m.regs, r)
              == if r == rn then StackWord(base, p) else if r == 15 then Wrap(FetchAddress(m) + 4) else Read(m.regs, r)
    {
      PushedRegister(m, rn, StackWord(base, p), r);
    }
  }

  lemma PushValue(m: Machine, ins: word, rd: regno, rn: regno, base: word, p: nat)
    requires IsPush(ins, rd, rn)
    requires ReadReg(m, rn) == StackTop(base, p) && Accepts(m.mem.size, StackWord(base, p), 4)
    ensures var at, a := Advanced(m), StackWord(base, p);
            LoadStoreSingle(at, ins)
            == Effect(WriteReg(at, rn, a).(mem := Store(m.mem, a, 4, Read(m.regs, rd))), DONE)
  {
    StackSteps(base, p);
    ReadWritten(m, 15, Wrap(FetchAddress(m) + 4), rn);
    ReadWritten(m, 15, Wrap(FetchAddress(m) + 4), rd);
    PushOne(Advanced(m), ins, rd, rn);
  }

  lemma PushedRegister(m: Machine, rn: regno, a: word, r: regno)
    requires rn != 15
    ensures Read(WriteReg(Advanced(m), rn, a).regs, r)
            == if r == rn then a else if r == 15 then Wrap(FetchAddress(m) + 4) else Read(m.regs, r)
  {
    ReadWritten(m, 15, Wrap(FetchAddress(m) + 4), r);
    ReadWritten(Advanced(m), rn, a, r);
  }

  lemma PopEffect(m: Machine, junk: word, rd: regno, rn: regno, base: word, p: nat)
    requires rd != rn && rd != 15 && rn != 15
    requires Accepts(m.mem.size, FetchAddress(m), 4) && FetchedWord(m, junk) == PopOf(rn, rd)
    requires ReadReg(m, rn) == StackWord(base, p) && Accepts(m.mem.size, StackWord(base, p), 4)
    ensures PopDone(m, StepMachine(m, junk), rd, rn, base, p)
  {
    PushPopRun(m, junk, PopOf(rn, rd), rd, rn);
    PopWord(rd, rn);
    PopTransfer(m, PopOf(rn, rd), rd, rn, base, p);
  }

  lemma PopTransfer(m: Machine, ins: word, rd: regno, rn: regno, base: word, p: nat)
    requires IsPop(ins, rd, rn)
    requires ReadReg(m, rn) == StackWord(base, p) && Accepts(m.mem.size, StackWord(base, p), 4)
    ensures PopDone(m, LoadStoreSingle(Advanced(m), ins), rd, rn, base, p)
  {
    PopValue(m, ins, rd, rn, base, p);
    forall r: regno
      ensures Read(LoadStoreSingle(Advanced(m), ins).m.regs, r)
              == if r == rn then StackTop(base, p) else if r == rd then Load(m.mem, StackWord(base, p), 4)
                 else if r == 15 then Wrap(FetchAddress(m) + 4) else Read(m.regs, r)
    {
      PoppedRegister(m, rd, Load(m.mem, StackWord(base, p), 4), rn, StackTop(base, p), r);
    }
  }

  lemma PopValue(m: Machine, ins: word, rd: regno, rn: regno, base: word, p: nat)
    requires IsPop(ins, rd, rn)
    requires ReadReg(m, rn) == StackWord(base, p) && Accepts(m.mem.size, StackWord(base, p), 4)
    ensures var at, v := Advanced(m), Load(m.mem, StackWord(base, p), 4);
            LoadStoreSingle(at, ins) == Effect(WriteReg(WriteReg(at, rd, v), rn, StackTop(base, p)), DONE)
  {
    StackSteps(base, p);
    ReadWritten(m, 15, Wrap(FetchAddress(m) + 4), rn);
    PopOne(Advanced(m), ins, rd, rn);
  }

  lemma PoppedRegister(m: Machine, rd: regno, v: word, rn: regno, top: word, r: regno)
    requires rn != 15 && rd != 15
    ensures Read(WriteReg(WriteReg(Advanced(m), rd, v), rn, top).regs, r)
            == if r == rn then top else if r == rd then v else if r == 15 then Wrap(FetchAddress(m) + 4)
               else Read(m.regs, r)
  {
    ReadWritten(m, 15, Wrap(FetchAddress(m) + 4), r);
    ReadWritten(Advanced(m), rd, v, r);
    ReadWritten(WriteReg(Advanced(m), rd, v), rn, top, r);
  }

  /** A push adds its register to the stack and touches nothing beside it. */
  lemma PushedMemory(m0: Machine, c: Code, m: Machine, p: nat)
    requires Starts(m0, c) && p < |c.pushed| && Reached(m0, c, m, p, 0)
    ensures Accepts(m.mem.size, StackWord(c.base, p), 4)
    ensures var mem := Store(m.mem, StackWord(c.base, p), 4, Read(m0.regs, c.pushed[p]));
            SameBeside(m0.mem, mem, c)
            && forall i: nat :: i <= p ==> WordAt(mem, StackWord(c.base, i), Read(m0.regs, c.pushed[i]))
  {
    var a, v := StackWord(c.base, p), Read(m0.regs, c.pushed[p]);
    var mem := Store(m.mem, a, 4, v);
    forall x: nat | x <= m.mem.size && !OnStack(c.base, |c.pushed|, x) ensures mem.data[x] == m0.mem.data[x] {
      assert !(a <= x < a + 4);
      ByteElsewhere(m.mem, a, 4, v, x);
    }
    forall i: nat | i <= p ensures WordAt(mem, StackWord(c.base, i), Read(m0.regs, c.pushed[i])) {
      if i == p {
        StoreLoadWord(m.mem, a, v);
      } else {
        assert WordAt(m.mem, StackWord(c.base, i), Read(m0.regs, c.pushed[i]));
        RoomExactly(m.mem.size, c.base, |c.pushed|);
        StackPlace(c.base, |c.pushed|, i);
        StackPlace(c.base, |c.pushed|, p);
        StoreElsewhere(m.mem, a, 4, v, StackWord(c.base, i), 4);
      }
    }
  }

  lemma Pushes(m0: Machine, c: Code, m: Machine, e: Effect, p: nat)
    requires Starts(m0, c) && p < |c.pushed| && Reached(m0, c, m, p, 0)
    requires PushDone(m, e, c.pushed[p], c.rn, c.base, p)
    ensures Reached(m0, c, e.m, p + 1, 0)
  {
    assert c.pushed[p] in c.pushed;
    assert Read(m.regs, c.pushed[p]) == AfterPops(m0, c, 0, c.pushed[p]);
    CodeFetched(m0, c, m, 0, p);
    FetchesNext(e.m, FetchAddress(m));
    PushedMemory(m0, c, m, p);
  }

  lemma PushReached(m0: Machine, c: Code, m: Machine, junk: word, p: nat, q: nat, e: Effect)
    requires Starts(m0, c) && p < |c.pushed| && q == p + 1
    requires Reached(m0, c, m, p, 0) && e == StepMachine(m, junk)
    ensures Went(m0, c, e, q, 0)
  {
    PushRuns(m0, c, m, junk, p);
    Pushes(m0, c, m, e, p);
  }

  lemma PushRuns(m0: Machine, c: Code, m: Machine, junk: word, p: nat)
    requires Starts(m0, c) && p < |c.pushed| && Reached(m0, c, m, p, 0)
    ensures PushDone(m, StepMachine(m, junk), c.pushed[p], c.rn, c.base, p)
  {
    assert c.pushed[p] in c.pushed;
    CodeFetched(m0, c, m, junk, p);
    PushedMemory(m0, c, m, p);
    PushEffect(m, junk, c.pushed[p], c.rn, c.base, p);
  }

  /** `i` is the place on the stack of the word that pop `j` reads. */
  predicate Places(c: Code, i: nat, j: nat) {
    c.Balanced() && i + j + 1 == |c.pushed|
  }

  lemma Pops(m0: Machine, c: Code, m: Machine, e: Effect, i: nat, j: nat)
    requires Starts(m0, c) && Places(c, i, j) && Reached(m0, c, m, |c.pushed|, j)
    requires PopDone(m, e, c.popped[j], c.rn, c.base, i)
    ensures Reached(m0, c, e.m, |c.pushed|, j + 1)
  {
    assert c.popped[j] in c.popped;
    PopFetches(m0, c, m, e, i, j);
    forall r: regno | r != 15 && r != c.rn ensures Read(e.m.regs, r) == AfterPops(m0, c, j + 1, r) {
      PopGives(m0, c, m, e, i, j, r);
    }
  }

  lemma PopFetches(m0: Machine, c: Code, m: Machine, e: Effect, i: nat, j: nat)
    requires Starts(m0, c) && Places(c, i, j) && Reached(m0, c, m, |c.pushed|, j)
    requires PopDone(m, e, c.popped[j], c.rn, c.base, i)
    ensures FetchAddress(e.m) == c.at + 4 * (|c.pushed| + j + 1)
  {
    assert c.popped[j] in c.popped;
    CodeFetched(m0, c, m, 0, |c.pushed| + j);
    FetchesNext(e.m, FetchAddress(m));
  }

  lemma PopGives(m0: Machine, c: Code, m: Machine, e: Effect, i: nat, j: nat, r: regno)
    requires Starts(m0, c) && Places(c, i, j) && Reached(m0, c, m, |c.pushed|, j)
    requires PopDone(m, e, c.popped[j], c.rn, c.base, i) && r != 15 && r != c.rn
    ensures Read(e.m.regs, r) == AfterPops(m0, c, j + 1, r)
  {
    assert WordAt(m.mem, StackWord(c.base, i), Read(m0.regs, c.pushed[i]));
    AfterPop(m0, c, i, j, r);
  }

  lemma AfterPop(m: Machine, c: Code, i: nat, j: nat, r: regno)
    requires Places(c, i, j)
    ensures AfterPops(m, c, j + 1, r)
            == if c.popped[j] == r then Read(m.regs, c.pushed[i]) else AfterPops(m, c, j, r)
  {
  }

  lemma PopReached(m0: Machine, c: Code, m: Machine, junk: word, i: nat, j: nat, k: nat, e: Effect)
    requires Starts(m0, c) && Places(c, i, j) && k == j + 1
    requires Reached(m0, c, m, |c.pushed|, j) && e == StepMachine(m, junk)
    ensures Went(m0, c, e, |c.pushed|, k)
  {
    PopRuns(m0, c, m, junk, i, j);
    Pops(m0, c, m, e, i, j);
  }

  lemma PopRuns(m0: Machine, c: Code, m: Machine, junk: word, i: nat, j: nat)
    requires Starts(m0, c) && Places(c, i, j) && Reached(m0, c, m, |c.pushed|, j)
    ensures PopDone(m, StepMachine(m, junk), c.popped[j], c.rn, c.base, i)
  {
    CodeFetched(m0, c, m, junk, |c.pushed| + j);
    PopReady(m0, c, m, i, j);
    PopEffect(m, junk, c.popped[j], c.rn, c.base, i);
  }

  lemma PopReady(m0: Machine, c: Code, m: Machine, i: nat, j: nat)
    requires Starts(m0, c) && Places(c, i, j) && Reached(m0, c, m, |c.pushed|, j)
    ensures c.popped[j] != c.rn && c.popped[j] != 15 && c.Word(|c.pushed| + j) == PopOf(c.rn, c.popped[j])
    ensures ReadReg(m, c.rn) == StackWord(c.base, i) && Accepts(m.mem.size, StackWord(c.base, i), 4)
  {
    assert c.popped[j] in c.popped;
    assert WordAt(m.mem, StackWord(c.base, i), Read(m0.regs, c.pushed[i]));
    assert |c.pushed| - j == i + 1;
  }

  // ---- whole runs --------------------------------------------------------

  /** Step `k` of a run leads from one effect of the trace to the next. */
  predicate Follows(t: seq<Effect>, junk: seq<word>, k: nat)
    requires k < |junk| && |t| == |junk| + 1
  {
    t[k].outcome == DONE ==> t[k + 1] == StepMachine(t[k].m, junk[k])
  }

  predicate Traces(m0: Machine, junk: seq<word>, t: seq<Effect>) {
    |t| == |junk| + 1 && t[0] == Effect(m0, DONE) && forall k: nat :: k < |junk| ==> Follows(t, junk, k)
  }

  /** Every run has a trace. */
  lemma {:induction false} RunTraces(m0: Machine, junk: seq<word>) returns (t: seq<Effect>)
    ensures Traces(m0, junk, t) && t[|junk|] == Confinement.Run(m0, junk)
  {
    if junk == [] {
      t := [Effect(m0, DONE)];
    } else {
      var earlier := junk[..|junk| - 1];
      var t' := RunTraces(m0, earlier);
      t := t' + [Confinement.Run(m0, junk)];
      LastFollows(m0, junk, t);
      forall k: nat | k < |junk| ensures Follows(t, junk, k) {
        if k < |earlier| {
          EarlierFollows(t', earlier, t, junk, k);
        }
      }
    }
  }

  lemma EarlierFollows(t': seq<Effect>, earlier: seq<word>, t: seq<Effect>, junk: seq<word>, k: nat)
    requires |t'| == |earlier| + 1 && k < |earlier| <= |junk| && |t| == |junk| + 1
    requires earlier == junk[..|earlier|] && t' == t[..|t'|] && Follows(t', earlier, k)
    ensures Follows(t, junk, k)
  {
  }

  lemma {:induction false} LastFollows(m0: Machine, junk: seq<word>, t: seq<Effect>)
    requires junk != [] && |t| == |junk| + 1
    requires t[|junk|] == Confinement.Run(m0, junk) && t[|junk| - 1] == Confinement.Run(m0, junk[..|junk| - 1])
    ensures Follows(t, junk, |junk| - 1)
  {
  }

  lemma {:induction false} PushesTraced(m0: Machine, c: Code, junk: seq<word>, t: seq<Effect>, p: nat)
    requires Starts(m0, c) && Traces(m0, junk, t) && |junk| == 2 * |c.pushed| && p <= |c.pushed|
    ensures Went(m0, c, t[p], p, 0)
  {
    if p == 0 {
      StackSteps(c.base, 0);
    } else {
      PushesTraced(m0, c, junk, t, p - 1);
      PushTraced(m0, c, junk, t, p - 1, p);
    }
  }

  lemma {:induction false} PushTraced(m0: Machine, c: Code, junk: seq<word>, t: seq<Effect>, p: nat, q: nat)
    requires Starts(m0, c) && Traces(m0, junk, t) && |junk| == 2 * |c.pushed|
    requires q == p + 1 && p < |c.pushed| && Went(m0, c, t[p], p, 0)
    ensures Went(m0, c, t[q], q, 0)
  {
    assert Follows(t, junk, p);
    PushReached(m0, c, t[p].m, junk[p], p, q, t[q]);
  }

  lemma {:induction false} PopsTraced(m0: Machine, c: Code, junk: seq<word>, t: seq<Effect>, j: nat)
    requires Starts(m0, c) && Traces(m0, junk, t) && |junk| == 2 * |c.pushed| && j <= |c.popped|
    ensures Went(m0, c, t[|c.pushed| + j], |c.pushed|, j)
  {
    if j == 0 {
      PushesTraced(m0, c, junk, t, |c.pushed|);
    } else {
      PopsTraced(m0, c, junk, t, j - 1);
      PopTraced(m0, c, junk, t, j - 1, |c.pushed| + j - 1, j);
    }
  }

  lemma {:induction false} PopTraced(m0: Machine, c: Code, junk: seq<word>, t: seq<Effect>, i: nat, k: nat, j: nat)
    requires Starts(m0, c) && Traces(m0, junk, t) && |junk| == 2 * |c.pushed|
    requires j == i + 1 <= |c.popped| && k == |c.pushed| + i && Went(m0, c, t[k], |c.pushed|, i)
    ensures Went(m0, c, t[k + 1], |c.pushed|, j)
  {
    assert Follows(t, junk, k);
    PopReached(m0, c, t[k].m, junk[k], |c.pushed| - j, i, j, t[k + 1]);
  }

  /** The whole program, for any number of pushes: the machine ends behind the code with Rn back at its
      base, each register popped holds what was pushed at the opposite place, and the status registers,
      the other registers and the memory beside the stack are as they were. */
  lemma {:induction false} ProgramRuns(m0: Machine, c: Code, junk: seq<word>)
    requires Starts(m0, c) && |junk| == 2 * |c.pushed|
    ensures Finished(m0, c, Confinement.Run(m0, junk))
  {
    var t := RunTraces(m0, junk);
    PopsTraced(m0, c, junk, t, |c.popped|);
    Finishes(m0, c, t[|junk|]);
  }

  predicate Finished(m0: Machine, c: Code, e: Effect)
    requires c.Balanced()
  {
    e.outcome == DONE && FetchAddress(e.m) == c.at + 8 * |c.pushed| && ReadReg(e.m, c.rn) == c.base
    && e.m.regs.psr == m0.regs.psr && SameBeside(m0.mem, e.m.mem, c)
    && forall r: regno :: r != 15 && r != c.rn ==> Read(e.m.regs, r) == AfterPops(m0, c, |c.popped|, r)
  }

  lemma Finishes(m0: Machine, c: Code, e: Effect)
    requires c.Balanced() && Went(m0, c, e, |c.pushed|, |c.popped|)
    ensures Finished(m0, c, e)
  {
    StackSteps(c.base, 0);
  }

  /** The registers are popped in the reverse order. */
  predicate Reversing(c: Code) {
    |c.popped| == |c.pushed| && forall j: nat :: j < |c.popped| ==> c.popped[j] == c.pushed[|c.pushed| - 1 - j]
  }

  predicate Restored(m0: Machine, e: Effect) {
    forall r: regno :: r != 15 ==> Read(e.m.regs, r) == Read(m0.regs, r)
  }

  /** Popping in the reverse order restores every register. */
  lemma {:induction false} ReversePopsRestore(m0: Machine, c: Code, junk: seq<word>)
    requires Starts(m0, c) && |junk| == 2 * |c.pushed| && Reversing(c)
    ensures Restored(m0, Confinement.Run(m0, junk))
  {
    ProgramRuns(m0, c, junk);
    FinishedRestores(m0, c, Confinement.Run(m0, junk));
  }

  lemma FinishedRestores(m0: Machine, c: Code, e: Effect)
    requires Starts(m0, c) && Reversing(c) && Finished(m0, c, e)
    ensures Restored(m0, e)
  {
    forall r: regno | r != 15 ensures Read(e.m.regs, r) == Read(m0.regs, r) {
      PopsBack(m0, c, |c.popped|, r);
    }
  }

  lemma {:induction false} PopsBack(m0: Machine, c: Code, j: nat, r: regno)
    requires c.Balanced() && j <= |c.popped| && Reversing(c)
    ensures AfterPops(m0, c, j, r) == Read(m0.regs, r)
  {
    if j > 0 {
      PopsBack(m0, c, j - 1, r);
    }
  }
}
