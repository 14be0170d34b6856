/** Addition and subtraction of numbers of any length: ADDS and ADCS, or SUBS and SBCS, on
    successive limbs, lowest first. */
module MultiLimb {
  import opened Words
  import opened Registers
  import opened Shifter
  import opened Core
  import opened DataProcessing
  import opened InPlaceFlags
  import AluLaws
  import opened Encoding

  datatype Kind = Add | Sub

  /** The opcode of the first limb: ADD or SUB. */
  function FirstOp(kind: Kind): nat {
    if kind.Add? then 0x4 else 0x2
  }

  /** The opcode of the other limbs: ADC or SBC. */
  function NextOp(kind: Kind): nat {
    if kind.Add? then 0x5 else 0x6
  }

  /** The carry or borrow that a carry flag stands for. */
  function Carried(kind: Kind, flag: bit): bit {
    if kind.Add? then flag else 1 - flag
  }

  // ---- runs of instructions ----------------------------------------------

  /** One executed instruction: the machine it starts from and its word. */
  datatype Limb = Limb(before: Machine, ins: word) {
    function After(): Machine {
      ProcessData(before, ins).m
    }

    /** An S-form of `op` whose destination is not R15; it may be its first operand. */
    predicate Computes(op: nat) {
      ShifterOperand(before, ins).Some? && Opcode(ins) == op && Bit(ins, 20) == 1
      && Rd(ins) != 15
    }
  }

  /** Limbs between which the carry flag is left alone; other state may change freely. */
  predicate Chain(kind: Kind, ls: seq<Limb>, first: bool) {
    ls != [] ==>
      && ls[0].Computes(if first then FirstOp(kind) else NextOp(kind))
      && Chain(kind, ls[1..], false)
      && (|ls| > 1 ==> CarryBit(ls[1].before) == CarryBit(ls[0].After()))
  }

  /** What one instruction reads and leaves: whether it works in place, its operands, its result and
      the carry flag. */
  datatype Seen = Seen(same: bool, a: word, b: word, d: word, carryIn: bit, carryOut: bit)

  function See(l: Limb): Seen
    requires ShifterOperand(l.before, l.ins).Some?
  {
    Seen(Rd(l.ins) == Rn(l.ins), ReadReg(l.before, Rn(l.ins)), ShifterOperand(l.before, l.ins).value.value,
         ReadReg(l.After(), Rd(l.ins)), CarryBit(l.before), CarryBit(l.After()))
  }

  function Observe(kind: Kind, ls: seq<Limb>, first: bool): (s: seq<Seen>)
    requires Chain(kind, ls, first)
    ensures |s| == |ls|
  {
    if ls == [] then [] else [See(ls[0])] + Observe(kind, ls[1..], false)
  }

  function Places(s: seq<Seen>): (p: seq<bool>)
    ensures |p| == |s|
  {
    if s == [] then [] else [s[0].same] + Places(s[1..])
  }

  function Lefts(s: seq<Seen>): (x: seq<word>)
    ensures |x| == |s|
  {
    if s == [] then [] else [s[0].a] + Lefts(s[1..])
  }

  function Rights(s: seq<Seen>): (x: seq<word>)
    ensures |x| == |s|
  {
    if s == [] then [] else [s[0].b] + Rights(s[1..])
  }

  function Results(s: seq<Seen>): (x: seq<word>)
    ensures |x| == |s|
  {
    if s == [] then [] else [s[0].d] + Results(s[1..])
  }

  // ---- numbers -----------------------------------------------------------

  /** The number with the given limbs, lowest first. */
  function Value(s: seq<word>): nat {
    if s == [] then 0 else s[0] + 0x1_0000_0000 * Value(s[1..])
  }

  /** `2^(32 n)` */
  function Base(n: nat): (p: int)
    ensures p > 0
  {
    if n == 0 then 1 else 0x1_0000_0000 * Base(n - 1)
  }

  /** The exact sum or difference of two numbers. */
  function Exact(kind: Kind, a: nat, b: nat): int {
    if kind.Add? then a + b else a - b
  }

  lemma {:induction false} ValueInjective(x: seq<word>, y: seq<word>)
    requires |x| == |y| && Value(x) == Value(y)
    ensures x == y
  {
    if x != [] {
      ValueInjective(x[1..], y[1..]);
      assert x == [x[0]] + x[1..] && y == [y[0]] + y[1..];
    }
  }

  lemma {:induction false} ValueBound(s: seq<word>)
    ensures Value(s) < Base(|s|)
  {
    if s != [] {
      ValueBound(s[1..]);
    }
  }

  // ---- the schoolbook method ---------------------------------------------

  function Digit(kind: Kind, a: word, b: word, x: bit): word {
    if kind.Add? then Wrap(a + b + x) else Wrap(a - b - x)
  }

  /** The true carry or borrow out of one limb. */
  function Over(kind: Kind, a: word, b: word, x: bit): bit {
    if kind.Add? then BitOf(a + b + x >= 0x1_0000_0000) else BitOf(a < b + x)
  }

  function Digits(kind: Kind, a: seq<word>, b: seq<word>, x: bit): (d: seq<word>)
    requires |a| == |b|
    ensures |d| == |a|
  {
    if a == [] then [] else
      [Digit(kind, a[0], b[0], x)] + Digits(kind, a[1..], b[1..], Over(kind, a[0], b[0], x))
  }

  /** The true carry or borrow out of all limbs. */
  function Out(kind: Kind, a: seq<word>, b: seq<word>, x: bit): bit
    requires |a| == |b|
  {
    if a == [] then x else Out(kind, a[1..], b[1..], Over(kind, a[0], b[0], x))
  }

  lemma LimbArithmetic(kind: Kind, a: word, b: word, x: bit)
    ensures var over: int := Over(kind, a, b, x) * 0x1_0000_0000;
            Digit(kind, a, b, x) == if kind.Add? then a + b + x - over else a - b - x + over
  {
  }

  /** The schoolbook digits are the result modulo the base, less or more than the exact one by the
      carry or borrow out. */
  lemma {:induction false} SchoolbookComputes(kind: Kind, a: seq<word>, b: seq<word>, x: bit)
    requires |a| == |b|
    ensures var over: int := if Out(kind, a, b, x) == 1 then Base(|a|) else 0;
            Value(Digits(kind, a, b, x))
            == if kind.Add? then Value(a) + Value(b) + x - over else Value(a) - Value(b) - x + over
    ensures Value(Digits(kind, a, b, x)) < Base(|a|)
  {
    if a != [] {
      SchoolbookComputes(kind, a[1..], b[1..], Over(kind, a[0], b[0], x));
      LimbArithmetic(kind, a[0], b[0], x);
      assert Digits(kind, a, b, x)[1..] == Digits(kind, a[1..], b[1..], Over(kind, a[0], b[0], x));
    }
  }

  /** The carry out says that the sum does not fit, the borrow out that the minuend is smaller. */
  predicate Overflows(kind: Kind, a: seq<word>, b: seq<word>)
    requires |a| == |b|
  {
    if kind.Add? then Value(a) + Value(b) >= Base(|a|) else Value(a) < Value(b)
  }

  lemma OutIsOverflow(kind: Kind, a: seq<word>, b: seq<word>)
    requires |a| == |b|
    ensures Out(kind, a, b, 0) == 1 <==> Overflows(kind, a, b)
  {
    SchoolbookComputes(kind, a, b, 0);
    ValueBound(a);
    ValueBound(b);
  }

  lemma DigitsAreExact(kind: Kind, a: seq<word>, b: seq<word>)
    requires |a| == |b|
    ensures Value(Digits(kind, a, b, 0)) == Exact(kind, Value(a), Value(b)) % Base(|a|)
  {
    SchoolbookComputes(kind, a, b, 0);
    var q := if Out(kind, a, b, 0) == 0 then 0 else if kind.Add? then 1 else -1;
    DivModUnique(Exact(kind, Value(a), Value(b)), Base(|a|), q, Value(Digits(kind, a, b, 0)));
  }

  // ---- where the source misjudges a carry --------------------------------

  /** The operands and carry or borrow in for which an instruction's flag is not the true one; `same`
      says that its Rd is its Rn. */
  predicate Misjudged(kind: Kind, same: bool, a: word, b: word, x: bit) {
    if kind.Add? then AddCarryWrong(same, a, b, x) else SubCarryWrong(same, a, b, x)
  }

  /** No limb is misjudged; `p` says of each whether its Rd is its Rn. */
  predicate Safe(kind: Kind, p: seq<bool>, a: seq<word>, b: seq<word>, x: bit)
    requires |p| == |a| == |b|
    decreases a
  {
    a != [] ==>
      && !Misjudged(kind, p[0], a[0], b[0], x)
      && Safe(kind, p[1..], a[1..], b[1..], Over(kind, a[0], b[0], x))
  }

  /** The same of limb `i`, with the true carry or borrow of the limbs below it. */
  predicate MisjudgedAt(kind: Kind, p: seq<bool>, a: seq<word>, b: seq<word>, x: bit, i: nat)
    requires |p| == |a| == |b| && i < |a|
  {
    Misjudged(kind, p[i], a[i], b[i], Out(kind, a[..i], b[..i], x))
  }

  lemma MisjudgedTail(kind: Kind, p: seq<bool>, a: seq<word>, b: seq<word>, x: bit, i: nat)
    requires |p| == |a| == |b| && 0 < i < |a|
    ensures MisjudgedAt(kind, p, a, b, x, i)
            <==> MisjudgedAt(kind, p[1..], a[1..], b[1..], Over(kind, a[0], b[0], x), i - 1)
  {
    assert a[..i][1..] == a[1..][..i - 1] && b[..i][1..] == b[1..][..i - 1];
  }

  lemma {:induction false} SafeMeans(kind: Kind, p: seq<bool>, a: seq<word>, b: seq<word>, x: bit)
    requires |p| == |a| == |b|
    ensures Safe(kind, p, a, b, x) <==> forall i: nat :: i < |a| ==> !MisjudgedAt(kind, p, a, b, x, i)
    decreases a
  {
    if a != [] {
      var p', a', b', x' := p[1..], a[1..], b[1..], Over(kind, a[0], b[0], x);
      SafeMeans(kind, p', a', b', x');
      assert MisjudgedAt(kind, p, a, b, x, 0) <==> Misjudged(kind, p[0], a[0], b[0], x);
      forall i: nat | 0 < i < |a|
        ensures MisjudgedAt(kind, p, a, b, x, i) <==> MisjudgedAt(kind, p', a', b', x', i - 1)
      {
        MisjudgedTail(kind, p, a, b, x, i);
      }
      if !Safe(kind, p', a', b', x') {
        var j: nat :| j < |a'| && MisjudgedAt(kind, p', a', b', x', j);
        assert MisjudgedAt(kind, p, a, b, x, j + 1);
      }
    }
  }

  // ---- one limb ----------------------------------------------------------

  /** The carry or borrow a limb takes in: none for the first. */
  function CarryTaken(kind: Kind, s: Seen, first: bool): bit {
    if first then 0 else Carried(kind, s.carryIn)
  }

  /** How a limb behaves: its digit is right, and so is its flag unless misjudged. */
  predicate LimbLaw(kind: Kind, s: Seen, first: bool) {
    var x := CarryTaken(kind, s, first);
    var over := Over(kind, s.a, s.b, x);
    s.d == Digit(kind, s.a, s.b, x)
    && Carried(kind, s.carryOut) == if Misjudged(kind, s.same, s.a, s.b, x) then 1 - over else over
  }

  predicate Behaves(kind: Kind, s: seq<Seen>, first: bool) {
    s != [] ==>
      && LimbLaw(kind, s[0], first)
      && Behaves(kind, s[1..], false)
      && (|s| > 1 ==> s[1].carryIn == s[0].carryOut)
  }

  lemma ComputeLimb(kind: Kind, l: Limb, first: bool)
    requires l.Computes(if first then FirstOp(kind) else NextOp(kind))
    ensures LimbLaw(kind, See(l), first)
  {
    var op, c := if first then FirstOp(kind) else NextOp(kind), CarryBit(l.before);
    var a, sh, same := ReadReg(l.before, Rn(l.ins)), ShifterOperand(l.before, l.ins).value, Rd(l.ins) == Rn(l.ins);
    ResultAndCarry(l.before, l.ins);
    var d := AluResult(op, a, sh.value, c);
    assert See(l) == Seen(same, a, sh.value, d, c, AluCarry(op, if same then d else a, sh.value, c, sh.carry));
    if kind.Add? {
      AddNumbers(same, a, sh.value, c, first, sh.carry);
    } else {
      SubNumbers(same, a, sh.value, c, first, sh.carry);
    }
  }

  lemma SubNumbers(same: bool, a: word, b: word, c: bit, first: bool, shifter: bit)
    ensures var op := if first then 0x2 else 0x6;
            var d := AluResult(op, a, b, c);
            LimbLaw(Sub, Seen(same, a, b, d, c, AluCarry(op, if same then d else a, b, c, shifter)), first)
  {
    var op := if first then 0x2 else 0x6;
    AluLaws.SubtractionAlu(op, same, a, b, c, shifter);
  }

  lemma AddNumbers(same: bool, a: word, b: word, c: bit, first: bool, shifter: bit)
    ensures var op := if first then 0x4 else 0x5;
            var d := AluResult(op, a, b, c);
            LimbLaw(Add, Seen(same, a, b, d, c, AluCarry(op, if same then d else a, b, c, shifter)), first)
  {
    var op := if first then 0x4 else 0x5;
    AluLaws.AdditionAlu(op, same, a, b, c, shifter);
  }

  /** With Rd other than R15, an S-form leaves its result in Rd, and the carry of its operands with Rn
      read again: of the result, if Rd is Rn. */
  lemma ResultAndCarry(m: Machine, ins: word)
    requires AluLaws.SetsFlags(m, ins)
    ensures var m', a, sh := ProcessData(m, ins).m, ReadReg(m, Rn(ins)), ShifterOperand(m, ins).value;
            var op, c := Opcode(ins), CarryBit(m);
            var d := AluResult(op, a, sh.value, c);
            ReadReg(m', Rd(ins)) == d
            && CarryBit(m') == AluCarry(op, if Rd(ins) == Rn(ins) then d else a, sh.value, c, sh.carry)
  {
    var a, sh := ReadReg(m, Rn(ins)), ShifterOperand(m, ins).value;
    AluLaws.SFormFlags(m, ins);
    ModeOfLow(Cpsr(m));
    ModeOfLow(Cpsr(ProcessData(m, ins).m));
    ReadWritten(m, Rd(ins), AluResult(Opcode(ins), a, sh.value, CarryBit(m)), Rd(ins));
  }

  lemma {:induction false} ChainBehaves(kind: Kind, ls: seq<Limb>, first: bool)
    requires Chain(kind, ls, first)
    ensures Behaves(kind, Observe(kind, ls, first), first)
  {
    if ls != [] {
      ComputeLimb(kind, ls[0], first);
      ChainBehaves(kind, ls[1..], false);
      assert Observe(kind, ls, first)[1..] == Observe(kind, ls[1..], false);
    }
  }

  // ---- chains ------------------------------------------------------------

  /** A chain computes the schoolbook digits and carry exactly when no limb is misjudged. */
  lemma {:induction false} ChainMatches(kind: Kind, s: seq<Seen>, first: bool)
    requires s != [] && Behaves(kind, s, first)
    ensures var a, b, x := Lefts(s), Rights(s), CarryTaken(kind, s[0], first);
            Results(s) == Digits(kind, a, b, x) && Carried(kind, s[|s| - 1].carryOut) == Out(kind, a, b, x)
            <==> Safe(kind, Places(s), a, b, x)
  {
    var a, b, x, tail := Lefts(s), Rights(s), CarryTaken(kind, s[0], first), s[1..];
    var d, g, over := Results(s), Digits(kind, a, b, x), Over(kind, a[0], b[0], x);
    assert d[0] == g[0];
    assert a[1..] == Lefts(tail) && b[1..] == Rights(tail) && d[1..] == Results(tail);
    assert g[1..] == Digits(kind, a[1..], b[1..], over);
    assert Places(s)[1..] == Places(tail);
    if Misjudged(kind, s[0].same, a[0], b[0], x) {
      if tail != [] {
        DigitsDiffer(kind, tail[0].a, tail[0].b);
        assert d[1] == d[1..][0] && g[1] == g[1..][0];
      }
    } else if tail != [] {
      ChainMatches(kind, tail, false);
      HeadsAgree(d, g);
    } else {
      assert d == g;
    }
  }

  lemma HeadsAgree(d: seq<word>, g: seq<word>)
    requires d != [] && g != [] && d[0] == g[0]
    ensures d == g <==> d[1..] == g[1..]
  {
    assert d == [d[0]] + d[1..] && g == [g[0]] + g[1..];
  }

  lemma DigitsDiffer(kind: Kind, a: word, b: word)
    ensures Digit(kind, a, b, 0) != Digit(kind, a, b, 1)
  {
  }

  /** The results form the sum or difference modulo `2^(32 n)`, and the final flag says whether it
      was exact: carry for a sum too large, no carry for a difference below zero. */
  predicate ComputedRight(kind: Kind, s: seq<Seen>)
    requires s != []
  {
    Value(Results(s)) == Exact(kind, Value(Lefts(s)), Value(Rights(s))) % Base(|s|)
    && (Carried(kind, s[|s| - 1].carryOut) == 1 <==> Overflows(kind, Lefts(s), Rights(s)))
  }

  /** Some limb has operands, and a carry or borrow coming in from the limbs below, for which the
      source's flag is wrong. */
  predicate SomeMisjudged(kind: Kind, s: seq<Seen>) {
    exists i: nat :: i < |s| && MisjudgedAt(kind, Places(s), Lefts(s), Rights(s), 0, i)
  }

  /** Addition and subtraction of any number of limbs are right exactly when no limb is misjudged. */
  lemma MultiLimbExactly(kind: Kind, ls: seq<Limb>)
    requires ls != [] && Chain(kind, ls, true)
    ensures ComputedRight(kind, Observe(kind, ls, true)) <==> !SomeMisjudged(kind, Observe(kind, ls, true))
  {
    ChainBehaves(kind, ls, true);
    SeenExactly(kind, Observe(kind, ls, true));
  }

  lemma SeenExactly(kind: Kind, s: seq<Seen>)
    requires s != [] && Behaves(kind, s, true)
    ensures ComputedRight(kind, s) <==> !SomeMisjudged(kind, s)
  {
    ChainMatches(kind, s, true);
    DigitsDecide(kind, Places(s), Lefts(s), Rights(s), Results(s), Carried(kind, s[|s| - 1].carryOut));
  }

  lemma DigitsDecide(kind: Kind, p: seq<bool>, a: seq<word>, b: seq<word>, d: seq<word>, out: bit)
    requires |p| == |a| == |b| == |d|
    requires d == Digits(kind, a, b, 0) && out == Out(kind, a, b, 0) <==> Safe(kind, p, a, b, 0)
    ensures Value(d) == Exact(kind, Value(a), Value(b)) % Base(|a|) && (out == 1 <==> Overflows(kind, a, b))
            <==> forall i: nat :: i < |a| ==> !MisjudgedAt(kind, p, a, b, 0, i)
  {
    SafeMeans(kind, p, a, b, 0);
    DigitsAreExact(kind, a, b);
    OutIsOverflow(kind, a, b);
    if Value(d) == Value(Digits(kind, a, b, 0)) {
      ValueInjective(d, Digits(kind, a, b, 0));
    }
  }

  /** The carry or borrow that decides whether limb `i` is misjudged is an order of the numbers
      formed by the limbs below it. */
  lemma MisjudgedMeaning(kind: Kind, p: seq<bool>, a: seq<word>, b: seq<word>, i: nat)
    requires |p| == |a| == |b| && i < |a|
    ensures MisjudgedAt(kind, p, a, b, 0, i)
            <==> Misjudged(kind, p[i], a[i], b[i], BitOf(Overflows(kind, a[..i], b[..i])))
  {
    OutIsOverflow(kind, a[..i], b[..i]);
  }

  // ---- every pair of numbers has a chain ---------------------------------

  /** `SUBS Rd, R0, R1`, `SBCS Rd, R0, R1`, `ADDS Rd, R0, R1` or `ADCS Rd, R0, R1`, with its operands put
      in R0 and R1 before it; Rd is R0 if it works in place and R2 if not. */
  function LimbOf(kind: Kind, first: bool, m: Machine, same: bool, x: word, y: word): Limb {
    Limb(AluLaws.WithOperands(m, x, y),
         EncodedWord(AlwaysS(if first then FirstOp(kind) else NextOp(kind)), 0, 0x1000 * Target(same) + 1))
  }

  function Target(same: bool): regno {
    if same then 0 else 2
  }

  function ChainOf(kind: Kind, first: bool, m: Machine, p: seq<bool>, a: seq<word>, b: seq<word>): (ls: seq<Limb>)
    requires |p| == |a| == |b|
    ensures |ls| == |a|
    decreases a
  {
    if a == [] then [] else
      var l := LimbOf(kind, first, m, p[0], a[0], b[0]);
      [l] + ChainOf(kind, false, l.After(), p[1..], a[1..], b[1..])
  }

  lemma LimbOfSees(kind: Kind, first: bool, m: Machine, same: bool, x: word, y: word)
    ensures var l := LimbOf(kind, first, m, same, x, y);
            l.Computes(if first then FirstOp(kind) else NextOp(kind))
            && See(l).same == same && See(l).a == x && See(l).b == y && CarryBit(l.before) == CarryBit(m)
  {
    var op := if first then FirstOp(kind) else NextOp(kind);
    AluLaws.PlainForm(AluLaws.WithOperands(m, x, y), op, 0, Target(same), 1);
    ReadWritten(m, 0, x, 0);
    ReadWritten(WriteReg(m, 0, x), 1, y, 0);
    ReadWritten(WriteReg(m, 0, x), 1, y, 1);
  }

  lemma ChainCons(kind: Kind, l: Limb, tail: seq<Limb>, first: bool)
    requires l.Computes(if first then FirstOp(kind) else NextOp(kind)) && Chain(kind, tail, false)
    requires tail != [] ==> CarryBit(tail[0].before) == CarryBit(l.After())
    ensures Chain(kind, [l] + tail, first)
  {
    assert ([l] + tail)[1..] == tail;
  }

  lemma ObserveCons(kind: Kind, l: Limb, tail: seq<Limb>, first: bool)
    requires Chain(kind, [l] + tail, first) && Chain(kind, tail, false)
    ensures ShifterOperand(l.before, l.ins).Some?
    ensures Observe(kind, [l] + tail, first) == [See(l)] + Observe(kind, tail, false)
  {
    assert ([l] + tail)[1..] == tail;
  }

  /** What is seen of a limb put before others. */
  lemma {:induction false} SeenCons(x: Seen, s: seq<Seen>, p: seq<bool>, a: seq<word>, b: seq<word>)
    requires p != [] && a != [] && b != [] && x.same == p[0] && x.a == a[0] && x.b == b[0]
    requires Places(s) == p[1..] && Lefts(s) == a[1..] && Rights(s) == b[1..]
    ensures Places([x] + s) == p && Lefts([x] + s) == a && Rights([x] + s) == b
  {
    assert ([x] + s)[1..] == s;
    assert p == [p[0]] + p[1..] && a == [a[0]] + a[1..] && b == [b[0]] + b[1..];
  }

  /** From any machine, any two numbers of one length are the operands of some chain, with any choice of
      the limbs that work in place. */
  lemma {:induction false} ChainOfAnyNumbers(
      kind: Kind, first: bool, m: Machine, p: seq<bool>, a: seq<word>, b: seq<word>)
    requires |p| == |a| == |b|
    ensures var ls := ChainOf(kind, first, m, p, a, b);
            Chain(kind, ls, first) && |ls| == |a| && Places(Observe(kind, ls, first)) == p
            && Lefts(Observe(kind, ls, first)) == a && Rights(Observe(kind, ls, first)) == b
    ensures a != [] ==> CarryBit(ChainOf(kind, first, m, p, a, b)[0].before) == CarryBit(m)
    decreases a
  {
    if a != [] {
      var l := LimbOf(kind, first, m, p[0], a[0], b[0]);
      LimbOfSees(kind, first, m, p[0], a[0], b[0]);
      ChainOfAnyNumbers(kind, false, l.After(), p[1..], a[1..], b[1..]);
      OneMoreLimb(kind, first, l, ChainOf(kind, false, l.After(), p[1..], a[1..], b[1..]), p, a, b);
    }
  }

  /** A limb put before a chain sees its own operands and those of the chain. */
  lemma {:induction false} OneMoreLimb(
      kind: Kind, first: bool, l: Limb, tail: seq<Limb>, p: seq<bool>, a: seq<word>, b: seq<word>)
    requires |p| == |a| == |b| && a != [] && l.Computes(if first then FirstOp(kind) else NextOp(kind))
    requires See(l).same == p[0] && See(l).a == a[0] && See(l).b == b[0]
    requires Chain(kind, tail, false) && (tail != [] ==> CarryBit(tail[0].before) == CarryBit(l.After()))
    requires Places(Observe(kind, tail, false)) == p[1..]
    requires Lefts(Observe(kind, tail, false)) == a[1..] && Rights(Observe(kind, tail, false)) == b[1..]
    ensures var ls := [l] + tail;
            Chain(kind, ls, first) && Places(Observe(kind, ls, first)) == p
            && Lefts(Observe(kind, ls, first)) == a && Rights(Observe(kind, ls, first)) == b
  {
    ChainCons(kind, l, tail, first);
    ObserveCons(kind, l, tail, first);
    SeenCons(See(l), Observe(kind, tail, false), p, a, b);
  }

  // ---- failures ----------------------------------------------------------

  /** Subtraction fails on 0 minus 0xFFFFFFFF_00000001, from any machine. */
  lemma SubtractionFails(m: Machine)
    ensures var ls := ChainOf(Sub, true, m, [false, false], [0, 0], [1, 0xFFFF_FFFF]);
            Chain(Sub, ls, true) && |ls| == 2 && !ComputedRight(Sub, Observe(Sub, ls, true))
  {
    var p, a: seq<word>, b: seq<word> := [false, false], [0, 0], [1, 0xFFFF_FFFF];
    ChainOfAnyNumbers(Sub, true, m, p, a, b);
    MultiLimbExactly(Sub, ChainOf(Sub, true, m, p, a, b));
    assert a[..1] == [0] && b[..1] == [1];
    assert MisjudgedAt(Sub, p, a, b, 0, 1);
  }

  /** Addition fails on 1 plus 0x0FFFFFFF, with a high limb of 0, from any machine. */
  lemma AdditionFails(m: Machine)
    ensures var ls := ChainOf(Add, true, m, [false, false], [1, 0], [0x0FFF_FFFF, 0]);
            Chain(Add, ls, true) && |ls| == 2 && !ComputedRight(Add, Observe(Add, ls, true))
  {
    var p, a: seq<word>, b: seq<word> := [false, false], [1, 0], [0x0FFF_FFFF, 0];
    ChainOfAnyNumbers(Add, true, m, p, a, b);
    MultiLimbExactly(Add, ChainOf(Add, true, m, p, a, b));
    assert MisjudgedAt(Add, p, a, b, 0, 0);
  }

  /** In place, even 1 minus 1 fails: the borrow is tested on the difference. */
  lemma InPlaceFails(m: Machine)
    ensures var ls := ChainOf(Sub, true, m, [true], [1], [1]);
            Chain(Sub, ls, true) && |ls| == 1 && !ComputedRight(Sub, Observe(Sub, ls, true))
  {
    var p, a: seq<word>, b: seq<word> := [true], [1], [1];
    ChainOfAnyNumbers(Sub, true, m, p, a, b);
    MultiLimbExactly(Sub, ChainOf(Sub, true, m, p, a, b));
    assert MisjudgedAt(Sub, p, a, b, 0, 0);
  }
}
