/** The barrel shifter as repeated one-bit steps, and the closed forms the source computes. */
module Shifter {
  import opened Words

  /** A shifted value and the carry-out. */
  datatype Shifted = Shifted(value: word, carry: bit)

  datatype ShiftKind = Left | LogicalRight | ArithmeticRight | Rotate

  /** One step: the bit that falls out becomes the carry. */
  function Step(kind: ShiftKind, s: Shifted): Shifted {
    var v: int := s.value;
    match kind
    case Left => Shifted(v * 2 % 0x1_0000_0000, v / 0x8000_0000)
    case LogicalRight => Shifted(v / 2, v % 2)
    case ArithmeticRight => Shifted(v / 2 + (if v < 0x8000_0000 then 0 else 0x8000_0000), v % 2)
    case Rotate => Shifted(v / 2 + v % 2 * 0x8000_0000, v % 2)
  }

  /** `n` one-bit steps. */
  function ShiftBy(kind: ShiftKind, s: Shifted, n: nat): Shifted
    decreases n
  {
    if n == 0 then s else ShiftBy(kind, Step(kind, s), n - 1)
  }

  /** Rotate right with extend: the old carry enters at the top. */
  function RotateExtended(s: Shifted): Shifted {
    Shifted(s.value / 2 + s.carry * 0x8000_0000, s.value % 2)
  }

  lemma {:induction false} ShiftAgain(kind: ShiftKind, s: Shifted, a: nat, b: nat)
    ensures ShiftBy(kind, s, a + b) == ShiftBy(kind, ShiftBy(kind, s, a), b)
    decreases a
  {
    if a > 0 {
      ShiftAgain(kind, Step(kind, s), a - 1, b);
    }
  }

  // ---- left --------------------------------------------------------------

  lemma WrapMul(x: nat, p: nat)
    ensures Wrap(Wrap(x) * p) == Wrap(x * p)
  {
    var q := x / 0x1_0000_0000;
    var k := q * p;
    assert x * p == 0x1_0000_0000 * k + Wrap(x) * p by {
      assert x == 0x1_0000_0000 * q + Wrap(x);
    }
  }

  lemma {:induction false} LeftValue(v: word, c: bit, n: nat)
    ensures ShiftBy(Left, Shifted(v, c), n).value == Shl(v, n)
    decreases n
  {
    if n == 0 {
      ShlZero(v);
    } else {
      var s := Step(Left, Shifted(v, c));
      LeftValue(s.value, s.carry, n - 1);
      ShlStep(v, n);
    }
  }

  lemma ShlZero(v: word)
    ensures Shl(v, 0) == v
  {
    assert v * Pow2(0) == v;
  }

  lemma ShlStep(v: word, k: nat)
    requires k > 0
    ensures Shl(v, k) == Shl(Wrap(v * 2), k - 1)
  {
    var p := Pow2(k - 1);
    WrapMul(v * 2, p);
    assert v * 2 * p == v * (2 * p);
  }

  lemma DoubledBit(v: word, j: nat)
    requires j < 31
    ensures Bit(Wrap(v * 2), j + 1) == Bit(v, j)
  {
    PowValues();
    var h := v % 0x8000_0000;
    assert Wrap(v * 2) == 2 * h;
    assert Bit(2 * h, j + 1) == Bit(h, j);
    LowBits(h, v, 31, j);
  }

  lemma {:induction false} LeftCarry(v: word, c: bit, n: nat)
    requires 1 <= n <= 32
    ensures ShiftBy(Left, Shifted(v, c), n).carry == Bit(v, 32 - n)
    decreases n
  {
    var s := Step(Left, Shifted(v, c));
    if n == 1 {
      assert ShiftBy(Left, s, 0) == s;
      TopBit(v);
    } else {
      LeftCarry(s.value, s.carry, n - 1);
      DoubledBit(v, 32 - n);
    }
  }

  lemma {:induction false} LeftBeyond(v: word, c: bit, n: nat)
    requires n > 32
    ensures ShiftBy(Left, Shifted(v, c), n) == Shifted(0, 0)
  {
    ShiftAgain(Left, Shifted(v, c), 32, n - 32);
    LeftValue(v, c, 32);
    ShlAll(v);
    ZeroSteps(Left, ShiftBy(Left, Shifted(v, c), 32).carry, n - 32);
  }

  lemma ShlAll(v: word)
    ensures Shl(v, 32) == 0
  {
    PowValues();
    assert v * Pow2(32) == 0x1_0000_0000 * v;
  }

  lemma {:induction false} ZeroSteps(kind: ShiftKind, c: bit, n: nat)
    requires n > 0
    ensures ShiftBy(kind, Shifted(0, c), n) == Shifted(0, 0)
    decreases n
  {
    assert Step(kind, Shifted(0, c)) == Shifted(0, 0);
    if n > 1 {
      ZeroSteps(kind, 0, n - 1);
    }
  }

  // ---- logical right -----------------------------------------------------

  lemma {:induction false} RightValue(v: word, c: bit, n: nat)
    ensures ShiftBy(LogicalRight, Shifted(v, c), n).value == Shr(v, n)
    decreases n
  {
    if n > 0 {
      RightValue(v / 2, v % 2, n - 1);
    }
  }

  lemma {:induction false} RightCarry(v: word, c: bit, n: nat)
    requires n > 0
    ensures ShiftBy(LogicalRight, Shifted(v, c), n).carry == Bit(v, n - 1)
    decreases n
  {
    if n > 1 {
      RightCarry(v / 2, v % 2, n - 1);
    } else {
      assert ShiftBy(LogicalRight, Shifted(v / 2, v % 2), 0) == Shifted(v / 2, v % 2);
    }
  }

  lemma RightBeyond(v: word, c: bit, n: nat)
    requires n >= 32
    ensures ShiftBy(LogicalRight, Shifted(v, c), n)
            == Shifted(0, if n == 32 then Bit(v, 31) else 0)
  {
    PowValues();
    RightCarry(v, c, n);
    RightValue(v, c, n);
    ShrShr(v, 32, n - 32);
    ShrIsQuotient(v, 32);
    if n > 32 {
      HighBits(v, 32, n - 1);
    }
  }

  // ---- arithmetic right --------------------------------------------------

  /** The sign-extended quotient. */
  function SignExtended(v: word, n: nat): int
    requires n <= 32
  {
    Shr(v, n) + (if v < 0x8000_0000 then 0 else 0x1_0000_0000 - Pow2(32 - n))
  }

  lemma {:induction false} PowSum(a: nat, b: nat)
    ensures Pow2(a + b) == Pow2(a) * Pow2(b)
    decreases a
  {
    if a > 0 {
      PowSum(a - 1, b);
      Doubled(Pow2(a - 1), Pow2(b));
    }
  }

  lemma Doubled(x: int, y: int)
    ensures 2 * (x * y) == 2 * x * y
  {
  }

  /** `~0 << (32 - n)` */
  lemma OnesShifted(n: nat)
    requires 1 <= n <= 31
    ensures Shl(0xFFFF_FFFF, 32 - n) == 0x1_0000_0000 - Pow2(32 - n)
    ensures Pow2(32 - n) < 0x1_0000_0000
    ensures (0x1_0000_0000 - Pow2(32 - n)) % Pow2(32 - n) == 0
  {
    PowValues();
    var p, q := Pow2(32 - n), Pow2(n);
    PowSum(32 - n, n);
    OnesBelow(p, q);
  }

  lemma OnesBelow(p: nat, q: nat)
    requires p > 0 && q >= 2 && p * q == 0x1_0000_0000
    ensures p < 0x1_0000_0000 && Wrap(0xFFFF_FFFF * p) == 0x1_0000_0000 - p
    ensures (0x1_0000_0000 - p) % p == 0
  {
    assert p * 2 <= p * q;
    DivModUnique(0xFFFF_FFFF * p, 0x1_0000_0000, p - 1, 0x1_0000_0000 - p);
    assert p * (q - 1) == p * q - p;
    DivModUnique(0x1_0000_0000 - p, p, q - 1, 0);
  }

  lemma AsrValue(v: word, n: nat)
    requires 1 <= n <= 31
    ensures Asr(v, n) == SignExtended(v, n)
  {
    assert (32 - n) % 32 == 32 - n;
    TopBit(v);
    WordBound(v);
    ShrBelow(v, 32, n);
    if v < 0x8000_0000 {
      OrZero(Shr(v, n), 32);
    } else {
      OnesShifted(n);
      OrHighLow(Shr(v, n), Shl(0xFFFF_FFFF, 32 - n), 32 - n);
    }
  }

  lemma {:induction false} OrZero(x: nat, n: nat)
    requires x < Pow2(n)
    ensures Bitwise(OR, x, 0, n) == x
  {
    if n > 0 {
      OrZero(x / 2, n - 1);
    }
  }

  lemma {:induction false} ShrBelow(x: nat, m: nat, n: nat)
    requires n <= m && x < Pow2(m)
    ensures Shr(x, n) < Pow2(m - n)
    decreases n
  {
    if n > 0 {
      ShrBelow(x / 2, m - 1, n - 1);
    }
  }

  lemma {:induction false} ShrAddTop(x: nat, j: nat, k: nat)
    requires k <= j
    ensures Shr(x + Pow2(j), k) == Shr(x, k) + Pow2(j - k)
    decreases k
  {
    if k > 0 {
      assert (x + Pow2(j)) / 2 == x / 2 + Pow2(j - 1);
      ShrAddTop(x / 2, j - 1, k - 1);
    }
  }

  lemma ArithmeticStep(v: word, c: bit, n: nat)
    requires 1 <= n <= 32
    ensures SignExtended(Step(ArithmeticRight, Shifted(v, c)).value, n - 1) == SignExtended(v, n)
  {
    if v >= 0x8000_0000 {
      PowValues();
      ShrAddTop(v / 2, 31, n - 1);
      assert Pow2(33 - n) == 2 * Pow2(32 - n);
    }
  }

  lemma {:induction false} ArithmeticValue(v: word, c: bit, n: nat)
    requires n <= 32
    ensures ShiftBy(ArithmeticRight, Shifted(v, c), n).value == SignExtended(v, n)
    decreases n
  {
    if n == 0 {
      PowValues();
    } else {
      var s := Step(ArithmeticRight, Shifted(v, c));
      ArithmeticValue(s.value, s.carry, n - 1);
      ArithmeticStep(v, c, n);
    }
  }

  lemma {:induction false} ArithmeticCarry(v: word, c: bit, n: nat)
    requires 1 <= n <= 32
    ensures ShiftBy(ArithmeticRight, Shifted(v, c), n).carry == Bit(v, n - 1)
    decreases n
  {
    var s := Step(ArithmeticRight, Shifted(v, c));
    if n == 1 {
      assert ShiftBy(ArithmeticRight, s, 0) == s;
    } else {
      ArithmeticCarry(s.value, s.carry, n - 1);
      PowValues();
      LowBits(s.value, v / 2, 31, n - 2);
    }
  }

  lemma ArithmeticBeyond(v: word, c: bit, n: nat)
    requires n >= 32
    ensures ShiftBy(ArithmeticRight, Shifted(v, c), n)
            == if v < 0x8000_0000 then Shifted(0, 0) else Shifted(0xFFFF_FFFF, 1)
  {
    PowValues();
    ArithmeticValue(v, c, 32);
    ShrIsQuotient(v, 32);
    ArithmeticCarry(v, c, 32);
    TopBit(v);
    ShiftAgain(ArithmeticRight, Shifted(v, c), 32, n - 32);
    Saturated(n - 32);
  }

  lemma {:induction false} Saturated(n: nat)
    ensures ShiftBy(ArithmeticRight, Shifted(0, 0), n) == Shifted(0, 0)
    ensures ShiftBy(ArithmeticRight, Shifted(0xFFFF_FFFF, 1), n) == Shifted(0xFFFF_FFFF, 1)
  {
    assert Step(ArithmeticRight, Shifted(0, 0)) == Shifted(0, 0);
    assert Step(ArithmeticRight, Shifted(0xFFFF_FFFF, 1)) == Shifted(0xFFFF_FFFF, 1);
    if n > 0 {
      Saturated(n - 1);
    }
  }

  // ---- rotation ----------------------------------------------------------

  lemma RotateOnceBit(v: word, c: bit, j: nat)
    requires j < 32
    ensures Bit(Step(Rotate, Shifted(v, c)).value, j) == Bit(v, if j < 31 then j + 1 else 0)
  {
    var x := Step(Rotate, Shifted(v, c)).value;
    RotatedParts(v);
    if j < 31 {
      PowValues();
      LowBits(x, v / 2, 31, j);
    } else {
      TopBit(x);
    }
  }

  lemma RotatedParts(v: word)
    ensures var x := v / 2 + v % 2 * 0x8000_0000;
            x % 0x8000_0000 == v / 2 % 0x8000_0000 && (x >= 0x8000_0000 <==> v % 2 == 1)
  {
    LinearParts(0x8000_0000, v % 2, v / 2);
  }

  /** The bit of `v` that `n` rotations bring to place `i`. */
  function RotatedFrom(i: nat, n: nat): (j: nat)
    requires i < 32
    ensures j < 32
  {
    (i + n) % 32
  }

  lemma FromPlace(i: nat, n: nat)
    requires i < 32 && n < 32
    ensures RotatedFrom(i, n) == if i + n < 32 then i + n else i + n - 32
  {
  }

  lemma {:induction false} RotateBit(v: word, c: bit, n: nat, i: nat)
    requires i < 32
    ensures Bit(ShiftBy(Rotate, Shifted(v, c), n).value, i) == Bit(v, RotatedFrom(i, n))
    decreases n
  {
    if n > 0 {
      var s := Step(Rotate, Shifted(v, c));
      RotateBit(s.value, s.carry, n - 1, i);
      RotateOnceBit(v, c, RotatedFrom(i, n - 1));
      NextPlace(i, n);
    }
  }

  lemma NextPlace(i: nat, n: nat)
    requires i < 32 && n > 0
    ensures RotatedFrom(i, n) == if RotatedFrom(i, n - 1) < 31 then RotatedFrom(i, n - 1) + 1 else 0
  {
  }

  lemma {:induction false} ShlBit(v: word, k: nat, i: nat)
    requires i < 32
    ensures Bit(Shl(v, k), i) == if i < k then 0 else Bit(v, i - k)
    decreases k
  {
    if k == 0 {
      ShlZero(v);
    } else {
      var w := Wrap(v * 2);
      ShlStep(v, k);
      ShlBit(w, k - 1, i);
      ShlBitStep(v, w, Shl(w, k - 1), k, i);
    }
  }

  /** The bits of a shifted word, by those of the word doubled and shifted once less. */
  lemma ShlBitStep(v: word, w: word, s: word, k: nat, i: nat)
    requires w == Wrap(v * 2) && k > 0 && i < 32
    requires Bit(s, i) == if i < k - 1 then 0 else Bit(w, i - (k - 1))
    ensures Bit(s, i) == if i < k then 0 else Bit(v, i - k)
  {
    if i >= k {
      DoubledBit(v, i - k);
    } else {
      DoubledEven(v);
    }
  }

  lemma DoubledEven(v: word)
    ensures Wrap(v * 2) % 2 == 0
  {
  }

  lemma RorRotates(v: word, c: bit, n: nat)
    requires n < 32
    ensures ShiftBy(Rotate, Shifted(v, c), n).value == Ror(v, n)
  {
    if n == 0 {
      RorZero(v);
    } else {
      var x := ShiftBy(Rotate, Shifted(v, c), n).value;
      WordBound(x);
      WordBound(Ror(v, n));
      forall i: nat | i < 32 ensures Bit(x, i) == Bit(Ror(v, n), i) {
        RotateBit(v, c, n, i);
        RorBit(v, n, i);
      }
      SameBits(x, Ror(v, n), 32);
    }
  }

  lemma RorZero(v: word)
    ensures Ror(v, 0) == v
  {
    assert (32 - 0) % 32 == 0;
    ShlZero(v);
    assert Ror(v, 0) == Or(v, v);
    WordBound(v);
    OrSame(v, 32);
  }

  lemma RorBit(v: word, n: nat, i: nat)
    requires 0 < n < 32 && i < 32
    ensures Bit(Ror(v, n), i) == Bit(v, RotatedFrom(i, n))
  {
    assert (32 - n) % 32 == 32 - n;
    FromPlace(i, n);
    var right, left := Shr(v, n), Shl(v, 32 - n);
    BitwiseBit(OR, right, left, 32, i);
    BitShift(v, n, i);
    ShlBit(v, 32 - n, i);
    if n + i >= 32 {
      WordBound(v);
      HighBits(v, 32, n + i);
    }
  }

  lemma {:induction false} RotateCarry(s: Shifted, n: nat)
    requires n > 0
    ensures ShiftBy(Rotate, s, n).carry == Bit(ShiftBy(Rotate, s, n).value, 31)
    decreases n
  {
    var t := Step(Rotate, s);
    if n == 1 {
      assert ShiftBy(Rotate, t, 0) == t;
      TopBit(t.value);
    } else {
      RotateCarry(t, n - 1);
    }
  }

  /** `(c << 31) | (v >> 1)` */
  lemma ExtendedValue(s: Shifted)
    ensures Or(Shl(s.carry, 31), Shr(s.value, 1)) == RotateExtended(s).value
  {
    PowValues();
    assert Shr(s.value, 1) == s.value / 2;
    assert Shl(s.carry, 31) == s.carry * 0x8000_0000;
    OrDisjoint(Shl(s.carry, 31), s.value / 2, 31, 32);
  }
}
