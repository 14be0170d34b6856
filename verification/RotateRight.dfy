/** ROR shifter operands, which the source computes with its arithmetic shift: exactly when they
    are rotations. */
module RotateRight {
  import opened Words
  import opened Shifter
  import opened DataProcessing

  // ---- bits --------------------------------------------------------------

  /** The place the arithmetic shift by `n` brings to place `i`; the sign bit fills the top. */
  function ShiftedFrom(i: nat, n: nat): nat {
    if i + n < 32 then i + n else 31
  }

  lemma AsrBit(v: word, n: nat, i: nat)
    requires 1 <= n < 32 && i < 32
    ensures Bit(Asr(v, n), i) == Bit(v, ShiftedFrom(i, n))
  {
    assert (32 - n) % 32 == 32 - n;
    var ones := if Bit(v, 31) == 1 then Shl(0xFFFF_FFFF, 32 - n) else 0;
    BitwiseBit(OR, Shr(v, n), ones, 32, i);
    BitShift(v, n, i);
    WordBound(v);
    if i + n >= 32 {
      HighBits(v, 32, n + i);
    }
    FillBit(v, n, i);
  }

  lemma FillBit(v: word, n: nat, i: nat)
    requires 1 <= n < 32 && i < 32
    ensures var ones := if Bit(v, 31) == 1 then Shl(0xFFFF_FFFF, 32 - n) else 0;
            Bit(ones, i) == if i + n < 32 then 0 else Bit(v, 31)
  {
    ZeroBit(i);
    ShlBit(0xFFFF_FFFF, 32 - n, i);
    if i + n >= 32 {
      PowValues();
      NotBit(0, 32, i - (32 - n));
      ZeroBit(i - (32 - n));
    }
  }

  // ---- by an immediate ---------------------------------------------------

  /** The low `n` bits equal the sign bit. */
  predicate SignBelow(v: word, n: nat) {
    forall j: nat :: j < n ==> Bit(v, j) == Bit(v, 31)
  }

  /** The two halves of the word are equal. */
  predicate HalvesEqual(v: word) {
    forall j: nat :: j < 16 ==> Bit(v, j) == Bit(v, j + 16)
  }

  /** ROR by an immediate is a rotation exactly when every bit rotated out equals the sign bit. */
  lemma RorImmediateExactly(v: word, c: bit, n: nat)
    requires 1 <= n < 32
    ensures ImmediateShift(3, Shifted(v, c), n) == ShiftBy(Rotate, Shifted(v, c), n) <==> SignBelow(v, n)
  {
    RorImmediate(v, c, n);
    ShiftIsRotation(v, c, n, n);
    RotateCarry(Shifted(v, c), n);
    RotateBit(v, c, n, 31);
  }

  /** Rotating 1 by one place should give 0x80000000; the source gives 0. */
  lemma RorImmediateWrong(c: bit)
    ensures ShiftBy(Rotate, Shifted(1, c), 1) == Shifted(0x8000_0000, 1)
    ensures ImmediateShift(3, Shifted(1, c), 1) == Shifted(0, 1)
  {
    OneStep(Rotate, Shifted(1, c), 1);
    OneStep(ArithmeticRight, Shifted(1, c), 1);
  }

  lemma OneStep(kind: ShiftKind, s: Shifted, n: nat)
    requires n == 1
    ensures ShiftBy(kind, s, n) == Step(kind, s)
  {
    assert ShiftBy(kind, Step(kind, s), n - 1) == Step(kind, s);
  }

  // ---- by a register -----------------------------------------------------

  /** ROR by a register, which uses the amount modulo 16, is a rotation exactly when the bits
      shifted out equal the sign bit and, if bit 4 of the amount is set, the halves are equal. */
  lemma RorRegisterExactly(v: word, c: bit, n: nat)
    ensures RegisterShift(3, Shifted(v, c), n) == ShiftBy(Rotate, Shifted(v, c), n)
            <==> SignBelow(v, n % 16) && (n % 32 >= 16 ==> HalvesEqual(v))
  {
    RorRegister(v, c, n);
    if n > 0 {
      ShiftIsRotation(v, c, n % 16, n);
      RotateCarry(Shifted(v, c), n);
      RotateBit(v, c, n, 31);
      if n % 32 < 16 || HalvesEqual(v) {
        CarryAgrees(v, n);
      }
    }
  }

  /** Failing inputs: every word whose lowest bit is not its bit 16, rotated by a half turn; the source
      leaves the word as it is. */
  lemma RorRegisterFails(v: word, c: bit, n: nat)
    requires n % 32 == 16 && Bit(v, 0) != Bit(v, 16)
    ensures RegisterShift(3, Shifted(v, c), n).value == v
    ensures RegisterShift(3, Shifted(v, c), n) != ShiftBy(Rotate, Shifted(v, c), n)
  {
    AmountTurns(n);
    RorRegister(v, c, n);
    RorRegisterExactly(v, c, n);
  }

  /** Such a word is 1. */
  lemma RorRegisterWrong(c: bit)
    ensures RegisterShift(3, Shifted(1, c), 16) != ShiftBy(Rotate, Shifted(1, c), 16)
  {
    OneBits();
    RorRegisterFails(1, c, 16);
  }

  lemma OneBits()
    ensures Bit(1, 0) == 1 && Bit(1, 16) == 0
  {
    assert Pow2(1) == 2;
    HighBits(1, 1, 16);
  }

  /** The carry-out the source computes is the bit a rotation brings to the top. */
  lemma CarryAgrees(v: word, n: nat)
    requires n % 32 >= 16 ==> HalvesEqual(v)
    ensures Bit(v, RotatedFrom(31, n)) == Bit(v, if n % 16 == 0 then 31 else n % 16 - 1)
  {
    var k: nat := n % 16;
    Places(31, k, n);
    if n % 32 >= 16 {
      var j := if k == 0 then 15 else k - 1;
      assert Bit(v, j) == Bit(v, j + 16);
    }
  }

  /** The arithmetic shift of the amounts that the source uses, by 0 taken as no shift. */
  function Arithmetic(v: word, k: nat): word
    requires k < 32
  {
    if k == 0 then v else Asr(v, k)
  }

  lemma ShiftIsRotation(v: word, c: bit, k: nat, n: nat)
    requires k < 32 && (k == n || k == n % 16)
    ensures Arithmetic(v, k) == ShiftBy(Rotate, Shifted(v, c), n).value
            <==> SignBelow(v, k) && (HalfTurn(k, n) ==> HalvesEqual(v))
  {
    var x := ShiftBy(Rotate, Shifted(v, c), n).value;
    forall i: nat | i < 32
      ensures Bit(x, i) == Bit(v, RotatedFrom(i, n)) && Bit(Arithmetic(v, k), i) == Bit(v, ShiftedFrom(i, k))
    {
      RotateBit(v, c, n, i);
      if k > 0 {
        AsrBit(v, k, i);
      }
    }
    if Arithmetic(v, k) == x {
      forall i: nat | i < 32 ensures SamePlace(v, k, n, i) {
      }
      PlacesAgree(v, k, n);
    } else if SignBelow(v, k) && (HalfTurn(k, n) ==> HalvesEqual(v)) {
      forall i: nat | i < 32 ensures Bit(Arithmetic(v, k), i) == Bit(x, i) {
        PlaceAgrees(v, k, n, i);
      }
      WordBound(x);
      WordBound(Arithmetic(v, k));
      SameBits(Arithmetic(v, k), x, 32);
    }
  }

  /** The shift and the rotation bring equal bits to place `i`. */
  predicate SamePlace(v: word, k: nat, n: nat, i: nat)
    requires i < 32
  {
    Bit(v, ShiftedFrom(i, k)) == Bit(v, RotatedFrom(i, n))
  }

  /** The amount the source shifts by differs from `n` by a half turn. */
  predicate HalfTurn(k: nat, n: nat) {
    k != n && n % 32 >= 16
  }

  lemma Places(i: nat, k: nat, n: nat)
    requires i < 32 && k < 32 && (k == n || k == n % 16)
    ensures var j := i + k + (if HalfTurn(k, n) then 16 else 0);
            RotatedFrom(i, n) == if j < 32 then j else j - 32
  {
    var d := k + (if HalfTurn(k, n) then 16 else 0);
    if k != n {
      AmountTurns(n);
      Turn(n / 32, i + d);
    } else {
      Turn(0, i + d);
    }
  }

  lemma AmountTurns(n: nat)
    ensures n == 32 * (n / 32) + n % 16 + (if n % 32 >= 16 then 16 else 0)
  {
    var q, r := n / 32, n % 32;
    DivModUnique(n, 16, if r < 16 then 2 * q else 2 * q + 1, if r < 16 then r else r - 16);
  }

  lemma Turn(q: nat, j: nat)
    requires j < 64
    ensures (32 * q + j) % 32 == if j < 32 then j else j - 32
  {
  }

  lemma PlacesAgree(v: word, k: nat, n: nat)
    requires k < 32 && (k == n || k == n % 16)
    requires forall i: nat :: i < 32 ==> SamePlace(v, k, n, i)
    ensures SignBelow(v, k) && (HalfTurn(k, n) ==> HalvesEqual(v))
  {
    if HalfTurn(k, n) {
      forall j: nat | j < 16 ensures Bit(v, j) == Bit(v, j + 16) {
        HalvesFromPlace(v, k, n, j);
      }
    }
    forall j: nat | j < k ensures Bit(v, j) == Bit(v, 31) {
      Places(32 - k + j, k, n);
      assert SamePlace(v, k, n, 32 - k + j);
      if HalfTurn(k, n) {
        assert Bit(v, j) == Bit(v, j + 16);
      }
    }
  }

  lemma HalvesFromPlace(v: word, k: nat, n: nat, j: nat)
    requires k == n % 16 && HalfTurn(k, n) && j < 16 && SamePlace(v, k, n, j + 16 - k)
    ensures Bit(v, j) == Bit(v, j + 16)
  {
    Places(j + 16 - k, k, n);
  }

  lemma PlaceAgrees(v: word, k: nat, n: nat, i: nat)
    requires k < 32 && (k == n || k == n % 16) && i < 32
    requires SignBelow(v, k) && (HalfTurn(k, n) ==> HalvesEqual(v))
    ensures SamePlace(v, k, n, i)
  {
    Places(i, k, n);
    var j := i + k;
    if HalfTurn(k, n) && j >= 16 {
      var h := if j < 32 then j - 16 else j - 32;
      assert Bit(v, h) == Bit(v, h + 16);
    }
  }
}
