/** Unsigned machine words and the bit-level helpers of util.c.

    A C `uint32_t` is an integer in [0, 2^32); every wrap-around is written out.
 */
module Words {

  type bit = x: int | 0 <= x <= 1
  type byte = x: int | 0 <= x < 0x100
  type half = x: int | 0 <= x < 0x1_0000
  type word = x: int | 0 <= x < 0x1_0000_0000

  /** The value a `uint32_t` holds after an operation whose exact result is `x`. */
  function Wrap(x: int): word {
    x % 0x1_0000_0000
  }

  /** The two's-complement reading of a word. */
  function Signed(x: word): int {
    if x < 0x8000_0000 then x else x - 0x1_0000_0000
  }

  function Pow2(n: nat): (p: int)
    ensures p > 0
  {
    if n == 0 then 1 else 2 * Pow2(n - 1)
  }

  lemma PowValues()
    ensures Pow2(8) == 0x100 && Pow2(16) == 0x1_0000 && Pow2(24) == 0x100_0000
    ensures Pow2(28) == 0x1000_0000 && Pow2(31) == 0x8000_0000 && Pow2(32) == 0x1_0000_0000
  {
    assert Pow2(8) == 0x100;
    assert Pow2(16) == 0x1_0000;
    assert Pow2(24) == 0x100_0000;
  }

  /** `x >> k` on an unsigned word: halved `k` times. */
  function Shr(x: nat, k: nat): (r: nat)
    ensures r <= x
  {
    if k == 0 then x else Shr(x / 2, k - 1)
  }

  /** `x << k` on an unsigned word. */
  function Shl(x: word, k: nat): word {
    Wrap(x * Pow2(k))
  }

  /** `get_bit(x, i)` */
  function Bit(x: nat, i: nat): bit {
    if i == 0 then x % 2 else Bit(x / 2, i - 1)
  }

  /** `get_bits(x, h, l)` */
  function Bits(x: word, h: nat, l: nat): (r: nat)
    requires l <= h < 32
    ensures r < Pow2(h - l + 1)
  {
    Shr(x, l) % Pow2(h - l + 1)
  }

  // ---- bitwise operators -------------------------------------------------

  datatype BitOperator = AND | OR | XOR

  function OnBits(op: BitOperator, x: bit, y: bit): bit {
    match op
    case AND => if x == 1 && y == 1 then 1 else 0
    case OR => if x == 1 || y == 1 then 1 else 0
    case XOR => if x != y then 1 else 0
  }

  /** The low `n` bits of `x op y`, computed bit by bit. */
  function Bitwise(op: BitOperator, x: nat, y: nat, n: nat): nat
    decreases op, x, y, n
  {
    if n == 0 then 0 else 2 * Bitwise(op, x / 2, y / 2, n - 1) + OnBits(op, x % 2, y % 2)
  }

  lemma {:induction false} BitwiseBound(op: BitOperator, x: nat, y: nat, n: nat)
    ensures Bitwise(op, x, y, n) < Pow2(n)
    decreases n
  {
    if n > 0 {
      BitwiseBound(op, x / 2, y / 2, n - 1);
    }
  }

  function And(x: word, y: word): word {
    BitwiseBound(AND, x, y, 32);
    PowValues();
    Bitwise(AND, x, y, 32)
  }

  function Or(x: word, y: word): word {
    BitwiseBound(OR, x, y, 32);
    PowValues();
    Bitwise(OR, x, y, 32)
  }

  function Xor(x: word, y: word): word {
    BitwiseBound(XOR, x, y, 32);
    PowValues();
    Bitwise(XOR, x, y, 32)
  }

  function Not(x: word): word {
    0xFFFF_FFFF - x
  }

  /** `asr` of util.c. A shift count of 32, which C leaves undefined, is taken modulo 32. */
  function Asr(value: word, shift: nat): word
    requires shift < 32
  {
    Or(Shr(value, shift), if Bit(value, 31) == 1 then Shl(0xFFFF_FFFF, (32 - shift) % 32) else 0)
  }

  /** `ror` of util.c, with the same reading of a shift count of 32. */
  function Ror(value: word, rotation: nat): word
    requires rotation < 32
  {
    Or(Shr(value, rotation), Shl(value, (32 - rotation) % 32))
  }

  // ---- single bits -------------------------------------------------------

  lemma {:induction false} BitwiseBit(op: BitOperator, x: nat, y: nat, n: nat, i: nat)
    requires i < n
    ensures Bit(Bitwise(op, x, y, n), i) == OnBits(op, Bit(x, i), Bit(y, i))
    decreases n
  {
    if i > 0 {
      BitwiseBit(op, x / 2, y / 2, n - 1, i - 1);
    }
  }

  /** Words with the same bits are equal. */
  lemma {:induction false} SameBits(x: nat, y: nat, n: nat)
    requires x < Pow2(n) && y < Pow2(n)
    requires forall i: nat :: i < n ==> Bit(x, i) == Bit(y, i)
    ensures x == y
  {
    if n > 0 {
      forall i: nat | i < n - 1 ensures Bit(x / 2, i) == Bit(y / 2, i) {
        assert Bit(x, i + 1) == Bit(y, i + 1);
      }
      SameBits(x / 2, y / 2, n - 1);
      assert Bit(x, 0) == Bit(y, 0);
    }
  }

  lemma {:induction false} NotBit(x: nat, n: nat, i: nat)
    requires i < n && x < Pow2(n)
    ensures Bit(Pow2(n) - 1 - x, i) == 1 - Bit(x, i)
    decreases n
  {
    if i > 0 {
      NotBit(x / 2, n - 1, i - 1);
    }
  }

  /** Bits above the width of a number are clear. */
  lemma {:induction false} HighBits(x: nat, n: nat, i: nat)
    requires x < Pow2(n) && n <= i
    ensures Bit(x, i) == 0
  {
    if n > 0 {
      HighBits(x / 2, n - 1, i - 1);
    } else if i > 0 {
      HighBits(0, 0, i - 1);
    }
  }

  /** Numbers equal modulo `2^n` agree on their low `n` bits. */
  lemma {:induction false} LowBits(x: nat, y: nat, n: nat, i: nat)
    requires i < n && x % Pow2(n) == y % Pow2(n)
    ensures Bit(x, i) == Bit(y, i)
    decreases n
  {
    HalfMod(x, Pow2(n - 1));
    HalfMod(y, Pow2(n - 1));
    if i > 0 {
      LowBits(x / 2, y / 2, n - 1, i - 1);
    }
  }

  /** Numbers that agree on their low `n` bits are equal modulo `2^n`. */
  lemma {:induction false} SameLowBits(x: nat, y: nat, n: nat)
    requires forall i: nat :: i < n ==> Bit(x, i) == Bit(y, i)
    ensures x % Pow2(n) == y % Pow2(n)
  {
    if n > 0 {
      forall i: nat | i < n - 1 ensures Bit(x / 2, i) == Bit(y / 2, i) {
        assert Bit(x, i + 1) == Bit(y, i + 1);
      }
      SameLowBits(x / 2, y / 2, n - 1);
      assert Bit(x, 0) == Bit(y, 0);
      HalfMod(x, Pow2(n - 1));
      HalfMod(y, Pow2(n - 1));
    }
  }

  lemma HalfMod(x: nat, p: int)
    requires p > 0
    ensures x % (2 * p) % 2 == x % 2
    ensures (x / 2) % p == x % (2 * p) / 2
    ensures (x / 2) / p == x / (2 * p)
  {
    var q, r := x / (2 * p), x % (2 * p);
    assert x == 2 * (p * q) + r;
    assert x / 2 == p * q + r / 2;
    DivModUnique(x / 2, p, q, r / 2);
  }

  lemma DivModUnique(x: int, p: int, q: int, r: int)
    requires p > 0 && 0 <= r < p && x == p * q + r
    ensures x / p == q && x % p == r
  {
    var d := x / p - q;
    assert p * d == r - x % p by {
      assert p * d == p * (x / p) - p * q;
    }
    assert d >= 1 ==> p * d >= p;
    assert d <= -1 ==> p * d <= -p;
  }

  /** A multiple of `p` moves the quotient by `p` and leaves the remainder alone. */
  lemma LinearParts(p: int, k: int, x: int)
    requires p > 0
    ensures (p * k + x) / p == k + x / p && (p * k + x) % p == x % p
  {
    var q := x / p;
    assert p * (k + q) == p * k + p * q;
    DivModUnique(p * k + x, p, k + q, x % p);
  }

  /** Shifting right is dividing by a power of two. */
  lemma {:induction false} ShrIsQuotient(x: nat, k: nat)
    ensures Shr(x, k) == x / Pow2(k)
  {
    if k > 0 {
      ShrIsQuotient(x / 2, k - 1);
      HalfMod(x, Pow2(k - 1));
    }
  }

  lemma {:induction false} ShrShr(x: nat, a: nat, b: nat)
    ensures Shr(x, a + b) == Shr(Shr(x, a), b)
  {
    if a > 0 {
      ShrShr(x / 2, a - 1, b);
      assert Shr(x, a + b) == Shr(x / 2, a - 1 + b);
    }
  }

  lemma {:induction false} BitShift(x: nat, k: nat, i: nat)
    ensures Bit(x, k + i) == Bit(Shr(x, k), i)
  {
    if k > 0 {
      BitShift(x / 2, k - 1, i);
      assert Bit(x, k + i) == Bit(x / 2, k - 1 + i);
    }
  }

  /** The sign bit. */
  lemma TopBit(x: word)
    ensures Bit(x, 31) == if x < 0x8000_0000 then 0 else 1
  {
    BitShift(x, 31, 0);
    ShrIsQuotient(x, 31);
    PowValues();
  }

  /** Or-ing words that share no bit adds them. */
  lemma {:induction false} OrDisjoint(x: nat, y: nat, k: nat, n: nat)
    requires k <= n && x < Pow2(n) && y < Pow2(k) && x % Pow2(k) == 0
    ensures Bitwise(OR, x, y, n) == x + y
    decreases n
  {
    if n > 0 {
      if k == 0 {
        OrDisjoint(x / 2, 0, 0, n - 1);
      } else {
        HalfMod(x, Pow2(k - 1));
        OrDisjoint(x / 2, y / 2, k - 1, n - 1);
      }
    }
  }

  lemma OrHighLow(low: word, high: word, k: nat)
    requires k <= 32 && low < Pow2(k) && high % Pow2(k) == 0
    ensures Or(low, high) == low + high
  {
    WordBound(high);
    OrDisjoint(high, low, k, 32);
    OrCommutes(low, high, 32);
  }

  lemma WordBound(v: word)
    ensures v < Pow2(32)
  {
    PowValues();
  }

  lemma {:induction false} OrSame(x: nat, n: nat)
    requires x < Pow2(n)
    ensures Bitwise(OR, x, x, n) == x
  {
    if n > 0 {
      OrSame(x / 2, n - 1);
    }
  }

  lemma OrCommutes(x: nat, y: nat, n: nat)
    ensures Bitwise(OR, x, y, n) == Bitwise(OR, y, x, n)
    decreases n
  {
    if n > 0 {
      OrCommutes(x / 2, y / 2, n - 1);
    }
  }

  lemma {:induction false} ZeroBit(i: nat)
    ensures Bit(0, i) == 0
  {
    if i > 0 {
      ZeroBit(i - 1);
    }
  }
}
