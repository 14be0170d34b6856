/** The byte memory of memory.c, with aligned byte, half-word and word accesses in either
    byte order. */
module Memory {
  import opened Words

  /** A memory as a value.

      The bounds tests of the source accept one byte address too many: `address == size`. The cell
      `data[size]` stands for the byte that such an access reaches. */
  datatype MemoryValue = MemoryValue(bigEndian: bool, size: nat, data: seq<byte>) {
    predicate Sized() {
      0 < size < 0x8000_0000 && |data| == size + 1
    }
  }

  type Mem = m: MemoryValue | m.Sized() witness MemoryValue(false, 1, [0, 0])

  /** Access widths in bytes. */
  type width = w: int | w == 1 || w == 2 || w == 4 witness 1

  /** The test each access makes: aligned, and its last byte not beyond `size`. */
  predicate Accepts(size: nat, a: word, w: width) {
    if w == 1 then a <= size
    else if w == 2 then Bit(a, 0) == 0 && Wrap(a + 1) <= size
    else Bits(a, 1, 0) == 0 && Wrap(a + 3) <= size
  }

  /** The place of byte `k` of a `w`-byte value, counted from its least significant byte. */
  function Place(bigEndian: bool, w: width, k: nat): nat
    requires k < w
  {
    if bigEndian then w - 1 - k else k
  }

  /** Byte `k` of a value. */
  function ByteOf(v: word, k: nat): byte {
    if k == 0 then v % 0x100 else ByteOf(v / 0x100, k - 1)
  }

  /** The number whose little-endian digits are `bytes`. */
  function FromBytes(bytes: seq<byte>): nat {
    if bytes == [] then 0 else bytes[0] + 0x100 * FromBytes(bytes[1..])
  }

  lemma AcceptedFits(size: nat, a: word, w: width)
    requires 0 < size < 0x8000_0000 && Accepts(size, a, w)
    ensures a % w == 0 && a + w <= size + 1
  {
    assert Pow2(2) == 4;
  }

  /** The bytes of an access, least significant first. */
  function Gather(m: Mem, a: word, w: width): (bytes: seq<byte>)
    requires Accepts(m.size, a, w)
    ensures |bytes| == w
  {
    AcceptedFits(m.size, a, w);
    seq(w, k requires 0 <= k < w => m.data[a + Place(m.bigEndian, w, k)])
  }

  lemma FromBytesBound(bytes: seq<byte>)
    ensures |bytes| == 1 ==> FromBytes(bytes) == bytes[0] < 0x100
    ensures |bytes| == 2 ==> FromBytes(bytes) == bytes[0] + 0x100 * (bytes[1] as int) < 0x1_0000
    ensures |bytes| == 4 ==>
              FromBytes(bytes) == HighBytes(bytes, 4) < 0x1_0000_0000
  {
    if |bytes| == 4 {
      var t := bytes[1..];
      var u := t[1..];
      assert FromBytes(u) == u[0] + 0x100 * FromBytes(u[1..]);
      assert FromBytes(u[1..]) == u[1] + 0x100 * FromBytes(u[1..][1..]);
      assert t[0] == bytes[1] && u[0] == bytes[2] && u[1] == bytes[3];
    } else if |bytes| == 2 {
      assert FromBytes(bytes[1..]) == bytes[1] + 0x100 * FromBytes(bytes[1..][1..]);
    }
  }

  /** The value an accepted read returns. */
  function Load(m: Mem, a: word, w: width): word
    requires Accepts(m.size, a, w)
  {
    FromBytesBound(Gather(m, a, w));
    FromBytes(Gather(m, a, w))
  }

  /** The byte at `x` after such a write at `a`. */
  function StoredByte(m: Mem, a: word, w: width, v: word, x: nat): byte
    requires x <= m.size
  {
    if a <= x < a + w then ByteOf(v, Place(m.bigEndian, w, x - a)) else m.data[x]
  }

  /** The memory after an accepted write of the low `w` bytes of `v`. */
  function Store(m: Mem, a: word, w: width, v: word): (m': Mem)
    requires Accepts(m.size, a, w)
    ensures m'.size == m.size && m'.bigEndian == m.bigEndian
  {
    m.(data := seq(m.size + 1, x requires 0 <= x <= m.size => StoredByte(m, a, w, v, x)))
  }

  // ---- the object --------------------------------------------------------

  /** `struct memory_data` */
  class MemoryArray {
    const isBigEndian: bool
    const size: nat
    const data: array<byte>

    predicate Valid() {
      0 < size < 0x8000_0000 && data.Length == size + 1
    }

    ghost function Contents(): Mem
      requires Valid()
      reads data
    {
      MemoryValue(isBigEndian, size, data[..])
    }

    constructor (size: nat, isBigEndian: bool)
      requires 0 < size < 0x8000_0000
      ensures Valid() && fresh(data)
      ensures Contents() == MemoryValue(isBigEndian, size, seq(size + 1, _ => 0))
    {
      this.size := size;
      this.isBigEndian := isBigEndian;
      data := new byte[size + 1](_ => 0);
    }

    method ReadByte(address: word) returns (ok: bool, value: byte)
      requires Valid()
      ensures ok == Accepts(size, address, 1)
      ensures ok ==> value == Load(Contents(), address, 1)
    {
      if address > size {
        return false, 0;
      }
      value := data[address];
      FromBytesBound(Gather(Contents(), address, 1));
      return true, value;
    }

    method ReadHalf(address: word) returns (ok: bool, value: half)
      requires Valid()
      ensures ok == Accepts(size, address, 2)
      ensures ok ==> value == Load(Contents(), address, 2)
    {
      if Bit(address, 0) != 0 || Wrap(address + 1) > size {
        return false, 0;
      }
      AcceptedFits(size, address, 2);
      FromBytesBound(Gather(Contents(), address, 2));
      if isBigEndian {
        value := (data[address] as int) * 0x100 + data[address + 1];
      } else {
        value := (data[address + 1] as int) * 0x100 + data[address];
      }
      return true, value;
    }

    method ReadWord(address: word) returns (ok: bool, value: word)
      requires Valid()
      ensures ok == Accepts(size, address, 4)
      ensures ok ==> value == Load(Contents(), address, 4)
    {
      if Bits(address, 1, 0) != 0 || Wrap(address + 3) > size {
        return false, 0;
      }
      AcceptedFits(size, address, 4);
      ghost var bytes := Gather(Contents(), address, 4);
      PowValues();
      value := 0;
      for i := 0 to 4
        invariant value == HighBytes(bytes, i)
      {
        var b := if isBigEndian then data[address + i] else data[address + (3 - i)];
        assert b == bytes[3 - i];
        OrByte(bytes, i);
        value := Or(value, Shl(b, 24 - i * 8));
      }
      FromBytesBound(bytes);
      return true, value;
    }

    method WriteByte(address: word, value: byte) returns (ok: bool)
      requires Valid()
      modifies data
      ensures ok == Accepts(size, address, 1)
      ensures Contents() == if ok then Store(old(Contents()), address, 1, value) else old(Contents())
    {
      if address > size {
        return false;
      }
      data[address] := value;
      assert ByteOf(value, 0) == value;
      assert data[..] == Store(old(Contents()), address, 1, value).data;
      return true;
    }

    method WriteHalf(address: word, value: half) returns (ok: bool)
      requires Valid()
      modifies data
      ensures ok == Accepts(size, address, 2)
      ensures Contents() == if ok then Store(old(Contents()), address, 2, value) else old(Contents())
    {
      if Bit(address, 0) != 0 || Wrap(address + 1) > size {
        return false;
      }
      AcceptedFits(size, address, 2);
      ByteValues(value);
      if isBigEndian {
        data[address] := Shr(value, 8) % 0x100;
        data[address + 1] := value % 0x100;
      } else {
        data[address + 1] := Shr(value, 8) % 0x100;
        data[address] := value % 0x100;
      }
      assert data[..] == Store(old(Contents()), address, 2, value).data;
      return true;
    }

    method WriteWord(address: word, value: word) returns (ok: bool)
      requires Valid()
      modifies data
      ensures ok == Accepts(size, address, 4)
      ensures Contents() == if ok then Store(old(Contents()), address, 4, value) else old(Contents())
    {
      if Bits(address, 1, 0) != 0 || Wrap(address + 3) > size {
        return false;
      }
      AcceptedFits(size, address, 4);
      ByteValues(value);
      for i := 0 to 4
        invariant forall x :: 0 <= x <= size ==>
          data[x] == if address <= x < address + 4 && (if isBigEndian then x < address + i else x > address + 3 - i)
                     then ByteOf(value, Place(isBigEndian, 4, x - address))
                     else old(data[x])
      {
        if isBigEndian {
          data[address + i] := Shr(value, 24 - i * 8) % 0x100;
        } else {
          data[address + (3 - i)] := Shr(value, 24 - i * 8) % 0x100;
        }
      }
      assert data[..] == Store(old(Contents()), address, 4, value).data;
      return true;
    }
  }

  // ---- facts the loops rest on -------------------------------------------

  /** The bytes the word-reading loop has merged after `i` rounds. */
  ghost function HighBytes(bytes: seq<byte>, i: nat): word
    requires |bytes| == 4 && i <= 4
  {
    (if i > 0 then (bytes[3] as int) * 0x100_0000 else 0)
    + (if i > 1 then (bytes[2] as int) * 0x1_0000 else 0)
    + (if i > 2 then (bytes[1] as int) * 0x100 else 0)
    + (if i > 3 then bytes[0] else 0)
  }

  lemma ShlByte(b: byte)
    ensures Shl(b, 24) == b * 0x100_0000 && Shl(b, 16) == b * 0x1_0000
    ensures Shl(b, 8) == b * 0x100 && Shl(b, 0) == b
  {
    PowValues();
    ShlBy(b, 24, 0x100_0000);
    ShlBy(b, 16, 0x1_0000);
    ShlBy(b, 8, 0x100);
    ShlBy(b, 0, 1);
  }

  lemma ShlBy(b: byte, k: nat, p: int)
    requires Pow2(k) == p && (b as int) * p < 0x1_0000_0000
    ensures Shl(b, k) == b * p
  {
    assert 0 <= b * p;
  }

  lemma OrByte(bytes: seq<byte>, i: nat)
    requires |bytes| == 4 && i < 4
    ensures Or(HighBytes(bytes, i), Shl(bytes[3 - i], 24 - i * 8)) == HighBytes(bytes, i + 1)
  {
    ShlByte(bytes[3 - i]);
    PowValues();
    if i == 0 {
      OrZeroByte((bytes[3] as int) * 0x100_0000);
    } else if i == 1 {
      OrBelow(HighBytes(bytes, 1), (bytes[2] as int) * 0x1_0000, 24, 0x100_0000);
    } else if i == 2 {
      OrBelow(HighBytes(bytes, 2), (bytes[1] as int) * 0x100, 16, 0x1_0000);
    } else {
      OrBelow(HighBytes(bytes, 3), bytes[0], 8, 0x100);
    }
  }

  lemma OrZeroByte(y: word)
    ensures Or(0, y) == y
  {
    WordBound(y);
    OrDisjoint(0, y, 32, 32);
  }

  lemma OrBelow(x: word, y: word, k: nat, p: nat)
    requires k <= 32 && p == Pow2(k) && y < p && x % p == 0
    ensures Or(x, y) == x + y
  {
    WordBound(x);
    OrDisjoint(x, y, k, 32);
  }

  lemma {:induction false} ByteIsShift(v: word, k: nat)
    ensures ByteOf(v, k) == Shr(v, 8 * k) % 0x100
  {
    if k > 0 {
      ByteIsShift(v / 0x100, k - 1);
      ShrShr(v, 8, 8 * (k - 1));
      ShrIsQuotient(v, 8);
      PowValues();
    }
  }

  lemma ByteValues(v: word)
    ensures forall k: nat :: k < 4 ==> ByteOf(v, k) == Shr(v, 8 * k) % 0x100
  {
    forall k: nat | k < 4 ensures ByteOf(v, k) == Shr(v, 8 * k) % 0x100 {
      ByteIsShift(v, k);
    }
  }
}
