/** What the byte memory means: reads after any history of mixed-width writes, and which
    sizes keep every accepted access inside the memory. */
module MemoryRuns {
  import opened Words
  import opened Memory

  /** A write of the low `w` bytes of `v` at `a`, accepted or not. */
  datatype WriteOp = WriteOp(a: word, w: width, v: word)

  function Perform(m: Mem, op: WriteOp): (m': Mem)
    ensures m'.size == m.size && m'.bigEndian == m.bigEndian
  {
    if Accepts(m.size, op.a, op.w) then Store(m, op.a, op.w, op.v) else m
  }

  function RunWrites(m: Mem, ops: seq<WriteOp>): (m': Mem)
    ensures m'.size == m.size && m'.bigEndian == m.bigEndian
  {
    if ops == [] then m else Perform(RunWrites(m, ops[..|ops| - 1]), ops[|ops| - 1])
  }

  /** The byte that the last accepted write covering address `x` put there. */
  function LastByte(m: Mem, ops: seq<WriteOp>, x: nat): byte
    requires x <= m.size
  {
    if ops == [] then m.data[x] else
      var op := ops[|ops| - 1];
      if Accepts(m.size, op.a, op.w) && op.a <= x < op.a + op.w
      then ByteOf(op.v, Place(m.bigEndian, op.w, x - op.a))
      else LastByte(m, ops[..|ops| - 1], x)
  }

  lemma {:induction false} BytesAreLastWritten(m: Mem, ops: seq<WriteOp>, x: nat)
    requires x <= m.size
    ensures RunWrites(m, ops).data[x] == LastByte(m, ops, x)
  {
    if ops != [] {
      BytesAreLastWritten(m, ops[..|ops| - 1], x);
    }
  }

  /** The last bytes written at the addresses of an access, least significant first. */
  function LastBytes(m: Mem, ops: seq<WriteOp>, a: word, w: width): (bytes: seq<byte>)
    requires a + w <= m.size + 1
  {
    seq(w, k requires 0 <= k < w => LastByte(m, ops, a + Place(m.bigEndian, w, k)))
  }

  /** After any history, an accepted read is the endianness-ordered composition of the last
      byte written at each of its addresses. */
  lemma ReadsComposeLastBytes(m: Mem, ops: seq<WriteOp>, a: word, w: width)
    requires Accepts(m.size, a, w)
    ensures a + w <= m.size + 1
    ensures Load(RunWrites(m, ops), a, w) == FromBytes(LastBytes(m, ops, a, w))
  {
    AcceptedFits(m.size, a, w);
    var bytes := Gather(RunWrites(m, ops), a, w);
    forall k: nat | k < w ensures bytes[k] == LastBytes(m, ops, a, w)[k] {
      ByteIsLast(m, ops, a, w, k);
    }
    assert bytes == LastBytes(m, ops, a, w);
  }

  lemma ByteIsLast(m: Mem, ops: seq<WriteOp>, a: word, w: width, k: nat)
    requires Accepts(m.size, a, w) && a + w <= m.size + 1 && k < w
    ensures Gather(RunWrites(m, ops), a, w)[k] == LastBytes(m, ops, a, w)[k]
  {
    BytesAreLastWritten(m, ops, a + Place(m.bigEndian, w, k));
  }

  /** Every accepted access of width `w` stays inside the memory exactly when `size` is not one
      less than a multiple of `w`; so byte accesses never have this guarantee, and sizes that are
      multiples of four give it to half-words and words. */
  lemma InRangeExactly(size: nat, w: width)
    requires 0 < size < 0x8000_0000
    ensures (forall a: word :: Accepts(size, a, w) ==> a + w <= size) <==> size % w != w - 1
  {
    if size % w == w - 1 {
      LastAccess(size, w);
    } else {
      forall a: word | Accepts(size, a, w) ensures a + w <= size {
        AcceptedFits(size, a, w);
        AlignedFits(size, a, w);
      }
    }
  }

  lemma LastAccess(size: nat, w: width)
    requires 0 < size < 0x8000_0000 && size % w == w - 1
    ensures Accepts(size, size - (w - 1), w)
  {
    LastAligned(size, w);
    AlignedAccess(size, size - (w - 1), w);
  }

  lemma LastAligned(size: nat, w: width)
    requires size % w == w - 1
    ensures w - 1 <= size && (size - (w - 1)) % w == 0
  {
    var q := size / w;
    assert size - (w - 1) == w * q;
    DivModUnique(w * q, w, q, 0);
  }

  lemma AlignedAccess(size: nat, a: word, w: width)
    requires a % w == 0 && a + w <= size + 1 <= 0x8000_0000
    ensures Accepts(size, a, w)
  {
    assert Pow2(2) == 4;
  }

  lemma AlignedFits(size: nat, a: nat, w: width)
    requires a % w == 0 && a + w <= size + 1 && size % w != w - 1
    ensures a + w <= size
  {
    if w == 1 {
    } else if w == 2 {
    } else {
      assert (a + 3) % 4 == 3;
    }
  }

  lemma BytesRebuild(v: word)
    ensures v == ByteOf(v, 0) + 0x100 * (ByteOf(v, 1) as int) + 0x1_0000 * (ByteOf(v, 2) as int)
                 + 0x100_0000 * (ByteOf(v, 3) as int)
    ensures v % 0x1_0000 == ByteOf(v, 0) + 0x100 * (ByteOf(v, 1) as int)
  {
    ByteOne(v);
    ByteTwo(v);
    ByteThree(v);
    Digits(v);
    assert v / 0x100 / 0x100 / 0x100 < 0x100;
  }

  lemma ByteOne(v: word)
    ensures ByteOf(v, 1) == v / 0x100 % 0x100
  {
    assert ByteOf(v, 1) == ByteOf(v / 0x100, 0);
  }

  lemma ByteTwo(v: word)
    ensures ByteOf(v, 2) == v / 0x100 / 0x100 % 0x100
  {
    assert ByteOf(v, 2) == ByteOf(v / 0x100, 1);
    ByteOne(v / 0x100);
  }

  lemma ByteThree(v: word)
    ensures ByteOf(v, 3) == v / 0x100 / 0x100 / 0x100 % 0x100
  {
    assert ByteOf(v, 3) == ByteOf(v / 0x100, 2);
    ByteTwo(v / 0x100);
  }

  lemma Digits(v: word)
    ensures v == v % 0x100 + 0x100 * (v / 0x100 % 0x100) + 0x1_0000 * (v / 0x100 / 0x100 % 0x100)
                 + 0x100_0000 * (v / 0x100 / 0x100 / 0x100)
    ensures v % 0x1_0000 == v % 0x100 + 0x100 * (v / 0x100 % 0x100)
  {
  }

  lemma GatherStored(m: Mem, a: word, w: width, v: word)
    requires Accepts(m.size, a, w)
    ensures forall k: nat :: k < w ==> Gather(Store(m, a, w, v), a, w)[k] == ByteOf(v, k)
  {
    AcceptedFits(m.size, a, w);
    forall k: nat | k < w ensures Gather(Store(m, a, w, v), a, w)[k] == ByteOf(v, k) {
      assert Place(m.bigEndian, w, Place(m.bigEndian, w, k)) == k;
    }
  }

  lemma LowBytes(bytes: seq<byte>, w: width, v: word)
    requires |bytes| == w && forall k: nat :: k < w ==> bytes[k] == ByteOf(v, k)
    ensures FromBytes(bytes) == v % Pow2(8 * w)
  {
    FromBytesBound(bytes);
    BytesRebuild(v);
    PowValues();
    if w == 1 {
      assert v % Pow2(8) == v % 0x100 == ByteOf(v, 0);
    } else if w == 2 {
      assert v % Pow2(16) == v % 0x1_0000;
    } else {
      assert v % Pow2(32) == v;
    }
  }

  /** Reading back what was just written, in either byte order. */
  lemma StoreLoad(m: Mem, a: word, w: width, v: word)
    requires Accepts(m.size, a, w)
    ensures Load(Store(m, a, w, v), a, w) == v % Pow2(8 * w)
  {
    var bytes := Gather(Store(m, a, w, v), a, w);
    GatherStored(m, a, w, v);
    LowBytes(bytes, w, v);
  }

  /** A write leaves every disjoint access alone. */
  lemma StoreElsewhere(m: Mem, a: word, w: width, v: word, b: word, u: width)
    requires Accepts(m.size, a, w) && Accepts(m.size, b, u)
    requires b + u <= a || a + w <= b
    ensures Load(Store(m, a, w, v), b, u) == Load(m, b, u)
  {
    AcceptedFits(m.size, b, u);
    forall x: nat | b <= x < b + u ensures Store(m, a, w, v).data[x] == m.data[x] {
      ByteElsewhere(m, a, w, v, x);
    }
    SameBytes(m, Store(m, a, w, v), b, u);
  }

  /** Memories with the same bytes at an access read the same there. */
  lemma SameBytes(m: Mem, m': Mem, b: word, u: width)
    requires Accepts(m.size, b, u) && m'.size == m.size && m'.bigEndian == m.bigEndian
    requires b + u <= m.size + 1 && forall x: nat :: b <= x < b + u ==> m'.data[x] == m.data[x]
    ensures Load(m', b, u) == Load(m, b, u)
  {
    assert Gather(m', b, u) == Gather(m, b, u);
  }

  /** A write leaves every byte outside its own alone. */
  lemma ByteElsewhere(m: Mem, a: word, w: width, v: word, x: nat)
    requires Accepts(m.size, a, w) && x <= m.size && !(a <= x < a + w)
    ensures Store(m, a, w, v).data[x] == m.data[x]
  {
  }
}
