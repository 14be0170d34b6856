/** The byte order of memory.c, by the cells of the array: what an access reads and leaves in each. */
module ByteOrder {
  import opened Words
  import opened Memory
  import opened MemoryRuns

  /** An access is accepted exactly when it is aligned and its last byte is not beyond `size`. */
  lemma AcceptsExactly(size: nat, a: word, w: width)
    requires 0 < size < 0x8000_0000
    ensures Accepts(size, a, w) <==> a % w == 0 && a + w <= size + 1
  {
    if Accepts(size, a, w) {
      AcceptedFits(size, a, w);
    }
    if a % w == 0 && a + w <= size + 1 {
      AlignedAccess(size, a, w);
    }
  }

  // ---- reads -------------------------------------------------------------

  lemma ByteRead(m: Mem, a: word)
    requires Accepts(m.size, a, 1)
    ensures Load(m, a, 1) == m.data[a]
  {
    FromBytesBound(Gather(m, a, 1));
  }

  /** The most significant byte of a half-word comes first in a big-endian memory, last in the other. */
  lemma HalfRead(m: Mem, a: word)
    requires Accepts(m.size, a, 2)
    ensures a + 1 <= m.size
    ensures Load(m, a, 2) == if m.bigEndian then (m.data[a] as int) * 0x100 + m.data[a + 1]
                             else (m.data[a + 1] as int) * 0x100 + m.data[a]
  {
    AcceptedFits(m.size, a, 2);
    FromBytesBound(Gather(m, a, 2));
  }

  /** The same of words. */
  lemma WordRead(m: Mem, a: word)
    requires Accepts(m.size, a, 4)
    ensures a + 3 <= m.size
    ensures Load(m, a, 4) == if m.bigEndian then BigEnd(m.data[a], m.data[a + 1], m.data[a + 2], m.data[a + 3])
                             else BigEnd(m.data[a + 3], m.data[a + 2], m.data[a + 1], m.data[a])
  {
    AcceptedFits(m.size, a, 4);
    var bytes := Gather(m, a, 4);
    FromBytesBound(bytes);
  }

  /** The word with the given bytes, the most significant first. */
  function BigEnd(b3: byte, b2: byte, b1: byte, b0: byte): int {
    (b3 as int) * 0x100_0000 + (b2 as int) * 0x1_0000 + (b1 as int) * 0x100 + b0
  }

  // ---- writes ------------------------------------------------------------

  /** What a write of one, two or four bytes leaves in its cells: in little-endian order the cell at
      `a + k` holds byte `k` of the value, in big-endian order the cell at `a + w - 1 - k` does. */
  lemma StoredBytes(m: Mem, a: word, w: width, v: word, k: nat)
    requires Accepts(m.size, a, w) && k < w
    ensures a + w <= m.size + 1
    ensures Store(m, a, w, v).data[if m.bigEndian then a + (w - 1 - k) else a + k] == v / Pow2(8 * k) % 0x100
  {
    AcceptedFits(m.size, a, w);
    ByteIsShift(v, k);
    ShrIsQuotient(v, 8 * k);
  }

  /** The bytes read back one by one after a word was written. */
  lemma WordThenBytes(m: Mem, a: word, v: word, k: nat)
    requires Accepts(m.size, a, 4) && k < 4
    ensures a + k <= m.size && Accepts(m.size, a + k, 1)
    ensures Load(Store(m, a, 4, v), a + k, 1) == v / Pow2(if m.bigEndian then 24 - 8 * k else 8 * k) % 0x100
  {
    AcceptedFits(m.size, a, 4);
    ByteRead(Store(m, a, 4, v), a + k);
    StoredBytes(m, a, 4, v, if m.bigEndian then 3 - k else k);
  }
}
