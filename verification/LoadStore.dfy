/** Single and multiple loads and stores (arm_load_store.c). */
module LoadStore {
  import opened Words
  import opened Registers
  import opened Memory
  import opened Core
  import opened DataProcessing
  import opened Shifter

  // ---- single transfers --------------------------------------------------

  /** An address moved up or down by an offset. */
  function Displaced(base: word, offset: int, up: bool): word {
    if up then Wrap(base + offset) else Wrap(base - offset)
  }

  /** The offset of a word or byte transfer; none for media instructions. */
  function WordOffset(m: Machine, ins: word): Option<word> {
    if Bit(ins, 25) == 0 then
      PowTwelve();
      Some(Bits(ins, 11, 0))
    else if Bit(ins, 4) == 1 then None
    else
      assert Pow2(4) == 16 && Pow2(5) == 32;
      Some(ScaledOffset(Bits(ins, 6, 5), ReadReg(m, Bits(ins, 3, 0)), Bits(ins, 11, 7), CarryBit(m)))
  }

  lemma PowTwelve()
    ensures Pow2(12) == 0x1000
  {
    assert Pow2(8) == 0x100;
  }

  function ScaledOffset(shift: nat, rm: word, n: nat, c: bit): word
    requires n < 32
  {
    if shift == 0 then Shl(rm, n)
    else if shift == 1 then (if n == 0 then 0 else Shr(rm, n))
    else if shift == 2 then Asr(rm, n)
    else if n == 0 then RotateExtended(Shifted(rm, c)).value
    else Ror(rm, n)
  }

  /** The offset of a half-word transfer. */
  function HalfOffset(m: Machine, ins: word): word {
    assert Pow2(4) == 16;
    if Bit(ins, 22) == 1 then Bits(ins, 11, 8) * 16 + Bits(ins, 3, 0)
    else ReadReg(m, Bits(ins, 3, 0))
  }

  /** The low `w` bytes of a register. */
  function Truncated(v: word, w: width): word {
    if w == 1 then v % 0x100 else if w == 2 then v % 0x1_0000 else v
  }

  /** One memory access between register `rd` and address `a`; none if refused. */
  function Transfer(m: Machine, load: bool, w: width, rd: regno, a: word): Option<Machine> {
    if !Accepts(m.mem.size, a, w) then None
    else if load then Some(WriteReg(m, rd, Load(m.mem, a, w)))
    else Some(m.(mem := Store(m.mem, a, w, Truncated(ReadReg(m, rd), w))))
  }

  predicate PreIndexed(ins: word) {
    Bit(ins, 24) == 1
  }

  predicate Upwards(ins: word) {
    Bit(ins, 23) == 1
  }

  predicate WritesBack(ins: word) {
    Bit(ins, 21) == 1
  }

  predicate IsLoad(ins: word) {
    Bit(ins, 20) == 1
  }

  /** The base after a pre-indexed update, which precedes the access. */
  function PreUpdated(m: Machine, ins: word, offset: word): Machine {
    if PreIndexed(ins) && WritesBack(ins)
    then WriteReg(m, Rn(ins), Displaced(ReadReg(m, Rn(ins)), offset, Upwards(ins)))
    else m
  }

  /** A transfer of `w` bytes. Post-indexed word and byte transfers with the W bit (the T forms)
      are refused after the access. */
  function SingleTransfer(m: Machine, ins: word, load: bool, w: width, offset: word): Effect {
    var base := ReadReg(m, Rn(ins));
    var moved := Displaced(base, offset, Upwards(ins));
    var m1 := PreUpdated(m, ins, offset);
    match Transfer(m1, load, w, Rd(ins), if PreIndexed(ins) then moved else base)
    case None => Effect(m1, Returned(DATA_ABORT))
    case Some(m2) =>
      if PreIndexed(ins) then Effect(m2, DONE)
      else if WritesBack(ins) && w != 2 then Effect(m2, Returned(UNDEFINED_INSTRUCTION))
      else Effect(WriteReg(m2, Rn(ins), moved), DONE)
  }

  /** Half-word and signed transfers. */
  predicate IsHalfForm(ins: word) {
    Bits(ins, 27, 25) == 0 && Bit(ins, 7) == 1 && Bit(ins, 4) == 1 && Bits(ins, 31, 28) != 15
    && !(!PreIndexed(ins) && Bits(ins, 6, 5) == 0)
  }

  function LoadStoreSingle(m: Machine, ins: word): Effect {
    if Bits(ins, 27, 26) == 1 then
      match WordOffset(m, ins)
      case None => Effect(m, Returned(UNDEFINED_INSTRUCTION))
      case Some(offset) => SingleTransfer(m, ins, IsLoad(ins), if Bit(ins, 22) == 1 then 1 else 4, offset)
    else if IsHalfForm(ins) then
      if Bits(ins, 6, 5) == 1 then SingleTransfer(m, ins, IsLoad(ins), 2, HalfOffset(m, ins))
      else Effect(PreUpdated(m, ins, HalfOffset(m, ins)), Returned(UNDEFINED_INSTRUCTION))
    else Effect(m, Returned(UNDEFINED_INSTRUCTION))
  }

  // ---- multiple transfers ------------------------------------------------

  /** The registers of a list numbered below `r`, in ascending order. */
  function ListedBelow(list: nat, r: nat): (s: seq<regno>)
    requires r <= 16
  {
    if r == 0 then []
    else ListedBelow(list, r - 1) + (if Bit(list, r - 1) == 1 then [r - 1] else [])
  }

  function Listed(ins: word): seq<regno> {
    ListedBelow(Bits(ins, 15, 0), 16)
  }

  /** The address of transfer `k`: they step by four from `start`, up or down. */
  function AddressOf(start: word, up: bool, k: nat): word {
    Displaced(start, 4 * k, up)
  }

  /** The first transfer is one word off the base in the "before" modes. */
  function StartAddress(m: Machine, ins: word): word {
    if PreIndexed(ins) then Displaced(ReadReg(m, Rn(ins)), 4, Upwards(ins)) else ReadReg(m, Rn(ins))
  }

  /** How many of the first `n` addresses precede the first refused one. */
  function AcceptedCount(size: nat, start: word, up: bool, n: nat): (k: nat)
    ensures k <= n
  {
    if n == 0 then 0 else
      var k := AcceptedCount(size, start, up, n - 1);
      if k == n - 1 && Accepts(size, AddressOf(start, up, n - 1), 4) then n else k
  }

  function StoreOne(m: Machine, r: regno, a: word): Machine {
    if Accepts(m.mem.size, a, 4) then m.(mem := Store(m.mem, a, 4, ReadReg(m, r))) else m
  }

  /** A loaded R15 has bit 0 cleared. */
  function LoadedValue(r: regno, v: word): word {
    if r == 15 then v - v % 2 else v
  }

  function LoadOne(m: Machine, r: regno, a: word): Machine {
    if Accepts(m.mem.size, a, 4) then WriteReg(m, r, LoadedValue(r, Load(m.mem, a, 4))) else m
  }

  /** The machine after the first `k` transfers. */
  function Transferred(m: Machine, load: bool, regs: seq<regno>, start: word, up: bool, k: nat): Machine
    requires k <= |regs|
  {
    if k == 0 then m else
      var m' := Transferred(m, load, regs, start, up, k - 1);
      var a := AddressOf(start, up, k - 1);
      if load then LoadOne(m', regs[k - 1], a) else StoreOne(m', regs[k - 1], a)
  }

  function LoadStoreMultiple(m: Machine, ins: word): Effect {
    if Bit(ins, 22) == 1 then Effect(m, Returned(UNDEFINED_INSTRUCTION)) else
      var regs, start, up := Listed(ins), StartAddress(m, ins), Upwards(ins);
      var k := AcceptedCount(m.mem.size, start, up, |regs|);
      var m' := Transferred(m, IsLoad(ins), regs, start, up, k);
      if k < |regs| then Effect(m', Returned(DATA_ABORT))
      else if WritesBack(ins) then
        Effect(WriteReg(m', Rn(ins), Displaced(ReadReg(m, Rn(ins)), 4 * |regs|, up)), DONE)
      else Effect(m', DONE)
  }

  // ---- facts the loops rest on -------------------------------------------

  lemma {:induction false} ListedPrefix(list: nat, r: nat, q: nat)
    requires r <= q <= 16
    ensures ListedBelow(list, r) <= ListedBelow(list, q)
    decreases q
  {
    if r < q {
      ListedPrefix(list, r, q - 1);
    }
  }

  /** Register `r` follows the listed registers below it. */
  lemma ListedNext(list: nat, r: nat)
    requires r < 16 && Bit(list, r) == 1
    ensures var k := |ListedBelow(list, r)|; k < |ListedBelow(list, 16)| && ListedBelow(list, 16)[k] == r
  {
    ListedPrefix(list, r + 1, 16);
    assert ListedBelow(list, r + 1) == ListedBelow(list, r) + [r];
  }

  lemma {:induction false} AcceptedStops(size: nat, start: word, up: bool, k: nat, n: nat)
    requires k < n && AcceptedCount(size, start, up, k) == k && !Accepts(size, AddressOf(start, up, k), 4)
    ensures AcceptedCount(size, start, up, n) == k
    decreases n
  {
    if k + 1 < n {
      AcceptedStops(size, start, up, k, n - 1);
    }
  }

  lemma NextAddress(start: word, up: bool, k: nat)
    ensures AddressOf(start, up, 0) == start
    ensures AddressOf(start, up, k + 1) == Displaced(AddressOf(start, up, k), 4, up)
  {
    DisplacedTwice(start, 4 * k, 4, up);
  }

  lemma TransferGrows(m: Machine, load: bool, regs: seq<regno>, start: word, up: bool, k: nat)
    requires k < |regs|
    ensures var m', a := Transferred(m, load, regs, start, up, k), AddressOf(start, up, k);
            Transferred(m, load, regs, start, up, k + 1)
            == if load then LoadOne(m', regs[k], a) else StoreOne(m', regs[k], a)
  {
  }

  lemma AcceptedGrows(size: nat, start: word, up: bool, k: nat)
    requires AcceptedCount(size, start, up, k) == k && Accepts(size, AddressOf(start, up, k), 4)
    ensures AcceptedCount(size, start, up, k + 1) == k + 1
  {
  }

  /** Undoing the extra step of the "before" modes: writeback moves the base by the transfers. */
  lemma WritebackAddress(base: word, before: bool, up: bool, n: nat)
    ensures var start := if before then Displaced(base, 4, up) else base;
            var last := AddressOf(start, up, n);
            (if before then Displaced(last, 4, !up) else last) == Displaced(base, 4 * n, up)
  {
    if before {
      DisplacedTwice(base, 4, 4 * n, up);
      DisplacedBack(base, 4 * n, 4, up);
    }
  }

  lemma WrapSum(x: int, y: int)
    ensures Wrap(Wrap(x) + y) == Wrap(x + y)
  {
  }

  lemma DisplacedTwice(base: word, i: int, j: int, up: bool)
    ensures Displaced(Displaced(base, i, up), j, up) == Displaced(base, i + j, up)
  {
    if up {
      WrapSum(base + i, j);
    } else {
      WrapSum(base - i, -j);
    }
  }

  lemma DisplacedBack(base: word, i: int, j: int, up: bool)
    ensures Displaced(Displaced(base, i + j, up), j, !up) == Displaced(base, i, up)
  {
    if up {
      WrapSum(base + i + j, -j);
    } else {
      WrapSum(base - i - j, j);
    }
  }

  // ---- the source's steps ------------------------------------------------

  method ComputeOffset(p: ArmCore, ins: word) returns (ok: bool, offset: word)
    requires p.Valid()
    ensures ok == WordOffset(p.State(), ins).Some?
    ensures ok ==> WordOffset(p.State(), ins).value == offset
  {
    assert Pow2(4) == 16 && Pow2(5) == 32 && Pow2(2) == 4;
    if Bit(ins, 25) == 0 {
      PowTwelve();
      return true, Bits(ins, 11, 0);
    }
    var rm := p.ReadRegister(Bits(ins, 3, 0));
    var shift, amount := Bits(ins, 6, 5), Bits(ins, 11, 7);
    if Bit(ins, 4) == 1 {
      return false, 0;
    }
    var cpsr := p.ReadCpsr();
    offset := ScaleOffset(shift, rm, amount, Bit(cpsr, 29));
    return true, offset;
  }

  method ScaleOffset(shift: nat, rm: word, amount: nat, carry: bit) returns (offset: word)
    requires amount < 32 && shift < 4
    ensures offset == ScaledOffset(shift, rm, amount, carry)
  {
    match shift
    case 0 => offset := Shl(rm, amount);
    case 1 => offset := if amount == 0 then 0 else Shr(rm, amount);
    case 2 => offset := Asr(rm, amount);
    case _ =>
      if amount == 0 {
        ExtendedValue(Shifted(rm, carry));
        offset := Or(Shl(carry, 31), Shr(rm, 1));
      } else {
        offset := Ror(rm, amount);
      }
  }

  /** The access proper. */
  method Access(p: ArmCore, load: bool, w: width, rd: regno, address: word) returns (ok: bool)
    requires p.Valid()
    modifies p.reg.main, p.reg.banked, p.mem.data
    ensures ok == Transfer(old(p.State()), load, w, rd, address).Some?
    ensures p.State() == if ok then Transfer(old(p.State()), load, w, rd, address).value else old(p.State())
  {
    if load {
      var value: word;
      if w == 1 {
        var b;
        ok, b := p.mem.ReadByte(address);
        value := b;
      } else if w == 2 {
        var h;
        ok, h := p.mem.ReadHalf(address);
        value := h;
      } else {
        ok, value := p.mem.ReadWord(address);
      }
      if ok {
        p.WriteRegister(rd, value);
      }
    } else {
      var value := p.ReadRegister(rd);
      if w == 1 {
        ok := p.mem.WriteByte(address, value % 0x100);
      } else if w == 2 {
        ok := p.mem.WriteHalf(address, value % 0x1_0000);
      } else {
        ok := p.mem.WriteWord(address, value);
      }
    }
  }

  /** The part common to all widths, from the base update to the post-indexed one. */
  method TransferSingle(p: ArmCore, ins: word, load: bool, w: width, offset: word) returns (res: Outcome)
    requires p.Valid()
    modifies p.reg.main, p.reg.banked, p.mem.data
    ensures Effect(p.State(), res) == SingleTransfer(old(p.State()), ins, load, w, offset)
  {
    var address := p.ReadRegister(Rn(ins));
    if PreIndexed(ins) {
      address := Displaced(address, offset, Upwards(ins));
      if WritesBack(ins) {
        p.WriteRegister(Rn(ins), address);
      }
    }
    var ok := Access(p, load, w, Rd(ins), address);
    if !ok {
      return Returned(DATA_ABORT);
    }
    if !PreIndexed(ins) {
      if WritesBack(ins) && w != 2 {
        return Returned(UNDEFINED_INSTRUCTION);
      }
      address := Displaced(address, offset, Upwards(ins));
      p.WriteRegister(Rn(ins), address);
    }
    return DONE;
  }

  /** `arm_load_store` */
  method ArmLoadStore(p: ArmCore, ins: word) returns (res: Outcome)
    requires p.Valid()
    modifies p.reg.main, p.reg.banked, p.mem.data
    ensures Effect(p.State(), res) == LoadStoreSingle(old(p.State()), ins)
  {
    if Bits(ins, 27, 26) == 1 {
      var ok, offset := ComputeOffset(p, ins);
      if !ok {
        return Returned(UNDEFINED_INSTRUCTION);
      }
      res := TransferSingle(p, ins, IsLoad(ins), if Bit(ins, 22) == 1 then 1 else 4, offset);
    } else if IsHalfForm(ins) {
      assert Pow2(4) == 16;
      var offset: word;
      if Bit(ins, 22) == 1 {
        offset := Bits(ins, 11, 8) * 16 + Bits(ins, 3, 0);
      } else {
        offset := p.ReadRegister(Bits(ins, 3, 0));
      }
      if Bits(ins, 6, 5) == 1 {
        res := TransferSingle(p, ins, IsLoad(ins), 2, offset);
      } else {
        if PreIndexed(ins) && WritesBack(ins) {
          var base := p.ReadRegister(Rn(ins));
          p.WriteRegister(Rn(ins), Displaced(base, offset, Upwards(ins)));
        }
        return Returned(UNDEFINED_INSTRUCTION);
      }
    } else {
      return Returned(UNDEFINED_INSTRUCTION);
    }
  }

  /** One round of the loading loop. */
  method LoadNext(p: ArmCore, r: regno, address: word) returns (ok: bool)
    requires p.Valid()
    modifies p.reg.main, p.reg.banked
    ensures ok == Accepts(p.mem.size, address, 4)
    ensures p.State() == LoadOne(old(p.State()), r, address)
  {
    var value;
    ok, value := p.mem.ReadWord(address);
    if ok {
      if r == 15 {
        AndEven(value);
        p.WriteRegister(15, And(value, 0xffff_fffe));
      } else {
        p.WriteRegister(r, value);
      }
    }
  }

  /** One round of the storing loop. */
  method StoreNext(p: ArmCore, r: regno, address: word) returns (ok: bool)
    requires p.Valid()
    modifies p.mem.data
    ensures ok == Accepts(p.mem.size, address, 4)
    ensures p.State() == StoreOne(old(p.State()), r, address)
  {
    var value := p.ReadRegister(r);
    ok := p.mem.WriteWord(address, value);
  }

  lemma AndEven(v: word)
    ensures And(v, 0xffff_fffe) == v - v % 2
  {
    assert Pow2(31) == 0x8000_0000 by {
      PowValues();
    }
    AndOnes(v / 2, 31);
  }

  /** `arm_load_store_multiple` */
  method ArmLoadStoreMultiple(p: ArmCore, ins: word) returns (res: Outcome)
    requires p.Valid()
    modifies p.reg.main, p.reg.banked, p.mem.data
    ensures Effect(p.State(), res) == LoadStoreMultiple(old(p.State()), ins)
  {
    var list, up := Bits(ins, 15, 0), Upwards(ins);
    var base := p.ReadRegister(Rn(ins));
    var address := base;
    if PreIndexed(ins) {
      address := Displaced(address, 4, up);
    }
    if Bit(ins, 22) == 1 {
      return Returned(UNDEFINED_INSTRUCTION);
    }
    var ok;
    ok, address := TransferList(p, IsLoad(ins), list, address, up);
    if !ok {
      return Returned(DATA_ABORT);
    }
    if WritesBack(ins) {
      WritebackAddress(base, PreIndexed(ins), up, |Listed(ins)|);
      if PreIndexed(ins) {
        address := Displaced(address, 4, !up);
      }
      p.WriteRegister(Rn(ins), address);
    }
    return DONE;
  }

  /** The loops over the register list. */
  method TransferList(p: ArmCore, load: bool, list: nat, start: word, up: bool) returns (ok: bool, address: word)
    requires p.Valid()
    modifies p.reg.main, p.reg.banked, p.mem.data
    ensures var n := |ListedBelow(list, 16)|;
            var k := AcceptedCount(p.mem.size, start, up, n);
            ok == (k == n)
            && p.State() == Transferred(old(p.State()), load, ListedBelow(list, 16), start, up, k)
            && (ok ==> address == AddressOf(start, up, n))
  {
    address := start;
    ghost var m, regs, k := p.State(), ListedBelow(list, 16), 0;
    NextAddress(start, up, 0);
    for r := 0 to 16
      invariant k == |ListedBelow(list, r)|
      invariant Progress(m, p.State(), load, regs, start, up, k, address)
    {
      ListedPrefix(list, r + 1, 16);
      if Bit(list, r) == 1 {
        ListedNext(list, r);
        ghost var before := p.State();
        var next := TransferNext(p, load, r, address);
        if !next {
          ProgressStops(m, before, load, regs, start, up, k, address);
          return false, address;
        }
        ProgressGrows(m, before, p.State(), load, regs, start, up, k, address);
        address := Displaced(address, 4, up);
        k := k + 1;
      }
    }
    return true, address;
  }

  /** `s` is `m` after `k` accepted transfers, and `address` is that of the next one. */
  predicate Progress(
      m: Machine, s: Machine, load: bool, regs: seq<regno>, start: word, up: bool, k: nat, address: word) {
    k <= |regs| && address == AddressOf(start, up, k) && AcceptedCount(m.mem.size, start, up, k) == k
    && s == Transferred(m, load, regs, start, up, k)
  }

  lemma ProgressGrows(
      m: Machine, s: Machine, s': Machine, load: bool, regs: seq<regno>, start: word, up: bool, k: nat, address: word)
    requires Progress(m, s, load, regs, start, up, k, address) && k < |regs| && Accepts(m.mem.size, address, 4)
    requires s' == if load then LoadOne(s, regs[k], address) else StoreOne(s, regs[k], address)
    ensures Progress(m, s', load, regs, start, up, k + 1, Displaced(address, 4, up))
  {
    NextAddress(start, up, k);
    TransferGrows(m, load, regs, start, up, k);
    AcceptedGrows(m.mem.size, start, up, k);
  }

  lemma ProgressStops(
      m: Machine, s: Machine, load: bool, regs: seq<regno>, start: word, up: bool, k: nat, address: word)
    requires Progress(m, s, load, regs, start, up, k, address) && k < |regs| && !Accepts(m.mem.size, address, 4)
    ensures AcceptedCount(m.mem.size, start, up, |regs|) == k
  {
    AcceptedStops(m.mem.size, start, up, k, |regs|);
  }

  /** One round of either loop. */
  method TransferNext(p: ArmCore, load: bool, r: regno, address: word) returns (ok: bool)
    requires p.Valid()
    modifies p.reg.main, p.reg.banked, p.mem.data
    ensures ok == Accepts(p.mem.size, address, 4)
    ensures p.State() == if load then LoadOne(old(p.State()), r, address) else StoreOne(old(p.State()), r, address)
  {
    if load {
      ok := LoadNext(p, r, address);
    } else {
      ok := StoreNext(p, r, address);
    }
  }
}
