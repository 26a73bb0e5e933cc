/** Bits in byte buffers, numbered from the right in little-endian order and from the left in big-endian order, and the
    storage they come from: memory and registers. A byte is its eight bits, the least significant one first. */
module LocationBits {
  import opened Wrappers

  type Byte = b: seq<bool> | |b| == 8 witness [false, false, false, false, false, false, false, false]

  const ZERO: Byte := [false, false, false, false, false, false, false, false]

  /** Where bit `n` of a buffer is in its byte. */
  function Pos(n: nat, be: bool): (p: nat)
    ensures p < 8
  {
    if be then 7 - n % 8 else n % 8
  }

  function Bit(buf: seq<Byte>, n: nat, be: bool): bool
    requires n < 8 * |buf|
  {
    buf[n / 8][Pos(n, be)]
  }

  function SetBit(buf: seq<Byte>, n: nat, be: bool, v: bool): (r: seq<Byte>)
    requires n < 8 * |buf|
    ensures |r| == |buf|
  {
    buf[n / 8 := buf[n / 8][Pos(n, be) := v]]
  }

  /** Setting a bit changes that bit and no other. */
  lemma SetThenGet(buf: seq<Byte>, n: nat, be: bool, v: bool, m: nat)
    requires n < 8 * |buf| && m < 8 * |buf|
    ensures Bit(SetBit(buf, n, be, v), m, be) == if m == n then v else Bit(buf, m, be)
  {
    if m / 8 == n / 8 && Pos(m, be) == Pos(n, be) {
      assert m % 8 == n % 8;
      assert m == 8 * (m / 8) + m % 8 && n == 8 * (n / 8) + n % 8;
    }
  }

  // ----- byte order -----

  function Reversed(s: seq<Byte>): (r: seq<Byte>)
    ensures |r| == |s| && forall k :: 0 <= k < |s| ==> r[k] == s[|s| - 1 - k]
  {
    seq(|s|, i requires 0 <= i < |s| => s[|s| - 1 - i])
  }

  lemma ReversedTwice(s: seq<Byte>)
    ensures Reversed(Reversed(s)) == s
  {
  }

  /** Reverse the bytes of a buffer in place. */
  method SwapBytes(a: array<Byte>)
    modifies a
    ensures a[..] == Reversed(old(a[..]))
  {
    var n, i := a.Length / 2, 0;
    var j := a.Length - 1;
    while i < n
      invariant 0 <= i <= n && j == a.Length - 1 - i
      invariant forall k :: 0 <= k < i ==> a[k] == old(a[a.Length - 1 - k]) && a[a.Length - 1 - k] == old(a[k])
      invariant forall k :: i <= k < a.Length - i ==> a[k] == old(a[k])
    {
      a[i], a[j] := a[j], a[i];
      i, j := i + 1, j - 1;
    }
  }

  // ----- storage -----

  datatype Register = Register(bytes: seq<Byte>, bigEndian: bool)

  datatype Store = Store(mem: map<int, Byte>, regs: map<int, Register>)

  datatype Place = Memory(addr: int) | InRegister(reg: int) | Constant(value: seq<Byte>)

  /** A piece of a value. A size or bit size of zero means that it follows from the other one. */
  datatype Piece = Piece(place: Place, size: nat, bitOffs: nat, bitSize: nat, optimizedAway: bool, implicitPointer: bool)

  function ByteSize(p: Piece): nat { if p.size != 0 then p.size else (p.bitOffs + p.bitSize + 7) / 8 }

  function BitCount(p: Piece): nat { if p.bitSize != 0 then p.bitSize else p.size * 8 }

  predicate Mapped(mem: map<int, Byte>, addr: int, n: nat) { forall a :: addr <= a < addr + n ==> a in mem }

  function Slice(mem: map<int, Byte>, addr: int, n: nat): (s: seq<Byte>)
    requires Mapped(mem, addr, n)
    ensures |s| == n && forall k :: 0 <= k < n ==> s[k] == mem[addr + k]
  {
    seq(n, i requires 0 <= i < n => mem[addr + i])
  }

  function Zeros(n: nat): (s: seq<Byte>)
    ensures |s| == n && forall k :: 0 <= k < n ==> s[k] == ZERO
  {
    seq(n, i => ZERO)
  }

  function InOrder(r: Register, be: bool): (s: seq<Byte>)
    ensures |s| == |r.bytes|
  {
    if r.bigEndian != be then Reversed(r.bytes) else r.bytes
  }

  /** Where a register narrower than its piece starts in the buffer. */
  function Shift(p: Piece, r: Register, be: bool): nat {
    if be && |r.bytes| < ByteSize(p) then ByteSize(p) - |r.bytes| else 0
  }

  /** The buffer of a piece: the bytes at its place, in the byte order of the value. */
  function Load(s: Store, p: Piece, be: bool): (r: Option<seq<Byte>>)
    ensures r.Some? && !p.place.Constant? ==> |r.value| >= ByteSize(p)
  {
    if p.optimizedAway || p.implicitPointer then None
    else match p.place
    case InRegister(id) =>
      if id !in s.regs then None
      else
        var reg := InOrder(s.regs[id], be);
        if |reg| >= ByteSize(p) then Some(reg)
        else if be then Some(Zeros(ByteSize(p) - |reg|) + reg)
        else Some(reg + Zeros(ByteSize(p) - |reg|))
    case Constant(v) => Some(v)
    case Memory(addr) => if Mapped(s.mem, addr, ByteSize(p)) then Some(Slice(s.mem, addr, ByteSize(p))) else None
  }

  function Written(mem: map<int, Byte>, addr: int, buf: seq<Byte>): map<int, Byte> {
    map a | a in mem :: if addr <= a < addr + |buf| then buf[a - addr] else mem[a]
  }

  /** The storage after the buffer of a piece has been written back. */
  function Save(s: Store, p: Piece, be: bool, buf: seq<Byte>): Store
    requires Load(s, p, be).Some? && !p.place.Constant? && |buf| == |Load(s, p, be).value|
  {
    match p.place
    case InRegister(id) =>
      var r := s.regs[id];
      var at := Shift(p, r, be);
      s.(regs := s.regs[id := r.(bytes := InOrder(Register(buf[at..at + |r.bytes|], r.bigEndian), be))])
    case Memory(addr) => s.(mem := Written(s.mem, addr, buf))
  }

  // ----- single bits of the storage -----

  datatype Cell = MemoryBit(addr: int, pos: nat) | RegisterBit(reg: int, byte: int, pos: nat)

  predicate Exists(s: Store, c: Cell) {
    match c
    case MemoryBit(a, pos) => a in s.mem && pos < 8
    case RegisterBit(id, k, pos) => id in s.regs && 0 <= k < |s.regs[id].bytes| && pos < 8
  }

  function Fetch(s: Store, c: Cell): bool
    requires Exists(s, c)
  {
    match c
    case MemoryBit(a, pos) => s.mem[a][pos]
    case RegisterBit(id, k, pos) => s.regs[id].bytes[k][pos]
  }

  /** A piece that can be read and written as a whole: it lies in its buffer and is no wider than its register. */
  predicate Wide(s: Store, p: Piece, be: bool) {
    && Load(s, p, be).Some? && p.bitOffs + BitCount(p) <= 8 * |Load(s, p, be).value|
    && match p.place
       case InRegister(id) => id in s.regs && |s.regs[id].bytes| >= ByteSize(p)
       case Memory(_) => true
       case Constant(_) => false
  }

  /** The bit of the storage that bit `i` of the piece's buffer comes from. */
  function CellOf(s: Store, p: Piece, be: bool, i: nat): Cell
    requires Wide(s, p, be)
  {
    match p.place
    case Memory(addr) => MemoryBit(addr + i / 8, Pos(i, be))
    case InRegister(id) =>
      var r := s.regs[id];
      RegisterBit(id, if r.bigEndian != be then |r.bytes| - 1 - i / 8 else i / 8, Pos(i, be))
  }

  lemma LoadBit(s: Store, p: Piece, be: bool, i: nat)
    requires Wide(s, p, be) && i < 8 * |Load(s, p, be).value|
    ensures Exists(s, CellOf(s, p, be, i)) && Bit(Load(s, p, be).value, i, be) == Fetch(s, CellOf(s, p, be, i))
  {
    assert i / 8 < |Load(s, p, be).value|;
  }

  /** The shape of the storage: which bytes there are. */
  predicate SameShape(s: Store, t: Store) {
    && s.mem.Keys == t.mem.Keys && s.regs.Keys == t.regs.Keys
    && forall id :: id in s.regs ==> |s.regs[id].bytes| == |t.regs[id].bytes| && s.regs[id].bigEndian == t.regs[id].bigEndian
  }

  lemma SaveShape(s: Store, p: Piece, be: bool, buf: seq<Byte>)
    requires Load(s, p, be).Some? && !p.place.Constant? && |buf| == |Load(s, p, be).value|
    ensures SameShape(s, Save(s, p, be, buf))
  {
  }

  /** Writing the buffer of a piece back as it was read changes nothing, whatever the byte order of its register. */
  lemma SaveLoaded(s: Store, p: Piece, be: bool)
    requires Load(s, p, be).Some? && !p.place.Constant?
    ensures Save(s, p, be, Load(s, p, be).value) == s
  {
    var buf := Load(s, p, be).value;
    match p.place {
      case InRegister(id) =>
        var r := s.regs[id];
        var at := Shift(p, r, be);
        assert buf[at..at + |r.bytes|] == InOrder(r, be);
        ReversedTwice(r.bytes);
        assert s.regs[id := r] == s.regs;
      case Memory(addr) =>
        assert Written(s.mem, addr, buf) == s.mem;
    }
  }

  /** The size of a piece's buffer depends on the shape only. */
  lemma LoadShape(s: Store, t: Store, p: Piece, be: bool)
    requires SameShape(s, t)
    ensures Load(s, p, be).Some? <==> Load(t, p, be).Some?
    ensures Load(s, p, be).Some? ==> |Load(t, p, be).value| == |Load(s, p, be).value|
  {
  }

  /** The number of the buffer bit kept in a cell, if any. */
  function Index(s: Store, p: Piece, be: bool, c: Cell): Option<nat>
    requires Wide(s, p, be)
  {
    match p.place
    case Memory(addr) =>
      if c.MemoryBit? && addr <= c.addr < addr + ByteSize(p) && c.pos < 8
      then Some(8 * (c.addr - addr) + if be then 7 - c.pos else c.pos) else None
    case InRegister(id) =>
      var n := |s.regs[id].bytes|;
      if c.RegisterBit? && c.reg == id && 0 <= c.byte < n && c.pos < 8
      then Some(8 * (if s.regs[id].bigEndian != be then n - 1 - c.byte else c.byte) + if be then 7 - c.pos else c.pos) else None
  }

  lemma IndexOfCell(s: Store, p: Piece, be: bool, c: Cell)
    requires Wide(s, p, be)
    ensures var i := Index(s, p, be, c);
            i.Some? ==> i.value < 8 * |Load(s, p, be).value| && CellOf(s, p, be, i.value) == c
  {
  }

  lemma CellHasIndex(s: Store, p: Piece, be: bool, i: nat)
    requires Wide(s, p, be) && i < 8 * |Load(s, p, be).value|
    ensures Index(s, p, be, CellOf(s, p, be, i)) == Some(i)
  {
    assert i == 8 * (i / 8) + i % 8;
  }

  /** Writing a buffer back puts its bits where the piece's bits are and changes nothing else. */
  lemma SaveBit(s: Store, p: Piece, be: bool, buf: seq<Byte>, c: Cell)
    requires Wide(s, p, be) && |buf| == |Load(s, p, be).value| && Exists(s, c)
    ensures Exists(Save(s, p, be, buf), c)
    ensures var i := Index(s, p, be, c);
            && (i.Some? ==> i.value < 8 * |buf| && Fetch(Save(s, p, be, buf), c) == Bit(buf, i.value, be))
            && (i.None? ==> Fetch(Save(s, p, be, buf), c) == Fetch(s, c))
  {
    match p.place {
      case Memory(addr) => SaveMemoryBit(s, p, be, buf, c);
      case InRegister(id) => SaveRegisterBit(s, p, be, buf, c);
    }
  }

  lemma SaveMemoryBit(s: Store, p: Piece, be: bool, buf: seq<Byte>, c: Cell)
    requires Wide(s, p, be) && p.place.Memory? && |buf| == |Load(s, p, be).value| && Exists(s, c)
    ensures Exists(Save(s, p, be, buf), c)
    ensures var i := Index(s, p, be, c);
            && (i.Some? ==> i.value < 8 * |buf| && Fetch(Save(s, p, be, buf), c) == Bit(buf, i.value, be))
            && (i.None? ==> Fetch(Save(s, p, be, buf), c) == Fetch(s, c))
  {
    var i := Index(s, p, be, c);
    if i.Some? {
      BitAt(c.addr - p.place.addr, c.pos, be);
    }
  }

  lemma SaveRegisterBit(s: Store, p: Piece, be: bool, buf: seq<Byte>, c: Cell)
    requires Wide(s, p, be) && p.place.InRegister? && |buf| == |Load(s, p, be).value| && Exists(s, c)
    ensures Exists(Save(s, p, be, buf), c)
    ensures var i := Index(s, p, be, c);
            && (i.Some? ==> i.value < 8 * |buf| && Fetch(Save(s, p, be, buf), c) == Bit(buf, i.value, be))
            && (i.None? ==> Fetch(Save(s, p, be, buf), c) == Fetch(s, c))
  {
    hide Bit;
    var r := s.regs[p.place.reg];
    SaveRegister(s, p, be, buf);
    hide Save, Load, InOrder, Wide, Pos;
    var i := Index(s, p, be, c);
    if i.Some? {
      InOrderBit(buf, r.bigEndian, be, c.byte, c.pos);
    }
  }

  /** What a register holds after the buffer of a piece that it is wide enough for has been written back. */
  lemma SaveRegister(s: Store, p: Piece, be: bool, buf: seq<Byte>)
    requires Wide(s, p, be) && p.place.InRegister? && |buf| == |Load(s, p, be).value|
    ensures |buf| == |s.regs[p.place.reg].bytes|
    ensures var r := s.regs[p.place.reg];
            Save(s, p, be, buf) == s.(regs := s.regs[p.place.reg := r.(bytes := InOrder(Register(buf, r.bigEndian), be))])
  {
    var r := s.regs[p.place.reg];
    assert buf[0..|r.bytes|] == buf;
  }

  lemma InOrderBit(buf: seq<Byte>, bigEndian: bool, be: bool, k: nat, pos: nat)
    requires k < |buf| && pos < 8
    ensures var i := 8 * (if bigEndian != be then |buf| - 1 - k else k) + if be then 7 - pos else pos;
            i < 8 * |buf| && InOrder(Register(buf, bigEndian), be)[k][pos] == Bit(buf, i, be)
  {
    BitAt(if bigEndian != be then |buf| - 1 - k else k, pos, be);
  }

  /** A buffer bit given by its byte and its place there. */
  lemma BitAt(k: nat, pos: nat, be: bool)
    requires pos < 8
    ensures var i := 8 * k + if be then 7 - pos else pos; i / 8 == k && Pos(i, be) == pos
  {
  }
}
