/** Values made of pieces: gathering the bits of the pieces into a buffer, and scattering the bits of a buffer to them. */
module LocationPieces {
  import opened Wrappers
  import opened LocationBits

  // ----- one piece -----

  /** The bits of a stretch of a buffer. */
  function Stretch(buf: seq<Byte>, from: nat, n: nat, be: bool): (r: seq<bool>)
    requires from + n <= 8 * |buf|
    ensures |r| == n && forall k :: 0 <= k < n ==> r[k] == Bit(buf, from + k, be)
  {
    seq(n, k requires 0 <= k < n => Bit(buf, from + k, be))
  }

  /** The buffer with the bits of a stretch replaced. */
  function Overwrite(buf: seq<Byte>, from: nat, bits: seq<bool>, be: bool): (r: seq<Byte>)
    requires from + |bits| <= 8 * |buf|
    ensures |r| == |buf|
    decreases |bits|
  {
    if bits == [] then buf
    else SetBit(Overwrite(buf, from, bits[..|bits| - 1], be), from + |bits| - 1, be, bits[|bits| - 1])
  }

  lemma {:induction false} OverwriteBit(buf: seq<Byte>, from: nat, bits: seq<bool>, be: bool, m: nat)
    requires from + |bits| <= 8 * |buf| && m < 8 * |buf|
    ensures Bit(Overwrite(buf, from, bits, be), m, be) == if from <= m < from + |bits| then bits[m - from] else Bit(buf, m, be)
    decreases |bits|
  {
    hide Bit, SetBit;
    if bits != [] {
      var n := |bits| - 1;
      OverwriteBit(buf, from, bits[..n], be, m);
      SetThenGet(Overwrite(buf, from, bits[..n], be), from + n, be, bits[n], m);
    }
  }

  /** The bits of a piece, if it can be read. */
  function Take(s: Store, p: Piece, be: bool): (r: Option<seq<bool>>)
    ensures r.Some? ==> |r.value| == BitCount(p)
  {
    match Load(s, p, be)
    case None => None
    case Some(buf) => if p.bitOffs + BitCount(p) <= 8 * |buf| then Some(Stretch(buf, p.bitOffs, BitCount(p), be)) else None
  }

  function Min(a: nat, b: nat): nat { if a <= b then a else b }

  /** The storage after the first bits of a piece, as many as are given, have been set. */
  function Put(s: Store, p: Piece, be: bool, bits: seq<bool>): Option<Store>
    requires |bits| <= BitCount(p)
  {
    match Load(s, p, be)
    case None => None
    case Some(buf) =>
      if p.place.Constant? || p.bitOffs + BitCount(p) > 8 * |buf| then None
      else Some(Save(s, p, be, Overwrite(buf, p.bitOffs, bits, be)))
  }

  /** The cells of a piece, in order. */
  function Cells(s: Store, p: Piece, be: bool): (r: seq<Cell>)
    requires Wide(s, p, be)
    ensures |r| == BitCount(p) && forall k :: 0 <= k < |r| ==> r[k] == CellOf(s, p, be, p.bitOffs + k)
  {
    seq(BitCount(p), k requires 0 <= k < BitCount(p) => CellOf(s, p, be, p.bitOffs + k))
  }

  lemma TakeCell(s: Store, p: Piece, be: bool, k: nat)
    requires Wide(s, p, be) && k < BitCount(p)
    ensures Take(s, p, be).Some? && Exists(s, Cells(s, p, be)[k]) && Take(s, p, be).value[k] == Fetch(s, Cells(s, p, be)[k])
  {
    hide Bit, Fetch, CellOf;
    LoadBit(s, p, be, p.bitOffs + k);
  }

  lemma PutShape(s: Store, p: Piece, be: bool, bits: seq<bool>)
    requires Wide(s, p, be) && |bits| <= BitCount(p)
    ensures Put(s, p, be, bits).Some? && SameShape(s, Put(s, p, be, bits).value)
  {
    SaveShape(s, p, be, Overwrite(Load(s, p, be).value, p.bitOffs, bits, be));
  }

  lemma PutIs(s: Store, p: Piece, be: bool, bits: seq<bool>)
    requires Wide(s, p, be) && |bits| <= BitCount(p)
    ensures Load(s, p, be).Some? && !p.place.Constant? && p.bitOffs + |bits| <= 8 * |Load(s, p, be).value|
    ensures Put(s, p, be, bits) == Some(Save(s, p, be, Overwrite(Load(s, p, be).value, p.bitOffs, bits, be)))
  {
    hide Overwrite, Save;
  }

  /** What a cell holds after a piece has been set, by the number of its bit in the piece's buffer. */
  lemma PutIndex(s: Store, p: Piece, be: bool, bits: seq<bool>, c: Cell)
    requires Wide(s, p, be) && |bits| <= BitCount(p) && Exists(s, c)
    ensures Put(s, p, be, bits).Some? && Exists(Put(s, p, be, bits).value, c)
    ensures var i := Index(s, p, be, c);
            Fetch(Put(s, p, be, bits).value, c) ==
            if i.Some? && p.bitOffs <= i.value < p.bitOffs + |bits| then bits[i.value - p.bitOffs] else Fetch(s, c)
  {
    var buf := Load(s, p, be).value;
    var result := Overwrite(buf, p.bitOffs, bits, be);
    PutIs(s, p, be, bits);
    hide Bit, Fetch, CellOf, Save, Load, Overwrite, Exists, Index, Put, Wide;
    SaveBit(s, p, be, result, c);
    var i := Index(s, p, be, c);
    if i.Some? {
      IndexOfCell(s, p, be, c);
      OverwriteBit(buf, p.bitOffs, bits, be, i.value);
      LoadBit(s, p, be, i.value);
    }
  }

  /** Setting a piece sets its cells, in order, and changes no other cell. */
  lemma PutCell(s: Store, p: Piece, be: bool, bits: seq<bool>, c: Cell)
    requires Wide(s, p, be) && |bits| == BitCount(p) && Exists(s, c)
    ensures Put(s, p, be, bits).Some? && Exists(Put(s, p, be, bits).value, c)
    ensures c !in Cells(s, p, be) ==> Fetch(Put(s, p, be, bits).value, c) == Fetch(s, c)
    ensures forall k :: 0 <= k < |bits| && Cells(s, p, be)[k] == c ==> Fetch(Put(s, p, be, bits).value, c) == bits[k]
  {
    hide Fetch, CellOf, Load, Exists, Put, Index;
    PutIndex(s, p, be, bits, c);
    IndexOfCell(s, p, be, c);
    var i := Index(s, p, be, c);
    if i.Some? && p.bitOffs <= i.value < p.bitOffs + |bits| {
      assert Cells(s, p, be)[i.value - p.bitOffs] == c;
    }
    forall k | 0 <= k < |bits| && Cells(s, p, be)[k] == c ensures i == Some(p.bitOffs + k) {
      InBuffer(s, p, be);
      CellHasIndex(s, p, be, p.bitOffs + k);
    }
  }

  lemma InBuffer(s: Store, p: Piece, be: bool)
    requires Wide(s, p, be)
    ensures p.bitOffs + BitCount(p) <= 8 * |Load(s, p, be).value|
  {
  }

  // ----- all pieces -----

  function Total(ps: seq<Piece>): nat {
    if ps == [] then 0 else BitCount(ps[0]) + Total(ps[1..])
  }

  /** The bits of all pieces in order, if all can be read. */
  function Gather(s: Store, ps: seq<Piece>, be: bool): (r: Option<seq<bool>>)
    ensures r.Some? ==> |r.value| == Total(ps)
  {
    if ps == [] then Some([])
    else
      var a, b := Take(s, ps[0], be), Gather(s, ps[1..], be);
      if a.None? || b.None? then None else Some(a.value + b.value)
  }

  /** The storage after the pieces have been set in turn, from the bits given. */
  function Scatter(s: Store, ps: seq<Piece>, be: bool, bits: seq<bool>): Option<Store>
    decreases |ps|
  {
    if ps == [] then Some(s)
    else
      var n := Min(|bits|, BitCount(ps[0]));
      match Put(s, ps[0], be, bits[..n])
      case None => None
      case Some(t) => Scatter(t, ps[1..], be, bits[n..])
  }

  predicate AllWide(s: Store, ps: seq<Piece>, be: bool) {
    forall i :: 0 <= i < |ps| ==> Wide(s, ps[i], be)
  }

  /** The cells of all pieces in order. */
  function AllCells(s: Store, ps: seq<Piece>, be: bool): (r: seq<Cell>)
    requires AllWide(s, ps, be)
    ensures |r| == Total(ps)
  {
    if ps == [] then [] else Cells(s, ps[0], be) + AllCells(s, ps[1..], be)
  }

  predicate Distinct(cs: seq<Cell>) {
    forall i, j :: 0 <= i < j < |cs| ==> cs[i] != cs[j]
  }

  lemma WideShape(s: Store, t: Store, p: Piece, be: bool)
    requires SameShape(s, t) && Wide(s, p, be)
    ensures Wide(t, p, be) && Cells(t, p, be) == Cells(s, p, be)
  {
  }

  lemma {:induction false} CellsShape(s: Store, t: Store, ps: seq<Piece>, be: bool)
    requires SameShape(s, t) && AllWide(s, ps, be)
    ensures AllWide(t, ps, be) && AllCells(t, ps, be) == AllCells(s, ps, be)
  {
    hide Wide, SameShape, Cells;
    forall i | 0 <= i < |ps| ensures Wide(t, ps[i], be) { WideShape(s, t, ps[i], be); }
    if ps != [] {
      WideShape(s, t, ps[0], be);
      CellsShape(s, t, ps[1..], be);
    }
  }

  /** Gathering reads the cells. */
  lemma {:induction false} GatherCell(s: Store, ps: seq<Piece>, be: bool, k: nat)
    requires AllWide(s, ps, be) && k < Total(ps)
    ensures Gather(s, ps, be).Some? && Exists(s, AllCells(s, ps, be)[k])
    ensures Gather(s, ps, be).value[k] == Fetch(s, AllCells(s, ps, be)[k])
  {
    hide Wide, Cells, Take, Fetch, Exists;
    GatherSome(s, ps, be);
    var n := BitCount(ps[0]);
    if k < n {
      TakeCell(s, ps[0], be, k);
    } else {
      GatherCell(s, ps[1..], be, k - n);
    }
  }

  lemma {:induction false} GatherSome(s: Store, ps: seq<Piece>, be: bool)
    requires AllWide(s, ps, be)
    ensures Gather(s, ps, be).Some?
  {
    hide Take;
    if ps != [] {
      TakeSome(s, ps[0], be);
      GatherSome(s, ps[1..], be);
    }
  }

  lemma TakeSome(s: Store, p: Piece, be: bool)
    requires Wide(s, p, be)
    ensures Take(s, p, be).Some?
  {
  }

  lemma DistinctSplit(a: seq<Cell>, b: seq<Cell>)
    requires Distinct(a + b)
    ensures Distinct(b) && forall c :: c in a ==> c !in b
  {
    var all := a + b;
    forall i, j | 0 <= i < j < |b| ensures b[i] != b[j] { assert all[|a| + i] != all[|a| + j]; }
    forall i, j | 0 <= i < |a| && 0 <= j < |b| ensures a[i] != b[j] { assert all[i] != all[|a| + j]; }
  }

  /** Scattering sets each cell of the pieces to its bit and changes no other cell. */
  lemma {:induction false} ScatterCell(s: Store, ps: seq<Piece>, be: bool, bits: seq<bool>, c: Cell)
    requires AllWide(s, ps, be) && |bits| == Total(ps) && Distinct(AllCells(s, ps, be)) && Exists(s, c)
    ensures var t := Scatter(s, ps, be, bits);
            && t.Some? && SameShape(s, t.value) && Exists(t.value, c)
            && (c !in AllCells(s, ps, be) ==> Fetch(t.value, c) == Fetch(s, c))
            && (forall k :: 0 <= k < |bits| && AllCells(s, ps, be)[k] == c ==> Fetch(t.value, c) == bits[k])
    decreases |ps|
  {
    if ps != [] {
      var n, p, rest := BitCount(ps[0]), ps[0], ps[1..];
      ScatterFirst(s, ps, be, bits);
      hide Wide, Cells, Put, Fetch, Exists, SameShape, Scatter, AllCells;
      PutShape(s, p, be, bits[..n]);
      PutCell(s, p, be, bits[..n], c);
      var s1 := Put(s, p, be, bits[..n]).value;
      CellsShape(s, s1, rest, be);
      DistinctSplit(Cells(s, p, be), AllCells(s, rest, be));
      ScatterCell(s1, rest, be, bits[n..], c);
      ShapeTrans(s, s1, Scatter(s1, rest, be, bits[n..]).value);
    }
  }

  lemma ScatterFirst(s: Store, ps: seq<Piece>, be: bool, bits: seq<bool>)
    requires ps != [] && AllWide(s, ps, be) && |bits| == Total(ps)
    ensures var n := BitCount(ps[0]);
            && n <= |bits| && |bits[n..]| == Total(ps[1..]) && Put(s, ps[0], be, bits[..n]).Some?
            && Wide(s, ps[0], be) && AllWide(s, ps[1..], be)
            && Scatter(s, ps, be, bits) == Scatter(Put(s, ps[0], be, bits[..n]).value, ps[1..], be, bits[n..])
            && AllCells(s, ps, be) == Cells(s, ps[0], be) + AllCells(s, ps[1..], be)
  {
    hide Put, Wide, Cells;
    PutShape(s, ps[0], be, bits[..BitCount(ps[0])]);
  }

  lemma ShapeTrans(s: Store, t: Store, u: Store)
    requires SameShape(s, t) && SameShape(t, u)
    ensures SameShape(s, u)
  {
  }

  /** What is written to disjoint pieces is read back from them. */
  lemma RoundTrip(s: Store, ps: seq<Piece>, be: bool, bits: seq<bool>)
    requires AllWide(s, ps, be) && |bits| == Total(ps) && Distinct(AllCells(s, ps, be))
    ensures Scatter(s, ps, be, bits).Some? && Gather(Scatter(s, ps, be, bits).value, ps, be) == Some(bits)
  {
    hide Wide, Fetch, Exists, SameShape, Scatter, Gather;
    ScatterShape(s, ps, be, bits);
    var t := Scatter(s, ps, be, bits).value;
    CellsShape(s, t, ps, be);
    GatherSome(t, ps, be);
    var r := Gather(t, ps, be).value;
    forall k | 0 <= k < |bits| ensures r[k] == bits[k] {
      GatherCell(s, ps, be, k);
      GatherCell(t, ps, be, k);
      ScatterCell(s, ps, be, bits, AllCells(s, ps, be)[k]);
    }
    assert r == bits;
  }

  lemma {:induction false} ScatterShape(s: Store, ps: seq<Piece>, be: bool, bits: seq<bool>)
    requires AllWide(s, ps, be) && |bits| == Total(ps)
    ensures Scatter(s, ps, be, bits).Some? && SameShape(s, Scatter(s, ps, be, bits).value)
    decreases |ps|
  {
    if ps != [] {
      var n := BitCount(ps[0]);
      hide Wide, Put, SameShape;
      PutShape(s, ps[0], be, bits[..n]);
      var s1 := Put(s, ps[0], be, bits[..n]).value;
      CellsShape(s, s1, ps[1..], be);
      ScatterShape(s1, ps[1..], be, bits[n..]);
      ShapeTrans(s, s1, Scatter(s1, ps[1..], be, bits[n..]).value);
    }
  }

  // ----- the loops -----

  /** A piece that lies in its buffer, if it has one. */
  predicate Fits(s: Store, p: Piece, be: bool) {
    Load(s, p, be).Some? ==> p.bitOffs + BitCount(p) <= 8 * |Load(s, p, be).value|
  }

  predicate AllFit(s: Store, ps: seq<Piece>, be: bool) { forall i :: 0 <= i < |ps| ==> Fits(s, ps[i], be) }

  /** All pieces that can be written lie in their buffers. */
  predicate AllFitting(s: Store, ps: seq<Piece>, be: bool) {
    forall i :: 0 <= i < |ps| && !ps[i].place.Constant? ==> Fits(s, ps[i], be)
  }

  lemma FittingAt(s: Store, ps: seq<Piece>, be: bool, n: nat)
    requires AllFitting(s, ps, be) && n < |ps| && !ps[n].place.Constant?
    ensures Fits(s, ps[n], be)
  {
    hide Fits;
  }

  lemma FittingShape(s: Store, t: Store, ps: seq<Piece>, be: bool)
    requires AllFitting(s, ps, be) && SameShape(s, t)
    ensures AllFitting(t, ps, be)
  {
    hide Load, SameShape;
    forall i | 0 <= i < |ps| && !ps[i].place.Constant? ensures Fits(t, ps[i], be) { LoadShape(s, t, ps[i], be); }
  }

  /** How many bits the pieces have. */
  method CountBits(ps: seq<Piece>) returns (bits: nat)
    ensures bits == Total(ps)
  {
    bits := 0;
    assert ps[0..] == ps;
    var i := 0;
    while i < |ps|
      invariant i <= |ps| && bits + Total(ps[i..]) == Total(ps)
    {
      assert ps[i..][1..] == ps[i + 1..];
      bits := bits + BitCount(ps[i]);
      i := i + 1;
    }
  }

  /** Copy a sequence into a buffer. */
  method CopyTo(a: array<Byte>, at: nat, s: seq<Byte>)
    requires at + |s| <= a.Length
    modifies a
    ensures a[..] == old(a[..])[..at] + s + old(a[..])[at + |s|..]
  {
    for k := 0 to |s|
      invariant forall j :: 0 <= j < a.Length ==> a[j] == if at <= j < at + k then s[j - at] else old(a[j])
    {
      a[at + k] := s[k];
    }
  }

  method NewBuffer(n: nat) returns (a: array<Byte>)
    ensures fresh(a) && a[..] == Zeros(n) && a.Length == n
  {
    a := new Byte[n](_ => ZERO);
  }

  /** Bring a register into the byte order of the value. */
  method LoadRegister(r: Register, be: bool) returns (rbf: array<Byte>)
    ensures fresh(rbf) && rbf[..] == InOrder(r, be)
  {
    rbf := NewBuffer(|r.bytes|);
    CopyTo(rbf, 0, r.bytes);
    assert rbf[..] == r.bytes;
    if r.bigEndian != be {
      SwapBytes(rbf);
    }
  }

  /** The buffer of a piece. */
  method LoadPiece(s: Store, p: Piece, be: bool) returns (ok: bool, pbf: array<Byte>)
    ensures ok <==> Load(s, p, be).Some?
    ensures fresh(pbf) && (ok ==> pbf[..] == Load(s, p, be).value)
  {
    ok := false;
    pbf := NewBuffer(0);
    if p.optimizedAway || p.implicitPointer {
      return;
    }
    match p.place {
      case InRegister(id) =>
        if id !in s.regs { return; }
        var rbf := LoadRegister(s.regs[id], be);
        if |s.regs[id].bytes| < ByteSize(p) {
          pbf := NewBuffer(ByteSize(p));
          CopyTo(pbf, Shift(p, s.regs[id], be), rbf[..]);
          Padded(rbf[..], ByteSize(p), be, pbf[..]);
        } else {
          pbf := rbf;
        }
      case Constant(v) =>
        pbf := NewBuffer(|v|);
        CopyTo(pbf, 0, v);
        assert pbf[..] == v;
      case Memory(addr) =>
        if !(forall a :: addr <= a < addr + ByteSize(p) ==> a in s.mem) { return; }
        pbf := NewBuffer(ByteSize(p));
        CopyTo(pbf, 0, Slice(s.mem, addr, ByteSize(p)));
        assert pbf[..] == Slice(s.mem, addr, ByteSize(p));
    }
    ok := true;
  }

  lemma Padded(reg: seq<Byte>, n: nat, be: bool, buf: seq<Byte>)
    requires |reg| < n
    requires var at := if be then n - |reg| else 0; buf == Zeros(n)[..at] + reg + Zeros(n)[at + |reg|..]
    ensures buf == if be then Zeros(n - |reg|) + reg else reg + Zeros(n - |reg|)
  {
  }

  /** The buffer holds `bits` from `offs` on, and zeros everywhere else. */
  ghost predicate Filled(bf: seq<Byte>, offs: nat, bits: seq<bool>, be: bool) {
    forall m :: 0 <= m < 8 * |bf| ==> Bit(bf, m, be) == if offs <= m < offs + |bits| then bits[m - offs] else false
  }

  lemma FilledNot(n: nat, offs: nat, be: bool)
    ensures Filled(Zeros(n), offs, [], be)
  {
  }

  lemma FilledBit(bf: seq<Byte>, offs: nat, bits: seq<bool>, be: bool, v: bool)
    requires Filled(bf, offs, bits, be) && offs + |bits| < 8 * |bf|
    ensures Filled(if v then SetBit(bf, offs + |bits|, be, true) else bf, offs, bits + [v], be)
  {
    hide Bit, SetBit;
    var n := offs + |bits|;
    if v {
      forall m | 0 <= m < 8 * |bf| ensures Bit(SetBit(bf, n, be, true), m, be) == if m == n then true else Bit(bf, m, be) {
        SetThenGet(bf, n, be, true, m);
      }
    }
  }

  /** Gather the bits of a piece into the buffer, after those of the pieces before it. */
  method CopyBits(bf: array<Byte>, at: nat, pbf: seq<Byte>, from: nat, n: nat, be: bool, ghost offs: nat, ghost bits: seq<bool>)
    requires at + n <= 8 * bf.Length && from + n <= 8 * |pbf| && at == offs + |bits| && Filled(bf[..], offs, bits, be)
    modifies bf
    ensures Filled(bf[..], offs, bits + Stretch(pbf, from, n, be), be)
  {
    hide Filled;
    ghost var all := Stretch(pbf, from, n, be);
    hide Bit, SetBit;
    assert bits + all[..0] == bits;
    for k := 0 to n
      invariant Filled(bf[..], offs, bits + all[..k], be)
    {
      FilledBit(bf[..], offs, bits + all[..k], be, all[k]);
      assert bits + all[..k] + [all[k]] == bits + all[..k + 1];
      if Bit(pbf, from + k, be) {
        StoreBit(bf, at + k, be, true);
      }
    }
    assert all[..n] == all;
  }

  method StoreBit(a: array<Byte>, n: nat, be: bool, v: bool)
    requires n < 8 * a.Length
    modifies a
    ensures a[..] == SetBit(old(a[..]), n, be, v)
  {
    a[n / 8] := a[n / 8][Pos(n, be) := v];
  }

  /** Where the bits of a value start in its buffer. */
  function Start(size: nat, bits: nat, be: bool): nat {
    if be && size >= (bits + 7) / 8 then 8 * size - bits else 0
  }

  /** What that means: the bits of the pieces are the last ones of a big-endian buffer and the first ones of a little-endian one,
      and the others are zero. */
  lemma FilledMeans(bf: seq<Byte>, offs: nat, bits: seq<bool>, be: bool)
    requires Filled(bf, offs, bits, be) && offs + |bits| <= 8 * |bf|
    ensures forall k :: 0 <= k < |bits| ==> Bit(bf, offs + k, be) == bits[k]
    ensures forall m :: 0 <= m < offs || offs + |bits| <= m < 8 * |bf| ==> !Bit(bf, m, be)
  {
    hide Bit;
  }

  /** Read the pieces: a buffer of the bits of all pieces, and zeros where there are none. */
  method ReadPieces(s: Store, ps: seq<Piece>, be: bool) returns (r: Option<seq<Byte>>)
    requires AllFit(s, ps, be)
    ensures r.Some? <==> Gather(s, ps, be).Some?
    ensures r.Some? ==> |r.value| == (Total(ps) + 7) / 8
    ensures r.Some? ==> Filled(r.value, if be then 8 * |r.value| - Total(ps) else 0, Gather(s, ps, be).value, be)
  {
    hide Load, Filled, Gather, Total;
    var bits := CountBits(ps);
    var bf := NewBuffer((bits + 7) / 8);
    var offs := Start(bf.Length, bits, be);
    FilledNot(bf.Length, offs, be);
    ghost var done: seq<bool> := [];
    var n, at := 0, offs;
    GatherStart(s, ps, be);
    while n < |ps|
      invariant n <= |ps| && at == offs + |done|
      invariant Gathered(s, ps, be, n, done)
      invariant Filled(bf[..], offs, done, be)
    {
      GatherStep(s, ps, be, n, done);
      var ok, pbf := LoadPiece(s, ps[n], be);
      if !ok { return None; }
      assert Fits(s, ps[n], be);
      CopyBits(bf, at, pbf[..], ps[n].bitOffs, BitCount(ps[n]), be, offs, done);
      at := at + BitCount(ps[n]);
      done := done + Take(s, ps[n], be).value;
      n := n + 1;
    }
    GatherEnd(s, ps, be, done);
    r := Some(bf[..]);
  }

  /** The bits of the first `n` pieces are `done`. */
  ghost predicate Gathered(s: Store, ps: seq<Piece>, be: bool, n: nat, done: seq<bool>) {
    && n <= |ps| && |done| + Total(ps[n..]) == Total(ps)
    && (Gather(s, ps, be).Some? <==> Gather(s, ps[n..], be).Some?)
    && (Gather(s, ps, be).Some? ==> Gather(s, ps, be).value == done + Gather(s, ps[n..], be).value)
  }

  lemma GatherStart(s: Store, ps: seq<Piece>, be: bool)
    ensures Gathered(s, ps, be, 0, [])
  {
    hide Gather, Total;
    assert ps[0..] == ps;
    if Gather(s, ps, be).Some? { assert [] + Gather(s, ps, be).value == Gather(s, ps, be).value; }
  }

  lemma GatherStep(s: Store, ps: seq<Piece>, be: bool, n: nat, done: seq<bool>)
    requires n < |ps| && Gathered(s, ps, be, n, done)
    ensures |done| + BitCount(ps[n]) <= Total(ps)
    ensures Take(s, ps[n], be).Some? ==> Gathered(s, ps, be, n + 1, done + Take(s, ps[n], be).value)
    ensures Take(s, ps[n], be).None? ==> Gather(s, ps, be).None?
  {
    hide Take;
    assert ps[n..][1..] == ps[n + 1..];
    var a, b := Take(s, ps[n], be), Gather(s, ps[n + 1..], be);
    if a.Some? && b.Some? { assert done + (a.value + b.value) == done + a.value + b.value; }
  }

  lemma GatherEnd(s: Store, ps: seq<Piece>, be: bool, done: seq<bool>)
    requires Gathered(s, ps, be, |ps|, done)
    ensures Gather(s, ps, be) == Some(done)
  {
    assert done + [] == done;
  }

  // ----- writing -----

  /** How many of `n` bits from `at` on a buffer of `size` bytes has. */
  function Available(size: nat, at: nat, n: nat): nat {
    if at >= 8 * size then 0 else Min(n, 8 * size - at)
  }

  /** Those bits. */
  function Given(value: seq<Byte>, at: nat, n: nat, be: bool): (r: seq<bool>)
    ensures |r| == Available(|value|, at, n)
    ensures forall k :: 0 <= k < |r| ==> at + k < 8 * |value| && r[k] == Bit(value, at + k, be)
  {
    if at >= 8 * |value| then [] else Stretch(value, at, Available(|value|, at, n), be)
  }

  lemma GivenSplit(value: seq<Byte>, at: nat, a: nat, b: nat, be: bool)
    ensures var all, n := Given(value, at, a + b, be), Available(|value|, at, a);
            n == Min(|all|, a) && all[..n] == Given(value, at, a, be) && all[n..] == Given(value, at + a, b, be)
  {
    hide Bit;
  }

  /** Set the bits of a piece in its buffer from the value; bits beyond the end of the value are left as they are. */
  method PutBits(pbf: array<Byte>, from: nat, n: nat, value: seq<Byte>, at: nat, be: bool)
    requires from + n <= 8 * pbf.Length
    modifies pbf
    ensures pbf[..] == Overwrite(old(pbf[..]), from, Given(value, at, n, be), be)
  {
    hide Bit, SetBit;
    ghost var was := pbf[..];
    for k := 0 to n
      invariant pbf[..] == Overwrite(was, from, Given(value, at, k, be), be)
    {
      GivenSplit(value, at, k, 1, be);
      ghost var before, after := Given(value, at, k, be), Given(value, at, k + 1, be);
      if (at + k) / 8 >= |value| {
        assert after == before;
      } else {
        assert |after| == |before| + 1 && after[..|before|] == before && after[|before|] == Bit(value, at + k, be);
        StoreBit(pbf, from + k, be, Bit(value, at + k, be));
      }
    }
  }

  /** A piece is set from the first of the bits that are left. */
  function PutFirst(s: Store, p: Piece, be: bool, bits: seq<bool>): Option<Store> { Put(s, p, be, bits[..Min(|bits|, BitCount(p))]) }

  /** The bits that are left after some pieces. */
  function Left(ps: seq<Piece>, bits: seq<bool>): seq<bool> {
    if ps == [] then bits else Left(ps[1..], bits[Min(|bits|, BitCount(ps[0]))..])
  }

  /** The storage after all pieces have been set, or when the first one is met that cannot be. */
  function Reached(s: Store, ps: seq<Piece>, be: bool, bits: seq<bool>): Store
    decreases |ps|
  {
    if ps == [] then s
    else
      match PutFirst(s, ps[0], be, bits)
      case None => s
      case Some(t) => Reached(t, ps[1..], be, bits[Min(|bits|, BitCount(ps[0]))..])
  }

  lemma {:induction false} ReachedAll(s: Store, ps: seq<Piece>, be: bool, bits: seq<bool>)
    requires Scatter(s, ps, be, bits).Some?
    ensures Reached(s, ps, be, bits) == Scatter(s, ps, be, bits).value
    decreases |ps|
  {
    hide Put;
    if ps != [] {
      ReachedAll(PutFirst(s, ps[0], be, bits).value, ps[1..], be, bits[Min(|bits|, BitCount(ps[0]))..]);
    }
  }

  /** If the pieces `a` can be set and the next one cannot, just those have been. */
  lemma {:induction false} ReachedStops(s: Store, a: seq<Piece>, p: Piece, b: seq<Piece>, be: bool, bits: seq<bool>)
    requires Scatter(s, a, be, bits).Some? && PutFirst(Scatter(s, a, be, bits).value, p, be, Left(a, bits)).None?
    ensures Reached(s, a + [p] + b, be, bits) == Scatter(s, a, be, bits).value && Scatter(s, a + [p] + b, be, bits).None?
    decreases |a|
  {
    hide Put;
    var ps := a + [p] + b;
    if a == [] {
      assert ps[0] == p;
    } else {
      assert ps[0] == a[0] && ps[1..] == a[1..] + [p] + b;
      ReachedStops(PutFirst(s, a[0], be, bits).value, a[1..], p, b, be, bits[Min(|bits|, BitCount(a[0]))..]);
    }
  }

  /** Write a value, of any size, to the pieces. If a piece cannot be written, those before it have been. */
  method WritePieces(s: Store, ps: seq<Piece>, be: bool, value: seq<Byte>) returns (ok: bool, t: Store)
    requires AllFitting(s, ps, be)
    ensures var at := if be && 8 * |value| >= Total(ps) then 8 * |value| - Total(ps) else 0;
            var bits := Given(value, at, Total(ps), be);
            && (ok <==> Scatter(s, ps, be, bits).Some?) && (ok ==> Scatter(s, ps, be, bits) == Some(t))
            && t == Reached(s, ps, be, bits)
  {
    hide Load, Scatter, Reached, Total, Given, Save, Overwrite, AllFitting, SameShape;
    var bits := CountBits(ps);
    var at: nat := Start(|value|, bits, be);
    ghost var given := Given(value, at, bits, be);
    t, ok := s, true;
    var n := 0;
    assert ps[0..] == ps;
    while n < |ps|
      invariant n <= |ps| && ok && AllFitting(t, ps, be)
      invariant Scatter(s, ps, be, given) == Scatter(t, ps[n..], be, Given(value, at, Total(ps[n..]), be))
      invariant Reached(s, ps, be, given) == Reached(t, ps[n..], be, Given(value, at, Total(ps[n..]), be))
    {
      ScatterStep(t, ps, be, n, value, at);
      var pbf;
      ok, pbf := LoadPiece(t, ps[n], be);
      if !ok || ps[n].place.Constant? { return false, t; }
      FittingAt(t, ps, be, n);
      PutBits(pbf, ps[n].bitOffs, BitCount(ps[n]), value, at, be);
      SaveShape(t, ps[n], be, pbf[..]);
      FittingShape(t, Save(t, ps[n], be, pbf[..]), ps, be);
      t := Save(t, ps[n], be, pbf[..]);
      at := at + BitCount(ps[n]);
      n := n + 1;
    }
    ScatterNone(t, ps[n..], be, Given(value, at, Total(ps[n..]), be));
  }

  lemma ScatterNone(s: Store, ps: seq<Piece>, be: bool, bits: seq<bool>)
    requires ps == []
    ensures Scatter(s, ps, be, bits) == Some(s) && Reached(s, ps, be, bits) == s
  {
  }

  lemma ScatterStep(s: Store, ps: seq<Piece>, be: bool, n: nat, value: seq<Byte>, at: nat)
    requires n < |ps|
    ensures var c := BitCount(ps[n]);
            var one := Put(s, ps[n], be, Given(value, at, c, be));
            && (one.None? ==> Scatter(s, ps[n..], be, Given(value, at, Total(ps[n..]), be)).None?)
            && (one.None? ==> Reached(s, ps[n..], be, Given(value, at, Total(ps[n..]), be)) == s)
            && (one.Some? ==> Scatter(s, ps[n..], be, Given(value, at, Total(ps[n..]), be)) ==
                              Scatter(one.value, ps[n + 1..], be, Given(value, at + c, Total(ps[n + 1..]), be)))
            && (one.Some? ==> Reached(s, ps[n..], be, Given(value, at, Total(ps[n..]), be)) ==
                              Reached(one.value, ps[n + 1..], be, Given(value, at + c, Total(ps[n + 1..]), be)))
  {
    hide Put, Given;
    assert ps[n..][1..] == ps[n + 1..];
    GivenSplit(value, at, BitCount(ps[n]), Total(ps[n + 1..]), be);
  }

  /** A value of the exact size written to disjoint pieces is read back: every bit that the pieces cover is that of the value,
      and the others are zero. */
  method WriteThenRead(s: Store, ps: seq<Piece>, be: bool, value: seq<Byte>) returns (ok: bool, t: Store, r: Option<seq<Byte>>)
    requires AllWide(s, ps, be) && Distinct(AllCells(s, ps, be)) && |value| == (Total(ps) + 7) / 8
    ensures ok && r.Some? && |r.value| == |value|
    ensures var o := if be then 8 * |value| - Total(ps) else 0;
            forall m :: 0 <= m < 8 * |value| ==>
              Bit(r.value, m, be) == if o <= m < o + Total(ps) then Bit(value, m, be) else false
    ensures forall c :: Exists(s, c) && c !in AllCells(s, ps, be) ==> Exists(t, c) && Fetch(t, c) == Fetch(s, c)
  {
    hide Scatter, Reached, Gather, Total, AllCells, AllWide, AllFit, AllFitting, Filled, Distinct, Wide, Bit, Fetch, Exists, Put, Given;
    WideFits(s, ps, be);
    ok, t := WritePieces(s, ps, be, value);
    ghost var o := if be then 8 * |value| - Total(ps) else 0;
    ghost var bits := Given(value, o, Total(ps), be);
    RoundTrip(s, ps, be, bits);
    ScatterShape(s, ps, be, bits);
    CellsShape(s, t, ps, be);
    WideFits(t, ps, be);
    r := ReadPieces(t, ps, be);
    SameBits(value, r.value, o, Total(ps), be);
    forall c | Exists(s, c) && c !in AllCells(s, ps, be) ensures Exists(t, c) && Fetch(t, c) == Fetch(s, c) {
      ScatterCell(s, ps, be, bits, c);
    }
  }

  lemma SameBits(value: seq<Byte>, other: seq<Byte>, o: nat, n: nat, be: bool)
    requires |other| == |value| && o + n <= 8 * |value| && Filled(other, o, Given(value, o, n, be), be)
    ensures forall m :: 0 <= m < 8 * |value| ==> Bit(other, m, be) == if o <= m < o + n then Bit(value, m, be) else false
  {
    hide Bit;
    var bits := Given(value, o, n, be);
    forall m | 0 <= m < 8 * |value| ensures Bit(other, m, be) == if o <= m < o + n then Bit(value, m, be) else false {
      if o <= m < o + n { assert bits[m - o] == Bit(value, o + (m - o), be); }
    }
  }

  lemma WideFits(s: Store, ps: seq<Piece>, be: bool)
    requires AllWide(s, ps, be)
    ensures AllFitting(s, ps, be) && AllFit(s, ps, be)
  {
    hide Load;
    forall i | 0 <= i < |ps| ensures Fits(s, ps[i], be) { assert Wide(s, ps[i], be); }
  }
}
