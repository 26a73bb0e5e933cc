/** The temporary memory allocator: blocks are cut from the current pool one after the other, full pools are retired, and
    everything is given back at the next collection. Each pool is a sequence of cells of its own. */
module TempPool {
  import opened Wrappers

  const ALIGNMENT: nat := 8
  const HEADER: nat := 8
  const LINK: nat := 16

  type Memory = map<int, seq<int>>

  /** A block: its pool, the offset of its first cell and its size. The size is also kept in the header before it. */
  datatype Block = Block(pool: int, off: nat, size: nat)

  /** A block is aligned, lies in its pool behind the reserved link, and its header tells its size. */
  ghost predicate Inside(mem: Memory, b: Block) {
    && b.pool in mem && b.off % ALIGNMENT == 0 && LINK + HEADER <= b.off && b.off + b.size <= |mem[b.pool]|
    && mem[b.pool][b.off - HEADER] == b.size
  }

  /** Two blocks, with their headers, do not overlap. */
  predicate Apart(a: Block, b: Block) {
    a.pool != b.pool || a.off + a.size <= b.off - HEADER || b.off + b.size <= a.off - HEADER
  }

  ghost predicate BlocksOk(blocks: seq<Block>, mem: Memory, cur: Option<int>, pos: nat) {
    && (forall i :: 0 <= i < |blocks| ==> Inside(mem, blocks[i]))
    && (forall i, j :: 0 <= i < j < |blocks| ==> Apart(blocks[i], blocks[j]))
    && (forall i :: 0 <= i < |blocks| && cur == Some(blocks[i].pool) ==> blocks[i].off + blocks[i].size <= pos)
  }

  /** Every pool is either the current one or retired, once. */
  ghost predicate PoolsOk(mem: Memory, cur: Option<int>, pos: nat, max: nat, retired: seq<int>, next: int) {
    && (forall i, j :: 0 <= i < j < |retired| ==> retired[i] != retired[j])
    && (forall p :: p in mem <==> p in retired || cur == Some(p))
    && (cur.Some? ==> cur.value in mem && cur.value !in retired && LINK <= pos <= max == |mem[cur.value]|)
    && (cur.None? ==> max == 0)
    && (forall p :: p in mem ==> p < next)
  }

  function Contents(mem: Memory, b: Block): seq<int>
    requires b.pool in mem && b.off + b.size <= |mem[b.pool]|
  {
    mem[b.pool][b.off..b.off + b.size]
  }

  ghost predicate Same(blocks: seq<Block>, mem0: Memory, mem1: Memory) {
    forall i :: 0 <= i < |blocks| ==>
      && Inside(mem0, blocks[i]) && Inside(mem1, blocks[i]) && Contents(mem1, blocks[i]) == Contents(mem0, blocks[i])
  }

  lemma SameItself(blocks: seq<Block>, mem: Memory, cur: Option<int>, pos: nat)
    requires BlocksOk(blocks, mem, cur, pos)
    ensures Same(blocks, mem, mem)
  {
  }

  lemma SameTrans(blocks: seq<Block>, m0: Memory, m1: Memory, m2: Memory)
    requires Same(blocks, m0, m1) && Same(blocks, m1, m2)
    ensures Same(blocks, m0, m2)
  {
    hide Inside;
  }

  /** A pointer to a block. */
  datatype Pointer = Pointer(pool: int, off: nat)

  function At(b: Block): Pointer { Pointer(b.pool, b.off) }

  /** What changing the size of block `i` to that of `b` promises: `b` begins with the contents of the old block, and every
      other block keeps its place and its contents. */
  ghost predicate Resized(blocks0: seq<Block>, mem0: Memory, blocks1: seq<Block>, mem1: Memory, i: nat, b: Block) {
    && i < |blocks0| && (blocks1 == blocks0[i := b] || blocks1 == blocks0 + [b])
    && Inside(mem0, blocks0[i]) && Inside(mem1, b) && blocks0[i].size <= b.size
    && Contents(mem1, b)[..blocks0[i].size] == Contents(mem0, blocks0[i])
    && (forall j :: 0 <= j < |blocks0| && j != i ==> Kept(mem0, mem1, blocks0[j]))
  }

  ghost predicate Kept(mem0: Memory, mem1: Memory, b: Block) {
    Inside(mem0, b) && Inside(mem1, b) && Contents(mem1, b) == Contents(mem0, b)
  }

  lemma ResizedNot(blocks: seq<Block>, mem: Memory, i: nat)
    requires i < |blocks| && forall j :: 0 <= j < |blocks| ==> Inside(mem, blocks[j])
    ensures Resized(blocks, mem, blocks, mem, i, blocks[i])
  {
    assert Contents(mem, blocks[i])[..blocks[i].size] == Contents(mem, blocks[i]);
  }

  lemma ResizedGrown(blocks: seq<Block>, mem: Memory, cur: int, pos: nat, i: nat, size: nat)
    requires BlocksOk(blocks, mem, Some(cur), pos) && cur in mem && i < |blocks|
    requires blocks[i].pool == cur && blocks[i].off + blocks[i].size == pos && blocks[i].size <= size && blocks[i].off + size <= |mem[cur]|
    ensures HEADER <= blocks[i].off
    ensures var b := blocks[i].(size := size);
            var m := Stored(mem, cur, b.off - HEADER, size);
            BlocksOk(blocks[i := b], m, Some(cur), b.off + size) && Resized(blocks, mem, blocks[i := b], m, i, b)
  {
    assert Inside(mem, blocks[i]);
    Grow(blocks, mem, cur, pos, i, size);
  }

  lemma ResizedMoved(blocks: seq<Block>, mem0: Memory, mid: Memory, mem: Memory, i: nat, b: Block)
    requires i < |blocks| && Same(blocks, mem0, mid) && blocks[i].size <= b.size
    requires forall k :: 0 <= k < |blocks| ==> Kept(mid, mem, blocks[k])
    requires Inside(mem, b) && Inside(mid, blocks[i]) && Contents(mem, b)[..blocks[i].size] == Contents(mid, blocks[i])[..blocks[i].size]
    ensures Resized(blocks, mem0, blocks + [b], mem, i, b)
  {
    assert Contents(mid, blocks[i])[..blocks[i].size] == Contents(mid, blocks[i]);
  }

  // ----- steps -----

  /** A new pool becomes the current one and the old one is retired; no block is touched. */
  lemma NewPool(blocks: seq<Block>, mem: Memory, cur: Option<int>, pos: nat, max: nat, retired: seq<int>, next: int, cells: seq<int>)
    requires BlocksOk(blocks, mem, cur, pos) && PoolsOk(mem, cur, pos, max, retired, next) && |cells| >= LINK
    ensures var m, r := mem[next := cells], if cur.Some? then retired + [cur.value] else retired;
            && BlocksOk(blocks, m, Some(next), LINK) && PoolsOk(m, Some(next), LINK, |cells|, r, next + 1) && Same(blocks, mem, m)
  {
    var m := mem[next := cells];
    forall i | 0 <= i < |blocks| ensures Inside(m, blocks[i]) && Contents(m, blocks[i]) == Contents(mem, blocks[i]) && blocks[i].pool != next {
      assert Inside(mem, blocks[i]);
    }
  }

  function Stored(mem: Memory, p: int, k: nat, v: int): Memory
    requires p in mem && k < |mem[p]|
  {
    mem[p := mem[p][k := v]]
  }

  /** A cell that belongs to no block and to no header can be written. */
  lemma StoreOutside(b: Block, mem: Memory, p: int, k: nat, v: int)
    requires Inside(mem, b) && p in mem && k < |mem[p]|
    requires b.pool == p ==> k < b.off - HEADER || b.off + b.size <= k
    ensures Inside(Stored(mem, p, k, v), b) && Contents(Stored(mem, p, k, v), b) == Contents(mem, b)
  {
  }

  /** A block is cut from the current pool behind all others. */
  lemma Cut(blocks: seq<Block>, mem: Memory, cur: int, pos: nat, b: Block)
    requires BlocksOk(blocks, mem, Some(cur), pos) && cur in mem
    requires b.pool == cur && b.off % ALIGNMENT == 0 && LINK <= pos && pos + HEADER <= b.off && b.off + b.size <= |mem[cur]|
    ensures var m := Stored(mem, cur, b.off - HEADER, b.size);
            BlocksOk(blocks + [b], m, Some(cur), b.off + b.size) && Same(blocks, mem, m)
  {
    var m := Stored(mem, cur, b.off - HEADER, b.size);
    forall i | 0 <= i < |blocks|
      ensures Inside(m, blocks[i]) && Contents(m, blocks[i]) == Contents(mem, blocks[i]) && Apart(blocks[i], b)
    {
      StoreOutside(blocks[i], mem, cur, b.off - HEADER, b.size);
    }
    assert Inside(m, b);
    var all := blocks + [b];
    forall i, j | 0 <= i < j < |all| ensures Apart(all[i], all[j]) {
      if j < |blocks| { assert Apart(blocks[i], blocks[j]); }
    }
  }

  /** The last block of the current pool grows in place. */
  lemma Grow(blocks: seq<Block>, mem: Memory, cur: int, pos: nat, i: nat, size: nat)
    requires BlocksOk(blocks, mem, Some(cur), pos) && cur in mem && i < |blocks|
    requires blocks[i].pool == cur && blocks[i].off + blocks[i].size == pos && blocks[i].size <= size && blocks[i].off + size <= |mem[cur]|
    ensures var b := blocks[i].(size := size);
            var m := Stored(mem, cur, b.off - HEADER, size);
            && BlocksOk(blocks[i := b], m, Some(cur), b.off + size)
            && (forall j :: 0 <= j < |blocks| && j != i ==>
                 Inside(mem, blocks[j]) && Inside(m, blocks[j]) && Contents(m, blocks[j]) == Contents(mem, blocks[j]))
            && Contents(m, b)[..blocks[i].size] == Contents(mem, blocks[i])
  {
    var a := blocks[i];
    assert Inside(mem, a);
    var b := a.(size := size);
    var m := Stored(mem, cur, b.off - HEADER, size);
    assert Inside(m, b);
    forall j | 0 <= j < |blocks| && j != i
      ensures Inside(m, blocks[j]) && Contents(m, blocks[j]) == Contents(mem, blocks[j]) && Apart(blocks[j], b) && Apart(b, blocks[j])
    {
      assert Inside(mem, blocks[j]);
      assert if j < i then Apart(blocks[j], a) else Apart(a, blocks[j]);
      StoreOutside(blocks[j], mem, cur, b.off - HEADER, size);
    }
    var all := blocks[i := b];
    forall j, k | 0 <= j < k < |all| ensures Apart(all[j], all[k]) {
      if j != i && k != i { assert Apart(blocks[j], blocks[k]); }
    }
  }

  /** A client writes to its block. */
  lemma Write(blocks: seq<Block>, mem: Memory, cur: Option<int>, pos: nat, i: nat, k: nat, v: int)
    requires BlocksOk(blocks, mem, cur, pos) && i < |blocks| && k < blocks[i].size
    ensures var b := blocks[i];
            && b.pool in mem && b.off + b.size <= |mem[b.pool]|
            && var m := Stored(mem, b.pool, b.off + k, v);
            && BlocksOk(blocks, m, cur, pos) && Contents(m, b) == Contents(mem, b)[k := v]
            && (forall j :: 0 <= j < |blocks| && j != i ==>
                 Inside(mem, blocks[j]) && Inside(m, blocks[j]) && Contents(m, blocks[j]) == Contents(mem, blocks[j]))
  {
    var b := blocks[i];
    assert Inside(mem, b);
    var m := Stored(mem, b.pool, b.off + k, v);
    forall j | 0 <= j < |blocks| && j != i ensures Inside(m, blocks[j]) && Contents(m, blocks[j]) == Contents(mem, blocks[j]) {
      assert Inside(mem, blocks[j]);
      assert if j < i then Apart(blocks[j], b) else Apart(b, blocks[j]);
      StoreOutside(blocks[j], mem, b.pool, b.off + k, v);
    }
    assert Inside(m, b);
  }

  /** Offsets are rounded up to the alignment. */
  function Aligned(n: nat): (r: nat)
    ensures r % ALIGNMENT == 0 && n <= r < n + ALIGNMENT
  {
    (n + ALIGNMENT - 1) / ALIGNMENT * ALIGNMENT
  }

  /** Every pool that was ever allocated is in use or has been freed, once. */
  ghost predicate FreedOk(freed: multiset<int>, mem: Memory, next: int) {
    0 <= next && forall p :: freed[p] + (if p in mem then 1 else 0) == if 0 <= p < next then 1 else 0
  }

  lemma FreedMore(freed: multiset<int>, mem: Memory, next: int, p: int)
    requires FreedOk(freed, mem, next) && p in mem && p < next
    ensures FreedOk(freed + multiset{p}, mem - {p}, next)
  {
  }

  lemma FreedNew(freed: multiset<int>, mem: Memory, next: int, cells: seq<int>)
    requires FreedOk(freed, mem, next)
    ensures FreedOk(freed, mem[next := cells], next + 1)
  {
  }

  lemma FreedSame(freed: multiset<int>, m0: Memory, m1: Memory, next: int)
    requires FreedOk(freed, m0, next) && SamePools(m0, m1)
    ensures FreedOk(freed, m1, next)
  {
  }

  /** Zeroed memory. */
  function Cells(n: nat): (s: seq<int>)
    ensures |s| == n
  {
    seq(n, i => 0)
  }

  // ----- the size of the pool -----

  /** The demand: what was used since the last collection, or, if that was less, a slowly falling number. */
  function NextAverage(used: nat, avr: nat, poolSize: nat): nat {
    if used >= avr then used else if avr > poolSize / 0x10 then avr - poolSize / 0x10000 else avr
  }

  /** Doubling until the demand is met. */
  function Doubled(n: nat, demand: nat): (r: nat)
    requires n > 0
    ensures r >= n && r >= demand && (r == n || r < 2 * demand)
    decreases demand - n
  {
    if n >= demand then n else Doubled(2 * n, demand)
  }

  /** The size of the pool for the time until the next collection. */
  function NextSize(max: nat, avr: nat, poolSize: nat): nat
    requires poolSize >= 0x10
  {
    if max < avr && max < poolSize then
      var n := Doubled(if max < poolSize / 0x10 then poolSize / 0x10 else max, avr);
      if n > poolSize then poolSize else n
    else if avr < max / 4 && max > poolSize / 0x10 then max / 2
    else max
  }

  /** The pool grows only when it was too small, to what is needed but not beyond the limit, and is halved only when it is more
      than four times as large as needed. */
  lemma NextSizeIs(max: nat, avr: nat, poolSize: nat)
    requires poolSize >= 0x10
    ensures var n := NextSize(max, avr, poolSize);
            && (n > max ==> max < avr && n <= poolSize && (n >= avr || n == poolSize))
            && (n < max ==> n == max / 2 && 4 * avr < max)
            && (max < avr && max < poolSize ==> n > max)
    ensures NextSize(0, 5000, 0x1_0000) == 0x2000 && NextSize(0x1000, 0x1001, 0x1_0000) == 0x2000 && NextSize(0x8000, 0x1_8000, 0x1_0000) == 0x1_0000
    ensures NextSize(0x8000, 0x1000, 0x1_0000) == 0x4000 && NextSize(0x1000, 0, 0x1_0000) == 0x1000 && NextSize(0x8000, 0x2000, 0x1_0000) == 0x8000
    ensures NextAverage(7, 7, 0x1_0000) == 7 && NextAverage(6, 0x1001, 0x1_0000) == 0x1000 && NextAverage(6, 0x1000, 0x1_0000) == 0x1000
  {
    assert Doubled(0x1000, 5000) == 0x2000 && Doubled(0x1000, 0x1001) == 0x2000;
  }

  ghost predicate SamePools(m0: Memory, m1: Memory) {
    forall p :: p in m0 <==> p in m1
  }

  class Allocator {
    /** The size from which pools are not grown any more. */
    const poolSize: nat
    var mem: Memory
    var cur: Option<int>
    var pos: nat
    var max: nat
    var avr: nat
    var retired: seq<int>
    var retiredSize: nat
    var next: int
    ghost var blocks: seq<Block>
    /** How often each pool has been freed. */
    ghost var freed: multiset<int>

    ghost predicate Valid()
      reads this
    {
      && BlocksOk(blocks, mem, cur, pos) && PoolsOk(mem, cur, pos, max, retired, next)
      && FreedOk(freed, mem, next) && poolSize >= 0x400
    }

    constructor (poolSize: nat)
      requires poolSize >= 0x400
      ensures Valid() && blocks == [] && freed == multiset{} && this.poolSize == poolSize
      ensures mem == map[] && cur == None && pos == max == avr == retiredSize == 0 && retired == [] && next == 0
    {
      this.poolSize := poolSize;
      mem, cur, pos, max, avr, retired, retiredSize, next := map[], None, 0, 0, 0, [], 0, 0;
      blocks, freed := [], multiset{};
    }

    /** Allocate a block: all blocks since the last collection keep their places and their contents. */
    method TmpAlloc(size: nat) returns (b: Block)
      requires Valid()
      modifies this`mem, this`cur, this`pos, this`max, this`retired, this`retiredSize, this`next, this`blocks
      ensures Valid() && blocks == old(blocks) + [b] && b.size == size && Same(old(blocks), old(mem), mem)
      ensures old(retired) <= retired && old(next) <= next
      ensures b.off % 8 == 0 && b.off >= 24 && b.pool in mem && b.off + size <= |mem[b.pool]| && mem[b.pool][b.off - 8] == size
      ensures if old(pos) + size + 16 > old(max) then cur == Some(old(next)) && max == poolSize / 0x10 + size
              else cur == old(cur) && max == old(max) && retired == old(retired) && b.off == Aligned(old(pos) + 8)
      ensures cur == Some(b.pool) && pos == b.off + size
    {
      hide BlocksOk, PoolsOk, Same, FreedOk, SamePools;
      SameItself(blocks, mem, cur, pos);
      if pos + size + ALIGNMENT + HEADER > max {
        Retire(size);
      }
      HasPool(mem, cur, pos, max, retired, next);
      ghost var before := mem;
      var off := Aligned(pos + HEADER);
      b := Block(cur.value, off, size);
      Cut(blocks, mem, cur.value, pos, b);
      CellKept(mem, cur, pos, max, retired, next, off - HEADER, size, off + size);
      mem := Stored(mem, cur.value, off - HEADER, size);
      FreedSame(freed, before, mem, next);
      pos := off + size;
      blocks := blocks + [b];
      SameTrans(old(blocks), old(mem), before, mem);
    }

    static lemma HasPool(mem: Memory, cur: Option<int>, pos: nat, max: nat, retired: seq<int>, next: int)
      requires PoolsOk(mem, cur, pos, max, retired, next) && max > 0
      ensures cur.Some? && cur.value in mem && LINK <= pos <= max == |mem[cur.value]|
    {
    }

    static lemma CellKept(mem: Memory, cur: Option<int>, pos: nat, max: nat, retired: seq<int>, next: int, k: nat, v: int, pos1: nat)
      requires PoolsOk(mem, cur, pos, max, retired, next) && cur.Some? && k < max && pos <= pos1 <= max
      ensures cur.value in mem && k < |mem[cur.value]|
      ensures PoolsOk(Stored(mem, cur.value, k, v), cur, pos1, max, retired, next)
      ensures SamePools(mem, Stored(mem, cur.value, k, v))
    {
    }

    /** Start a new pool that has room for the block. */
    method Retire(size: nat)
      requires Valid()
      modifies this`mem, this`cur, this`pos, this`max, this`retired, this`retiredSize, this`next
      ensures Valid() && Same(blocks, old(mem), mem)
      ensures pos + size + ALIGNMENT + HEADER <= max
      ensures retired == if old(cur).Some? then old(retired) + [old(cur).value] else old(retired)
      ensures cur == Some(old(next)) && next == old(next) + 1
      ensures max == poolSize / 0x10 + size && retiredSize == old(retiredSize) + (if old(cur).Some? then old(pos) else 0) && pos == 16
    {
      hide BlocksOk, PoolsOk, Same, FreedOk, Cells;
      var n := poolSize / 0x10 + size;
      var cells := Cells(n);
      FreedNew(freed, mem, next, cells);
      NewPool(blocks, mem, cur, pos, max, retired, next, cells);
      if cur.Some? {
        retired := retired + [cur.value];
        retiredSize := retiredSize + pos;
      }
      max := n;
      mem := mem[next := cells];
      cur, next := Some(next), next + 1;
      pos := LINK;
    }

    /** Change the size of a block, given by its pointer: it stays where it is if it is large enough, or is the last of the
        current pool and can grow there; otherwise a new block gets its contents. The null pointer asks for a new block. */
    method TmpRealloc(ptr: Option<Pointer>, size: nat, ghost i: nat) returns (b: Block)
      requires Valid() && (ptr.Some? ==> i < |blocks| && At(blocks[i]) == ptr.value)
      modifies this`mem, this`cur, this`pos, this`max, this`retired, this`retiredSize, this`next, this`blocks
      ensures Valid() && b in blocks && size <= b.size && Inside(mem, b)
      ensures old(retired) <= retired && old(next) <= next
      ensures ptr.None? ==> blocks == old(blocks) + [b] && Same(old(blocks), old(mem), mem)
      ensures ptr.Some? ==> Resized(old(blocks), old(mem), blocks, mem, i, b)
      ensures ptr.Some? && size <= old(blocks)[i].size ==> b == old(blocks)[i] && blocks == old(blocks) && mem == old(mem)
      ensures ptr.Some? && size > old(blocks)[i].size ==>
                if old(cur) == Some(ptr.value.pool) && ptr.value.off + old(blocks)[i].size == old(pos) && ptr.value.off + size <= old(max)
                then b == old(blocks)[i].(size := size) && pos == b.off + size && cur == old(cur) && next == old(next)
                else blocks == old(blocks) + [b] && b.size == size
    {
      hide BlocksOk, PoolsOk, Same, Resized, Inside, Contents, FreedOk;
      if ptr.None? {
        b := TmpAlloc(size);
        AllInside(blocks, mem, cur, pos);
        return;
      }
      AllInside(blocks, mem, cur, pos);
      HeaderTells(mem, blocks[i]);
      var p := ptr.value;
      var m := mem[p.pool][p.off - HEADER];
      b := Block(p.pool, p.off, m);
      assert b == blocks[i];
      if m >= size {
        ResizedNot(blocks, mem, i);
        return;
      }
      if cur == Some(p.pool) && p.off + m == pos && p.off + size <= max {
        b := GrowInPlace(p, size, i);
      } else {
        b := Move(p, m, size, i);
      }
    }

    method GrowInPlace(p: Pointer, size: nat, ghost i: nat) returns (b: Block)
      requires Valid() && i < |blocks| && At(blocks[i]) == p
      requires cur == Some(p.pool) && p.off + blocks[i].size == pos && blocks[i].size <= size && p.off + size <= max && HEADER <= p.off
      modifies this`mem, this`pos, this`blocks
      ensures Valid() && b in blocks && size <= b.size && Inside(mem, b)
      ensures Resized(old(blocks), old(mem), blocks, mem, i, b)
      ensures b == old(blocks)[i].(size := size) && pos == b.off + size
    {
      hide BlocksOk, PoolsOk, Same, Resized, Inside, Contents, FreedOk, SamePools;
      HasPool(mem, cur, pos, max, retired, next);
      ResizedGrown(blocks, mem, p.pool, pos, i, size);
      CellKept(mem, cur, pos, max, retired, next, p.off - HEADER, size, p.off + size);
      ghost var before := mem;
      mem := Stored(mem, p.pool, p.off - HEADER, size);
      FreedSame(freed, before, mem, next);
      pos := p.off + size;
      b := Block(p.pool, p.off, size);
      blocks := blocks[i := b];
      AllInside(blocks, mem, cur, pos);
      assert blocks[i] == b;
    }

    /** A new block gets the contents of the old one, which stays until the collection. */
    method Move(p: Pointer, m: nat, size: nat, ghost i: nat) returns (b: Block)
      requires Valid() && i < |blocks| && blocks[i] == Block(p.pool, p.off, m) && m <= size
      modifies this`mem, this`cur, this`pos, this`max, this`retired, this`retiredSize, this`next, this`blocks
      ensures Valid() && b in blocks && size <= b.size && Inside(mem, b)
      ensures old(retired) <= retired && old(next) <= next
      ensures Resized(old(blocks), old(mem), blocks, mem, i, b)
      ensures blocks == old(blocks) + [b] && b.size == size
    {
      hide BlocksOk, PoolsOk, Same, Resized, Inside, Contents, FreedOk;
      b := TmpAlloc(size);
      assert blocks[|blocks| - 1] == b && blocks[i] == old(blocks)[i];
      ghost var mid := mem;
      CopyBlock(p, At(b), m, i, |blocks| - 1);
      forall k | 0 <= k < |old(blocks)| ensures Kept(mid, mem, old(blocks)[k]) { assert old(blocks)[k] == blocks[k]; }
      ResizedMoved(old(blocks), old(mem), mid, mem, i, b);
    }

    static lemma AllInside(blocks: seq<Block>, mem: Memory, cur: Option<int>, pos: nat)
      requires BlocksOk(blocks, mem, cur, pos)
      ensures forall j :: 0 <= j < |blocks| ==> Inside(mem, blocks[j])
    {
    }

    static lemma HeaderTells(mem: Memory, b: Block)
      requires Inside(mem, b)
      ensures b.pool in mem && HEADER <= b.off && b.off + b.size <= |mem[b.pool]| && mem[b.pool][b.off - HEADER] == b.size
    {
    }

    /** Copy the first `m` cells of one block to another. */
    method CopyBlock(src: Pointer, dst: Pointer, m: nat, ghost i: nat, ghost j: nat)
      requires Valid() && i < j < |blocks| && m <= blocks[i].size && m <= blocks[j].size && src == At(blocks[i]) && dst == At(blocks[j])
      modifies this`mem
      ensures Valid() && Inside(mem, blocks[j]) && Inside(old(mem), blocks[i]) && Inside(old(mem), blocks[j])
      ensures forall k :: 0 <= k < |blocks| && k != j ==> Kept(old(mem), mem, blocks[k])
      ensures Contents(mem, blocks[j])[..m] == Contents(old(mem), blocks[i])[..m]
    {
      CopyStart(blocks, mem, cur, pos, i, j);
      hide BlocksOk, PoolsOk, Inside, Contents, Kept, FreedOk;
      for n := 0 to m
        invariant Valid() && Inside(mem, blocks[j]) && |Contents(mem, blocks[j])| == blocks[j].size
        invariant forall k :: 0 <= k < |blocks| && k != j ==> Kept(old(mem), mem, blocks[k])
        invariant Contents(mem, blocks[j])[..n] == Contents(old(mem), blocks[i])[..n]
      {
        ghost var before := mem;
        CellAt(old(mem), mem, blocks[i], n);
        Put(dst, n, mem[src.pool][src.off + n], j);
        Longer(Contents(before, blocks[j]), Contents(mem, blocks[j]), Contents(old(mem), blocks[i]), n);
        forall k | 0 <= k < |blocks| && k != j ensures Kept(old(mem), mem, blocks[k]) { KeptTrans(old(mem), before, mem, blocks[k]); }
      }
    }

    static lemma CopyStart(blocks: seq<Block>, mem: Memory, cur: Option<int>, pos: nat, i: nat, j: nat)
      requires BlocksOk(blocks, mem, cur, pos) && i < j < |blocks|
      ensures Inside(mem, blocks[i]) && Inside(mem, blocks[j])
      ensures |Contents(mem, blocks[i])| == blocks[i].size && |Contents(mem, blocks[j])| == blocks[j].size
      ensures forall k :: 0 <= k < |blocks| ==> Kept(mem, mem, blocks[k])
    {
    }

    static lemma KeptTrans(m0: Memory, m1: Memory, m2: Memory, b: Block)
      requires Kept(m0, m1, b) && Kept(m1, m2, b)
      ensures Kept(m0, m2, b)
    {
    }

    static lemma Longer(a: seq<int>, b: seq<int>, c: seq<int>, n: nat)
      requires n < |a| && n < |c| && a[..n] == c[..n] && b == a[n := c[n]]
      ensures b[..n + 1] == c[..n + 1]
    {
      assert b[..n + 1] == a[..n] + [c[n]];
      assert c[..n + 1] == c[..n] + [c[n]];
    }

    static lemma CellAt(mem0: Memory, mem: Memory, b: Block, n: nat)
      requires Kept(mem0, mem, b) && n < b.size
      ensures b.pool in mem && b.off + n < |mem[b.pool]| && |Contents(mem0, b)| == b.size && Contents(mem0, b)[n] == mem[b.pool][b.off + n]
    {
    }

    /** A client writes one cell of its block. */
    method Put(p: Pointer, k: nat, v: int, ghost i: nat)
      requires Valid() && i < |blocks| && k < blocks[i].size && p == At(blocks[i])
      modifies this`mem
      ensures Valid() && Inside(mem, blocks[i]) && Inside(old(mem), blocks[i]) && |Contents(mem, blocks[i])| == blocks[i].size
      ensures |Contents(old(mem), blocks[i])| == blocks[i].size && Contents(mem, blocks[i]) == Contents(old(mem), blocks[i])[k := v]
      ensures forall j :: 0 <= j < |blocks| && j != i ==> Kept(old(mem), mem, blocks[j])
    {
      hide BlocksOk, PoolsOk, FreedOk, SamePools;
      Write(blocks, mem, cur, pos, i, k, v);
      PoolKept(mem, cur, pos, max, retired, next, p.pool, p.off + k, v);
      ghost var before := mem;
      mem := Stored(mem, p.pool, p.off + k, v);
      FreedSame(freed, before, mem, next);
    }

    static lemma PoolKept(mem: Memory, cur: Option<int>, pos: nat, max: nat, retired: seq<int>, next: int, p: int, k: nat, v: int)
      requires PoolsOk(mem, cur, pos, max, retired, next) && p in mem && k < |mem[p]|
      ensures PoolsOk(Stored(mem, p, k, v), cur, pos, max, retired, next) && SamePools(mem, Stored(mem, p, k, v))
    {
    }

    /** The collection: every retired pool is freed, once; the current one is kept, possibly at another size. */
    method TmpGc()
      requires Valid()
      modifies this
      ensures Valid() && blocks == [] && retired == [] && retiredSize == 0
      ensures old(next) <= next
      ensures forall p :: p in old(freed) || p in old(retired) || (p in old(mem) && p !in mem) ==> p in freed
      ensures forall p :: p in mem <==> cur == Some(p)
      ensures avr == NextAverage(old(pos + retiredSize), old(avr), poolSize) && max == NextSize(old(max), avr, poolSize)
    {
      hide BlocksOk, PoolsOk, FreedOk;
      Adapt();
      ghost var kept := mem.Keys;
      FreeRetired();
      retiredSize := 0;
    }

    /** The size that follows the demand since the last collection; the present one if that is good enough. */
    method NewSize() returns (n: nat)
      requires Valid()
      modifies this`avr
      ensures n == max || n >= LINK
      ensures avr == NextAverage(pos + retiredSize, old(avr), poolSize) && n == NextSize(max, avr, poolSize)
    {
      hide BlocksOk, PoolsOk, FreedOk, Doubled;
      if pos + retiredSize >= avr {
        avr := pos + retiredSize;
      } else if avr > poolSize / 0x10 {
        assert poolSize / 0x10000 <= poolSize / 0x10;
        avr := avr - poolSize / 0x10000;
      }
      n := max;
      if max < avr && max < poolSize {
        n := GrowTo(max, avr, poolSize);
      } else if avr < max / 4 && max > poolSize / 0x10 {
        n := max / 2;
      }
    }

    static method GrowTo(max: nat, avr: nat, poolSize: nat) returns (n: nat)
      requires poolSize >= 0x400 && max < avr && max < poolSize
      ensures n == NextSize(max, avr, poolSize) && n >= 0x40
    {
      n := max;
      if n < poolSize / 0x10 { n := poolSize / 0x10; }
      ghost var first := n;
      while n < avr
        invariant n >= 0x40 && Doubled(first, avr) == Doubled(n, avr)
        decreases avr - n
      {
        n := n * 2;
      }
      if n > poolSize { n := poolSize; }
    }

    /** Give the current pool a size that follows the demand. The blocks are gone. */
    method Adapt()
      requires Valid()
      modifies this`mem, this`cur, this`pos, this`max, this`avr, this`next, this`blocks, this`freed
      ensures Valid() && blocks == [] && (cur.Some? ==> pos == LINK)
      ensures old(next) <= next
      ensures forall p :: p in old(freed) || (p in old(mem) && p !in mem) ==> p in freed
      ensures retired == old(retired)
      ensures avr == NextAverage(old(pos) + retiredSize, old(avr), poolSize) && max == NextSize(old(max), avr, poolSize)
    {
      hide PoolsOk, FreedOk;
      blocks := [];
      var n := NewSize();
      if n != max {
        Resize(n);
      }
      PosReset(mem, cur, pos, max, retired, next);
      pos := LINK;
    }

    static lemma PosReset(mem: Memory, cur: Option<int>, pos: nat, max: nat, retired: seq<int>, next: int)
      requires PoolsOk(mem, cur, pos, max, retired, next)
      ensures PoolsOk(mem, cur, LINK, max, retired, next)
    {
    }

    /** Reallocate the current pool: the old memory is freed and a new pool takes its place. */
    method Resize(n: nat)
      requires Valid() && blocks == [] && n >= LINK
      modifies this`mem, this`cur, this`pos, this`max, this`next, this`freed
      ensures Valid() && max == n && cur.Some? && old(cur) != cur
      ensures old(next) <= next
      ensures forall p :: p in old(freed) || (p in old(mem) && p !in mem) ==> p in freed
    {
      hide PoolsOk, FreedOk, Cells;
      var cells := Cells(n);
      ResizedPool(mem, cur, pos, max, retired, next, cells);
      if cur.Some? {
        FreedMore(freed, mem, next, cur.value);
        freed := freed + multiset{cur.value};
        mem := mem - {cur.value};
      }
      FreedNew(freed, mem, next, cells);
      mem := mem[next := cells];
      cur, next, max, pos := Some(next), next + 1, n, LINK;
    }

    static lemma ResizedPool(mem: Memory, cur: Option<int>, pos: nat, max: nat, retired: seq<int>, next: int, cells: seq<int>)
      requires PoolsOk(mem, cur, pos, max, retired, next) && |cells| >= LINK
      ensures (cur.Some? ==> cur.value in mem && cur.value < next && cur.value !in retired) && next !in mem && next !in retired
      ensures var m := if cur.Some? then mem - {cur.value} else mem;
              PoolsOk(m[next := cells], Some(next), LINK, |cells|, retired, next + 1)
    {
      if cur.Some? { assert cur.value in mem; }
      assert next !in mem;
    }

    /** Free the retired pools. */
    method FreeRetired()
      requires Valid() && blocks == []
      modifies this`mem, this`retired, this`freed
      ensures Valid() && retired == [] && cur == old(cur)
      ensures forall p :: p in old(freed) || p in old(retired) || (p in old(mem) && p !in mem) ==> p in freed
      ensures forall p :: p in mem <==> cur == Some(p)
    {
      hide PoolsOk, FreedOk;
      while retired != []
        invariant Valid()
        invariant forall p :: p in old(freed) || (p in old(mem) && p !in mem) ==> p in freed
        invariant forall p :: p in old(retired) ==> p in retired || p in freed
        decreases |retired|
      {
        var l := retired[0];
        Unretire(mem, cur, pos, max, retired, next);
        retired := retired[1..];
        FreedMore(freed, mem, next, l);
        freed := freed + multiset{l};
        mem := mem - {l};
      }
      OnlyCurrent(mem, cur, pos, max, retired, next);
    }

    static lemma Unretire(mem: Memory, cur: Option<int>, pos: nat, max: nat, retired: seq<int>, next: int)
      requires PoolsOk(mem, cur, pos, max, retired, next) && retired != []
      ensures retired[0] in mem && retired[0] < next && PoolsOk(mem - {retired[0]}, cur, pos, max, retired[1..], next)
    {
      var m, rest := mem - {retired[0]}, retired[1..];
      assert retired[0] in retired;
      assert forall i :: 0 <= i < |rest| ==> rest[i] == retired[i + 1];
      assert retired[0] !in rest;
      forall p ensures p in m <==> p in rest || cur == Some(p) {
        if p in rest {
          var i :| 0 <= i < |rest| && rest[i] == p;
          assert retired[i + 1] == p;
        }
        if p in m && p in retired {
          var i :| 0 <= i < |retired| && retired[i] == p;
          assert rest[i - 1] == p;
        }
      }
    }

    static lemma OnlyCurrent(mem: Memory, cur: Option<int>, pos: nat, max: nat, retired: seq<int>, next: int)
      requires PoolsOk(mem, cur, pos, max, retired, next) && retired == []
      ensures forall p :: p in mem <==> cur == Some(p)
    {
    }

    /** Every pool that was ever allocated is the current one, or is retired and waits for the collection, or has been freed: one
        of them, and once. So none leaks and none is freed twice. */
    lemma EachPoolOnce(p: int)
      requires Valid()
      ensures freed[p] + multiset(retired)[p] + (if cur == Some(p) then 1 else 0) == if 0 <= p < next then 1 else 0
    {
      hide BlocksOk;
      CountOnce(retired, p);
    }

    static lemma {:induction false} CountOnce(ps: seq<int>, p: int)
      requires forall i, j :: 0 <= i < j < |ps| ==> ps[i] != ps[j]
      ensures multiset(ps)[p] == if p in ps then 1 else 0
    {
      if ps != [] {
        var front, last := ps[..|ps| - 1], ps[|ps| - 1];
        CountOnce(front, p);
        assert ps == front + [last];
      }
    }

    /** Any use of the allocator: from its allocation to the next collection, each block reads as an array of its own that only
        its client writes, through every move and change of size. */
    method Run(uses: seq<Use>) returns (ptrs: seq<Pointer>, ghost places: seq<nat>)
      requires Valid()
      modifies this
      ensures Valid() && Serves(blocks, mem, places, ptrs, KnownAfter(uses))
      ensures old(next) <= next && forall p :: p in old(freed) ==> p in freed
      ensures forall p :: freed[p] + multiset(retired)[p] + (if cur == Some(p) then 1 else 0) == if 0 <= p < next then 1 else 0
    {
      hide BlocksOk, PoolsOk, FreedOk, Serves, Known;
      var known: seq<View> := [];
      ptrs, places := [], [];
      ServesNone(blocks, mem);
      for n := 0 to |uses|
        invariant Valid() && known == KnownAfter(uses[..n]) && Serves(blocks, mem, places, ptrs, known)
        invariant old(next) <= next && forall p :: p in old(freed) ==> p in freed
      {
        ptrs, places := Perform(uses[n], ptrs, places, known);
        known := Known(known, uses[n]);
        assert uses[..n + 1][..n] == uses[..n];
      }
      assert uses[..|uses|] == uses;
      forall p ensures freed[p] + multiset(retired)[p] + (if cur == Some(p) then 1 else 0) == if 0 <= p < next then 1 else 0 {
        EachPoolOnce(p);
      }
    }

    method Perform(use: Use, ptrs0: seq<Pointer>, ghost places0: seq<nat>, known: seq<View>)
      returns (ptrs: seq<Pointer>, ghost places: seq<nat>)
      requires Valid() && Serves(blocks, mem, places0, ptrs0, known)
      modifies this
      ensures Valid() && Serves(blocks, mem, places, ptrs, Known(known, use))
      ensures old(next) <= next && forall p :: p in old(freed) ==> p in freed
      ensures use.Collect? ==> retired == [] && retiredSize == 0 && blocks == []
    {
      hide BlocksOk, PoolsOk, FreedOk, Same, Serves, Resized, Inside, Contents, Fitted;
      ptrs, places := ptrs0, places0;
      ServesLengths(blocks, mem, places, ptrs, known);
      match use {
        case Alloc(size) =>
          var b := TmpAlloc(size);
          ptrs, places := AddHandle(ptrs, places, known, b, size, old(blocks), old(mem));
        case ReallocNull(size) =>
          var b := TmpRealloc(None, size, 0);
          ptrs, places := AddHandle(ptrs, places, known, b, size, old(blocks), old(mem));
        case Realloc(h, size) =>
          if h < |ptrs| { ptrs, places := ReallocHandle(h, size, ptrs, places, known); }
        case Store(h, k, v) =>
          if h < |ptrs| && k < |known[h]| {
            ServesAt(blocks, mem, places, ptrs, known, h);
            Put(ptrs[h], k, v, places[h]);
            ServesStored(blocks, old(mem), mem, places, ptrs, known, h, k, v);
          }
        case Collect =>
          TmpGc();
          ptrs, places := [], [];
          ServesNone(blocks, mem);
      }
    }

    method AddHandle(ptrs0: seq<Pointer>, ghost places0: seq<nat>, known: seq<View>, b: Block, size: nat, ghost blocks0: seq<Block>, ghost mem0: Memory)
      returns (ptrs: seq<Pointer>, ghost places: seq<nat>)
      requires Valid() && Serves(blocks0, mem0, places0, ptrs0, known)
      requires blocks == blocks0 + [b] && Same(blocks0, mem0, mem) && size <= b.size
      ensures Serves(blocks, mem, places, ptrs, known + [Blank(size)])
    {
      hide BlocksOk, PoolsOk, FreedOk, Same, Serves, Inside, Contents;
      AllInside(blocks, mem, cur, pos);
      assert blocks[|blocks0|] == b;
      ServesNew(blocks0, mem0, mem, places0, ptrs0, known, b, size);
      ptrs, places := ptrs0 + [At(b)], places0 + [|blocks0|];
    }

    method ReallocHandle(h: nat, size: nat, ptrs0: seq<Pointer>, ghost places0: seq<nat>, known: seq<View>)
      returns (ptrs: seq<Pointer>, ghost places: seq<nat>)
      requires Valid() && Serves(blocks, mem, places0, ptrs0, known) && |known| == |places0| == |ptrs0| && h < |ptrs0|
      modifies this`mem, this`cur, this`pos, this`max, this`retired, this`retiredSize, this`next, this`blocks
      ensures Valid() && Serves(blocks, mem, places, ptrs, known[h := Fitted(known[h], size)])
      ensures old(retired) <= retired && old(next) <= next
    {
      hide BlocksOk, PoolsOk, FreedOk, Same, Serves, Resized, Inside, Contents, Fitted;
      ServesAt(blocks, mem, places0, ptrs0, known, h);
      var b := TmpRealloc(Some(ptrs0[h]), size, places0[h]);
      ghost var place := if blocks == old(blocks)[places0[h] := b] then places0[h] else |old(blocks)|;
      ServesResized(old(blocks), old(mem), blocks, mem, places0, ptrs0, known, h, b, size, place);
      ptrs, places := ptrs0[h := At(b)], places0[h := place];
    }
  }

  // ----- what the clients see -----

  /** What a client knows of the cells of its block: nothing, until it has written them. */
  type View = seq<Option<int>>

  datatype Use = Alloc(size: nat) | ReallocNull(size: nat) | Realloc(handle: nat, size: nat) | Store(handle: nat, k: nat, v: int) | Collect

  function Blank(n: nat): View { seq(n, _ => None) }

  /** A view of another size: the cells that both have are the same. */
  function Fitted(a: View, n: nat): View { if n <= |a| then a[..n] else a + Blank(n - |a|) }

  function Known(known: seq<View>, use: Use): seq<View> {
    match use
    case Alloc(size) => known + [Blank(size)]
    case ReallocNull(size) => known + [Blank(size)]
    case Realloc(h, size) => if h < |known| then known[h := Fitted(known[h], size)] else known
    case Store(h, k, v) => if h < |known| && k < |known[h]| then known[h := known[h][k := Some(v)]] else known
    case Collect => []
  }

  function KnownAfter(uses: seq<Use>): seq<View> {
    if uses == [] then [] else Known(KnownAfter(uses[..|uses| - 1]), uses[|uses| - 1])
  }

  ghost predicate Holds(mem: Memory, b: Block, a: View) {
    && Inside(mem, b) && |a| <= b.size
    && forall k :: 0 <= k < |a| && a[k].Some? ==> mem[b.pool][b.off + k] == a[k].value
  }

  /** Each handle has a block of its own, which its pointer points to and which holds what its client knows. */
  ghost predicate Serves(blocks: seq<Block>, mem: Memory, places: seq<nat>, ptrs: seq<Pointer>, known: seq<View>) {
    && |places| == |ptrs| == |known|
    && (forall h :: 0 <= h < |places| ==> ServedAt(blocks, mem, places[h], ptrs[h], known[h]))
    && (forall g, h :: 0 <= g < h < |places| ==> places[g] != places[h])
  }

  ghost predicate ServedAt(blocks: seq<Block>, mem: Memory, place: nat, ptr: Pointer, a: View) {
    place < |blocks| && At(blocks[place]) == ptr && Holds(mem, blocks[place], a)
  }

  lemma ServesNone(blocks: seq<Block>, mem: Memory)
    ensures Serves(blocks, mem, [], [], [])
  {
  }

  lemma ServesLengths(blocks: seq<Block>, mem: Memory, places: seq<nat>, ptrs: seq<Pointer>, known: seq<View>)
    requires Serves(blocks, mem, places, ptrs, known)
    ensures |places| == |ptrs| == |known|
  {
  }

  lemma ServesAt(blocks: seq<Block>, mem: Memory, places: seq<nat>, ptrs: seq<Pointer>, known: seq<View>, h: nat)
    requires Serves(blocks, mem, places, ptrs, known) && h < |ptrs|
    ensures |places| == |ptrs| == |known| && places[h] < |blocks| && At(blocks[places[h]]) == ptrs[h]
    ensures Holds(mem, blocks[places[h]], known[h]) && |known[h]| <= blocks[places[h]].size
  {
    assert ServedAt(blocks, mem, places[h], ptrs[h], known[h]);
  }

  /** A block that keeps its contents keeps what is known of it. */
  lemma HoldsKept(mem0: Memory, mem1: Memory, b: Block, a: View)
    requires Holds(mem0, b, a) && Kept(mem0, mem1, b)
    ensures Holds(mem1, b, a)
  {
    forall k | 0 <= k < |a| && a[k].Some? ensures mem1[b.pool][b.off + k] == a[k].value {
      assert Contents(mem1, b)[k] == Contents(mem0, b)[k];
    }
  }

  lemma ServesNew(blocks: seq<Block>, mem0: Memory, mem: Memory, places: seq<nat>, ptrs: seq<Pointer>, known: seq<View>, b: Block, size: nat)
    requires Serves(blocks, mem0, places, ptrs, known) && Same(blocks, mem0, mem) && Inside(mem, b) && size <= b.size
    ensures Serves(blocks + [b], mem, places + [|blocks|], ptrs + [At(b)], known + [Blank(size)])
  {
    hide Inside, Contents, Holds;
    forall h | 0 <= h < |places| ensures places[h] != |blocks| && ServedAt(blocks + [b], mem, places[h], ptrs[h], known[h]) {
      assert ServedAt(blocks, mem0, places[h], ptrs[h], known[h]);
      HoldsKept(mem0, mem, blocks[places[h]], known[h]);
    }
    HoldsNothing(mem, b, size);
  }

  lemma HoldsNothing(mem: Memory, b: Block, size: nat)
    requires Inside(mem, b) && size <= b.size
    ensures Holds(mem, b, Blank(size))
  {
  }

  lemma ServesResized(blocks0: seq<Block>, mem0: Memory, blocks: seq<Block>, mem: Memory, places: seq<nat>, ptrs: seq<Pointer>, known: seq<View>,
                      h: nat, b: Block, size: nat, place: nat)
    requires Serves(blocks0, mem0, places, ptrs, known) && h < |places| && |places| == |ptrs| == |known| && size <= b.size
    requires Resized(blocks0, mem0, blocks, mem, places[h], b)
    requires place == if blocks == blocks0[places[h] := b] then places[h] else |blocks0|
    ensures Serves(blocks, mem, places[h := place], ptrs[h := At(b)], known[h := Fitted(known[h], size)])
  {
    hide Inside, Contents, Holds, Fitted;
    assert ServedAt(blocks0, mem0, places[h], ptrs[h], known[h]);
    HoldsResized(mem0, mem, blocks0[places[h]], b, known[h], size);
    forall g | 0 <= g < |places| && g != h ensures places[g] != place && ServedAt(blocks, mem, places[g], ptrs[g], known[g]) {
      assert ServedAt(blocks0, mem0, places[g], ptrs[g], known[g]);
      assert places[g] != places[h];
      HoldsKept(mem0, mem, blocks0[places[g]], known[g]);
    }
  }

  lemma HoldsResized(mem0: Memory, mem: Memory, b0: Block, b: Block, a: View, size: nat)
    requires Holds(mem0, b0, a) && Inside(mem, b) && b0.size <= b.size && Contents(mem, b)[..b0.size] == Contents(mem0, b0) && size <= b.size
    ensures Holds(mem, b, Fitted(a, size))
  {
    forall k | 0 <= k < |a| && a[k].Some? ensures mem[b.pool][b.off + k] == a[k].value {
      assert Contents(mem, b)[..b0.size][k] == Contents(mem0, b0)[k];
    }
  }

  lemma ServesStored(blocks: seq<Block>, mem0: Memory, mem: Memory, places: seq<nat>, ptrs: seq<Pointer>, known: seq<View>, h: nat, k: nat, v: int)
    requires Serves(blocks, mem0, places, ptrs, known) && h < |places| && |places| == |ptrs| == |known| && k < |known[h]|
    requires forall j :: 0 <= j < |blocks| && j != places[h] ==> Kept(mem0, mem, blocks[j])
    requires places[h] < |blocks| && Inside(mem0, blocks[places[h]]) && Inside(mem, blocks[places[h]]) && k < blocks[places[h]].size
    requires Contents(mem, blocks[places[h]]) == Contents(mem0, blocks[places[h]])[k := v]
    ensures Serves(blocks, mem, places, ptrs, known[h := known[h][k := Some(v)]])
  {
    hide Inside, Contents, Holds;
    assert ServedAt(blocks, mem0, places[h], ptrs[h], known[h]);
    HoldsStored(mem0, mem, blocks[places[h]], known[h], k, v);
    forall g | 0 <= g < |places| && g != h ensures ServedAt(blocks, mem, places[g], ptrs[g], known[g]) {
      assert ServedAt(blocks, mem0, places[g], ptrs[g], known[g]);
      assert places[g] != places[h];
      HoldsKept(mem0, mem, blocks[places[g]], known[g]);
    }
  }

  lemma HoldsStored(mem0: Memory, mem: Memory, b: Block, a: View, k: nat, v: int)
    requires Holds(mem0, b, a) && Inside(mem, b) && k < |a| && k < b.size && Contents(mem, b) == Contents(mem0, b)[k := v]
    ensures Holds(mem, b, a[k := Some(v)])
  {
    var c := a[k := Some(v)];
    forall j | 0 <= j < |c| && c[j].Some? ensures mem[b.pool][b.off + j] == c[j].value {
      assert Contents(mem, b)[j] == (if j == k then v else Contents(mem0, b)[j]);
    }
  }
}
