/** The queue of output buffers between a channel and its socket, and the pool the buffers
    are recycled through.  Buffers carry an identity, so that "the same buffer" makes sense. */
module OutputQueues {
  import opened Wire

  const MAX_POOL_SIZE := 32

  /** `data` is buf[..buf_len]. */
  datatype OutputBuffer = OutputBuffer(id: nat, data: seq<byte>, pos: nat) {
    function Rest(): seq<byte> {
      if pos <= |data| then data[pos..] else []
    }
  }

  /** What has still to be written from a list of buffers. */
  function Bytes(bs: seq<OutputBuffer>): seq<byte> {
    if bs == [] then [] else bs[0].Rest() + Bytes(bs[1..])
  }

  lemma {:induction false} BytesConcat(a: seq<OutputBuffer>, b: seq<OutputBuffer>)
    ensures Bytes(a + b) == Bytes(a) + Bytes(b)
  {
    if a == [] {
      assert a + b == b;
    } else {
      assert (a + b)[1..] == a[1..] + b;
      BytesConcat(a[1..], b);
    }
  }

  lemma BytesOne(b: OutputBuffer)
    ensures Bytes([b]) == b.Rest()
  {
    assert [b][1..] == [];
  }

  /** How often each buffer occurs in a list. */
  function Bag(bs: seq<OutputBuffer>): multiset<nat> {
    if bs == [] then multiset{} else multiset{bs[0].id} + Bag(bs[1..])
  }

  lemma {:induction false} BagConcat(a: seq<OutputBuffer>, b: seq<OutputBuffer>)
    ensures Bag(a + b) == Bag(a) + Bag(b)
  {
    if a == [] {
      assert a + b == b;
    } else {
      assert (a + b)[1..] == a[1..] + b;
      BagConcat(a[1..], b);
    }
  }

  lemma BagOne(b: OutputBuffer)
    ensures Bag([b]) == multiset{b.id}
  {
    assert [b][1..] == [];
  }

  lemma {:induction false} BagHas(bs: seq<OutputBuffer>, i: nat)
    requires i < |bs|
    ensures bs[i].id in Bag(bs)
  {
    if i > 0 {
      BagHas(bs[1..], i - 1);
    }
  }

  /** No buffer occurs twice, and all of them have been given out. */
  predicate Unique(bag: multiset<nat>, ids: nat) {
    forall x :: x in bag ==> bag[x] == 1 && x < ids
  }

  lemma UniqueNew(bag: multiset<nat>, ids: nat)
    requires Unique(bag, ids)
    ensures Unique(bag, ids + 1) && Unique(bag + multiset{ids}, ids + 1)
  {
    assert ids !in bag;
  }

  lemma UniqueLess(bag: multiset<nat>, more: multiset<nat>, ids: nat)
    requires Unique(bag + more, ids)
    ensures Unique(bag, ids)
  {
    forall x | x in bag ensures bag[x] == 1 && x < ids {
      assert x in bag + more;
    }
  }

  lemma UniqueApart(a: multiset<nat>, b: multiset<nat>, x: nat, ids: nat)
    requires Unique(a + b, ids) && x in a
    ensures x !in b
  {
    assert x in a + b;
  }

  /** The contents of a list of buffers. */
  function Texts(bs: seq<OutputBuffer>): (ts: seq<seq<byte>>)
    ensures |ts| == |bs| && forall i :: 0 <= i < |bs| ==> ts[i] == bs[i].data
  {
    seq(|bs|, i requires 0 <= i < |bs| => bs[i].data)
  }

  /** Data cut into buffers of a size, all of them full but the last. */
  function Chunks(data: seq<byte>, size: nat): seq<seq<byte>>
    requires size > 0
    decreases |data|
  {
    if data == [] then [] else if |data| <= size then [data] else [data[..size]] + Chunks(data[size..], size)
  }

  /** Data added to buffers: the room of the last one is used first, unless it is being written. */
  function Spread(ts: seq<seq<byte>>, data: seq<byte>, size: nat): seq<seq<byte>>
    requires size > 0
  {
    var n := |ts| - 1;
    if n <= 0 || |ts[n]| >= size then ts + Chunks(data, size)
    else if |data| <= size - |ts[n]| then ts[n := ts[n] + data]
    else ts[n := ts[n] + data[..size - |ts[n]|]] + Chunks(data[size - |ts[n]|..], size)
  }

  lemma ToppedUp(ts: seq<seq<byte>>, data: seq<byte>, size: nat, len: nat)
    requires size > 0 && |ts| > 1 && |ts[|ts| - 1]| <= size
    requires len == var gap := size - |ts[|ts| - 1]|; if |data| > gap then gap else |data|
    ensures ts[|ts| - 1 := ts[|ts| - 1] + data[..len]] + Chunks(data[len..], size) == Spread(ts, data, size)
  {
    var n := |ts| - 1;
    if |ts[n]| >= size {
      assert ts[n] + data[..0] == ts[n] && data[0..] == data && ts[n := ts[n]] == ts;
    } else if |data| <= size - |ts[n]| {
      assert data[..len] == data && data[len..] == [];
      assert ts[n := ts[n] + data] + [] == ts[n := ts[n] + data];
    }
  }

  lemma NextChunk(ts: seq<seq<byte>>, data: seq<byte>, size: nat)
    requires size > 0 && data != []
    ensures var len := if |data| > size then size else |data|;
            (ts + [data[..len]]) + Chunks(data[len..], size) == ts + Chunks(data, size)
  {
    var len := if |data| > size then size else |data|;
    if |data| <= size {
      assert data[..len] == data && data[len..] == [];
      assert Chunks(data, size) == [data];
    } else {
      assert ts + ([data[..len]] + Chunks(data[len..], size)) == (ts + [data[..len]]) + Chunks(data[len..], size);
    }
  }

  /** What the steps change: the contents of the queued buffers, how much of the first one is written, the bytes added and
      written in all, and whether writing has failed. */
  datatype World = World(texts: seq<seq<byte>>, pos: nat, added: seq<byte>, done: seq<byte>, error: bool)

  /** A full output buffer is queued, or copied to the end of the last one if it fits there and that is not being written. */
  function Flushed(w: World, data: seq<byte>, size: nat): World {
    var n := |w.texts| - 1;
    w.(added := w.added + data,
       texts := if n > 0 && |w.texts[n]| + |data| <= size then w.texts[n := w.texts[n] + data] else w.texts + [data])
  }

  /** The socket has taken `n` bytes of the first buffer, which leaves the queue when it is written to its end. */
  function Sent(w: World, n: nat): World
    requires w.texts != [] && w.pos + n <= |w.texts[0]|
  {
    var v := w.(done := w.done + w.texts[0][w.pos..w.pos + n]);
    if w.pos + n < |w.texts[0]| then v.(pos := w.pos + n) else v.(texts := w.texts[1..], pos := 0)
  }

  /** The queue after a step; after a failure, and if it cannot happen, a step changes nothing. */
  function Stepped(w: World, step: QueueStep, size: nat): World
    requires size > 0
  {
    if w.error then w
    else
      match step
      case AddData(data) => w.(texts := Spread(w.texts, data, size), added := w.added + data)
      case FlushBuffer(data) => if |data| <= size then Flushed(w, data, size) else w
      case Written(failed, n) =>
        if w.texts == [] || w.pos + n > |w.texts[0]| then w
        else if failed then w.(texts := [], pos := 0, error := true)
        else Sent(w, n)
  }

  function SteppedAll(w: World, steps: seq<QueueStep>, size: nat): World
    requires size > 0
  {
    if steps == [] then w else Stepped(SteppedAll(w, steps[..|steps| - 1], size), steps[|steps| - 1], size)
  }

  /** The queue when `n` more bytes of the first buffer are written: that buffer leaves it when it is written to its end. */
  function Advanced(queue: seq<OutputBuffer>, n: nat): seq<OutputBuffer>
    requires queue != []
  {
    var b := queue[0];
    if b.pos + n < |b.data| then queue[0 := b.(pos := b.pos + n)] else queue[1..]
  }

  /** Bytes written followed by bytes queued are the bytes added. */
  ghost predicate Conserved(done: seq<byte>, queue: seq<OutputBuffer>, added: seq<byte>) {
    done + Bytes(queue) == added
  }

  /** No buffer is in both lists, or twice in one. */
  ghost predicate Apart(queue: seq<OutputBuffer>, pool: seq<OutputBuffer>, ids: nat) {
    Unique(Bag(queue) + Bag(pool), ids)
  }

  /** No buffer holds more than `size` bytes, and only the first one has been written in part. */
  ghost predicate Rows(queue: seq<OutputBuffer>, size: nat) {
    && (forall i :: 0 <= i < |queue| ==> queue[i].pos <= |queue[i].data| <= size)
    && (forall i :: 1 <= i < |queue| ==> queue[i].pos == 0)
  }

  class OutputQueue {
    const size: nat                  // OUTPUT_QUEUE_BUF_SIZE
    var error: bool
    var queue: seq<OutputBuffer>
    var pool: seq<OutputBuffer>
    var ids: nat                     // identities below this have been given out
    var requests: nat                // I/O requests posted and not yet completed
    var ioBuffer: OutputBuffer       // the buffer of the outstanding request, as it was posted

    ghost var added: seq<byte>
    ghost var done: seq<byte>

    ghost function W(): World
      reads this
    {
      World(Texts(queue), if queue == [] then 0 else queue[0].pos, added, done, error)
    }

    ghost predicate Valid()
      reads this
    {
      && Rows(queue, size)
      && Apart(queue, pool, ids)
      && |pool| <= MAX_POOL_SIZE
      && requests == (if queue == [] then 0 else 1)
      && (queue != [] ==> ioBuffer == queue[0])
      && (!error ==> Conserved(done, queue, added))
    }

    /** A buffer that is in neither list. */
    ghost predicate Loose(bf: OutputBuffer)
      reads this
    {
      Unique(Bag(queue) + Bag(pool) + multiset{bf.id}, ids)
    }

    constructor (size: nat)
      ensures Valid() && this.size == size && !error && queue == [] && pool == [] && added == [] && done == []
    {
      this.size := size;
      error, queue, pool, ids, requests, added, done := false, [], [], 0, 0, [], [];
      ioBuffer := OutputBuffer(0, [], 0);
    }

    // output_queue_alloc_obuf
    method Alloc() returns (bf: OutputBuffer)
      requires Valid()
      modifies this`pool, this`ids
      ensures Valid() && Loose(bf) && bf.data == [] && bf.pos == 0
      ensures pool == if old(pool) == [] then [] else old(pool)[1..]
      ensures if old(pool) == [] then bf.id == old(ids) else bf.id == old(pool)[0].id
    {
      hide Bytes, Bag, Unique;
      if pool == [] {
        bf := OutputBuffer(ids, [], 0);
        UniqueNew(Bag(queue) + Bag(pool), ids);
        ids := ids + 1;
      } else {
        bf := pool[0].(data := [], pos := 0);
        TakeUnique(Bag(queue), pool, ids);
        pool := pool[1..];
      }
    }

    /** output_queue_free_obuf on a buffer that is in neither list. */
    method Free(bf: OutputBuffer)
      requires Valid() && Loose(bf)
      modifies this`pool
      ensures Valid()
      ensures pool == if |old(pool)| < 32 then old(pool) + [bf] else old(pool)
    {
      hide Bytes;
      BagConcat(pool, [bf]);
      BagOne(bf);
      hide Bag, Unique;
      assert Bag(queue) + (Bag(pool) + multiset{bf.id}) == Bag(queue) + Bag(pool) + multiset{bf.id};
      if |pool| < MAX_POOL_SIZE {
        pool := pool + [bf];
      }
    }

    /** Put a buffer at the end of the queue; the first one in the queue goes to the socket. */
    method Append(bf: OutputBuffer)
      requires Valid() && Loose(bf) && |bf.data| <= size && bf.pos == 0
      modifies this`queue, this`requests, this`ioBuffer, this`added
      ensures Valid() && queue == old(queue) + [bf] && added == old(added) + bf.data
    {
      BytesConcat(queue, [bf]);
      BytesOne(bf);
      BagConcat(queue, [bf]);
      BagOne(bf);
      hide Bytes, Bag;
      assert Bag(queue + [bf]) + Bag(pool) == Bag(queue) + Bag(pool) + multiset{bf.id};
      queue := queue + [bf];
      added := added + bf.data;
      if |queue| == 1 {
        requests := requests + 1;
        ioBuffer := bf;
      }
    }

    /** Add data to the last pending buffer, which is not the one being written. */
    method Extend(bytes: seq<byte>)
      requires Valid() && |queue| >= 2 && |queue[|queue| - 1].data| + |bytes| <= size
      modifies this`queue, this`added
      ensures Valid() && added == old(added) + bytes && |queue| == |old(queue)|
      ensures queue[0] == old(queue)[0] && Bag(queue) == Bag(old(queue))
      ensures var n := |old(queue)| - 1; queue == old(queue)[n := old(queue)[n].(data := old(queue)[n].data + bytes)]
    {
      hide Bytes, Bag;
      var n := |queue| - 1;
      var last := queue[n].(data := queue[n].data + bytes);
      ReplaceLast(queue, last);
      queue := queue[n := last];
      added := added + bytes;
      assert queue[0] == old(queue)[0];
    }

    // output_queue_add_obuf
    method AddBuffer(bf: OutputBuffer)
      requires Valid() && Loose(bf) && |bf.data| <= size
      modifies this`queue, this`pool, this`requests, this`ioBuffer, this`added
      ensures Valid() && added == old(added) + bf.data
      ensures old(queue) == [] ==> queue == [bf.(pos := 0)] && ioBuffer == bf.(pos := 0) && requests == old(requests) + 1
      ensures old(queue) != [] ==> requests == old(requests) && queue != [] && ioBuffer == queue[0] == old(queue)[0]
      ensures var n := |old(queue)| - 1;
              if n > 0 && |old(queue)[n].data| + |bf.data| <= size
              then queue == old(queue)[n := old(queue)[n].(data := old(queue)[n].data + bf.data)]
                   && pool == if |old(pool)| < 32 then old(pool) + [bf] else old(pool)
              else queue == old(queue) + [bf.(pos := 0)] && pool == old(pool)
    {
      hide Bytes, Bag;
      if |queue| > 1 {
        var bp := queue[|queue| - 1];
        var gap := size - |bp.data|;
        assert bp.pos == 0;
        if gap >= |bf.data| {
          Extend(bf.data);
          Free(bf);
          return;
        }
      }
      Append(bf.(pos := 0));
    }

    // output_queue_add
    method Add(data: seq<byte>)
      requires Valid() && size > 0
      modifies this
      ensures Valid() && error == old(error) && done == old(done)
      ensures added == if error then old(added) else old(added) + data
      ensures error ==> queue == old(queue)
      ensures old(queue) != [] ==> queue != [] && ioBuffer == queue[0] == old(queue)[0]
      ensures old(queue) == [] && queue != [] ==> queue[0].pos == 0
      ensures !error ==> Texts(queue) == Spread(Texts(old(queue)), data, size)
    {
      hide Valid, Texts;
      Posted();
      if error { return; }
      var rest := data;
      if |queue| > 1 {
        rest := TopUp(rest);
      }
      while rest != []
        invariant Texts(queue) + Chunks(rest, size) == Spread(Texts(old(queue)), data, size)
        invariant Valid() && !error && done == old(done)
        invariant added + rest == old(added) + data
        invariant old(queue) != [] ==> queue != [] && ioBuffer == queue[0] == old(queue)[0]
        invariant old(queue) == [] && queue != [] ==> queue[0].pos == 0
        decreases |rest|
      {
        ghost var before, ts := rest, Texts(queue);
        rest := AddChunk(rest);
        NextChunk(ts, before, size);
      }
    }

    lemma Posted()
      requires Valid()
      ensures queue != [] ==> ioBuffer == queue[0]
    {
    }

    /** Use what room is left in the last pending buffer. */
    method TopUp(data: seq<byte>) returns (rest: seq<byte>)
      requires Valid() && !error && |queue| > 1 && size > 0
      modifies this`queue, this`added
      ensures Valid() && queue != [] && ioBuffer == queue[0] == old(queue)[0]
      ensures added + rest == old(added) + data
      ensures Texts(queue) + Chunks(rest, size) == Spread(Texts(old(queue)), data, size)
    {
      hide Bytes, Bag, Unique;
      var bf := queue[|queue| - 1];
      var gap := size - |bf.data|;
      assert bf.pos == 0;
      var len := if |data| > gap then gap else |data|;
      ghost var ts := Texts(queue);
      Extend(data[..len]);
      rest := data[len..];
      assert Texts(queue) == ts[|ts| - 1 := ts[|ts| - 1] + data[..len]];
      ToppedUp(ts, data, size, len);
    }

    /** Queue one more buffer of data. */
    method AddChunk(data: seq<byte>) returns (rest: seq<byte>)
      requires Valid() && !error && size > 0 && data != []
      modifies this`queue, this`pool, this`ids, this`requests, this`ioBuffer, this`added
      ensures Valid() && |rest| < |data| && added + rest == old(added) + data
      ensures queue != [] && ioBuffer == queue[0]
      ensures old(queue) != [] ==> queue[0] == old(queue)[0]
      ensures old(queue) == [] ==> queue[0].pos == 0
      ensures var len := if |data| > size then size else |data|;
              Texts(queue) == Texts(old(queue)) + [data[..len]] && rest == data[len..]
    {
      hide Bytes, Bag, Unique;
      var bf := Alloc();
      var len := if |data| > size then size else |data|;
      bf := bf.(pos := 0, data := data[..len]);
      Append(bf);
      rest := data[len..];
      assert Texts(queue) == Texts(old(queue)) + [data[..len]];
    }

    // output_queue_clear
    method Clear()
      requires Apart(queue, pool, ids) && |pool| <= MAX_POOL_SIZE
      modifies this`queue, this`pool
      ensures queue == [] && Apart(queue, pool, ids) && |pool| <= MAX_POOL_SIZE
    {
      while queue != []
        invariant Apart(queue, pool, ids) && |pool| <= MAX_POOL_SIZE
        decreases |queue|
      {
        TakeFirst();
      }
    }

    /** The first buffer leaves the queue for the pool, or for good if the pool is full. */
    method TakeFirst()
      requires queue != [] && Apart(queue, pool, ids) && |pool| <= MAX_POOL_SIZE
      modifies this`queue, this`pool
      ensures queue == old(queue)[1..]
      ensures Apart(queue, pool, ids) && |pool| <= MAX_POOL_SIZE
      ensures pool == if |old(pool)| < 32 then old(pool) + [old(queue)[0]] else old(pool)
    {
      hide Unique, Bag;
      var bf := queue[0];
      assert Bag(queue) + Bag(pool) == Bag(pool) + Bag(queue);
      TakeUnique(Bag(pool), queue, ids);
      BagConcat(pool, [bf]);
      BagOne(bf);
      assert Bag(pool) + Bag(queue[1..]) + multiset{bf.id} == Bag(queue[1..]) + (Bag(pool) + multiset{bf.id});
      assert Bag(pool) + Bag(queue[1..]) == Bag(queue[1..]) + Bag(pool);
      queue := queue[1..];
      if |pool| < MAX_POOL_SIZE {
        pool := pool + [bf];
      }
    }

    /** The socket has taken `n` bytes of the first buffer. */
    method Advance(n: nat)
      requires queue != [] && queue[0].pos <= |queue[0].data| && n <= |queue[0].Rest()|
      requires Apart(queue, pool, ids) && |pool| <= MAX_POOL_SIZE
      modifies this`queue, this`pool
      ensures Apart(queue, pool, ids) && |pool| <= MAX_POOL_SIZE
      ensures Bytes(old(queue)) == old(queue)[0].Rest()[..n] + Bytes(queue)
      ensures queue == Advanced(old(queue), n)
    {
      hide Unique, Bag, Bytes;
      var bf := queue[0].(pos := queue[0].pos + n);
      AdvanceFirst(queue, n);
      queue := queue[0 := bf];
      if bf.pos >= |bf.data| {
        TakeFirst();
      }
    }

    // output_queue_done: the socket has taken `n` bytes of the outstanding request, or failed
    method Done(failed: bool, n: nat)
      requires Valid() && !error && requests > 0 && n <= |ioBuffer.Rest()|
      modifies this
      ensures Valid() && added == old(added) && error == failed
      ensures !failed ==> done == old(done) + old(ioBuffer).Rest()[..n]
      ensures failed ==> queue == [] && done == old(done)
      ensures !failed ==>
                old(queue) != [] && queue == Advanced(old(queue), n)
    {
      hide Apart, Bytes, Bag, Unique, Rows, Advanced, Conserved, OutputBuffer.Rest;
      FirstRow(queue, size);
      requests := requests - 1;
      if failed {
        error := true;
        Clear();
      } else {
        Took(n);
      }
      if queue != [] {
        requests := requests + 1;
        ioBuffer := queue[0];
      }
    }

    /** The bytes that the socket has taken count as written. */
    method Took(n: nat)
      requires queue != [] && queue[0].pos <= |queue[0].data| && n <= |queue[0].Rest()| && Rows(queue, size)
      requires Apart(queue, pool, ids) && |pool| <= MAX_POOL_SIZE && Conserved(done, queue, added)
      modifies this`queue, this`pool, this`done
      ensures Rows(queue, size) && Apart(queue, pool, ids) && |pool| <= MAX_POOL_SIZE
      ensures done == old(done) + old(queue)[0].Rest()[..n] && Conserved(done, queue, added)
      ensures queue == Advanced(old(queue), n)
    {
      hide Apart, Bytes, Bag, Unique, Rows, Advanced;
      AdvancedRows(queue, n, size);
      ghost var sent := queue[0].Rest()[..n];
      Advance(n);
      Carry(done, sent, Bytes(queue));
      done := done + sent;
    }

    /** Any use of the queue up to an error: what was supplied is written in order, and nothing else; what is not written yet
        is queued, and a request is outstanding for it. */
    method Run(steps: seq<QueueStep>)
      requires Valid() && size > 0
      modifies this
      ensures Valid() && W() == SteppedAll(old(W()), steps, size)
      ensures !error ==> !old(error) && added == old(added) + Supplied(steps, size)
      ensures !error ==> old(done) <= done <= added && done + Bytes(queue) == added && (requests == 0 ==> done == added)
    {
      hide Bytes, Bag, Unique, Stepped;
      for n := 0 to |steps|
        invariant W() == SteppedAll(old(W()), steps[..n], size)
        invariant Valid() && (!error ==> !old(error) && added == old(added) + Supplied(steps[..n], size) && old(done) <= done)
      {
        Perform(steps[n]);
        assert steps[..n + 1][..n] == steps[..n];
      }
      assert steps[..|steps|] == steps;
      if !error { Conservation(); }
    }

    method Perform(step: QueueStep)
      requires Valid() && size > 0
      modifies this
      ensures Valid() && (!error ==> !old(error) && added == old(added) + Supply(step, size) && old(done) <= done)
      ensures W() == Stepped(old(W()), step, size)
    {
      hide Bytes, Bag, Unique, Spread, Sent, Flushed;
      assert added + [] == added;
      match step {
        case AddData(data) =>
          Add(data);
        case FlushBuffer(data) =>
          if !error && |data| <= size { FlushStep(data); }
        case Written(failed, n) =>
          if !error && requests > 0 && n <= |ioBuffer.Rest()| { WrittenStep(failed, n); }
      }
    }

    method FlushStep(data: seq<byte>)
      requires Valid() && !error && |data| <= size
      modifies this
      ensures Valid() && W() == Flushed(old(W()), data, size) && added == old(added) + data && done == old(done)
    {
      hide Bytes, Bag, Unique;
      ghost var n, ts := |queue| - 1, Texts(queue);
      var bf := Alloc();
      AddBuffer(bf.(data := data));
      assert Texts(queue) == if n > 0 && |ts[n]| + |data| <= size then ts[n := ts[n] + data] else ts + [data];
    }

    method WrittenStep(failed: bool, n: nat)
      requires Valid() && !error && requests > 0 && n <= |ioBuffer.Rest()|
      modifies this
      ensures Valid() && added == old(added) && old(done) <= done && error == failed
      ensures old(W()).pos + n <= |old(W()).texts[0]|
      ensures W() == if failed then old(W()).(texts := [], pos := 0, error := true) else Sent(old(W()), n)
    {
      hide Bytes, Bag, Unique;
      ghost var b, w := queue[0], W();
      assert b.Rest()[..n] == b.data[b.pos..b.pos + n];
      Done(failed, n);
      if !failed { assert Texts(queue) == Sent(w, n).texts; }
    }

    /** Bytes already written followed by bytes still queued are all bytes added, in order; one request is
        outstanding exactly while the queue is not empty, and its buffer has not been touched since it was
        posted; no buffer is both queued and pooled. */
    lemma Conservation()
      requires Valid() && !error
      ensures done + Bytes(queue) == added && done <= added
      ensures requests == 1 <==> queue != []
      ensures requests == 0 ==> done == added
      ensures requests == 1 ==> ioBuffer == queue[0] && done + ioBuffer.Rest() <= added
      ensures forall i, j :: 0 <= i < |queue| && 0 <= j < |pool| ==> queue[i].id != pool[j].id
    {
      assert done + [] == done;
      if queue != [] {
        assert added == done + ioBuffer.Rest() + Bytes(queue[1..]);
      }
      forall i, j | 0 <= i < |queue| && 0 <= j < |pool| ensures queue[i].id != pool[j].id {
        BagHas(queue, i);
        BagHas(pool, j);
        UniqueApart(Bag(queue), Bag(pool), queue[i].id, ids);
      }
    }
  }

  /** What can happen to the queue: data are added, a full output buffer is handed over, a request is completed. */
  datatype QueueStep = AddData(data: seq<byte>) | FlushBuffer(data: seq<byte>) | Written(failed: bool, n: nat)

  /** The data of a step; no output buffer holds more than `size` bytes. */
  function Supply(step: QueueStep, size: nat): seq<byte> {
    match step
    case AddData(data) => data
    case FlushBuffer(data) => if |data| <= size then data else []
    case Written(_, _) => []
  }

  function Supplied(steps: seq<QueueStep>, size: nat): seq<byte> {
    if steps == [] then [] else Supplied(steps[..|steps| - 1], size) + Supply(steps[|steps| - 1], size)
  }

  lemma Carry(a: seq<byte>, b: seq<byte>, c: seq<byte>)
    ensures (a + b) + c == a + (b + c)
  {
  }

  lemma FirstRow(queue: seq<OutputBuffer>, size: nat)
    requires Rows(queue, size)
    ensures queue != [] ==> queue[0].pos <= |queue[0].data|
    ensures Rows([], size)
  {
  }

  /** What is left of the queue when `n` bytes of its first buffer are written is in order again. */
  lemma AdvancedRows(queue: seq<OutputBuffer>, n: nat, size: nat)
    requires queue != [] && queue[0].pos <= |queue[0].data| && n <= |queue[0].Rest()|
    requires Rows(queue, size)
    ensures Rows(Advanced(queue, n), size)
  {
  }

  lemma AdvanceFirst(queue: seq<OutputBuffer>, n: nat)
    requires queue != [] && queue[0].pos <= |queue[0].data| && n <= |queue[0].Rest()|
    ensures var bf := queue[0].(pos := queue[0].pos + n);
            && Bag(queue[0 := bf]) == Bag(queue)
            && Bytes(queue) == queue[0].Rest()[..n] + Bytes(queue[0 := bf])
            && (bf.pos >= |bf.data| ==> Bytes(queue[0 := bf]) == Bytes(queue[1..]))
            && queue[0 := bf][1..] == queue[1..]
  {
    hide Bag, Bytes;
    var bf, rest := queue[0].(pos := queue[0].pos + n), queue[1..];
    assert queue[0 := bf][1..] == rest;
    FirstOf(queue);
    FirstOf(queue[0 := bf]);
    AdvanceBytes(queue[0], n, Bytes(rest));
  }

  lemma AdvanceBytes(b: OutputBuffer, n: nat, rest: seq<byte>)
    requires b.pos <= |b.data| && n <= |b.Rest()|
    ensures var bf := b.(pos := b.pos + n);
            b.Rest() + rest == b.Rest()[..n] + (bf.Rest() + rest) && (bf.pos >= |bf.data| ==> bf.Rest() + rest == rest)
  {
    RestSplit(b, n);
    Splice(b.Rest()[..n], b.(pos := b.pos + n).Rest(), rest);
  }

  lemma FirstOf(queue: seq<OutputBuffer>)
    requires queue != []
    ensures Bag(queue) == multiset{queue[0].id} + Bag(queue[1..]) && Bytes(queue) == queue[0].Rest() + Bytes(queue[1..])
  {
  }

  lemma Splice(a: seq<byte>, b: seq<byte>, c: seq<byte>)
    ensures (a + b) + c == a + (b + c)
  {
  }

  lemma RestSplit(b: OutputBuffer, n: nat)
    requires b.pos <= |b.data| && n <= |b.Rest()|
    ensures b.Rest() == b.Rest()[..n] + b.(pos := b.pos + n).Rest()
  {
  }

  /** Taking the first buffer of a list leaves it loose. */
  lemma TakeUnique(others: multiset<nat>, bs: seq<OutputBuffer>, ids: nat)
    requires bs != [] && Unique(others + Bag(bs), ids)
    ensures Unique(others + Bag(bs[1..]), ids)
    ensures Unique(others + Bag(bs[1..]) + multiset{bs[0].id}, ids)
  {
    assert others + Bag(bs) == others + Bag(bs[1..]) + multiset{bs[0].id};
    UniqueLess(others + Bag(bs[1..]), multiset{bs[0].id}, ids);
  }

  lemma ReplaceLast(queue: seq<OutputBuffer>, last: OutputBuffer)
    requires queue != [] && last.id == queue[|queue| - 1].id
    requires last.pos == 0 == queue[|queue| - 1].pos && queue[|queue| - 1].data <= last.data
    ensures Bag(queue[|queue| - 1 := last]) == Bag(queue)
    ensures Bytes(queue[|queue| - 1 := last]) == Bytes(queue) + last.data[|queue[|queue| - 1].data|..]
  {
    var front, b := queue[..|queue| - 1], queue[|queue| - 1];
    assert queue == front + [b] && queue[|queue| - 1 := last] == front + [last];
    BagConcat(front, [b]);
    BagConcat(front, [last]);
    BagOne(b);
    BagOne(last);
    BytesConcat(front, [b]);
    BytesConcat(front, [last]);
    BytesOne(b);
    BytesOne(last);
    assert last.data == b.data + last.data[|b.data|..];
  }
}
