/** Suspended cache transactions as values: what each of them holds (its identity, a lock on its channel, a copy of its
    arguments), summed over wait lists and notification batches. */
module CacheSpec {
  import opened Wrappers

  type Bytes = seq<int>

  /** The arguments of a transaction: none, the caller's memory, or a copy in memory of its own. */
  datatype Args = NoArgs | Caller(bytes: Bytes) | Copy(ptr: int)

  datatype Client = Client(id: int, chan: Option<int>, args: Args)

  /** What a group of transactions holds. */
  datatype Tally = Tally(ids: multiset<int>, locks: multiset<int>, copies: multiset<int>)

  const ZERO := Tally(multiset{}, multiset{}, multiset{})

  function Plus(a: Tally, b: Tally): Tally {
    Tally(a.ids + b.ids, a.locks + b.locks, a.copies + b.copies)
  }

  function Lock(chan: Option<int>): multiset<int> {
    if chan.Some? then multiset{chan.value} else multiset{}
  }

  function One(c: Client): Tally {
    Tally(multiset{c.id}, Lock(c.chan), if c.args.Copy? then multiset{c.args.ptr} else multiset{})
  }

  function Sum(s: seq<Client>): Tally {
    if s == [] then ZERO else Plus(One(s[0]), Sum(s[1..]))
  }

  function SumAll(t: seq<seq<Client>>): Tally {
    if t == [] then ZERO else Plus(Sum(t[0]), SumAll(t[1..]))
  }

  lemma PlusAssoc(a: Tally, b: Tally, c: Tally)
    ensures Plus(Plus(a, b), c) == Plus(a, Plus(b, c))
  {
    assert (a.ids + b.ids) + c.ids == a.ids + (b.ids + c.ids);
    assert (a.locks + b.locks) + c.locks == a.locks + (b.locks + c.locks);
    assert (a.copies + b.copies) + c.copies == a.copies + (b.copies + c.copies);
  }

  lemma PlusComm(a: Tally, b: Tally)
    ensures Plus(a, b) == Plus(b, a)
  {
    assert a.ids + b.ids == b.ids + a.ids;
    assert a.locks + b.locks == b.locks + a.locks;
    assert a.copies + b.copies == b.copies + a.copies;
  }

  lemma PlusZero(a: Tally)
    ensures Plus(a, ZERO) == a && Plus(ZERO, a) == a
  {
    assert a.ids + multiset{} == a.ids && multiset{} + a.ids == a.ids;
    assert a.locks + multiset{} == a.locks && multiset{} + a.locks == a.locks;
    assert a.copies + multiset{} == a.copies && multiset{} + a.copies == a.copies;
  }

  lemma SumStep(a: seq<Client>, b: seq<Client>)
    requires a != []
    ensures Sum(a) == Plus(One(a[0]), Sum(a[1..])) && Sum(a + b) == Plus(One(a[0]), Sum(a[1..] + b))
  {
    hide Plus, One;
    assert (a + b)[1..] == a[1..] + b && (a + b)[0] == a[0];
  }

  lemma {:induction false} SumConcat(a: seq<Client>, b: seq<Client>)
    ensures Sum(a + b) == Plus(Sum(a), Sum(b))
  {
    hide Plus, One;
    if a == [] {
      assert a + b == b;
      PlusZero(Sum(b));
    } else {
      SumConcat(a[1..], b);
      SumStep(a, b);
      PlusAssoc(One(a[0]), Sum(a[1..]), Sum(b));
    }
  }

  lemma SumOne(c: Client)
    ensures Sum([c]) == One(c)
  {
    assert [c][1..] == [];
    PlusZero(One(c));
  }

  lemma {:induction false} SumAllConcat(a: seq<seq<Client>>, b: seq<seq<Client>>)
    ensures SumAll(a + b) == Plus(SumAll(a), SumAll(b))
  {
    hide Sum, Plus;
    if a == [] {
      assert a + b == b;
      PlusZero(SumAll(b));
    } else {
      SumAllConcat(a[1..], b);
      assert (a + b)[1..] == a[1..] + b && (a + b)[0] == a[0];
      PlusAssoc(Sum(a[0]), SumAll(a[1..]), SumAll(b));
    }
  }

  /** Adding to one list adds to the sum. */
  lemma {:induction false} SumAllGrow(t: seq<seq<Client>>, k: nat, more: seq<Client>)
    requires k < |t|
    ensures SumAll(t[k := t[k] + more]) == Plus(SumAll(t), Sum(more))
  {
    hide Sum, Plus;
    var r := t[k := t[k] + more];
    if k == 0 {
      SumConcat(t[0], more);
      assert r[1..] == t[1..];
      Swap(Sum(t[0]), Sum(more), SumAll(t[1..]));
    } else {
      SumAllGrow(t[1..], k - 1, more);
      assert r[1..] == t[1..][k - 1 := t[1..][k - 1] + more];
      PlusAssoc(Sum(t[0]), SumAll(t[1..]), Sum(more));
    }
  }

  lemma Swap(a: Tally, b: Tally, c: Tally)
    ensures Plus(Plus(a, b), c) == Plus(Plus(a, c), b)
  {
    PlusAssoc(a, b, c);
    PlusComm(b, c);
    PlusAssoc(a, c, b);
  }

  /** A list that is emptied carries its sum away. */
  lemma SumAllTake(t: seq<seq<Client>>, k: nat)
    requires k < |t|
    ensures SumAll(t) == Plus(SumAll(t[k := []]), Sum(t[k]))
  {
    hide SumAll, Sum, Plus;
    SumAllGrow(t[k := []], k, t[k]);
    assert [] + t[k] == t[k];
    assert t[k := []][k := t[k]] == t;
  }

  // ----- the state -----

  /** Transactions waiting for caches, waiting in posted notifications, and still to be retried by the notification at work. */
  datatype Suspended = Suspended(waiting: seq<seq<Client>>, posted: seq<seq<Client>>, work: seq<Client>)

  function Total(s: Suspended): Tally {
    Plus(Plus(SumAll(s.waiting), SumAll(s.posted)), Sum(s.work))
  }

  lemma TotalWait(s: Suspended, k: nat, c: Client)
    requires k < |s.waiting|
    ensures Total(s.(waiting := s.waiting[k := s.waiting[k] + [c]])) == Plus(Total(s), One(c))
  {
    hide SumAll, Sum, One, Plus;
    SumAllGrow(s.waiting, k, [c]);
    SumOne(c);
    var w, p, x, o := SumAll(s.waiting), SumAll(s.posted), Sum(s.work), One(c);
    Swap(w, o, p);
    Swap(Plus(w, p), o, x);
  }

  lemma TotalPost(s: Suspended, k: nat)
    requires k < |s.waiting|
    ensures Total(s.(waiting := s.waiting[k := []], posted := s.posted + [s.waiting[k]])) == Total(s)
  {
    hide Sum, One, Plus;
    var b := s.waiting[k];
    SumAllTake(s.waiting, k);
    SumAllConcat(s.posted, [b]);
    PlusZero(Sum(b));
    assert [b][1..] == [];
    assert SumAll([b]) == Sum(b);
    var w, p, o := SumAll(s.waiting[k := []]), SumAll(s.posted), Sum(b);
    PlusAssoc(w, p, o);
    Swap(w, o, p);
  }

  lemma TotalStart(s: Suspended, k: nat)
    requires k < |s.waiting| && s.work == []
    ensures Total(s.(waiting := s.waiting[k := []], work := s.waiting[k])) == Total(s)
  {
    hide SumAll, One, Plus;
    SumAllTake(s.waiting, k);
    var w, p, o := SumAll(s.waiting[k := []]), SumAll(s.posted), Sum(s.waiting[k]);
    Swap(w, o, p);
    assert Sum(s.work) == ZERO;
    PlusZero(Plus(Plus(w, o), p));
  }

  lemma TotalEvent(s: Suspended)
    requires s.posted != [] && s.work == []
    ensures Total(s.(posted := s.posted[1..], work := s.posted[0])) == Total(s)
  {
    hide One, Plus;
    var w, p, o := SumAll(s.waiting), SumAll(s.posted[1..]), Sum(s.posted[0]);
    PlusComm(o, p);
    PlusAssoc(w, p, o);
    assert Sum(s.work) == ZERO;
    PlusZero(Plus(w, Plus(o, p)));
  }

  lemma TotalNext(s: Suspended)
    requires s.work != []
    ensures Total(s) == Plus(Total(s.(work := s.work[1..])), One(s.work[0]))
  {
    hide SumAll, One, Plus;
    var r, o, x := Plus(SumAll(s.waiting), SumAll(s.posted)), One(s.work[0]), Sum(s.work[1..]);
    PlusComm(o, x);
    PlusAssoc(r, x, o);
  }

  // ----- every suspended transaction keeps its arguments -----

  /** The bytes a client is given. */
  function Content(a: Args, memory: map<int, Bytes>): Option<Bytes> {
    match a
    case NoArgs => None
    case Caller(b) => Some(b)
    case Copy(p) => if p in memory then Some(memory[p]) else None
  }

  /** A transaction that can outlive its caller and still has the arguments it was entered with. */
  ghost predicate Kept(c: Client, memory: map<int, Bytes>, original: map<int, Option<Bytes>>) {
    && !c.args.Caller? && (c.args.Copy? ==> c.args.ptr in memory)
    && c.id in original && Content(c.args, memory) == original[c.id]
  }

  ghost predicate AllKept(s: seq<Client>, memory: map<int, Bytes>, original: map<int, Option<Bytes>>) {
    forall i :: 0 <= i < |s| ==> Kept(s[i], memory, original)
  }

  ghost predicate KeptEverywhere(s: Suspended, memory: map<int, Bytes>, original: map<int, Option<Bytes>>) {
    && (forall k :: 0 <= k < |s.waiting| ==> AllKept(s.waiting[k], memory, original))
    && (forall k :: 0 <= k < |s.posted| ==> AllKept(s.posted[k], memory, original))
    && AllKept(s.work, memory, original)
  }

  lemma KeptMore(s: Suspended, memory: map<int, Bytes>, original: map<int, Option<Bytes>>, p: int, b: Bytes)
    requires KeptEverywhere(s, memory, original) && p !in memory
    ensures KeptEverywhere(s, memory[p := b], original)
  {
    forall k | 0 <= k < |s.waiting| ensures AllKept(s.waiting[k], memory[p := b], original) {
      AllKeptMore(s.waiting[k], memory, original, p, b);
    }
    forall k | 0 <= k < |s.posted| ensures AllKept(s.posted[k], memory[p := b], original) {
      AllKeptMore(s.posted[k], memory, original, p, b);
    }
    AllKeptMore(s.work, memory, original, p, b);
  }

  lemma AllKeptMore(s: seq<Client>, memory: map<int, Bytes>, original: map<int, Option<Bytes>>, p: int, b: Bytes)
    requires AllKept(s, memory, original) && p !in memory
    ensures AllKept(s, memory[p := b], original)
  {
    forall i | 0 <= i < |s| ensures Kept(s[i], memory[p := b], original) {
      assert Kept(s[i], memory, original);
    }
  }

  lemma KeptNew(s: Suspended, memory: map<int, Bytes>, original: map<int, Option<Bytes>>, id: int, b: Option<Bytes>)
    requires KeptEverywhere(s, memory, original) && id !in original
    ensures KeptEverywhere(s, memory, original[id := b])
  {
    forall k | 0 <= k < |s.waiting| ensures AllKept(s.waiting[k], memory, original[id := b]) {
      AllKeptNew(s.waiting[k], memory, original, id, b);
    }
    forall k | 0 <= k < |s.posted| ensures AllKept(s.posted[k], memory, original[id := b]) {
      AllKeptNew(s.posted[k], memory, original, id, b);
    }
    AllKeptNew(s.work, memory, original, id, b);
  }

  lemma AllKeptNew(s: seq<Client>, memory: map<int, Bytes>, original: map<int, Option<Bytes>>, id: int, b: Option<Bytes>)
    requires AllKept(s, memory, original) && id !in original
    ensures AllKept(s, memory, original[id := b])
  {
    forall i | 0 <= i < |s| ensures Kept(s[i], memory, original[id := b]) {
      assert Kept(s[i], memory, original);
    }
  }

  lemma KeptWait(s: Suspended, k: nat, c: Client, memory: map<int, Bytes>, original: map<int, Option<Bytes>>)
    requires KeptEverywhere(s, memory, original) && k < |s.waiting| && Kept(c, memory, original)
    ensures KeptEverywhere(s.(waiting := s.waiting[k := s.waiting[k] + [c]]), memory, original)
  {
    hide Kept;
    var r := s.waiting[k] + [c];
    assert AllKept(s.waiting[k], memory, original);
    forall i | 0 <= i < |r| ensures Kept(r[i], memory, original) {
      if i < |s.waiting[k]| { assert r[i] == s.waiting[k][i]; }
    }
  }

  lemma KeptMoved(s: Suspended, k: nat, memory: map<int, Bytes>, original: map<int, Option<Bytes>>)
    requires KeptEverywhere(s, memory, original) && k < |s.waiting|
    ensures KeptEverywhere(s.(waiting := s.waiting[k := []], posted := s.posted + [s.waiting[k]]), memory, original)
    ensures KeptEverywhere(s.(waiting := s.waiting[k := []], work := s.waiting[k]), memory, original)
  {
    hide Kept;
  }

  lemma KeptEvent(s: Suspended, memory: map<int, Bytes>, original: map<int, Option<Bytes>>)
    requires KeptEverywhere(s, memory, original)
    ensures s.posted != [] ==> KeptEverywhere(s.(posted := s.posted[1..], work := s.posted[0]), memory, original)
    ensures s.work != [] ==> KeptEverywhere(s.(work := s.work[1..]), memory, original) && Kept(s.work[0], memory, original)
  {
    hide Kept;
  }
}
