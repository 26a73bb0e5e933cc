/** Cache transactions: a client runs until it finds a cache that is not filled, is suspended on the wait list of that
    cache, and is run again, from the start, when the cache is notified. */
module Cache {
  import opened Wrappers
  import opened CacheSpec

  /** One thing a client does while it runs. A cache miss raises an exception, which the client may catch. */
  datatype Act =
    | Wait(cache: nat, caught: bool)
    | Exit(caught: bool)
    | Later(cache: nat)
    | Throw

  /** What transaction listeners are told, with the arguments the client is given. */
  datatype Event =
    | Start(id: int, args: Option<Bytes>)
    | Retry(id: int, args: Option<Bytes>)
    | Commit(id: int)
    | Abort(id: int)

  predicate Opens(e: Event) { e.Start? || e.Retry? }

  predicate Closes(e: Event, id: int) { (e.Commit? || e.Abort?) && e.id == id }

  /** Every start or retry is followed by the commit or abort of the same transaction, except the one that runs now. */
  ghost predicate Paired(log: seq<Event>, running: Option<int>) {
    && |log| % 2 == (if running.Some? then 1 else 0)
    && (forall i :: 0 <= i < |log| && i % 2 == 0 ==> Opens(log[i]))
    && (forall i :: 0 < i < |log| && i % 2 == 1 ==> Closes(log[i], log[i - 1].id))
    && (running.Some? ==> log[|log| - 1].id == running.value)
  }

  /** In a log between runs the notifications come in pairs of one transaction. */
  lemma Pairs(log: seq<Event>, k: nat)
    requires Paired(log, None)
    ensures |log| % 2 == 0
    ensures 2 * k < |log| ==> (log[2 * k].Start? || log[2 * k].Retry?) && (log[2 * k + 1].Commit? || log[2 * k + 1].Abort?)
                              && log[2 * k + 1].id == log[2 * k].id
  {
    if 2 * k < |log| {
      assert (2 * k) % 2 == 0 && (2 * k + 1) % 2 == 1;
      assert Opens(log[2 * k]) && Closes(log[2 * k + 1], log[2 * k + 1 - 1].id);
    }
  }

  lemma PairedOpen(log: seq<Event>, e: Event)
    requires Paired(log, None) && Opens(e)
    ensures Paired(log + [e], Some(e.id))
  {
  }

  lemma PairedClose(log: seq<Event>, e: Event, id: int)
    requires Paired(log, Some(id)) && Closes(e, id)
    ensures Paired(log + [e], None)
  {
  }

  /** What the running transaction holds as long as it is not suspended. */
  function Running(current: Option<Client>, missCnt: nat): Tally {
    if current.Some? && missCnt == 0 then One(current.value).(locks := multiset{}) else ZERO
  }

  /** Each transaction entered is suspended in one place, running, or finished; each copy of arguments belongs to one
      transaction; each lock belongs to a suspended transaction, or is the one of the transaction being retried. */
  ghost predicate Balanced(total: Tally, run: Tally, held: Option<int>, locks: multiset<int>, live: set<int>,
                           finished: multiset<int>, entered: set<int>)
  {
    && total.ids + run.ids + finished == multiset(entered)
    && total.copies + run.copies == multiset(live)
    && total.locks + Lock(held) == locks
  }

  lemma BalancedEnter(total: Tally, held: Option<int>, locks: multiset<int>, live: set<int>, finished: multiset<int>, entered: set<int>, c: Client)
    requires Balanced(total, ZERO, held, locks, live, finished, entered) && c.id !in entered && !c.args.Copy?
    ensures Balanced(total, Running(Some(c), 0), held, locks, live, finished, entered + {c.id})
  {
    assert total.ids + multiset{c.id} + finished == total.ids + multiset{} + finished + multiset{c.id};
    assert multiset(entered + {c.id}) == multiset(entered) + multiset{c.id};
  }

  lemma BalancedCopy(total: Tally, c: Client, p: int, held: Option<int>, locks: multiset<int>, live: set<int>, finished: multiset<int>, entered: set<int>)
    requires Balanced(total, Running(Some(c), 0), held, locks, live, finished, entered) && !c.args.Copy? && p !in live
    ensures Balanced(total, Running(Some(c.(args := Copy(p))), 0), held, locks, live + {p}, finished, entered)
  {
    assert multiset(live + {p}) == multiset(live) + multiset{p};
    assert total.copies + multiset{p} == total.copies + multiset{} + multiset{p};
  }

  lemma BalancedWait(total: Tally, c: Client, held: Option<int>, locks: multiset<int>, live: set<int>, finished: multiset<int>, entered: set<int>, n: nat)
    requires Balanced(total, Running(Some(c), 0), held, locks, live, finished, entered) && n > 0
    ensures Balanced(Plus(total, One(c)), Running(Some(c), n), held, locks + Lock(c.chan), live, finished, entered)
  {
    var o := One(c);
    Drop(total.ids, o.ids, finished);
    assert (total.copies + o.copies) + multiset{} == total.copies + o.copies;
    Exchange(total.locks, o.locks, Lock(held));
  }

  lemma Drop(a: multiset<int>, b: multiset<int>, c: multiset<int>)
    ensures (a + b) + multiset{} + c == a + b + c
  {
    assert (a + b) + multiset{} == a + b;
  }

  lemma Exchange(a: multiset<int>, b: multiset<int>, c: multiset<int>)
    ensures (a + b) + c == a + c + b
  {
  }

  lemma BalancedRetry(rest: Tally, c: Client, locks: multiset<int>, live: set<int>, finished: multiset<int>, entered: set<int>)
    requires Balanced(Plus(rest, One(c)), ZERO, None, locks, live, finished, entered)
    ensures Balanced(rest, Running(Some(c), 0), c.chan, locks, live, finished, entered)
  {
    var o := One(c);
    assert rest.ids + o.ids + finished == (rest.ids + o.ids) + multiset{} + finished;
    assert rest.copies + o.copies == (rest.copies + o.copies) + multiset{};
    assert rest.locks + o.locks == (rest.locks + o.locks) + multiset{};
  }

  lemma BalancedFinish(total: Tally, c: Client, held: Option<int>, locks: multiset<int>, live: set<int>, finished: multiset<int>, entered: set<int>)
    requires Balanced(total, Running(Some(c), 0), held, locks, live, finished, entered)
    ensures c.args.Copy? ==> c.args.ptr in live
    ensures Balanced(total, ZERO, held, locks, if c.args.Copy? then live - {c.args.ptr} else live, finished + multiset{c.id}, entered)
  {
    assert total.ids + multiset{} + (finished + multiset{c.id}) == total.ids + multiset{c.id} + finished;
    if c.args.Copy? {
      var p := c.args.ptr;
      assert (total.copies + multiset{p})[p] >= 1;
      assert p in live;
      assert multiset(live) == multiset(live - {p}) + multiset{p};
      assert total.copies + multiset{} == total.copies;
      forall x ensures total.copies[x] == multiset(live - {p})[x] {
        assert (total.copies + multiset{p})[x] == multiset(live)[x];
      }
      assert total.copies == multiset(live - {p});
    }
  }

  lemma BalancedRelease(total: Tally, held: Option<int>, locks: multiset<int>, live: set<int>, finished: multiset<int>, entered: set<int>)
    requires Balanced(total, ZERO, held, locks, live, finished, entered)
    ensures Balanced(total, ZERO, None, locks - Lock(held), live, finished, entered)
    ensures held.Some? ==> held.value in locks
  {
    assert total.locks + Lock(held) - Lock(held) == total.locks;
    assert total.locks + multiset{} == total.locks;
    if held.Some? { assert (total.locks + Lock(held))[held.value] >= 1; }
  }

  /** The transaction that runs has the arguments it was entered with. */
  ghost predicate RunningKept(c: Client, memory: map<int, Bytes>, original: map<int, Option<Bytes>>) {
    && (c.args.Copy? ==> c.args.ptr in memory)
    && c.id in original && Content(c.args, memory) == original[c.id]
  }

  type Memory = map<int, Bytes>

  type Originals = map<int, Option<Bytes>>

  // ----- the lists -----

  /** The caches on the list of caches are those with waiting transactions, all of which keep their arguments. */
  ghost predicate ListsOk(n: nat, s: Suspended, linked: set<nat>, memory: Memory, original: Originals) {
    && |s.waiting| == n
    && (forall k :: k in linked <==> 0 <= k < n && s.waiting[k] != [])
    && KeptEverywhere(s, memory, original)
  }

  lemma ListsCopy(n: nat, s: Suspended, linked: set<nat>, memory: Memory, original: Originals, p: int, b: Bytes)
    requires ListsOk(n, s, linked, memory, original) && p !in memory
    ensures ListsOk(n, s, linked, memory[p := b], original)
  {
    hide KeptEverywhere;
    KeptMore(s, memory, original, p, b);
  }

  lemma ListsEnter(n: nat, s: Suspended, linked: set<nat>, memory: Memory, original: Originals, id: int, b: Option<Bytes>)
    requires ListsOk(n, s, linked, memory, original) && id !in original
    ensures ListsOk(n, s, linked, memory, original[id := b])
  {
    hide KeptEverywhere;
    KeptNew(s, memory, original, id, b);
  }

  lemma ListsWait(n: nat, s: Suspended, linked: set<nat>, memory: Memory, original: Originals, k: nat, c: Client)
    requires ListsOk(n, s, linked, memory, original) && k < n && RunningKept(c, memory, original) && !c.args.Caller?
    ensures |s.waiting| == n
    ensures ListsOk(n, s.(waiting := s.waiting[k := s.waiting[k] + [c]]), linked + {k}, memory, original)
    ensures s.waiting[k] != [] ==> linked + {k} == linked
  {
    hide KeptEverywhere;
    KeptWait(s, k, c, memory, original);
  }

  lemma ListsTake(n: nat, s: Suspended, linked: set<nat>, memory: Memory, original: Originals, k: nat)
    requires ListsOk(n, s, linked, memory, original) && k < n
    ensures |s.waiting| == n
    ensures ListsOk(n, s.(waiting := s.waiting[k := []], posted := s.posted + [s.waiting[k]]), linked - {k}, memory, original)
    ensures ListsOk(n, s.(waiting := s.waiting[k := []], work := s.waiting[k]), linked - {k}, memory, original)
  {
    hide KeptEverywhere;
    KeptMoved(s, k, memory, original);
  }

  lemma ListsEvent(n: nat, s: Suspended, linked: set<nat>, memory: Memory, original: Originals)
    requires ListsOk(n, s, linked, memory, original)
    ensures s.posted != [] ==> ListsOk(n, s.(posted := s.posted[1..], work := s.posted[0]), linked, memory, original)
    ensures s.work != [] ==> ListsOk(n, s.(work := s.work[1..]), linked, memory, original) && RunningKept(s.work[0], memory, original)
  {
    hide KeptEverywhere;
    KeptEvent(s, memory, original);
  }

  // ----- the books -----

  ghost predicate BooksOk(s: Suspended, run: Tally, held: Option<int>, locks: multiset<int>, live: set<int>, finished: multiset<int>,
                          original: Originals, memory: Memory, nextPtr: int, nextId: int)
  {
    && Balanced(Total(s), run, held, locks, live, finished, original.Keys)
    && (forall p :: p in memory ==> p < nextPtr) && live <= memory.Keys
    && (forall i :: i in original ==> i < nextId)
  }

  lemma BooksWait(s: Suspended, k: nat, c: Client, held: Option<int>, locks: multiset<int>, live: set<int>, finished: multiset<int>,
                  original: Originals, memory: Memory, nextPtr: int, nextId: int)
    requires BooksOk(s, Running(Some(c), 0), held, locks, live, finished, original, memory, nextPtr, nextId) && k < |s.waiting|
    ensures BooksOk(s.(waiting := s.waiting[k := s.waiting[k] + [c]]), Running(Some(c), 1), held, locks + Lock(c.chan), live,
                    finished, original, memory, nextPtr, nextId)
  {
    hide Balanced, Total, One, Running, Lock;
    TotalWait(s, k, c);
    BalancedWait(Total(s), c, held, locks, live, finished, original.Keys, 1);
  }

  lemma BooksRetry(s: Suspended, n: nat, locks: multiset<int>, live: set<int>, finished: multiset<int>,
                   original: Originals, memory: Memory, nextPtr: int, nextId: int)
    requires s.work != [] && BooksOk(s, Running(None, n), None, locks, live, finished, original, memory, nextPtr, nextId)
    ensures BooksOk(s.(work := s.work[1..]), Running(Some(s.work[0]), 0), s.work[0].chan, locks, live, finished, original, memory, nextPtr, nextId)
  {
    hide Balanced, Total, One, Running, Lock;
    NotRunning(None, n);
    TotalNext(s);
    BalancedRetry(Total(s.(work := s.work[1..])), s.work[0], locks, live, finished, original.Keys);
  }

  // ----- the running transaction -----

  ghost predicate RunsOk(log: seq<Event>, current: Option<Client>, missCnt: nat, memory: Memory, original: Originals, misused: bool, exited: bool) {
    && Paired(log, if current.Some? then Some(current.value.id) else None)
    && (current.Some? && missCnt == 0 ==> RunningKept(current.value, memory, original))
    && (current.Some? && !misused && exited ==> missCnt == 0)
  }

  lemma AtRest(log: seq<Event>, missCnt: nat, memory: Memory, original: Originals, misused: bool, exited: bool)
    requires RunsOk(log, None, missCnt, memory, original, misused, exited)
    ensures Paired(log, None)
  {
  }

  lemma KeptId(c: Client, memory: Memory, original: Originals)
    requires RunningKept(c, memory, original)
    ensures c.id in original
  {
  }

  /** A run without a miss is the last one: the transaction is finished. */
  function Done(finished: multiset<int>, id: int, missCnt: nat): multiset<int> {
    if missCnt == 0 then finished + multiset{id} else finished
  }

  /** Its copy of the arguments is freed then, and only then. */
  function Freed(live: set<int>, args: Args, missCnt: nat): set<int> {
    if missCnt == 0 && args.Copy? then live - {args.ptr} else live
  }

  lemma NotRunning(current: Option<Client>, n: nat)
    ensures Running(current, n + 1) == ZERO && (current.None? || n > 0 ==> Running(current, n) == ZERO)
  {
  }

  // ----- what a client's run does -----

  /** A client in the middle of its run: where transactions wait, the locks, how many caches it has missed, whether it has said
      that it has all its data, whether it has broken the rules, and the next address for a copy of arguments. */
  datatype Progress = Progress(client: Client, s: Suspended, locks: multiset<int>, missCnt: nat, exited: bool, misused: bool, nextPtr: int)

  /** The client misses a cache: only its first miss suspends it. */
  function Missed(p: Progress, k: nat): Progress
    requires k < |p.s.waiting|
  {
    var q := p.(missCnt := p.missCnt + 1, misused := p.misused || p.exited);
    if p.missCnt > 0 then q
    else
      var c := if p.client.args.Caller? then p.client.(args := Copy(p.nextPtr)) else p.client;
      q.(client := c, s := p.s.(waiting := p.s.waiting[k := p.s.waiting[k] + [c]]), locks := p.locks + Lock(c.chan),
         nextPtr := if p.client.args.Caller? then p.nextPtr + 1 else p.nextPtr)
  }

  /** What one action leads to, and whether it ends the run. */
  function Acted(p: Progress, a: Act): (r: (Progress, bool))
    ensures |r.0.s.waiting| == |p.s.waiting| && r.0.s.work == p.s.work
  {
    match a
    case Wait(k, caught) => if k < |p.s.waiting| then (Missed(p, k), !caught) else (p, false)
    case Exit(caught) =>
      (p.(misused := p.misused || p.exited, exited := p.exited || p.missCnt == 0), p.missCnt > 0 && !caught)
    case Later(k) =>
      if k < |p.s.waiting| && p.s.waiting[k] != []
      then (p.(s := p.s.(waiting := p.s.waiting[k := []], posted := p.s.posted + [p.s.waiting[k]])), false)
      else (p, false)
    case Throw => (p, true)
  }

  /** What a whole run leads to. A client that returns must have found all its data and said so. */
  function Ran(p: Progress, script: seq<Act>): (q: Progress)
    ensures q.s.work == p.s.work && |q.s.waiting| == |p.s.waiting|
    decreases |script|
  {
    if script == [] then p.(misused := p.misused || p.missCnt != 0 || !p.exited)
    else if Acted(p, script[0]).1 then Acted(p, script[0]).0
    else Ran(Acted(p, script[0]).0, script[1..])
  }

  function Begun(c: Client, s: Suspended, locks: multiset<int>, misused: bool, nextPtr: int): Progress {
    Progress(c, s, locks, 0, false, misused, nextPtr)
  }

  /** The whole state between the runs of clients. */
  datatype World = World(
    s: Suspended, locks: multiset<int>, exited: bool, misused: bool, nextPtr: int, nextId: int, finished: multiset<int>, log: seq<Event>,
    original: Originals)

  function Given(w: World, id: int): Option<Bytes> { if id in w.original then w.original[id] else None }

  /** A client is run once. */
  function OneRun(w: World, c: Client, retry: bool, script: seq<Act>): (v: World)
    ensures v.s.work == w.s.work && |v.s.waiting| == |w.s.waiting|
  {
    var p := Ran(Begun(c, w.s, w.locks, w.misused, w.nextPtr), script);
    w.(s := p.s, locks := p.locks, exited := false, misused := p.misused, nextPtr := p.nextPtr, finished := Done(w.finished, c.id, p.missCnt),
       log := w.log + [if retry then Retry(c.id, Given(w, c.id)) else Start(c.id, Given(w, c.id))]
              + [if p.exited then Commit(c.id) else Abort(c.id)])
  }

  /** The first transaction of the notification at work is run again and its lock released. */
  function RetriedOne(w: World, script: seq<Act>): (v: World)
    requires w.s.work != []
    ensures v.s.work == w.s.work[1..] && |v.s.waiting| == |w.s.waiting|
  {
    var v := OneRun(w.(s := w.s.(work := w.s.work[1..])), w.s.work[0], true, script);
    v.(locks := v.locks - Lock(w.s.work[0].chan))
  }

  /** All of them are, in order. */
  function Retried(w: World, scripts: nat -> seq<Act>): (v: World)
    ensures |v.s.waiting| == |w.s.waiting|
    decreases |w.s.work|
  {
    if w.s.work == [] then w else Retried(RetriedOne(w, scripts(|w.log|)), scripts)
  }

  function Stepped(w: World, step: Step, scripts: nat -> seq<Act>): (v: World)
    ensures |v.s.waiting| == |w.s.waiting|
  {
    match step
    case Enter(chan, args) =>
      OneRun(w.(nextId := w.nextId + 1, original := w.original[w.nextId := args]),
             Client(w.nextId, chan, if args.None? then NoArgs else Caller(args.value)), false, scripts(|w.log|))
    case Notify(k) =>
      if k < |w.s.waiting| && w.s.waiting[k] != []
      then Retried(w.(s := w.s.(waiting := w.s.waiting[k := []], work := w.s.waiting[k])), scripts) else w
    case NotifyLater(k) =>
      if k < |w.s.waiting| && w.s.waiting[k] != []
      then w.(s := w.s.(waiting := w.s.waiting[k := []], posted := w.s.posted + [w.s.waiting[k]])) else w
    case Dispatch =>
      if w.s.posted != [] then Retried(w.(s := w.s.(posted := w.s.posted[1..], work := w.s.posted[0])), scripts) else w
    case Miss(k) => if k < |w.s.waiting| then w.(misused := w.misused || w.exited) else w
  }

  function SteppedAll(w: World, steps: seq<Step>, scripts: nat -> seq<Act>): World {
    if steps == [] then w else Stepped(SteppedAll(w, steps[..|steps| - 1], scripts), steps[|steps| - 1], scripts)
  }

  /** Two runs: one that finds everything and says so, and one that misses two caches, is suspended at the first of them and
      gives up at its exit. */
  lemma Runs(c: Client, s: Suspended, locks: multiset<int>, nextPtr: int)
    requires |s.waiting| == 2 && c.args.NoArgs?
    ensures Ran(Begun(c, s, locks, false, nextPtr), [Exit(false)]) == Progress(c, s, locks, 0, true, false, nextPtr)
    ensures Ran(Begun(c, s, locks, false, nextPtr), [Wait(1, true), Wait(0, true), Exit(false), Throw])
            == Progress(c, s.(waiting := s.waiting[1 := s.waiting[1] + [c]]), locks + Lock(c.chan), 2, false, false, nextPtr)
  {
    var p := Begun(c, s, locks, false, nextPtr);
    var script := [Wait(1, true), Wait(0, true), Exit(false), Throw];
    assert [Exit(false)][1..] == [];
    assert script[1..] == [Wait(0, true), Exit(false), Throw] && script[1..][1..] == [Exit(false), Throw];
    var p1 := Acted(p, Wait(1, true)).0;
    var p2 := Acted(p1, Wait(0, true)).0;
    assert Ran(p, script) == Ran(p1, script[1..]) == Ran(p2, script[1..][1..]);
  }

  lemma RetriedIs(w: World, scripts: nat -> seq<Act>)
    ensures Retried(w, scripts) == if w.s.work == [] then w else Retried(RetriedOne(w, scripts(|w.log|)), scripts)
  {
    hide RetriedOne;
  }

  lemma NotifyIs(w: World, k: nat, scripts: nat -> seq<Act>)
    requires k < |w.s.waiting|
    ensures Stepped(w, Notify(k), scripts)
            == if w.s.waiting[k] == [] then w else Retried(w.(s := w.s.(waiting := w.s.waiting[k := []], work := w.s.waiting[k])), scripts)
  {
    hide Retried;
  }

  lemma DispatchIs(w: World, scripts: nat -> seq<Act>)
    requires w.s.posted != []
    ensures Stepped(w, Dispatch, scripts) == Retried(w.(s := w.s.(posted := w.s.posted[1..], work := w.s.posted[0])), scripts)
  {
    hide Retried;
  }

  lemma RanStep(p: Progress, script: seq<Act>, n: nat)
    requires n < |script|
    ensures Ran(p, script[n..]) == if Acted(p, script[n]).1 then Acted(p, script[n]).0 else Ran(Acted(p, script[n]).0, script[n + 1..])
  {
    hide Acted;
    assert script[n..][1..] == script[n + 1..];
  }

  lemma RanEnd(p: Progress, script: seq<Act>)
    requires script == []
    ensures Ran(p, script) == p.(misused := p.misused || p.missCnt != 0 || !p.exited)
  {
  }

  class CacheManager {
    const caches: nat
    var s: Suspended
    var linked: set<nat>
    var current: Option<Client>
    var missCnt: nat
    var exited: bool
    var nextId: int
    var nextPtr: int
    var memory: Memory
    var live: set<int>
    var locks: multiset<int>
    var log: seq<Event>
    /** The lock of the transaction being retried. */
    ghost var held: Option<int>
    ghost var finished: multiset<int>
    ghost var original: Originals
    /** An assertion about the use of the interface by clients has failed. */
    ghost var misused: bool

    ghost predicate Valid()
      reads this
    {
      && ListsOk(caches, s, linked, memory, original)
      && BooksOk(s, Running(current, missCnt), held, locks, live, finished, original, memory, nextPtr, nextId)
      && RunsOk(log, current, missCnt, memory, original, misused, exited)
    }

    ghost function W(): World
      reads this
    {
      World(s, locks, exited, misused, nextPtr, nextId, finished, log, original)
    }

    ghost function P(): Progress
      requires current.Some?
      reads this
    {
      Progress(current.value, s, locks, missCnt, exited, misused, nextPtr)
    }

    /** Nothing runs and no notification is at work. */
    ghost predicate Idle()
      reads this
    {
      current.None? && held.None? && s.work == []
    }

    constructor (caches: nat)
      ensures Valid() && Idle() && this.caches == caches && log == [] && original == map[] && live == {} && locks == multiset{}
      ensures missCnt == 0 && !exited && !misused && nextId == 1 && s == Suspended(seq(caches, i => []), [], []) && finished == multiset{}
    {
      this.caches := caches;
      s := Suspended(seq(caches, i => []), [], []);
      linked, current, missCnt, exited := {}, None, 0, false;
      nextId, nextPtr, memory, live, locks, log := 1, 0, map[], {}, multiset{}, [];
      held, finished, original, misused := None, multiset{}, map[], false;
      new;
      hide KeptEverywhere, Balanced, Total;
      Empty(s, caches);
    }

    static lemma Empty(s: Suspended, n: nat)
      requires |s.waiting| == n && s.posted == [] && s.work == [] && forall k :: 0 <= k < n ==> s.waiting[k] == []
      ensures Balanced(Total(s), ZERO, None, multiset{}, {}, multiset{}, {}) && KeptEverywhere(s, map[], map[])
    {
      NothingSuspended(s.waiting);
      PlusZero(ZERO);
      assert SumAll(s.posted) == ZERO && Sum(s.work) == ZERO;
    }

    static lemma {:induction false} NothingSuspended(t: seq<seq<Client>>)
      requires forall k :: 0 <= k < |t| ==> t[k] == []
      ensures SumAll(t) == ZERO
    {
      if t != [] {
        NothingSuspended(t[1..]);
        PlusZero(ZERO);
        assert Sum(t[0]) == ZERO;
      }
    }

    static lemma Length(n: nat, s: Suspended, linked: set<nat>, memory: Memory, original: Originals)
      requires ListsOk(n, s, linked, memory, original)
      ensures |s.waiting| == n
    {
    }

    /** A transaction meets a cache that is not filled: at its first miss it is suspended there, with a copy of its arguments
        and a lock on its channel. */
    method CacheWait(k: nat)
      requires Valid() && k < caches && |s.waiting| == caches
      modifies this`s, this`linked, this`current, this`missCnt, this`nextPtr, this`memory, this`live, this`locks, this`misused
      ensures Valid() && missCnt == old(missCnt) + 1 && s.work == old(s.work)
      ensures current.Some? == old(current.Some?) && (current.Some? ==> current.value.id == old(current.value.id))
      ensures misused == (old(misused) || exited)
      ensures old(current.Some?) && old(missCnt) == 0 ==>
                && s.waiting == old(s.waiting)[k := old(s.waiting)[k] + [current.value]]
                && locks == old(locks) + Lock(current.value.chan)
                && (!old(current.value.args.Caller?) ==> live == old(live))
      ensures old(current.None?) || old(missCnt) > 0 ==> s == old(s) && locks == old(locks) && live == old(live)
      ensures |old(s.waiting)| == caches && (old(current.Some?) ==> P() == Missed(old(P()), k))
      ensures old(current.None?) ==> nextPtr == old(nextPtr)
    {
      hide ListsOk, BooksOk, Running, Paired, RunningKept, Lock;
      misused := misused || exited;
      if current.Some? && missCnt == 0 {
        if current.value.args.Caller? {
          CopyArgs();
        }
        Suspend(k);
      } else {
        NotRunning(current, missCnt);
        missCnt := missCnt + 1;
      }
    }

    /** The running transaction joins the wait list of a cache. */
    method Suspend(k: nat)
      requires Valid() && k < caches && |s.waiting| == caches
      requires current.Some? && missCnt == 0 && !current.value.args.Caller? && (exited ==> misused)
      modifies this`s, this`linked, this`missCnt, this`locks
      ensures Valid() && missCnt == 1
      ensures s == old(s).(waiting := old(s.waiting)[k := old(s.waiting)[k] + [current.value]])
      ensures locks == old(locks) + Lock(current.value.chan)
    {
      hide ListsOk, BooksOk, Running, Paired, RunningKept, Lock;
      var c := current.value;
      ListsWait(caches, s, linked, memory, original, k, c);
      BooksWait(s, k, c, held, locks, live, finished, original, memory, nextPtr, nextId);
      if s.waiting[k] == [] {
        linked := linked + {k};
      }
      locks := locks + Lock(c.chan);
      s := s.(waiting := s.waiting[k := s.waiting[k] + [c]]);
      missCnt := 1;
    }

    /** The arguments are copied into memory of their own. */
    method CopyArgs()
      requires Valid() && current.Some? && missCnt == 0 && current.value.args.Caller?
      modifies this`current, this`nextPtr, this`memory, this`live
      ensures Valid() && current == Some(old(current.value).(args := Copy(old(nextPtr))))
      ensures live == old(live) + {old(nextPtr)}
      ensures nextPtr == old(nextPtr) + 1
    {
      hide ListsOk, Balanced, Total, One, Running, Paired;
      var c, p := current.value, nextPtr;
      BalancedCopy(Total(s), c, p, held, locks, live, finished, original.Keys);
      ListsCopy(caches, s, linked, memory, original, p, c.args.bytes);
      memory := memory[p := c.args.bytes];
      live, nextPtr := live + {p}, p + 1;
      current := Some(c.(args := Copy(p)));
    }

    /** The wait list of a cache becomes a posted notification. */
    method CacheNotifyLater(k: nat)
      requires Valid() && k < caches && |s.waiting| == caches
      modifies this`s, this`linked
      ensures Valid() && s.work == old(s.work)
      ensures s.waiting == old(s.waiting)[k := []]
      ensures s.posted == old(s.posted) + if old(s.waiting)[k] == [] then [] else [old(s.waiting)[k]]
      ensures old(s.waiting)[k] == [] ==> s == old(s)
    {
      hide ListsOk, Balanced, Total, Running, RunsOk;
      if s.waiting[k] == [] {
        return;
      }
      ListsTake(caches, s, linked, memory, original, k);
      TotalPost(s, k);
      linked := linked - {k};
      s := s.(waiting := s.waiting[k := []], posted := s.posted + [s.waiting[k]]);
    }

    /** A client says that it has all its data. */
    method CacheExit() returns (missed: bool)
      requires Valid() && current.Some?
      modifies this`exited, this`misused
      ensures Valid() && missed == (missCnt > 0) && misused == (old(misused) || old(exited))
      ensures exited == (old(exited) || missCnt == 0)
    {
      hide ListsOk, BooksOk, Running, Paired, RunningKept;
      misused := misused || exited;
      missed := missCnt > 0;
      if !missed { exited := true; }
    }

    /** One action of a running client; `stop` says that an exception ends the run. */
    method Perform(a: Act) returns (stop: bool)
      requires Valid() && current.Some?
      modifies this`s, this`linked, this`current, this`missCnt, this`nextPtr, this`memory, this`live, this`locks, this`misused, this`exited
      ensures Valid() && current.Some? && current.value.id == old(current.value.id) && s.work == old(s.work)
      ensures (P(), stop) == Acted(old(P()), a)
    {
      hide ListsOk, BooksOk, RunsOk;
      Length(caches, s, linked, memory, original);
      stop := false;
      match a {
        case Wait(k, caught) =>
          if k < caches {
            CacheWait(k);
            stop := !caught;
          }
        case Exit(caught) =>
          var missed := CacheExit();
          stop := missed && !caught;
        case Later(k) =>
          if k < caches { CacheNotifyLater(k); }
        case Throw =>
          stop := true;
      }
    }

    /** A client runs: the transaction listeners see it open and close, and at the end it is either suspended or finished; a
        client that uses the interface as it should is committed only if it is finished. */
    method RunClient(c: Client, retry: bool, script: seq<Act>)
      requires ListsOk(caches, s, linked, memory, original) && current.None? && Paired(log, None) && RunningKept(c, memory, original)
      requires BooksOk(s, Running(Some(c), 0), held, locks, live, finished, original, memory, nextPtr, nextId)
      modifies this`s, this`linked, this`current, this`missCnt, this`nextPtr, this`memory, this`live, this`locks, this`misused,
               this`exited, this`log, this`finished
      ensures Valid() && current.None? && s.work == old(s.work)
      ensures Round(old(log), log, c.id, if retry then Retry(c.id, original[c.id]) else Start(c.id, original[c.id]))
      ensures finished == old(finished) || finished == old(finished) + multiset{c.id}
      ensures !misused && log[|log| - 1].Commit? ==> finished == old(finished) + multiset{c.id}
      ensures var p := Ran(Begun(c, old(s), old(locks), old(misused), old(nextPtr)), script);
              && s == p.s && locks == p.locks && misused == p.misused && nextPtr == p.nextPtr
              && finished == Done(old(finished), c.id, p.missCnt)
              && log == old(log) + [if retry then Retry(c.id, original[c.id]) else Start(c.id, original[c.id])]
                        + [if p.exited then Commit(c.id) else Abort(c.id)]
      ensures !exited && (c.id in original ==> W() == OneRun(old(W()), c, retry, script))
    {
      hide ListsOk, BooksOk, RunsOk, Paired, Ran, Freed, Running, RunningKept;
      Open(c, retry);
      RunScript(script);
      Close(c.id);
    }

    /** The run begins. */
    method Open(c: Client, retry: bool)
      requires ListsOk(caches, s, linked, memory, original) && current.None? && Paired(log, None) && RunningKept(c, memory, original)
      requires BooksOk(s, Running(Some(c), 0), held, locks, live, finished, original, memory, nextPtr, nextId)
      modifies this`current, this`missCnt, this`exited, this`log
      ensures Valid() && current == Some(c)
      ensures log == old(log) + [if retry then Retry(c.id, original[c.id]) else Start(c.id, original[c.id])]
      ensures missCnt == 0 && !exited
    {
      hide ListsOk, BooksOk, Running, Paired;
      var e := if retry then Retry(c.id, Content(c.args, memory)) else Start(c.id, Content(c.args, memory));
      PairedOpen(log, e);
      current, missCnt, exited := Some(c), 0, false;
      log := log + [e];
    }

    /** The client itself. A client that returns must have found all its data and said so. */
    method RunScript(script: seq<Act>)
      requires Valid() && current.Some?
      modifies this`s, this`linked, this`current, this`missCnt, this`nextPtr, this`memory, this`live, this`locks, this`misused, this`exited
      ensures Valid() && current.Some? && current.value.id == old(current.value.id) && s.work == old(s.work)
      ensures P() == Ran(old(P()), script)
    {
      hide ListsOk, BooksOk, Running, Paired, RunningKept, Ran, Acted;
      var n, stop := 0, false;
      assert script[0..] == script;
      while n < |script| && !stop
        invariant Valid() && current.Some? && current.value.id == old(current.value.id) && s.work == old(s.work)
        invariant n <= |script| && Ran(old(P()), script) == if stop then P() else Ran(P(), script[n..])
      {
        RanStep(P(), script, n);
        stop := Perform(script[n]);
        n := n + 1;
      }
      if !stop {
        RanEnd(P(), script[n..]);
        misused := misused || missCnt != 0 || !exited;
      }
    }

    /** The run ends; the arguments are freed unless the transaction is suspended again. */
    method Close(ghost id: int)
      requires Valid() && current.Some? && current.value.id == id
      modifies this`current, this`missCnt, this`live, this`exited, this`log, this`finished
      ensures Valid() && current.None?
      ensures exists e :: log == old(log) + [e] && Closes(e, id) && e.Commit? == old(exited)
      ensures finished == Done(old(finished), id, old(missCnt))
      ensures !misused && old(exited) ==> old(missCnt) == 0
      ensures live == Freed(old(live), old(current.value.args), old(missCnt))
      ensures log == old(log) + [if old(exited) then Commit(id) else Abort(id)]
      ensures !exited
    {
      hide ListsOk, BooksOk, Running, Paired, RunningKept, Done, Freed;
      var c := current.value;
      var e := if exited then Commit(c.id) else Abort(c.id);
      PairedClose(log, e, id);
      log := log + [e];
      Retire();
      current, missCnt, exited := None, 0, false;
    }

    /** A transaction that is not suspended is done: its arguments are freed. */
    method Retire()
      requires BooksOk(s, Running(current, missCnt), held, locks, live, finished, original, memory, nextPtr, nextId) && current.Some?
      modifies this`live, this`finished
      ensures BooksOk(s, Running(None, 0), held, locks, live, finished, original, memory, nextPtr, nextId)
      ensures finished == Done(old(finished), current.value.id, missCnt)
      ensures live == Freed(old(live), current.value.args, missCnt)
    {
      hide Balanced, Total, Running, One;
      var c := current.value;
      NotRunning(None, 0);
      NotRunning(current, missCnt);
      if missCnt == 0 {
        BalancedFinish(Total(s), c, held, locks, live, finished, original.Keys);
        if c.args.Copy? { live := live - {c.args.ptr}; }
        finished := finished + multiset{c.id};
      }
    }

    /** A new transaction. */
    method CacheEnter(chan: Option<int>, args: Option<Bytes>, script: seq<Act>)
      requires Valid() && current.None?
      modifies this`s, this`linked, this`current, this`missCnt, this`nextPtr, this`memory, this`live, this`locks, this`misused,
               this`exited, this`log, this`finished, this`nextId, this`original
      ensures Valid() && current.None? && s.work == old(s.work)
      ensures original == old(original)[old(nextId) := args]
      ensures Round(old(log), log, old(nextId), Start(old(nextId), args))
      ensures nextId == old(nextId) + 1
      ensures var c := Client(old(nextId), chan, if args.None? then NoArgs else Caller(args.value));
              var p := Ran(Begun(c, old(s), old(locks), old(misused), old(nextPtr)), script);
              s == p.s && locks == p.locks && misused == p.misused && finished == Done(old(finished), c.id, p.missCnt)
      ensures W() == Stepped(old(W()), Enter(chan, args), _ => script)
    {
      hide ListsOk, Balanced, Total, Running, Paired, One, Round;
      var c := Client(nextId, chan, if args.None? then NoArgs else Caller(args.value));
      NotRunning(None, missCnt);
      BalancedEnter(Total(s), held, locks, live, finished, original.Keys, c);
      ListsEnter(caches, s, linked, memory, original, c.id, args);
      nextId := nextId + 1;
      original := original[c.id := args];
      assert original.Keys == old(original).Keys + {c.id};
      RunClient(c, false, script);
    }

    /** Retry every transaction of a notification, in order, each exactly once; its lock is released after its run, by when
        it has a new one if it was suspended again. */
    method RetryAll(scripts: nat -> seq<Act>)
      requires Valid() && current.None? && held.None?
      modifies this`s, this`linked, this`current, this`missCnt, this`nextPtr, this`memory, this`live, this`locks, this`misused,
               this`exited, this`log, this`finished, this`held
      ensures Valid() && Idle()
      ensures Rounds(old(log), log, old(s.work), original)
      ensures W() == Retried(old(W()), scripts)
    {
      hide Valid, Round, Rounds, RetriedOne, Retried, Ran, Done, Lock;
      ghost var n, all := 0, s.work;
      assert all[0..] == all && all[..0] == [];
      NoRounds(log, original);
      while s.work != []
        invariant Valid() && current.None? && held.None?
        invariant n <= |all| && s.work == all[n..]
        invariant Rounds(old(log), log, all[..n], original)
        invariant Retried(old(W()), scripts) == Retried(W(), scripts)
        decreases |s.work|
      {
        ghost var before := log;
        assert s.work[0] == all[n] && s.work[1..] == all[n + 1..];
        RetriedIs(W(), scripts);
        RetryOne(scripts(|log|));
        RoundsNext(old(log), before, log, all, n, original);
        n := n + 1;
      }
      assert all[..n] == all;
      RetriedIs(W(), scripts);
    }

    method RetryOne(script: seq<Act>)
      requires Valid() && current.None? && held.None? && s.work != []
      modifies this`s, this`linked, this`current, this`missCnt, this`nextPtr, this`memory, this`live, this`locks, this`misused,
               this`exited, this`log, this`finished, this`held
      ensures Valid() && current.None? && held.None? && s.work == old(s.work)[1..]
      ensures old(s.work)[0].id in original
      ensures Round(old(log), log, old(s.work)[0].id, Retry(old(s.work)[0].id, original[old(s.work)[0].id]))
      ensures var c := old(s.work)[0];
              var p := Ran(Begun(c, old(s).(work := old(s.work)[1..]), old(locks), old(misused), old(nextPtr)), script);
              s == p.s && locks == p.locks - Lock(c.chan) && misused == p.misused && finished == Done(old(finished), c.id, p.missCnt)
      ensures W() == RetriedOne(old(W()), script)
    {
      hide Valid, Round, Lock, Ran, Done, OneRun;
      var c := s.work[0];
      Rerun(c, script);
      Release(c.chan);
    }

    /** The first transaction is run again, with its lock held. */
    method Rerun(c: Client, script: seq<Act>)
      requires Valid() && current.None? && held.None? && s.work != [] && c == s.work[0]
      modifies this`s, this`linked, this`current, this`missCnt, this`nextPtr, this`memory, this`live, this`locks, this`misused,
               this`exited, this`log, this`finished, this`held
      ensures Valid() && current.None? && held == c.chan && s.work == old(s.work)[1..]
      ensures c.id in original && Round(old(log), log, c.id, Retry(c.id, original[c.id]))
      ensures var p := Ran(Begun(c, old(s).(work := old(s.work)[1..]), old(locks), old(misused), old(nextPtr)), script);
              s == p.s && locks == p.locks && misused == p.misused && finished == Done(old(finished), c.id, p.missCnt)
      ensures W() == OneRun(old(W()).(s := old(s).(work := old(s.work)[1..])), c, true, script)
    {
      hide ListsOk, BooksOk, RunsOk, Running, RunningKept, Paired, Round, Lock, Ran, Done, OneRun;
      AtRest(log, missCnt, memory, original, misused, exited);
      ListsEvent(caches, s, linked, memory, original);
      BooksRetry(s, missCnt, locks, live, finished, original, memory, nextPtr, nextId);
      KeptId(c, memory, original);
      s := s.(work := s.work[1..]);
      held := c.chan;
      RunClient(c, true, script);
    }

    /** The lock that the notification holds for a transaction is released after its retry. */
    method Release(chan: Option<int>)
      requires Valid() && current.None? && held == chan
      modifies this`locks, this`held
      ensures Valid() && held.None? && locks == old(locks) - Lock(chan) && Lock(chan) <= old(locks)
    {
      hide ListsOk, Balanced, Total, Running, RunsOk;
      NotRunning(None, missCnt);
      BalancedRelease(Total(s), held, locks, live, finished, original.Keys);
      locks := locks - Lock(chan);
      held := None;
    }

    /** Notify a cache now. */
    method CacheNotify(k: nat, scripts: nat -> seq<Act>)
      requires Valid() && Idle() && k < caches && |s.waiting| == caches
      modifies this`s, this`linked, this`current, this`missCnt, this`nextPtr, this`memory, this`live, this`locks, this`misused,
               this`exited, this`log, this`finished, this`held
      ensures Valid() && Idle()
      ensures Rounds(old(log), log, old(s.waiting)[k], original)
      ensures W() == Stepped(old(W()), Notify(k), scripts)
    {
      hide ListsOk, Balanced, Total, Running, RunsOk, Rounds, Stepped, Retried;
      NotifyIs(W(), k, scripts);
      NoRounds(log, original);
      if s.waiting[k] == [] {
        return;
      }
      ListsTake(caches, s, linked, memory, original, k);
      TotalStart(s, k);
      linked := linked - {k};
      s := s.(waiting := s.waiting[k := []], work := s.waiting[k]);
      RetryAll(scripts);
    }

    /** The event of the notification posted first. */
    method CacheNotifyEvent(scripts: nat -> seq<Act>)
      requires Valid() && Idle() && s.posted != []
      modifies this`s, this`linked, this`current, this`missCnt, this`nextPtr, this`memory, this`live, this`locks, this`misused,
               this`exited, this`log, this`finished, this`held
      ensures Valid() && Idle()
      ensures Rounds(old(log), log, old(s.posted)[0], original)
      ensures W() == Stepped(old(W()), Dispatch, scripts)
    {
      hide ListsOk, Balanced, Total, Running, RunsOk, Rounds, Stepped, Retried;
      DispatchIs(W(), scripts);
      TotalEvent(s);
      ListsEvent(caches, s, linked, memory, original);
      s := s.(posted := s.posted[1..], work := s.posted[0]);
      RetryAll(scripts);
    }

    /** Every run: each transaction entered is suspended in exactly one place or has finished exactly once; the locks on each
        channel are as many as its suspended transactions; a copy of arguments is in memory exactly as long as a suspended
        transaction owns it; and every start or retry has been closed. */
    method Run(steps: seq<Step>, scripts: nat -> seq<Act>)
      requires Valid() && Idle()
      modifies this
      ensures Valid() && Idle() && Paired(log, None)
      ensures forall id :: id in original ==> Total(s).ids[id] + finished[id] == 1
      ensures forall chan :: locks[chan] == Total(s).locks[chan]
      ensures forall p :: Total(s).copies[p] == if p in live then 1 else 0
      ensures W() == SteppedAll(old(W()), steps, scripts)
    {
      hide ListsOk, BooksOk, RunsOk, Round, Rounds, Total, Stepped;
      for n := 0 to |steps|
        invariant Valid() && Idle() && W() == SteppedAll(old(W()), steps[..n], scripts)
      {
        Take(steps[n], scripts);
        assert steps[..n + 1][..n] == steps[..n];
      }
      assert steps[..|steps|] == steps;
      Summary(s, missCnt, locks, live, finished, original, memory, nextPtr, nextId, log, exited, misused);
    }

    static lemma Summary(s: Suspended, n: nat, locks: multiset<int>, live: set<int>, finished: multiset<int>,
                         original: Originals, memory: Memory, nextPtr: int, nextId: int, log: seq<Event>, exited: bool, misused: bool)
      requires BooksOk(s, Running(None, n), None, locks, live, finished, original, memory, nextPtr, nextId)
      requires RunsOk(log, None, n, memory, original, misused, exited)
      ensures Paired(log, None)
      ensures forall id :: id in original ==> Total(s).ids[id] + finished[id] == 1
      ensures forall chan :: locks[chan] == Total(s).locks[chan]
      ensures forall p :: Total(s).copies[p] == if p in live then 1 else 0
    {
      hide Total, Balanced, Paired, Running;
      NotRunning(None, n);
      forall id | id in original ensures Total(s).ids[id] + finished[id] == 1 {
        OnePlace(s, locks, live, finished, original.Keys, id);
      }
      forall c ensures locks[c] == Total(s).locks[c] {
        LocksAndCopies(s, locks, live, finished, original.Keys, c, 0);
      }
      forall p ensures Total(s).copies[p] == if p in live then 1 else 0 {
        LocksAndCopies(s, locks, live, finished, original.Keys, 0, p);
      }
    }

    method Take(step: Step, scripts: nat -> seq<Act>)
      requires Valid() && Idle()
      modifies this
      ensures Valid() && Idle()
      ensures W() == Stepped(old(W()), step, scripts)
    {
      hide ListsOk, BooksOk, RunsOk, Round, Rounds;
      Length(caches, s, linked, memory, original);
      match step {
        case Enter(chan, args) => CacheEnter(chan, args, scripts(|log|));
        case Notify(k) => if k < caches { CacheNotify(k, scripts); }
        case NotifyLater(k) => if k < caches { CacheNotifyLater(k); }
        case Dispatch => if s.posted != [] { CacheNotifyEvent(scripts); }
        case Miss(k) => if k < caches { CacheWait(k); }
      }
    }
  }

  datatype Step =
    | Enter(chan: Option<int>, args: Option<Bytes>)
    | Notify(cache: nat)
    | NotifyLater(cache: nat)
    | Dispatch
    | Miss(cache: nat)

  /** The log of one run of a transaction: it opens and it closes. */
  ghost predicate Round(log0: seq<Event>, log: seq<Event>, id: int, open: Event) {
    |log| == |log0| + 2 && log[..|log0|] == log0 && log[|log0|] == open && Closes(log[|log0| + 1], id)
  }

  /** The log of a notification: each of its transactions is retried once, in order, with its own arguments. */
  ghost predicate Rounds(log0: seq<Event>, log: seq<Event>, clients: seq<Client>, original: map<int, Option<Bytes>>) {
    && |log| == |log0| + 2 * |clients| && log[..|log0|] == log0
    && forall i :: 0 <= i < |clients| ==>
         && clients[i].id in original
         && log[|log0| + 2 * i] == Retry(clients[i].id, original[clients[i].id])
         && Closes(log[|log0| + 2 * i + 1], clients[i].id)
  }

  lemma NoRounds(log: seq<Event>, original: map<int, Option<Bytes>>)
    ensures Rounds(log, log, [], original)
  {
  }

  lemma RoundsNext(log0: seq<Event>, log1: seq<Event>, log2: seq<Event>, all: seq<Client>, n: nat, original: map<int, Option<Bytes>>)
    requires n < |all| && Rounds(log0, log1, all[..n], original) && all[n].id in original
    requires Round(log1, log2, all[n].id, Retry(all[n].id, original[all[n].id]))
    ensures Rounds(log0, log2, all[..n + 1], original)
  {
    assert all[..n + 1] == all[..n] + [all[n]];
    assert log2[..|log0|] == log1[..|log0|];
    forall i | 0 <= i < n ensures
        && log2[|log0| + 2 * i] == Retry(all[i].id, original[all[i].id])
        && Closes(log2[|log0| + 2 * i + 1], all[i].id)
    {
      assert log2[|log0| + 2 * i] == log1[|log0| + 2 * i] && log2[|log0| + 2 * i + 1] == log1[|log0| + 2 * i + 1];
      assert all[..n][i] == all[i];
    }
  }

  /** Between notifications every transaction entered is suspended in exactly one place or has finished exactly once. */
  lemma OnePlace(s: Suspended, locks: multiset<int>, live: set<int>, finished: multiset<int>, entered: set<int>, id: int)
    requires Balanced(Total(s), ZERO, None, locks, live, finished, entered) && id in entered
    ensures Total(s).ids[id] + finished[id] == 1
  {
    assert (Total(s).ids + multiset{} + finished)[id] == multiset(entered)[id];
  }

  /** Between notifications the locks on a channel are as many as its suspended transactions, and a copy of arguments is in
      memory exactly if a suspended transaction owns it. */
  lemma LocksAndCopies(s: Suspended, locks: multiset<int>, live: set<int>, finished: multiset<int>, entered: set<int>, chan: int, p: int)
    requires Balanced(Total(s), ZERO, None, locks, live, finished, entered)
    ensures locks[chan] == Total(s).locks[chan]
    ensures Total(s).copies[p] == if p in live then 1 else 0
  {
    assert (Total(s).locks + multiset{})[chan] == locks[chan];
    assert (Total(s).copies + multiset{})[p] == multiset(live)[p];
  }
}
