/** The pool of worker threads that execute asynchronous requests. Each section under the pool's mutex is one step; steps
    of different threads interleave freely. */
module WorkerPool {
  import opened Wrappers

  datatype Request = Timer | Shutdown | Work(id: nat)

  /** Executing outside the mutex; blocked on its condition; woken and about to take the mutex again; out of its loop, with
      its exit event still to be dispatched; gone. */
  datatype Phase = Busy | Blocked | Waking | Leaving | Gone

  datatype Worker = Worker(phase: Phase, req: Option<Request>)

  /** The state of the pool as the shutdown manager sees it. */
  datatype State = Stopped | Normal | Pending

  /** A worker that waits for a request. */
  predicate Idle(w: Worker) { (w.phase == Blocked || w.phase == Waking) && w.req.None? }

  /** Only a worker without a request is blocked, and only one that executes or is awake has one to execute. */
  predicate Sane(w: Worker) {
    match w.phase
    case Busy => w.req.Some? && !w.req.value.Shutdown?
    case Blocked => w.req.None?
    case Waking => true
    case _ => w.req.Some? ==> !w.req.value.Work?
  }

  // ----- the requests that workers hold -----

  function Bag(r: Option<Request>): multiset<nat> {
    if r.Some? && r.value.Work? then multiset{r.value.id} else multiset{}
  }

  function Held(ws: seq<Worker>): multiset<nat> {
    if ws == [] then multiset{} else Bag(ws[0].req) + Held(ws[1..])
  }

  function Queued(rs: seq<Request>): multiset<nat> {
    if rs == [] then multiset{} else Bag(Some(rs[0])) + Queued(rs[1..])
  }

  function One(w: Worker): nat { if w.phase == Gone then 0 else 1 }

  /** How many threads there are. */
  function Alive(ws: seq<Worker>): nat {
    if ws == [] then 0 else One(ws[0]) + Alive(ws[1..])
  }

  lemma {:induction false} HeldUpdate(ws: seq<Worker>, i: nat, w: Worker)
    requires i < |ws|
    ensures Held(ws[i := w]) + Bag(ws[i].req) == Held(ws) + Bag(w.req)
    ensures Alive(ws[i := w]) + One(ws[i]) == Alive(ws) + One(w)
  {
    hide Bag;
    if i == 0 {
      assert ws[0 := w][1..] == ws[1..];
      Regroup(Bag(w.req), Held(ws[1..]), Bag(ws[0].req));
    } else {
      HeldUpdate(ws[1..], i - 1, w);
      assert ws[i := w][1..] == ws[1..][i - 1 := w];
      Carry(Bag(ws[0].req), Held(ws[i := w][1..]), Bag(ws[i].req), Held(ws[1..]), Bag(w.req));
    }
  }

  lemma AliveUpdate(ws: seq<Worker>, i: nat, w: Worker)
    requires i < |ws|
    ensures Alive(ws[i := w]) == Alive(ws) + One(w) - One(ws[i])
  {
    HeldUpdate(ws, i, w);
  }

  lemma AliveAppend(ws: seq<Worker>, w: Worker)
    ensures Alive(ws + [w]) == Alive(ws) + One(w)
  {
    HeldAppend(ws, w);
  }

  lemma Regroup(a: multiset<nat>, b: multiset<nat>, c: multiset<nat>)
    ensures (a + b) + c == (c + b) + a
  {
  }

  lemma Carry(a: multiset<nat>, b: multiset<nat>, c: multiset<nat>, d: multiset<nat>, e: multiset<nat>)
    requires b + c == d + e
    ensures (a + b) + c == (a + d) + e
  {
    assert (a + b) + c == a + (b + c);
    assert (a + d) + e == a + (d + e);
  }

  lemma {:induction false} HeldAppend(ws: seq<Worker>, w: Worker)
    ensures Held(ws + [w]) == Held(ws) + Bag(w.req)
    ensures Alive(ws + [w]) == Alive(ws) + One(w)
  {
    hide Bag;
    if ws == [] {
      assert ws + [w] == [w] && [w][1..] == [];
      assert Held([w]) == Bag(w.req) + multiset{};
    } else {
      HeldAppend(ws[1..], w);
      assert (ws + [w])[1..] == ws[1..] + [w] && (ws + [w])[0] == ws[0];
      assert Bag(ws[0].req) + (Held(ws[1..]) + Bag(w.req)) == (Bag(ws[0].req) + Held(ws[1..])) + Bag(w.req);
    }
  }

  lemma {:induction false} QueuedAppend(rs: seq<Request>, r: Request)
    ensures Queued(rs + [r]) == Queued(rs) + Bag(Some(r))
  {
    hide Bag;
    if rs == [] {
      assert rs + [r] == [r] && [r][1..] == [];
      assert Queued([r]) == Bag(Some(r)) + multiset{};
    } else {
      QueuedAppend(rs[1..], r);
      assert (rs + [r])[1..] == rs[1..] + [r] && (rs + [r])[0] == rs[0];
      assert Bag(Some(rs[0])) + (Queued(rs[1..]) + Bag(Some(r))) == (Bag(Some(rs[0])) + Queued(rs[1..])) + Bag(Some(r));
    }
  }

  // ----- the invariant -----

  /** The idle list holds exactly the workers that wait for a request, each once. */
  ghost predicate Listed(ws: seq<Worker>, idle: seq<int>) {
    && (forall i :: 0 <= i < |idle| ==> 0 <= idle[i] < |ws| && Idle(ws[idle[i]]))
    && (forall i, j :: 0 <= i < j < |idle| ==> idle[i] != idle[j])
    && (forall w :: 0 <= w < |ws| && Idle(ws[w]) ==> w in idle)
  }

  ghost predicate AllSane(ws: seq<Worker>) {
    forall w :: 0 <= w < |ws| ==> Sane(ws[w])
  }

  /** Every request posted is in one place: deferred, held by a worker, or completed. */
  ghost predicate Accounted(ws: seq<Worker>, deferred: seq<Request>, posted: set<nat>, done: multiset<nat>) {
    Held(ws) + Queued(deferred) + done == multiset(posted)
  }

  lemma SaneAt(ws: seq<Worker>, w: nat)
    requires AllSane(ws) && w < |ws|
    ensures Sane(ws[w])
  {
  }

  lemma SaneUpdate(ws: seq<Worker>, w: nat, x: Worker)
    requires AllSane(ws) && w < |ws| && Sane(x)
    ensures AllSane(ws[w := x])
  {
    hide Sane;
  }

  lemma SaneAppend(ws: seq<Worker>, x: Worker)
    requires AllSane(ws) && Sane(x)
    ensures AllSane(ws + [x])
  {
    hide Sane;
  }

  /** The first idle worker gets a request and is signalled. */
  lemma ListedHandOff(ws: seq<Worker>, idle: seq<int>, x: Worker)
    requires Listed(ws, idle) && idle != [] && !Idle(x)
    ensures 0 <= idle[0] < |ws| && Idle(ws[idle[0]])
    ensures Listed(ws[idle[0] := x], idle[1..])
  {
    var w, r, rest := idle[0], ws[idle[0] := x], idle[1..];
    forall i | 0 <= i < |rest| ensures 0 <= rest[i] < |r| && Idle(r[rest[i]]) {
      assert rest[i] == idle[i + 1] && idle[0] != idle[i + 1];
    }
    forall v | 0 <= v < |r| && Idle(r[v]) ensures v in rest {
      assert v != w && v in idle;
    }
  }

  /** A worker that does not wait for a request changes, and still does not. */
  lemma ListedBusy(ws: seq<Worker>, idle: seq<int>, w: nat, x: Worker)
    requires Listed(ws, idle) && w < |ws| && Idle(ws[w]) == Idle(x)
    ensures Listed(ws[w := x], idle)
  {
  }

  lemma ListedJoin(ws: seq<Worker>, idle: seq<int>, w: nat, x: Worker)
    requires Listed(ws, idle) && w < |ws| && !Idle(ws[w]) && Idle(x)
    ensures Listed(ws[w := x], idle + [w])
  {
    var r, l := ws[w := x], idle + [w];
    forall i | 0 <= i < |l| ensures 0 <= l[i] < |r| && Idle(r[l[i]]) {}
    assert forall i :: 0 <= i < |idle| ==> idle[i] != w;
    forall v | 0 <= v < |r| && Idle(r[v]) ensures v in l { if v != w { assert v in idle; } }
  }

  lemma ListedAppend(ws: seq<Worker>, idle: seq<int>, x: Worker)
    requires Listed(ws, idle) && !Idle(x)
    ensures Listed(ws + [x], idle)
  {
  }

  lemma AccountedMove(ws: seq<Worker>, deferred: seq<Request>, posted: set<nat>, done: multiset<nat>, w: nat, x: Worker)
    requires Accounted(ws, deferred, posted, done) && w < |ws| && Bag(ws[w].req) == Bag(x.req)
    ensures Accounted(ws[w := x], deferred, posted, done)
  {
    HeldUpdate(ws, w, x);
    forall n ensures Held(ws[w := x])[n] == Held(ws)[n] {
      assert (Held(ws[w := x]) + Bag(ws[w].req))[n] == (Held(ws) + Bag(x.req))[n];
    }
    assert Held(ws[w := x]) == Held(ws);
  }

  lemma PostedBag(posted: set<nat>, r: Request)
    requires r.Work? ==> r.id !in posted
    ensures multiset(Posted(posted, r)) == multiset(posted) + Bag(Some(r))
  {
  }

  /** A new request is given to an idle worker. */
  lemma AccountedGive(ws: seq<Worker>, deferred: seq<Request>, posted: set<nat>, done: multiset<nat>, r: Request, w: nat, x: Worker)
    requires Accounted(ws, deferred, posted, done) && (r.Work? ==> r.id !in posted)
    requires w < |ws| && ws[w].req == None && x.req == Some(r)
    ensures Accounted(ws[w := x], deferred, Posted(posted, r), done)
  {
    PostedBag(posted, r);
    HeldUpdate(ws, w, x);
    var h, h1, q, b := Held(ws), Held(ws[w := x]), Queued(deferred), Bag(Some(r));
    assert h1 + multiset{} == h1;
    assert (h + b) + q + done == (h + q + done) + b;
  }

  /** A new request is given to a new worker. */
  lemma AccountedNew(ws: seq<Worker>, deferred: seq<Request>, posted: set<nat>, done: multiset<nat>, r: Request, x: Worker)
    requires Accounted(ws, deferred, posted, done) && (r.Work? ==> r.id !in posted) && x.req == Some(r)
    ensures Accounted(ws + [x], deferred, Posted(posted, r), done)
  {
    PostedBag(posted, r);
    HeldAppend(ws, x);
    var h, q, b := Held(ws), Queued(deferred), Bag(Some(r));
    assert (h + b) + q + done == (h + q + done) + b;
  }

  /** A new request is deferred. */
  lemma AccountedDefer(ws: seq<Worker>, deferred: seq<Request>, posted: set<nat>, done: multiset<nat>, r: Request)
    requires Accounted(ws, deferred, posted, done) && (r.Work? ==> r.id !in posted)
    ensures Accounted(ws, deferred + [r], Posted(posted, r), done)
  {
    PostedBag(posted, r);
    QueuedAppend(deferred, r);
    var h, q, b := Held(ws), Queued(deferred), Bag(Some(r));
    assert h + (q + b) + done == (h + q + done) + b;
  }

  ghost predicate Below(posted: set<nat>, serial: nat) {
    forall i :: i in posted ==> i < serial
  }

  lemma BelowPosted(posted: set<nat>, serial: nat, r: Request)
    requires Below(posted, serial) && (r.Work? ==> r.id <= serial)
    ensures r.Work? && r.id == serial ==> r.id !in posted
    ensures Below(Posted(posted, r), serial + 1) && Below(posted, serial + 1)
    ensures (r.Work? ==> r.id < serial) ==> Below(Posted(posted, r), serial)
  {
  }

  function Posted(posted: set<nat>, r: Request): set<nat> { if r.Work? then posted + {r.id} else posted }

  lemma AccountedDone(ws: seq<Worker>, deferred: seq<Request>, posted: set<nat>, done: multiset<nat>, w: nat, x: Worker)
    requires Accounted(ws, deferred, posted, done) && w < |ws| && ws[w].req.Some? && ws[w].req.value.Work? && x.req == None
    ensures Accounted(ws[w := x], deferred, posted, done + multiset{ws[w].req.value.id})
  {
    HeldUpdate(ws, w, x);
    var id, h, h1, q := ws[w].req.value.id, Held(ws), Held(ws[w := x]), Queued(deferred);
    assert h1 + multiset{id} == h + multiset{} == h;
    assert h1 + q + (done + multiset{id}) == (h1 + multiset{id}) + q + done;
  }

  lemma AccountedAdd(ws: seq<Worker>, deferred: seq<Request>, posted: set<nat>, done: multiset<nat>, x: Worker)
    requires Accounted(ws, deferred, posted, done) && deferred != [] && x.req == Some(deferred[0])
    ensures Accounted(ws + [x], deferred[1..], posted, done)
  {
    HeldAppend(ws, x);
    var h, b, q := Held(ws), Bag(x.req), Queued(deferred[1..]);
    assert (h + b) + q + done == h + (b + q) + done;
  }

  // ----- what the invariant means -----

  lemma {:induction false} HeldSource(ws: seq<Worker>, id: nat)
    requires id in Held(ws)
    ensures exists w :: 0 <= w < |ws| && ws[w].req == Some(Work(id))
  {
    if id in Bag(ws[0].req) {
      assert ws[0].req == Some(Work(id));
    } else {
      HeldSource(ws[1..], id);
      var w :| 0 <= w < |ws[1..]| && ws[1..][w].req == Some(Work(id));
      assert ws[w + 1].req == Some(Work(id));
    }
  }

  lemma {:induction false} HeldCount(ws: seq<Worker>, w: nat, id: nat)
    requires w < |ws| && ws[w].req == Some(Work(id))
    ensures Held(ws)[id] >= 1
  {
    if w > 0 { HeldCount(ws[1..], w - 1, id); }
  }

  lemma {:induction false} HeldTwice(ws: seq<Worker>, v: nat, w: nat, id: nat)
    requires v < w < |ws| && ws[v].req == Some(Work(id)) && ws[w].req == Some(Work(id))
    ensures Held(ws)[id] >= 2
  {
    if v > 0 { HeldTwice(ws[1..], v - 1, w - 1, id); } else { HeldCount(ws[1..], w - 1, id); }
  }

  /** A request that is not completed waits for the dispatch thread to start a worker for it, or is held by a worker that is
      awake: no wakeup is lost. A completed one was completed once and no worker has it any more. */
  lemma NoLostWakeup(ws: seq<Worker>, deferred: seq<Request>, posted: set<nat>, done: multiset<nat>, id: nat)
    requires Accounted(ws, deferred, posted, done) && AllSane(ws) && id in posted
    ensures done[id] <= 1
    ensures id !in done && id !in Queued(deferred) ==>
              exists w :: 0 <= w < |ws| && ws[w].req == Some(Work(id)) && (ws[w].phase == Busy || ws[w].phase == Waking)
    ensures id in done ==> forall w :: 0 <= w < |ws| ==> ws[w].req != Some(Work(id))
  {
    hide Held, Queued;
    assert (Held(ws) + Queued(deferred) + done)[id] == multiset(posted)[id] == 1;
    if id !in done && id !in Queued(deferred) {
      HeldSource(ws, id);
      var w :| 0 <= w < |ws| && ws[w].req == Some(Work(id));
      assert Sane(ws[w]);
    }
    if id in done {
      forall w | 0 <= w < |ws| ensures ws[w].req != Some(Work(id)) {
        if ws[w].req == Some(Work(id)) { HeldCount(ws, w, id); assert false; }
      }
    }
  }

  /** No two workers have the same request. */
  lemma OneWorker(ws: seq<Worker>, deferred: seq<Request>, posted: set<nat>, done: multiset<nat>, v: nat, w: nat, id: nat)
    requires Accounted(ws, deferred, posted, done) && v < |ws| && w < |ws|
    requires ws[v].req == Some(Work(id)) && ws[w].req == Some(Work(id))
    ensures v == w
  {
    hide Held, Queued;
    assert (Held(ws) + Queued(deferred) + done)[id] == multiset(posted)[id] <= 1;
    if v < w { HeldTwice(ws, v, w, id); }
    if w < v { HeldTwice(ws, w, v, id); }
  }

  /** The invariant of the pool. The pending state is set before the pool is told: `notifying` says that the dispatch thread
      is between the two. */
  ghost predicate PoolOk(max: nat, ws: seq<Worker>, idle: seq<int>, size: int, running: int, state: State, notifying: bool,
                         deferred: seq<Request>, serial: nat, posted: set<nat>, done: multiset<nat>)
  {
    && Listed(ws, idle) && size == |idle| <= max
    && AllSane(ws)
    && Accounted(ws, deferred, posted, done) && Below(posted, serial)
    && running == Alive(ws) && (state == Stopped <==> running == 0)
    && (state == Pending && !notifying ==> idle == []) && (notifying ==> state == Pending) && NoneShutdown(deferred)
  }

  ghost predicate NoneShutdown(rs: seq<Request>) {
    forall i :: 0 <= i < |rs| ==> !rs[i].Shutdown?
  }

  lemma NoneAppend(rs: seq<Request>, r: Request)
    requires NoneShutdown(rs) && !r.Shutdown?
    ensures NoneShutdown(rs + [r])
  {
  }

  lemma CompleteOk(max: nat, ws: seq<Worker>, idle: seq<int>, size: int, running: int, state: State, notifying: bool,
                   deferred: seq<Request>, serial: nat, posted: set<nat>, done: multiset<nat>, w: nat)
    requires PoolOk(max, ws, idle, size, running, state, notifying, deferred, serial, posted, done)
    requires w < |ws| && ws[w].phase == Busy && ws[w].req != Some(Timer)
    ensures size == |idle| && ws[w].req.Some? && ws[w].req.value.Work?
    ensures var d := done + multiset{ws[w].req.value.id};
            if size >= max || state == Pending
            then PoolOk(max, ws[w := Worker(Leaving, None)], idle, size, running, state, notifying, deferred, serial, posted, d)
            else PoolOk(max, ws[w := Worker(Blocked, None)], idle + [w], size + 1, running, state, notifying, deferred, serial, posted, d)
  {
    SaneAt(ws, w);
    hide Listed, AllSane, Accounted, Alive, Bag, Below;
    var leave := size >= max || state == Pending;
    var x := Worker(if leave then Leaving else Blocked, None);
    AccountedDone(ws, deferred, posted, done, w, x);
    SaneUpdate(ws, w, x);
    AliveUpdate(ws, w, x);
    if leave { ListedBusy(ws, idle, w, x); } else { ListedJoin(ws, idle, w, x); }
  }

  lemma ExitOk(max: nat, ws: seq<Worker>, idle: seq<int>, size: int, running: int, state: State, notifying: bool,
               deferred: seq<Request>, serial: nat, posted: set<nat>, done: multiset<nat>, w: nat)
    requires PoolOk(max, ws, idle, size, running, state, notifying, deferred, serial, posted, done) && w < |ws| && ws[w].phase == Leaving
    requires !notifying
    ensures PoolOk(max, ws[w := ws[w].(phase := Gone)], idle, size, running - 1, if running == 1 then Stopped else state, notifying,
                   deferred, serial, posted, done)
  {
    SaneAt(ws, w);
    var x := ws[w].(phase := Gone);
    assert Sane(x) && !Idle(x) && !Idle(ws[w]) && One(ws[w]) == 1 && One(x) == 0;
    hide Listed, AllSane, Accounted, Alive, Bag, Below, Idle, Sane, One;
    ListedBusy(ws, idle, w, x);
    SaneUpdate(ws, w, x);
    AccountedMove(ws, deferred, posted, done, w, x);
    AliveUpdate(ws, w, x);
  }

  datatype Step =
    | Post(timer: bool, dispatchThread: bool)
    | AddDeferred
    | Complete(worker: int)
    | Tick(worker: int)
    | Spurious(worker: int)
    | Resume(worker: int)
    | BeginShutdown
    | TriggerShutdown
    | ExitEvent(worker: int)

  /** What the steps change; the sizes of the idle list and of the pool follow from it. */
  datatype World = World(ws: seq<Worker>, idle: seq<int>, state: State, notifying: bool, deferred: seq<Request>, serial: nat,
                         posted: set<nat>, done: multiset<nat>)

  /** A thread is started for a request; the first one makes a stopped pool run. */
  ghost function Started(p: World, r: Request): World {
    p.(ws := p.ws + [Worker(Busy, Some(r))], state := if p.state == Stopped then Normal else p.state)
  }

  /** A request is posted: to the worker that has waited longest, else to a new one, which only the dispatch thread can start. */
  ghost function Requested(p: World, r: Request, dispatchThread: bool): World {
    var q := p.(serial := p.serial + 1, posted := if r.Work? then p.posted + {r.id} else p.posted);
    if p.idle != [] && 0 <= p.idle[0] < |p.ws| then
      q.(ws := p.ws[p.idle[0] := Worker(Waking, Some(r))], idle := p.idle[1..])
    else if dispatchThread then Started(q, r)
    else q.(deferred := p.deferred + [r])
  }

  /** Every worker that waits is told to leave. */
  ghost function AllTold(ws: seq<Worker>): seq<Worker> {
    seq(|ws|, i requires 0 <= i < |ws| => if Idle(ws[i]) then Worker(Waking, Some(Shutdown)) else ws[i])
  }

  /** What a worker does when it has the mutex again. */
  ghost function Woken(w: Worker): Worker {
    w.(phase := if w.req == None then Blocked else if w.req == Some(Shutdown) then Leaving else Busy)
  }

  /** The pool after a step of some thread; a step that cannot happen changes nothing. */
  ghost function Stepped(max: nat, p: World, step: Step): World {
    var n := |p.ws|;
    match step
    case Post(timer, dispatchThread) =>
      if dispatchThread && p.notifying then p else Requested(p, if timer then Timer else Work(p.serial), dispatchThread)
    case AddDeferred =>
      if p.deferred == [] || p.notifying then p else Started(p.(deferred := p.deferred[1..]), p.deferred[0])
    case Complete(w) => Completed(max, p, w)
    case Tick(w) =>
      if 0 <= w < n && p.ws[w] == Worker(Busy, Some(Timer)) && p.state == Pending
      then p.(ws := p.ws[w := Worker(Leaving, Some(Timer))]) else p
    case Spurious(w) => if 0 <= w < n && p.ws[w].phase == Blocked then p.(ws := p.ws[w := p.ws[w].(phase := Waking)]) else p
    case Resume(w) => if 0 <= w < n && p.ws[w].phase == Waking then p.(ws := p.ws[w := Woken(p.ws[w])]) else p
    case BeginShutdown => if p.state == Normal then p.(state := Pending, notifying := true) else p
    case TriggerShutdown =>
      if p.notifying then p.(notifying := false, idle := [], ws := AllTold(p.ws)) else p
    case ExitEvent(w) =>
      if 0 <= w < n && p.ws[w].phase == Leaving && !p.notifying then
        var ws := p.ws[w := p.ws[w].(phase := Gone)];
        p.(ws := ws, state := if forall v :: 0 <= v < n ==> ws[v].phase == Gone then Stopped else p.state)
      else p
  }

  /** A worker completes its request and waits for another, or leaves if enough workers wait or the pool is shutting down. */
  ghost function Completed(max: nat, p: World, w: int): World {
    if !(0 <= w < |p.ws|) || p.ws[w].phase != Busy then p
    else
      match p.ws[w].req
      case Some(Work(id)) =>
        var q := p.(done := p.done + multiset{id});
        if |p.idle| >= max || p.state == Pending then q.(ws := p.ws[w := Worker(Leaving, None)])
        else q.(ws := p.ws[w := Worker(Blocked, None)], idle := p.idle + [w])
      case _ => p
  }

  ghost function SteppedAll(max: nat, p: World, steps: seq<Step>): World {
    if steps == [] then p else Stepped(max, SteppedAll(max, p, steps[..|steps| - 1]), steps[|steps| - 1])
  }

  lemma {:induction false} AliveNone(ws: seq<Worker>)
    ensures Alive(ws) == 0 <==> forall v :: 0 <= v < |ws| ==> ws[v].phase == Gone
  {
    if ws != [] {
      AliveNone(ws[1..]);
      assert forall v :: 0 <= v < |ws[1..]| ==> ws[1..][v] == ws[v + 1];
      if Alive(ws) == 0 {
        forall v | 0 <= v < |ws| ensures ws[v].phase == Gone { if v > 0 { assert ws[v] == ws[1..][v - 1]; } }
      }
    }
  }

  class Pool {
    const max: nat
    var workers: seq<Worker>
    var idle: seq<int>
    var size: int
    var running: int
    var state: State
    var notifying: bool
    var deferred: seq<Request>
    var serial: nat
    ghost var posted: set<nat>
    ghost var done: multiset<nat>

    ghost predicate Valid()
      reads this
    {
      PoolOk(max, workers, idle, size, running, state, notifying, deferred, serial, posted, done)
    }

    ghost function W(): World
      reads this
    {
      World(workers, idle, state, notifying, deferred, serial, posted, done)
    }

    constructor (max: nat)
      ensures Valid() && this.max == max && W() == World([], [], Stopped, false, [], 0, {}, multiset{})
    {
      this.max := max;
      workers, idle, size, running, state, notifying, deferred, serial := [], [], 0, 0, Stopped, false, [], 0;
      posted, done := {}, multiset{};
    }

    /** Start a thread for a request. Runs on the dispatch thread. */
    method AddWorker(r: Request)
      requires Listed(workers, idle) && size == |idle| <= max && AllSane(workers) && Below(posted, serial)
      requires running == Alive(workers) && (state == Stopped <==> running == 0)
      requires (state == Pending && !notifying ==> idle == []) && (notifying ==> state == Pending)
      requires Accounted(workers + [Worker(Busy, Some(r))], deferred, posted, done) && !r.Shutdown? && NoneShutdown(deferred)
      modifies this`workers, this`running, this`state
      ensures Valid() && workers == old(workers) + [Worker(Busy, Some(r))] && running == old(running) + 1
      ensures state == if old(state) == Stopped then Normal else old(state)
    {
      hide Listed, AllSane, Accounted, Alive, Bag, Below;
      var w := Worker(Busy, Some(r));
      ListedAppend(workers, idle, w);
      SaneAppend(workers, w);
      AliveAppend(workers, w);
      workers := workers + [w];
      if running == 0 { state := Normal; }
      running := running + 1;
    }

    /** Give a request to the worker that has waited longest, and signal it. */
    method HandOff(r: Request)
      requires Valid() && idle != []
      requires Accounted(workers[idle[0] := Worker(Waking, Some(r))], deferred, Posted(posted, r), done)
      requires r.Work? ==> r.id < serial
      modifies this`workers, this`idle, this`size, this`posted
      ensures Valid() && idle == old(idle)[1..] && posted == Posted(old(posted), r)
      ensures 0 <= old(idle)[0] < |old(workers)| && old(workers[idle[0]].req) == None
      ensures workers == old(workers)[old(idle)[0] := Worker(Waking, Some(r))]
    {
      var w, x := idle[0], Worker(Waking, Some(r));
      hide Listed, AllSane, Accounted, Alive, Bag, Below;
      ListedHandOff(workers, idle, x);
      BelowPosted(posted, serial, r);
      SaneUpdate(workers, w, x);
      AliveUpdate(workers, w, x);
      idle := idle[1..];
      size := size - 1;
      workers := workers[w := x];
      posted := Posted(posted, r);
    }

    /** Post a request: an idle worker gets it; else a worker is started, by the dispatch thread only. */
    method ReqPost(timer: bool, dispatchThread: bool) returns (r: Request)
      requires Valid()
      modifies this`workers, this`idle, this`size, this`posted, this`running, this`state, this`deferred, this`serial
      ensures Valid() && r == (if timer then Timer else Work(old(serial))) && posted == Posted(old(posted), r)
      ensures serial == old(serial) + 1
      ensures state == if old(idle) == [] && dispatchThread && old(state) == Stopped then Normal else old(state)
      ensures old(idle) != [] ==> 0 <= old(idle)[0] < |old(workers)|
      ensures if old(idle) != [] then
                workers == old(workers)[old(idle)[0] := Worker(Waking, Some(r))] && idle == old(idle)[1..] && deferred == old(deferred)
              else if dispatchThread then
                workers == old(workers) + [Worker(Busy, Some(r))] && idle == [] && deferred == old(deferred)
              else workers == old(workers) && idle == [] && deferred == old(deferred) + [r]
      ensures W() == Requested(old(W()), r, dispatchThread)
    {
      hide PoolOk;
      r := if timer then Timer else Work(serial);
      if idle == [] {
        if dispatchThread { PostNew(r); } else { PostDeferred(r); }
      } else {
        PostGive(r);
      }
    }

    /** A new worker gets the request. */
    method PostNew(r: Request)
      requires Valid() && (r == Timer || r == Work(serial))
      modifies this`workers, this`running, this`state, this`posted, this`serial
      ensures Valid() && posted == Posted(old(posted), r) && serial == old(serial) + 1
      ensures workers == old(workers) + [Worker(Busy, Some(r))]
      ensures state == if old(state) == Stopped then Normal else old(state)
    {
      hide Listed, AllSane, Accounted, Alive, Bag, Below, NoneShutdown, Posted;
      BelowPosted(posted, serial, r);
      AccountedNew(workers, deferred, posted, done, r, Worker(Busy, Some(r)));
      serial := serial + 1;
      posted := Posted(posted, r);
      AddWorker(r);
    }

    /** The dispatch thread is asked to start a worker for the request. */
    method PostDeferred(r: Request)
      requires Valid() && (r == Timer || r == Work(serial))
      modifies this`posted, this`serial, this`deferred
      ensures Valid() && posted == Posted(old(posted), r) && serial == old(serial) + 1 && deferred == old(deferred) + [r]
    {
      hide Listed, AllSane, Accounted, Alive, Bag, Below, NoneShutdown, Posted;
      BelowPosted(posted, serial, r);
      AccountedDefer(workers, deferred, posted, done, r);
      NoneAppend(deferred, r);
      serial := serial + 1;
      posted := Posted(posted, r);
      deferred := deferred + [r];
    }

    /** The worker that has waited longest gets the request. */
    method PostGive(r: Request)
      requires Valid() && (r == Timer || r == Work(serial)) && idle != []
      modifies this`workers, this`idle, this`size, this`posted, this`serial
      ensures Valid() && posted == Posted(old(posted), r) && serial == old(serial) + 1 && idle == old(idle)[1..]
      ensures 0 <= old(idle)[0] < |old(workers)| && workers == old(workers)[old(idle)[0] := Worker(Waking, Some(r))]
    {
      Usable(workers, idle);
      hide Listed, AllSane, Accounted, Alive, Bag, Below, NoneShutdown, Posted;
      BelowPosted(posted, serial, r);
      AccountedGive(workers, deferred, posted, done, r, idle[0], Worker(Waking, Some(r)));
      serial := serial + 1;
      HandOff(r);
    }

    static lemma Usable(ws: seq<Worker>, idle: seq<int>)
      requires Listed(ws, idle)
      ensures idle != [] ==> 0 <= idle[0] < |ws| && ws[idle[0]].req == None && Idle(ws[idle[0]]) && !(idle[0] in idle[1..])
    {
    }

    /** The deferred event starts a worker. */
    method AddDeferred()
      requires Valid() && deferred != []
      modifies this`workers, this`running, this`state, this`deferred
      ensures Valid() && deferred == old(deferred)[1..] && workers == old(workers) + [Worker(Busy, Some(old(deferred)[0]))]
      ensures state == if old(state) == Stopped then Normal else old(state)
      ensures W() == Started(old(W()).(deferred := old(deferred)[1..]), old(deferred)[0])
    {
      hide Listed, AllSane, Accounted, Alive, Bag, Below;
      var r := deferred[0];
      AccountedAdd(workers, deferred, posted, done, Worker(Busy, Some(r)));
      deferred := deferred[1..];
      AddWorker(r);
    }

    /** A worker has executed its request: the completion event is posted, and the worker waits for the next request or, when
        enough workers wait already or the pool is shutting down, leaves. */
    method Complete(w: nat)
      requires Valid() && w < |workers| && workers[w].phase == Busy && workers[w].req != Some(Timer)
      modifies this`workers, this`idle, this`size, this`done
      ensures Valid() && old(workers[w].req).Some? && old(workers[w].req).value.Work?
      ensures done == old(done) + multiset{old(workers[w].req).value.id}
      ensures var leave := |old(idle)| >= max || state == Pending;
              && workers == old(workers)[w := Worker(if leave then Leaving else Blocked, None)]
              && idle == if leave then old(idle) else old(idle) + [w]
      ensures W() == Completed(max, old(W()), w)
    {
      hide PoolOk;
      CompleteOk(max, workers, idle, size, running, state, notifying, deferred, serial, posted, done, w);
      done := done + multiset{workers[w].req.value.id};
      if size >= max || state == Pending {
        workers := workers[w := Worker(Leaving, None)];
      } else {
        workers := workers[w := Worker(Blocked, None)];
        idle := idle + [w];
        size := size + 1;
      }
    }

    /** A worker changes its phase and nothing else. */
    method Shift(w: nat, phase: Phase)
      requires Valid() && w < |workers| && workers[w].phase != Gone && phase != Gone
      requires Sane(workers[w].(phase := phase)) && Idle(workers[w].(phase := phase)) == Idle(workers[w])
      modifies this`workers
      ensures Valid() && workers == old(workers)[w := old(workers[w]).(phase := phase)]
    {
      hide Listed, AllSane, Accounted, Alive, Bag, Below;
      var x := workers[w].(phase := phase);
      ListedBusy(workers, idle, w, x);
      SaneUpdate(workers, w, x);
      AccountedMove(workers, deferred, posted, done, w, x);
      AliveUpdate(workers, w, x);
      workers := workers[w := x];
    }

    /** The timer request never completes; its worker leaves when the pool is shutting down. */
    method Tick(w: nat)
      requires Valid() && w < |workers| && workers[w] == Worker(Busy, Some(Timer))
      modifies this`workers
      ensures Valid() && workers == if state == Pending then old(workers)[w := Worker(Leaving, Some(Timer))] else old(workers)
    {
      if state == Pending { Shift(w, Leaving); }
    }

    /** A wait on a condition may end without a signal. */
    method Spurious(w: nat)
      requires Valid() && w < |workers| && workers[w].phase == Blocked
      modifies this`workers
      ensures Valid() && workers == old(workers)[w := old(workers[w]).(phase := Waking)]
    {
      SaneAt(workers, w);
      Shift(w, Waking);
    }

    /** A woken worker has the mutex again: it waits on if it has no request, leaves if it is told to, and executes otherwise. */
    method Resume(w: nat)
      requires Valid() && w < |workers| && workers[w].phase == Waking
      modifies this`workers
      ensures Valid() && workers == old(workers)[w := old(workers[w]).(phase :=
                match old(workers[w].req) case None => Blocked case Some(r) => if r == Shutdown then Leaving else Busy)]
    {
      var r := workers[w].req;
      Shift(w, if r.None? then Blocked else if r.value == Shutdown then Leaving else Busy);
    }

    /** The shutdown manager marks the pool. Workers that complete a request from here on leave, but those that wait are still
        in the list. */
    method BeginShutdown()
      requires Valid() && state == Normal
      modifies this`state, this`notifying
      ensures Valid() && state == Pending && notifying
    {
      state, notifying := Pending, true;
    }

    /** The pool is told of the shutdown: every idle worker is told to leave, and no worker becomes idle from here on. */
    method TriggerShutdown()
      requires Valid() && notifying
      modifies this`workers, this`idle, this`size, this`notifying, this`posted
      ensures Valid() && state == Pending && !notifying && idle == [] && posted == old(posted)
      ensures |workers| == |old(workers)| && forall w :: 0 <= w < |workers| ==> workers[w].phase != Blocked
      ensures forall w :: 0 <= w < |workers| ==>
                workers[w] == if Idle(old(workers)[w]) then Worker(Waking, Some(Shutdown)) else old(workers)[w]
      ensures workers == AllTold(old(workers))
    {
      hide Listed, AllSane, Accounted, Alive, Bag, Below;
      while idle != []
        invariant Valid() && notifying && posted == old(posted) && |workers| == |old(workers)|
        invariant forall w :: 0 <= w < |workers| ==>
                    workers[w] == old(workers)[w] || (Idle(old(workers)[w]) && workers[w] == Worker(Waking, Some(Shutdown)))
        decreases |idle|
      {
        Usable(workers, idle);
        NoWork(Shutdown);
        AccountedMove(workers, deferred, posted, done, idle[0], Worker(Waking, Some(Shutdown)));
        HandOff(Shutdown);
      }
      notifying := false;
      NobodyBlocked(workers);
    }

    static lemma NoWork(r: Request)
      requires !r.Work?
      ensures Bag(None) == Bag(Some(r))
    {
    }

    static lemma NobodyBlocked(ws: seq<Worker>)
      requires Listed(ws, []) && AllSane(ws)
      ensures forall w :: 0 <= w < |ws| ==> ws[w].phase != Blocked && !Idle(ws[w])
    {
      forall w | 0 <= w < |ws| ensures ws[w].phase != Blocked && !Idle(ws[w]) {
        assert Sane(ws[w]);
        assert !Idle(ws[w]);
      }
    }

    lemma RunningAre()
      requires Valid()
      ensures running == Alive(workers)
      ensures forall w, x :: 0 <= w < |workers| ==> Alive(workers[w := x]) == running + One(x) - One(workers[w])
    {
      forall w, x | 0 <= w < |workers| ensures Alive(workers[w := x]) == running + One(x) - One(workers[w]) {
        AliveUpdate(workers, w, x);
      }
    }

    /** The exit event of a worker that has left its loop. */
    method ExitEvent(w: nat)
      requires Valid() && !notifying && w < |workers| && workers[w].phase == Leaving
      modifies this`workers, this`running, this`state
      ensures Valid() && workers == old(workers)[w := old(workers[w]).(phase := Gone)] && running == old(running) - 1
      ensures state == if forall v :: 0 <= v < |workers| ==> workers[v].phase == Gone then Stopped else old(state)
    {
      AliveNone(workers[w := workers[w].(phase := Gone)]);
      RunningAre();
      hide PoolOk, Alive;
      ExitOk(max, workers, idle, size, running, state, notifying, deferred, serial, posted, done, w);
      workers := workers[w := workers[w].(phase := Gone)];
      running := running - 1;
      if running == 0 { state := Stopped; }
    }

    /** One step of some thread, if it is enabled; the dispatch thread does nothing else while it is notifying. */
    method Perform(step: Step)
      requires Valid()
      modifies this
      ensures Valid() && W() == Stepped(max, old(W()), step)
    {
      hide PoolOk, Started, Requested, AllTold;
      match step {
        case Post(timer, dispatchThread) => if !(dispatchThread && notifying) { var r := ReqPost(timer, dispatchThread); }
        case AddDeferred => if deferred != [] && !notifying { AddDeferred(); }
        case Complete(w) => if 0 <= w < |workers| && workers[w].phase == Busy && workers[w].req != Some(Timer) { Complete(w); }
        case Tick(w) => if 0 <= w < |workers| && workers[w] == Worker(Busy, Some(Timer)) { Tick(w); }
        case Spurious(w) => if 0 <= w < |workers| && workers[w].phase == Blocked { Spurious(w); }
        case Resume(w) => if 0 <= w < |workers| && workers[w].phase == Waking { Resume(w); }
        case BeginShutdown => if state == Normal { BeginShutdown(); }
        case TriggerShutdown => if notifying { TriggerShutdown(); }
        case ExitEvent(w) => if 0 <= w < |workers| && workers[w].phase == Leaving && !notifying { ExitEvent(w); }
      }
    }

    /** Every interleaving: the idle list is exactly the waiting workers and no longer than the limit; a request posted is
        completed at most once and, until then, waits to be given a worker or is held by one worker, which is awake. */
    method Run(steps: seq<Step>)
      requires Valid()
      modifies this
      ensures Valid() && W() == SteppedAll(max, old(W()), steps) && Listed(workers, idle) && size == |idle| <= max
      ensures forall id :: id in posted ==> done[id] <= 1
      ensures forall id :: id in posted && id !in done && id !in Queued(deferred) ==>
                exists w :: 0 <= w < |workers| && workers[w].req == Some(Work(id)) && (workers[w].phase == Busy || workers[w].phase == Waking)
    {
      for n := 0 to |steps|
        invariant Valid() && W() == SteppedAll(max, old(W()), steps[..n])
      {
        hide PoolOk, Stepped;
        Perform(steps[n]);
        assert steps[..n + 1][..n] == steps[..n];
      }
      assert steps[..|steps|] == steps;
      hide Listed, Queued;
      forall id | id in posted
        ensures done[id] <= 1
        ensures id !in done && id !in Queued(deferred) ==>
                  exists w :: 0 <= w < |workers| && workers[w].req == Some(Work(id)) && (workers[w].phase == Busy || workers[w].phase == Waking)
      {
        NoLostWakeup(workers, deferred, posted, done, id);
      }
    }
  }
}
