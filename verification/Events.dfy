/** The event queue of the dispatch thread: linked lists of event nodes, spliced in place.

    Node memory is explicit: `mem` maps an address to the contents of the node there, and a list
    is a chain of `next` addresses ending in NULL.  The ghost sequences beside the list heads say
    which nodes each list holds. */
module Events {
  import opened Wrappers
  import opened EventSpec

  type Node = int
  const NULL: Node := 0

  const EVENT_BUF_SIZE := 0x200

  datatype Cell = Cell(next: Node, ev: Event)

  datatype Place = InEventQueue | InTimerQueue | InFreeQueue | InFreeBgQueue | Loose

  type Memory = map<Node, Cell>

  /** Following `next` from `head` visits the nodes `s` and then arrives at `tail`. */
  ghost predicate Chain(mem: Memory, head: Node, s: seq<Node>, tail: Node)
    decreases |s|
  {
    if s == [] then head == tail
    else head == s[0] && head != NULL && head in mem && Chain(mem, mem[head].next, s[1..], tail)
  }

  function First(s: seq<Node>, tail: Node): Node {
    if s == [] then tail else s[0]
  }

  lemma {:induction false} ChainConcat(mem: Memory, head: Node, a: seq<Node>, b: seq<Node>, tail: Node)
    ensures Chain(mem, head, a + b, tail) <==> Chain(mem, head, a, First(b, tail)) && Chain(mem, First(b, tail), b, tail)
    decreases |a|
  {
    if a == [] {
      assert a + b == b;
    } else {
      assert (a + b)[1..] == a[1..] + b;
      if head in mem {
        ChainConcat(mem, mem[head].next, a[1..], b, tail);
      }
    }
  }

  lemma {:induction false} ChainFrame(mem: Memory, mem': Memory, head: Node, s: seq<Node>, tail: Node)
    requires Chain(mem, head, s, tail)
    requires forall n :: n in s && n in mem ==> n in mem' && mem'[n].next == mem[n].next
    ensures Chain(mem', head, s, tail)
    decreases |s|
  {
    if s != [] {
      assert s[0] in s;
      assert forall n :: n in s[1..] ==> n in s;
      ChainFrame(mem, mem', mem[head].next, s[1..], tail);
    }
  }

  /** Redirecting the last node of a chain. */
  lemma ChainRedirect(mem: Memory, head: Node, s: seq<Node>, tail: Node, tail': Node)
    requires Chain(mem, head, s, tail) && s != [] && multiset(s)[s[|s| - 1]] == 1
    ensures s[|s| - 1] in mem && mem[s[|s| - 1]].next == tail
    ensures Chain(mem[s[|s| - 1] := mem[s[|s| - 1]].(next := tail')], head, s, tail')
  {
    var front, last := s[..|s| - 1], s[|s| - 1];
    assert s == front + [last];
    ChainConcat(mem, head, front, [last], tail);
    var mem' := mem[last := mem[last].(next := tail')];
    assert last !in front by {
      assert multiset(s) == multiset(front) + multiset{last};
    }
    ChainFrame(mem, mem', head, front, last);
    ChainConcat(mem', head, front, [last], tail');
  }

  /** The nodes whose place is `p` are exactly those in `s`, each occurring once. */
  ghost predicate Members(place: map<Node, Place>, s: seq<Node>, p: Place) {
    forall n :: multiset(s)[n] == if n in place && place[n] == p then 1 else 0
  }

  /** A well-formed list. */
  ghost predicate ListOk(mem: Memory, place: map<Node, Place>, head: Node, s: seq<Node>, p: Place) {
    Chain(mem, head, s, NULL) && Members(place, s, p)
  }

  lemma MembersMove(place: map<Node, Place>, s: seq<Node>, t: seq<Node>, p: Place, n: Node, q: Place)
    requires Members(place, s, p)
    requires if q == p then n !in s && multiset(t) == multiset(s) + multiset{n}
             else if n in s then multiset(s) == multiset(t) + multiset{n}
             else t == s
    ensures Members(place[n := q], t, p)
  {
  }

  lemma ListFrame(mem: Memory, place: map<Node, Place>, head: Node, s: seq<Node>, p: Place,
                  mem': Memory, n: Node, q: Place)
    requires ListOk(mem, place, head, s, p) && n !in s && p != q
    requires forall x :: x in mem && x in s ==> x in mem' && mem'[x].next == mem[x].next
    ensures ListOk(mem', place[n := q], head, s, p)
  {
    ChainFrame(mem, mem', head, s, NULL);
    hide Chain;
    MembersMove(place, s, s, p, n, q);
  }

  lemma ListPop(mem: Memory, place: map<Node, Place>, head: Node, s: seq<Node>, p: Place, q: Place)
    requires ListOk(mem, place, head, s, p) && s != [] && p != q
    ensures head == s[0] && head in mem && head in place
    ensures ListOk(mem, place[head := q], mem[head].next, s[1..], p)
  {
    assert s == [s[0]] + s[1..];
    assert multiset(s)[s[0]] > 0;
    MembersMove(place, s, s[1..], p, s[0], q);
  }

  /** `prev` is the node before position `k`, `next` the one at it. */
  ghost predicate At(s: seq<Node>, k: nat, prev: Node, next: Node) {
    && k <= |s|
    && prev == (if k == 0 then NULL else s[k - 1])
    && next == (if k < |s| then s[k] else NULL)
  }

  function Relink(mem: Memory, prev: Node, target: Node): Memory {
    if prev != NULL && prev in mem then mem[prev := mem[prev].(next := target)] else mem
  }

  /** A node of a list occurs in it only once. */
  lemma Once(place: map<Node, Place>, a: seq<Node>, b: seq<Node>, p: Place)
    requires Members(place, a + b, p) && a != []
    ensures multiset(a)[a[|a| - 1]] == 1 && a[|a| - 1] !in b
  {
    var x := a[|a| - 1];
    assert multiset(a + b) == multiset(a) + multiset(b);
    assert x in a && multiset(a)[x] >= 1;
    assert multiset(a + b)[x] <= 1;
  }

  lemma ChainInsert(mem: Memory, head: Node, a: seq<Node>, b: seq<Node>, n: Node)
    requires Chain(mem, head, a + b, NULL) && n != NULL && n !in a + b && n in mem && mem[n].next == First(b, NULL)
    requires a != [] ==> multiset(a)[a[|a| - 1]] == 1 && a[|a| - 1] !in b
    ensures Chain(Relink(mem, if a == [] then NULL else a[|a| - 1], n), if a == [] then n else head, a + ([n] + b), NULL)
  {
    var next, prev := First(b, NULL), if a == [] then NULL else a[|a| - 1];
    var mem' := Relink(mem, prev, n);
    ChainConcat(mem, head, a, b, NULL);
    if a != [] {
      ChainRedirect(mem, head, a, next, n);
      ChainNotNull(mem, head, a, next);
      assert mem' == mem[prev := mem[prev].(next := n)];
      assert prev in a + b;
    }
    ChainFrame(mem, mem', next, b, NULL);
    assert ([n] + b)[1..] == b;
    assert mem'[n].next == next;
    assert Chain(mem', n, [n] + b, NULL);
    ChainConcat(mem', if a == [] then n else head, a, [n] + b, NULL);
  }

  lemma ChainNotNull(mem: Memory, head: Node, s: seq<Node>, tail: Node)
    requires Chain(mem, head, s, tail)
    ensures forall i :: 0 <= i < |s| ==> s[i] != NULL && s[i] in mem
    decreases |s|
  {
    if s != [] {
      ChainNotNull(mem, mem[head].next, s[1..], tail);
      assert forall i :: 1 <= i < |s| ==> s[i] == s[1..][i - 1];
    }
  }

  lemma ChainRemove(mem: Memory, head: Node, a: seq<Node>, n: Node, b: seq<Node>)
    requires Chain(mem, head, a + ([n] + b), NULL)
    requires a != [] ==> multiset(a)[a[|a| - 1]] == 1 && a[|a| - 1] !in [n] + b
    ensures n in mem
    ensures Chain(Relink(mem, if a == [] then NULL else a[|a| - 1], mem[n].next), if a == [] then mem[n].next else head, a + b, NULL)
  {
    ChainConcat(mem, head, a, [n] + b, NULL);
    assert ([n] + b)[1..] == b;
    var prev, next := if a == [] then NULL else a[|a| - 1], mem[n].next;
    var mem' := Relink(mem, prev, next);
    if a != [] {
      ChainRedirect(mem, head, a, n, next);
      ChainNotNull(mem, head, a, n);
      assert forall x :: x in b ==> x in [n] + b;
    }
    ChainFrame(mem, mem', next, b, NULL);
    assert next == First(b, NULL) by { if b != [] { assert Chain(mem, next, b, NULL); } }
    ChainConcat(mem', if a == [] then next else head, a, b, NULL);
  }

  /** Put the node `n` in front of position `k`. */
  lemma ListInsert(mem: Memory, place: map<Node, Place>, head: Node, s: seq<Node>, p: Place,
                   n: Node, k: nat, prev: Node, next: Node)
    requires ListOk(mem, place, head, s, p) && At(s, k, prev, next)
    requires n != NULL && n !in s && n in mem && mem[n].next == next
    ensures ListOk(Relink(mem, prev, n), place[n := p], if k == 0 then n else head, s[..k] + [n] + s[k..], p)
  {
    hide Chain;
    var a, b := s[..k], s[k..];
    assert s == a + b;
    if k > 0 { Once(place, a, b, p); }
    ChainInsert(mem, head, a, b, n);
    assert a + [n] + b == a + ([n] + b);
    assert multiset(a + [n] + b) == multiset(s) + multiset{n};
    MembersMove(place, s, a + [n] + b, p, n, p);
  }

  /** Take out the node `n` at position `k`. */
  lemma ListRemove(mem: Memory, place: map<Node, Place>, head: Node, s: seq<Node>, p: Place,
                   n: Node, k: nat, prev: Node, q: Place)
    requires ListOk(mem, place, head, s, p) && At(s, k, prev, n) && k < |s| && p != q
    ensures n in mem
    ensures ListOk(Relink(mem, prev, mem[n].next), place[n := q], if k == 0 then mem[n].next else head, s[..k] + s[k + 1..], p)
  {
    hide Chain;
    var a, b := s[..k], s[k + 1..];
    assert s == a + ([n] + b);
    if k > 0 { Once(place, a, [n] + b, p); }
    ChainRemove(mem, head, a, n, b);
    assert multiset(s) == multiset(a + b) + multiset{n};
    assert n in s;
    MembersMove(place, s, a + b, p, n, q);
  }

  /** The events held by the nodes `s`. */
  function Contents(mem: Memory, s: seq<Node>): (r: seq<Event>)
    ensures |r| == |s|
    ensures forall i :: 0 <= i < |s| && s[i] in mem ==> r[i] == mem[s[i]].ev
  {
    seq(|s|, i requires 0 <= i < |s| => if s[i] in mem then mem[s[i]].ev else Event(0, 0, 0, 0))
  }

  /** All lists of the event queue. */
  datatype Lists = Lists(eventQueue: Node, eventLast: Node, timerQueue: Node, freeQueue: Node, freeBgQueue: Node)

  /** Which nodes they hold. */
  datatype Nodes = Nodes(events: seq<Node>, timers: seq<Node>, free: seq<Node>, freeBg: seq<Node>)

  ghost predicate AllOk(mem: Memory, place: map<Node, Place>, l: Lists, ns: Nodes) {
    && ListOk(mem, place, l.eventQueue, ns.events, InEventQueue)
    && ListOk(mem, place, l.timerQueue, ns.timers, InTimerQueue)
    && ListOk(mem, place, l.freeQueue, ns.free, InFreeQueue)
    && ListOk(mem, place, l.freeBgQueue, ns.freeBg, InFreeBgQueue)
    && l.eventLast == (if ns.events == [] then NULL else ns.events[|ns.events| - 1])
    && NULL !in place
    && (forall n :: n in place ==> n in mem)
  }

  lemma NotMember(place: map<Node, Place>, s: seq<Node>, p: Place, n: Node)
    requires Members(place, s, p) && (n !in place || place[n] != p)
    ensures n !in s
  {
    assert multiset(s)[n] == 0;
  }

  ghost predicate IsLoose(place: map<Node, Place>, n: Node) {
    n != NULL && n in place && place[n] == Loose
  }

  /** A loose node may be written, and its place changed to a list it is then linked into. */
  lemma Others(mem: Memory, place: map<Node, Place>, head: Node, s: seq<Node>, p: Place, mem': Memory, n: Node, q: Place)
    requires ListOk(mem, place, head, s, p) && p != q && (n in place ==> place[n] != p)
    requires forall x :: x in mem && x != n && x in s ==> x in mem' && mem'[x].next == mem[x].next
    ensures ListOk(mem', place[n := q], head, s, p)
    ensures n !in s
  {
    NotMember(place, s, p, n);
    ListFrame(mem, place, head, s, p, mem', n, q);
  }

  /** Writing a node that is in no list. */
  lemma WriteOk(mem: Memory, place: map<Node, Place>, l: Lists, ns: Nodes, n: Node, c: Cell)
    requires AllOk(mem, place, l, ns) && n != NULL && (n in place ==> place[n] == Loose)
    ensures AllOk(mem[n := c], place[n := Loose], l, ns)
    ensures n !in ns.events && n !in ns.timers
  {
    hide ListOk;
    var mem' := mem[n := c];
    Others(mem, place, l.eventQueue, ns.events, InEventQueue, mem', n, Loose);
    Others(mem, place, l.timerQueue, ns.timers, InTimerQueue, mem', n, Loose);
    Others(mem, place, l.freeQueue, ns.free, InFreeQueue, mem', n, Loose);
    Others(mem, place, l.freeBgQueue, ns.freeBg, InFreeBgQueue, mem', n, Loose);
  }

  /** Taking a node from the dispatch thread's free list. */
  lemma AllocOk(mem: Memory, place: map<Node, Place>, l: Lists, ns: Nodes)
    requires AllOk(mem, place, l, ns) && l.freeQueue != NULL
    ensures ns.free != [] && l.freeQueue in mem && l.freeQueue in place && place[l.freeQueue] == InFreeQueue
    ensures AllOk(mem, place[l.freeQueue := Loose], l.(freeQueue := mem[l.freeQueue].next), ns.(free := ns.free[1..]))
  {
    var n := l.freeQueue;
    ListPop(mem, place, n, ns.free, InFreeQueue, Loose);
    hide Chain;
    assert place[n] == InFreeQueue by { assert multiset(ns.free)[n] > 0; }
    hide ListOk;
    Others(mem, place, l.eventQueue, ns.events, InEventQueue, mem, n, Loose);
    Others(mem, place, l.timerQueue, ns.timers, InTimerQueue, mem, n, Loose);
    Others(mem, place, l.freeBgQueue, ns.freeBg, InFreeBgQueue, mem, n, Loose);
  }

  lemma AllocBgOk(mem: Memory, place: map<Node, Place>, l: Lists, ns: Nodes)
    requires AllOk(mem, place, l, ns) && l.freeBgQueue != NULL
    ensures ns.freeBg != [] && l.freeBgQueue in mem && l.freeBgQueue in place && place[l.freeBgQueue] == InFreeBgQueue
    ensures AllOk(mem, place[l.freeBgQueue := Loose], l.(freeBgQueue := mem[l.freeBgQueue].next), ns.(freeBg := ns.freeBg[1..]))
  {
    var n := l.freeBgQueue;
    ListPop(mem, place, n, ns.freeBg, InFreeBgQueue, Loose);
    hide Chain;
    assert place[n] == InFreeBgQueue by { assert multiset(ns.freeBg)[n] > 0; }
    hide ListOk;
    Others(mem, place, l.eventQueue, ns.events, InEventQueue, mem, n, Loose);
    Others(mem, place, l.timerQueue, ns.timers, InTimerQueue, mem, n, Loose);
    Others(mem, place, l.freeQueue, ns.free, InFreeQueue, mem, n, Loose);
  }

  lemma RelinkContents(mem: Memory, prev: Node, target: Node, s: seq<Node>)
    ensures Contents(Relink(mem, prev, target), s) == Contents(mem, s)
  {
    var mem' := Relink(mem, prev, target);
    forall i | 0 <= i < |s| ensures Contents(mem', s)[i] == Contents(mem, s)[i] {
      var n := s[i];
      assert n in mem <==> n in mem';
    }
  }

  lemma ContentsConcat(mem: Memory, a: seq<Node>, b: seq<Node>)
    ensures Contents(mem, a + b) == Contents(mem, a) + Contents(mem, b)
  {
  }

  /** The lists that do not hold `prev` or `n` survive relinking `prev` and giving `n` the place `q`. */
  lemma RelinkOthers(mem: Memory, place: map<Node, Place>, head: Node, s: seq<Node>, p: Place,
                     prev: Node, target: Node, n: Node, q: Place)
    requires ListOk(mem, place, head, s, p) && p != q && (n in place ==> place[n] != p)
    requires prev == NULL || (prev in place && place[prev] != p)
    ensures ListOk(Relink(mem, prev, target), place[n := q], head, s, p)
  {
    if prev != NULL { NotMember(place, s, p, prev); }
    NotMember(place, s, p, n);
    ListFrame(mem, place, head, s, p, Relink(mem, prev, target), n, q);
  }

  lemma PlaceOf(place: map<Node, Place>, s: seq<Node>, p: Place, n: Node)
    requires Members(place, s, p) && n in s
    ensures n in place && place[n] == p
  {
    assert multiset(s)[n] > 0;
  }

  /** Appending a loose node to the event queue. */
  lemma AppendOk(mem: Memory, place: map<Node, Place>, l: Lists, ns: Nodes, n: Node)
    requires AllOk(mem, place, l, ns) && IsLoose(place, n) && mem[n].next == NULL
    ensures AllOk(Relink(mem, l.eventLast, n), place[n := InEventQueue],
                  l.(eventQueue := if ns.events == [] then n else l.eventQueue, eventLast := n), ns.(events := ns.events + [n]))
    ensures ns.events == [] <==> l.eventQueue == NULL
  {
    hide Chain;
    var k, prev := |ns.events|, l.eventLast;
    assert ns.events == [] <==> l.eventQueue == NULL by { HeadNull(mem, l.eventQueue, ns.events); }
    NotMember(place, ns.events, InEventQueue, n);
    ListInsert(mem, place, l.eventQueue, ns.events, InEventQueue, n, k, prev, NULL);
    assert ns.events[..k] + [n] + ns.events[k..] == ns.events + [n];
    if prev != NULL { PlaceOf(place, ns.events, InEventQueue, prev); }
    hide ListOk;
    RelinkOthers(mem, place, l.timerQueue, ns.timers, InTimerQueue, prev, n, n, InEventQueue);
    RelinkOthers(mem, place, l.freeQueue, ns.free, InFreeQueue, prev, n, n, InEventQueue);
    RelinkOthers(mem, place, l.freeBgQueue, ns.freeBg, InFreeBgQueue, prev, n, n, InEventQueue);
  }

  lemma HeadNull(mem: Memory, head: Node, s: seq<Node>)
    requires Chain(mem, head, s, NULL)
    ensures s == [] <==> head == NULL
  {
  }

  /** Inserting a loose node into the timer queue. */
  lemma InsertOk(mem: Memory, place: map<Node, Place>, l: Lists, ns: Nodes, n: Node, k: nat, prev: Node, next: Node)
    requires AllOk(mem, place, l, ns) && IsLoose(place, n) && At(ns.timers, k, prev, next) && mem[n].next == next
    ensures AllOk(Relink(mem, prev, n), place[n := InTimerQueue],
                  l.(timerQueue := if k == 0 then n else l.timerQueue), ns.(timers := ns.timers[..k] + [n] + ns.timers[k..]))
  {
    hide Chain;
    NotMember(place, ns.timers, InTimerQueue, n);
    ListInsert(mem, place, l.timerQueue, ns.timers, InTimerQueue, n, k, prev, next);
    if k > 0 { PlaceOf(place, ns.timers, InTimerQueue, prev); }
    hide ListOk;
    RelinkOthers(mem, place, l.eventQueue, ns.events, InEventQueue, prev, n, n, InTimerQueue);
    RelinkOthers(mem, place, l.freeQueue, ns.free, InFreeQueue, prev, n, n, InTimerQueue);
    RelinkOthers(mem, place, l.freeBgQueue, ns.freeBg, InFreeBgQueue, prev, n, n, InTimerQueue);
  }

  /** Taking a node out of the timer queue. */
  lemma RemoveTimerOk(mem: Memory, place: map<Node, Place>, l: Lists, ns: Nodes, n: Node, k: nat, prev: Node)
    requires AllOk(mem, place, l, ns) && At(ns.timers, k, prev, n) && k < |ns.timers|
    ensures n in mem
    ensures AllOk(Relink(mem, prev, mem[n].next), place[n := Loose],
                  l.(timerQueue := if k == 0 then mem[n].next else l.timerQueue), ns.(timers := ns.timers[..k] + ns.timers[k + 1..]))
  {
    hide Chain;
    ListRemove(mem, place, l.timerQueue, ns.timers, InTimerQueue, n, k, prev, Loose);
    assert n == ns.timers[k];
    PlaceOf(place, ns.timers, InTimerQueue, n);
    if k > 0 { PlaceOf(place, ns.timers, InTimerQueue, prev); }
    hide ListOk;
    RelinkOthers(mem, place, l.eventQueue, ns.events, InEventQueue, prev, mem[n].next, n, Loose);
    RelinkOthers(mem, place, l.freeQueue, ns.free, InFreeQueue, prev, mem[n].next, n, Loose);
    RelinkOthers(mem, place, l.freeBgQueue, ns.freeBg, InFreeBgQueue, prev, mem[n].next, n, Loose);
  }

  lemma NextNull(mem: Memory, head: Node, s: seq<Node>, k: nat)
    requires Chain(mem, head, s, NULL) && k < |s|
    ensures s[k] in mem && (mem[s[k]].next == NULL <==> k == |s| - 1)
  {
    var a, n, b := s[..k], s[k], s[k + 1..];
    assert s == a + ([n] + b);
    ChainConcat(mem, head, a, [n] + b, NULL);
    assert ([n] + b)[1..] == b;
    HeadNull(mem, mem[n].next, b);
  }

  /** Taking a node out of the event queue; the tail moves back if it was the last. */
  lemma RemoveEventOk(mem: Memory, place: map<Node, Place>, l: Lists, ns: Nodes, n: Node, k: nat, prev: Node)
    requires AllOk(mem, place, l, ns) && At(ns.events, k, prev, n) && k < |ns.events|
    ensures n in mem && (mem[n].next == NULL <==> k == |ns.events| - 1)
    ensures AllOk(Relink(mem, prev, mem[n].next), place[n := Loose],
                  l.(eventQueue := if k == 0 then mem[n].next else l.eventQueue,
                     eventLast := if mem[n].next == NULL then prev else l.eventLast),
                  ns.(events := ns.events[..k] + ns.events[k + 1..]))
  {
    hide Chain;
    NextNull(mem, l.eventQueue, ns.events, k);
    ListRemove(mem, place, l.eventQueue, ns.events, InEventQueue, n, k, prev, Loose);
    PlaceOf(place, ns.events, InEventQueue, n);
    if k > 0 { PlaceOf(place, ns.events, InEventQueue, prev); }
    hide ListOk;
    RelinkOthers(mem, place, l.timerQueue, ns.timers, InTimerQueue, prev, mem[n].next, n, Loose);
    RelinkOthers(mem, place, l.freeQueue, ns.free, InFreeQueue, prev, mem[n].next, n, Loose);
    RelinkOthers(mem, place, l.freeBgQueue, ns.freeBg, InFreeBgQueue, prev, mem[n].next, n, Loose);
  }

  /** Returning a loose node to the dispatch thread's free list. */
  lemma FreeOk(mem: Memory, place: map<Node, Place>, l: Lists, ns: Nodes, n: Node)
    requires AllOk(mem, place, l, ns) && IsLoose(place, n)
    ensures AllOk(mem[n := mem[n].(next := l.freeQueue)], place[n := InFreeQueue], l.(freeQueue := n), ns.(free := [n] + ns.free))
  {
    WriteOk(mem, place, l, ns, n, mem[n].(next := l.freeQueue));
    assert place[n := Loose] == place;
    var m := mem[n := mem[n].(next := l.freeQueue)];
    hide Chain;
    NotMember(place, ns.free, InFreeQueue, n);
    assert At(ns.free, 0, NULL, l.freeQueue) by { FirstOf(m, l.freeQueue, ns.free); }
    ListInsert(m, place, l.freeQueue, ns.free, InFreeQueue, n, 0, NULL, l.freeQueue);
    assert ns.free[..0] + [n] + ns.free[0..] == [n] + ns.free;
    hide ListOk;
    Others(m, place, l.eventQueue, ns.events, InEventQueue, m, n, InFreeQueue);
    Others(m, place, l.timerQueue, ns.timers, InTimerQueue, m, n, InFreeQueue);
    Others(m, place, l.freeBgQueue, ns.freeBg, InFreeBgQueue, m, n, InFreeQueue);
  }

  lemma FirstOf(mem: Memory, head: Node, s: seq<Node>)
    requires Chain(mem, head, s, NULL)
    ensures head == if s == [] then NULL else s[0]
  {
  }

  /** Handing a node from the dispatch thread's free list to the other threads'. */
  lemma FreeBgOk(mem: Memory, place: map<Node, Place>, l: Lists, ns: Nodes)
    requires AllOk(mem, place, l, ns) && l.freeQueue != NULL
    ensures ns.free != [] && l.freeQueue in mem
    ensures var n := l.freeQueue;
            AllOk(mem[n := mem[n].(next := l.freeBgQueue)], place[n := InFreeBgQueue],
                  l.(freeQueue := mem[n].next, freeBgQueue := n), ns.(free := ns.free[1..], freeBg := [n] + ns.freeBg))
  {
    AllocOk(mem, place, l, ns);
    var n := l.freeQueue;
    var place1, l1, ns1 := place[n := Loose], l.(freeQueue := mem[n].next), ns.(free := ns.free[1..]);
    WriteOk(mem, place1, l1, ns1, n, mem[n].(next := l.freeBgQueue));
    assert place1[n := Loose] == place1;
    var m := mem[n := mem[n].(next := l.freeBgQueue)];
    hide Chain;
    NotMember(place1, ns.freeBg, InFreeBgQueue, n);
    assert At(ns.freeBg, 0, NULL, l.freeBgQueue) by { FirstOf(m, l.freeBgQueue, ns.freeBg); }
    ListInsert(m, place1, l.freeBgQueue, ns.freeBg, InFreeBgQueue, n, 0, NULL, l.freeBgQueue);
    assert ns.freeBg[..0] + [n] + ns.freeBg[0..] == [n] + ns.freeBg;
    hide ListOk;
    Others(m, place1, l1.eventQueue, ns1.events, InEventQueue, m, n, InFreeBgQueue);
    Others(m, place1, l1.timerQueue, ns1.timers, InTimerQueue, m, n, InFreeBgQueue);
    Others(m, place1, l1.freeQueue, ns1.free, InFreeQueue, m, n, InFreeBgQueue);
    assert place1[n := InFreeBgQueue] == place[n := InFreeBgQueue];
  }

  /** Taking the first event for execution. */
  lemma PopOk(mem: Memory, place: map<Node, Place>, l: Lists, ns: Nodes)
    requires AllOk(mem, place, l, ns) && ns.events != []
    ensures l.eventQueue == ns.events[0] && l.eventQueue in mem && l.eventQueue != NULL
    ensures var next := mem[l.eventQueue].next;
            && (next == NULL ==> l.eventLast == l.eventQueue)
            && AllOk(mem, place[l.eventQueue := Loose],
                  l.(eventQueue := next, eventLast := if next == NULL then NULL else l.eventLast), ns.(events := ns.events[1..]))
  {
    RemoveEventOk(mem, place, l, ns, ns.events[0], 0, NULL);
    assert ns.events[..0] + ns.events[1..] == ns.events[1..];
    FirstOf(mem, l.eventQueue, ns.events);
  }

  function Moved(place: map<Node, Place>, a: seq<Node>, q: Place): map<Node, Place> {
    map n | n in place :: if n in a then q else place[n]
  }

  lemma MovedMembers(place: map<Node, Place>, timers: seq<Node>, events: seq<Node>, a: seq<Node>, b: seq<Node>)
    requires Members(place, timers, InTimerQueue) && Members(place, events, InEventQueue) && timers == a + b
    ensures Members(Moved(place, a, InEventQueue), b, InTimerQueue)
    ensures Members(Moved(place, a, InEventQueue), a + events, InEventQueue)
  {
    var place' := Moved(place, a, InEventQueue);
    assert multiset(timers) == multiset(a) + multiset(b);
    assert multiset(a + events) == multiset(a) + multiset(events);
    forall n
      ensures multiset(b)[n] == if n in place' && place'[n] == InTimerQueue then 1 else 0
      ensures multiset(a + events)[n] == if n in place' && place'[n] == InEventQueue then 1 else 0
    {
      assert multiset(timers)[n] == if n in place && place[n] == InTimerQueue then 1 else 0;
      assert multiset(events)[n] == if n in place && place[n] == InEventQueue then 1 else 0;
      assert n in a <==> multiset(a)[n] > 0;
    }
  }

  lemma MovedOthers(mem: Memory, mem': Memory, place: map<Node, Place>, head: Node, s: seq<Node>, p: Place, a: seq<Node>, q: Place)
    requires ListOk(mem, place, head, s, p) && p != q
    requires forall n :: n in a ==> n in place && place[n] != p
    requires forall n :: n in mem && n !in a ==> n in mem' && mem'[n].next == mem[n].next
    ensures ListOk(mem', Moved(place, a, q), head, s, p)
  {
    forall n | n in s && n in mem ensures n in mem' && mem'[n].next == mem[n].next {
      PlaceOf(place, s, p, n);
    }
    ChainFrame(mem, mem', head, s, NULL);
    hide Chain;
    var place' := Moved(place, a, q);
    forall n ensures multiset(s)[n] == if n in place' && place'[n] == p then 1 else 0 {
      assert multiset(s)[n] == if n in place && place[n] == p then 1 else 0;
    }
  }

  /** Moving the first `k` timers, which are due, to the front of the event queue. */
  lemma ReleaseOk(mem: Memory, place: map<Node, Place>, l: Lists, ns: Nodes, k: nat)
    requires AllOk(mem, place, l, ns) && 0 < k <= |ns.timers|
    ensures var last := ns.timers[k - 1];
            && last in mem
            && AllOk(mem[last := mem[last].(next := l.eventQueue)], Moved(place, ns.timers[..k], InEventQueue),
                     l.(eventQueue := l.timerQueue, timerQueue := mem[last].next,
                        eventLast := if l.eventQueue == NULL then last else l.eventLast),
                     ns.(events := ns.timers[..k] + ns.events, timers := ns.timers[k..]))
  {
    hide Chain, Members, Moved;
    var a, b, last := ns.timers[..k], ns.timers[k..], ns.timers[k - 1];
    assert ns.timers == a + b && a[k - 1] == last;
    Once(place, a, b, InTimerQueue);
    forall n | n in a ensures n in place && place[n] == InTimerQueue {
      assert n in ns.timers;
      PlaceOf(place, ns.timers, InTimerQueue, n);
    }
    NotMember(place, ns.events, InEventQueue, last);
    SpliceChains(mem, l.timerQueue, l.eventQueue, a, b, ns.events);
    var mem' := mem[last := mem[last].(next := l.eventQueue)];
    MovedMembers(place, ns.timers, ns.events, a, b);
    MovedOthers(mem, mem', place, l.freeQueue, ns.free, InFreeQueue, a, InEventQueue);
    MovedOthers(mem, mem', place, l.freeBgQueue, ns.freeBg, InFreeBgQueue, a, InEventQueue);
    MovedDomain(place, a, InEventQueue);
  }

  lemma MovedDomain(place: map<Node, Place>, a: seq<Node>, q: Place)
    ensures Moved(place, a, q).Keys == place.Keys
  {
  }

  lemma SpliceChains(mem: Memory, timerQueue: Node, eventQueue: Node, a: seq<Node>, b: seq<Node>, events: seq<Node>)
    requires Chain(mem, timerQueue, a + b, NULL) && Chain(mem, eventQueue, events, NULL) && a != []
    requires multiset(a)[a[|a| - 1]] == 1 && a[|a| - 1] !in b && a[|a| - 1] !in events
    ensures var last := a[|a| - 1];
            && last in mem
            && Chain(mem[last := mem[last].(next := eventQueue)], timerQueue, a + events, NULL)
            && Chain(mem[last := mem[last].(next := eventQueue)], mem[last].next, b, NULL)
            && (eventQueue == NULL <==> events == [])
  {
    var last := a[|a| - 1];
    ChainConcat(mem, timerQueue, a, b, NULL);
    ChainRedirect(mem, timerQueue, a, First(b, NULL), eventQueue);
    var mem' := mem[last := mem[last].(next := eventQueue)];
    ChainFrame(mem, mem', First(b, NULL), b, NULL);
    ChainFrame(mem, mem', eventQueue, events, NULL);
    FirstOf(mem, eventQueue, events);
    HeadNull(mem, eventQueue, events);
    ChainConcat(mem', timerQueue, a, events, NULL);
  }

  /** One step along a list. */
  lemma AtNext(mem: Memory, head: Node, s: seq<Node>, k: nat, prev: Node, next: Node)
    requires Chain(mem, head, s, NULL) && At(s, k, prev, next)
    ensures next == NULL <==> k == |s|
    ensures k < |s| ==> next in mem && At(s, k + 1, next, mem[next].next) && Contents(mem, s)[k] == mem[next].ev
  {
    ChainNotNull(mem, head, s, NULL);
    if k < |s| {
      var a, b := s[..k], s[k + 1..];
      assert s == a + ([next] + b);
      ChainConcat(mem, head, a, [next] + b, NULL);
      assert ([next] + b)[1..] == b;
      FirstOf(mem, mem[next].next, b);
    }
  }

  lemma {:induction false} PositionIs(ts: seq<Event>, runtime: nat, k: nat)
    requires k <= |ts| && (forall i :: 0 <= i < k ==> ts[i].runtime <= runtime) && (k < |ts| ==> runtime < ts[k].runtime)
    ensures k == Position(ts, runtime)
  {
    if k > 0 {
      PositionIs(ts[1..], runtime, k - 1);
    }
  }

  /** A loose node that is given back to the heap. */
  lemma DropOk(mem: Memory, place: map<Node, Place>, l: Lists, ns: Nodes, n: Node)
    requires AllOk(mem, place, l, ns) && IsLoose(place, n)
    ensures AllOk(mem, place - {n}, l, ns)
  {
    DropMembers(place, ns.events, InEventQueue, n);
    DropMembers(place, ns.timers, InTimerQueue, n);
    DropMembers(place, ns.free, InFreeQueue, n);
    DropMembers(place, ns.freeBg, InFreeBgQueue, n);
    hide Chain, Members;
  }

  lemma DropMembers(place: map<Node, Place>, s: seq<Node>, p: Place, n: Node)
    requires Members(place, s, p) && IsLoose(place, n) && p != Loose
    ensures Members(place - {n}, s, p)
  {
    var place' := place - {n};
    forall x ensures multiset(s)[x] == if x in place' && place'[x] == p then 1 else 0 {
      assert multiset(s)[x] == if x in place && place[x] == p then 1 else 0;
    }
  }

  /** What the threads can do.  The dispatch thread posts, cancels, and takes turns of the event loop;
      other threads post. */
  datatype Step = Post(h: int, a: int) | PostDelayed(h: int, a: int, delay: nat) | PostFromThread(h: int, a: int, delay: nat)
                | CancelOne(h: int, a: int, wait: bool) | Loop(tick: bool) | Return

  /** What the steps change: the queues; the handler and argument of a cancel that waits; whether a handler runs or the
      dispatch thread waits; and how many undelayed events have run since the last poll. */
  datatype World = World(q: Queues, cancelling: Option<(int, int)>, running: bool, waiting: bool, cnt: nat)

  /** Where the first event with this handler and argument is; the length of the list if there is none. */
  function Where(es: seq<Event>, h: int, a: int): (k: nat)
    ensures k <= |es|
  {
    if es == [] || (es[0].handler == h && es[0].arg == a) then 0 else 1 + Where(es[1..], h, a)
  }

  /** Cancel in the event queue, else in the timer queue, else wait for a post. */
  ghost function Cancelled(s: World, h: int, a: int, wait: bool): World {
    var k, j := Where(s.q.events, h, a), Where(s.q.timers, h, a);
    if k < |s.q.events| then s.(q := CancelEvent(s.q, k))
    else if j < |s.q.timers| then s.(q := CancelTimer(s.q, j))
    else if wait then s.(cancelling := Some((h, a)))
    else s
  }

  /** A turn of the loop: the timer queue is polled when no event is left, after 100 undelayed events, and at a tick. */
  ghost function Turned(s: World, now: nat, tick: bool): World {
    var polled := s.q.events == [] || s.cnt >= 100 || (s.cnt >= 1 && tick);
    var q, cnt := if polled then Release(s.q, now) else s.q, if polled then 0 else s.cnt;
    if q.events == [] then s.(q := q, waiting := true, cnt := cnt)
    else s.(q := Dispatch(q), running := true, waiting := false, cnt := cnt + if q.events[0].runtime == 0 then 1 else 0)
  }

  /** The state after a step at time `now`; a step that cannot happen changes nothing. */
  ghost function Stepped(s: World, step: Step, now: nat): World {
    var free := s.cancelling == None && !s.waiting;
    match step
    case Post(h, a) => if free then s.(q := PostUntimed(s.q, h, a)) else s
    case PostDelayed(h, a, delay) => if free then s.(q := PostTimed(s.q, now + delay * 1000, h, a)) else s
    case PostFromThread(h, a, delay) =>
      if h == 0 then s
      else if s.cancelling == Some((h, a)) then s.(cancelling := None, q := Absorb(s.q, h, a))
      else s.(q := PostTimed(s.q, now + delay * 1000, h, a))
    case CancelOne(h, a, wait) => if free && h != 0 then Cancelled(s, h, a, wait) else s
    case Loop(tick) => if !s.running && s.cancelling == None then Turned(s, now, tick) else s
    case Return => if s.cancelling == None then s.(running := false) else s
  }

  /** The state after all steps; each comes some time after the one before. */
  ghost function SteppedAll(s: World, begin: nat, steps: seq<(Step, nat)>): World {
    if steps == [] then s
    else
      var n := |steps| - 1;
      Stepped(SteppedAll(s, begin, steps[..n]), steps[n].0, Time(begin, steps))
  }

  function Time(begin: nat, steps: seq<(Step, nat)>): nat {
    if steps == [] then begin else Time(begin, steps[..|steps| - 1]) + steps[|steps| - 1].1
  }

  lemma {:induction false} WhereIs(es: seq<Event>, h: int, a: int, k: nat)
    requires FirstMatch(es, k, h, a)
    ensures Where(es, h, a) == k
  {
    if k > 0 {
      forall i | 0 <= i < k - 1 ensures es[1..][i].handler != h || es[1..][i].arg != a { assert es[1..][i] == es[i + 1]; }
      WhereIs(es[1..], h, a, k - 1);
    }
  }

  lemma {:induction false} WhereNone(es: seq<Event>, h: int, a: int)
    requires forall e :: e in es ==> e.handler != h || e.arg != a
    ensures Where(es, h, a) == |es|
  {
    if es != [] {
      assert es[0] in es;
      WhereNone(es[1..], h, a);
    }
  }

  lemma CancelledIs(s: World, q: Queues, h: int, a: int, wait: bool)
    requires FirstCancelled(s.q, q, h, a)
    ensures Cancelled(s, h, a, wait) == s.(q := q)
  {
    if exists e :: e in s.q.events && e.handler == h && e.arg == a {
      var k: nat :| FirstMatch(s.q.events, k, h, a) && q == CancelEvent(s.q, k);
      WhereIs(s.q.events, h, a, k);
    } else {
      WhereNone(s.q.events, h, a);
      var k: nat :| FirstMatch(s.q.timers, k, h, a) && q == CancelTimer(s.q, k);
      WhereIs(s.q.timers, h, a, k);
    }
  }

  /** The nodes that are in no list are exactly `loose`. */
  ghost predicate LooseAre(place: map<Node, Place>, loose: set<Node>) {
    forall n :: n in loose <==> IsLoose(place, n)
  }

  class EventLoop {
    var mem: Memory
    var eventQueue: Node
    var eventLast: Node
    var timerQueue: Node
    var freeQueue: Node
    var freeBgQueue: Node
    var heapTop: Node           // addresses from here on have never been allocated
    var cancelHandler: int      // 0 if no cancel_event is waiting
    var cancelArg: int
    var executing: Node         // the node whose handler is running, or NULL
    var waiting: bool           // the dispatch thread waits in the poll of the timer queue
    var eventCnt: nat
    var posts: nat              // number of posts so far

    ghost var place: map<Node, Place>
    ghost var ns: Nodes
    ghost var q: Queues
    ghost var clock: nat
    ghost var polls: nat        // polls of the timer queue so far
    ghost var busyPolls: nat    // those of them made while events were waiting

    ghost function L(): Lists
      reads this
    {
      Lists(eventQueue, eventLast, timerQueue, freeQueue, freeBgQueue)
    }

    ghost function W(): World
      reads this
    {
      World(q, if cancelHandler == 0 then None else Some((cancelHandler, cancelArg)), executing != NULL, waiting, eventCnt)
    }

    /** The links are in order, `loose` are the nodes in no list, and none of the statically allocated nodes is lost. */
    ghost predicate Inv(loose: set<Node>)
      reads this
    {
      && AllOk(mem, place, L(), ns)
      && LooseAre(place, loose)
      && heapTop > EVENT_BUF_SIZE
      && (forall n :: n in place ==> 0 < n < heapTop)
      && (forall n :: 1 <= n <= EVENT_BUF_SIZE ==> n in place)
      && q.events == Contents(mem, ns.events)
      && q.timers == Contents(mem, ns.timers)
      && posts == |q.posted|
    }

    ghost function Running(): set<Node>
      reads this
    {
      if executing == NULL then {} else {executing}
    }

    ghost predicate Valid()
      reads this
    {
      && Inv(Running())
      && Good(q, clock)
      && Fair()
    }

    /** Between two polls at most 100 undelayed events run, and at least one if any event was waiting. */
    ghost predicate Fair()
      reads this
    {
      && eventCnt <= 100
      && busyPolls + eventCnt <= |Untimed(q.dispatched)| <= 100 * polls + eventCnt
    }

    // alloc_event_node (for the dispatch thread) and alloc_event_node_bg
    method Alloc(bg: bool, ghost loose: set<Node>) returns (n: Node)
      requires Inv(loose)
      modifies this`freeQueue, this`freeBgQueue, this`heapTop, this`mem, this`place, this`ns
      ensures Inv(loose + {n}) && n !in loose && n != NULL
      ensures !bg && old(freeQueue) != NULL ==>
                n == old(freeQueue) && old(ns).free != [] && ns == old(ns).(free := old(ns).free[1..])
      ensures bg && old(freeBgQueue) != NULL ==>
                n == old(freeBgQueue) && old(ns).freeBg != [] && ns == old(ns).(freeBg := old(ns).freeBg[1..])
      ensures (if bg then old(freeBgQueue) else old(freeQueue)) == NULL ==> n == old(heapTop) && ns == old(ns)
    {
      hide AllOk, LooseAre;
      if !bg && freeQueue != NULL {
        AllocOk(mem, place, L(), ns);
        n := freeQueue;
        LooseAdd(place, loose, n);
        freeQueue := mem[n].next;
        ns := ns.(free := ns.free[1..]);
        place := place[n := Loose];
      } else if bg && freeBgQueue != NULL {
        AllocBgOk(mem, place, L(), ns);
        n := freeBgQueue;
        LooseAdd(place, loose, n);
        freeBgQueue := mem[n].next;
        ns := ns.(freeBg := ns.freeBg[1..]);
        place := place[n := Loose];
      } else {
        n := heapTop;
        var cell := Cell(NULL, Event(0, 0, 0, 0));
        WriteOk(mem, place, L(), ns, n, cell);
        WriteContents(mem, n, cell, ns.events);
        WriteContents(mem, n, cell, ns.timers);
        LooseAdd(place, loose, n);
        heapTop := heapTop + 1;
        mem := mem[n := cell];
        place := place[n := Loose];
      }
    }

    /** Fill in a node that is in no list. */
    method Fill(n: Node, cell: Cell, ghost loose: set<Node>)
      requires Inv(loose) && n in loose
      modifies this`mem
      ensures Inv(loose) && n in mem && mem[n] == cell
    {
      hide AllOk, LooseAre;
      LooseIn(place, loose, n);
      WriteOk(mem, place, L(), ns, n, cell);
      WriteContents(mem, n, cell, ns.events);
      WriteContents(mem, n, cell, ns.timers);
      assert place[n := Loose] == place;
      mem := mem[n := cell];
    }

    // free_event_node: statically allocated nodes are recycled, others go back to the heap
    method Free(n: Node, ghost loose: set<Node>)
      requires Inv(loose) && n in loose
      modifies this`mem, this`freeQueue, this`place, this`ns
      ensures Inv(loose - {n})
      ensures ns == if 1 <= n <= EVENT_BUF_SIZE then old(ns).(free := [n] + old(ns).free) else old(ns)
      ensures n > EVENT_BUF_SIZE ==> n !in place
    {
      hide AllOk, LooseAre;
      LooseIn(place, loose, n);
      if 1 <= n <= EVENT_BUF_SIZE {
        InMem(mem, place, L(), ns, n);
        FreeOk(mem, place, L(), ns, n);
        WriteOk(mem, place, L(), ns, n, mem[n].(next := freeQueue));
        WriteContents(mem, n, mem[n].(next := freeQueue), ns.events);
        WriteContents(mem, n, mem[n].(next := freeQueue), ns.timers);
        LooseMoved(place, loose, n, InFreeQueue);
        mem := mem[n := mem[n].(next := freeQueue)];
        freeQueue := n;
        place := place[n := InFreeQueue];
        ns := ns.(free := [n] + ns.free);
      } else {
        DropOk(mem, place, L(), ns, n);
        LooseDropped(place, loose, n);
        place := place - {n};
      }
    }

    /** Link a filled node to the end of the event queue. */
    method LinkEvent(n: Node, ghost loose: set<Node>)
      requires Inv(loose) && n in loose && n in mem && mem[n].next == NULL
      requires mem[n].ev == Event(0, mem[n].ev.handler, mem[n].ev.arg, posts)
      modifies this`mem, this`eventQueue, this`eventLast, this`place, this`ns, this`q, this`posts
      ensures Inv(loose - {n})
      ensures q == PostUntimed(old(q), old(mem[n]).ev.handler, old(mem[n]).ev.arg)
      ensures ns.free == old(ns).free && ns.freeBg == old(ns).freeBg
    {
      hide AllOk, LooseAre;
      LooseIn(place, loose, n);
      var ev := mem[n].ev;
      AppendOk(mem, place, L(), ns, n);
      LastIn(mem, place, L(), ns);
      RelinkContents(mem, eventLast, n, ns.events + [n]);
      RelinkContents(mem, eventLast, n, ns.timers);
      ContentsConcat(mem, ns.events, [n]);
      assert Contents(mem, [n]) == [ev];
      LooseMoved(place, loose, n, InEventQueue);
      ghost var m := Relink(mem, eventLast, n);
      if eventQueue == NULL {
        assert eventLast == NULL;
        eventLast := n;
        eventQueue := n;
      } else {
        mem := mem[eventLast := mem[eventLast].(next := n)];
        eventLast := n;
      }
      assert mem == m;
      place := place[n := InEventQueue];
      ns := ns.(events := ns.events + [n]);
      q := PostUntimed(q, ev.handler, ev.arg);
      posts := posts + 1;
    }

    /** Walk to the position of a timer: behind all that are due no later. */
    method FindTimer(runtime: nat, ghost loose: set<Node>) returns (prev: Node, next: Node, ghost k: nat)
      requires Inv(loose)
      ensures At(ns.timers, k, prev, next) && k == Position(q.timers, runtime)
    {
      hide AllOk, Chain, LooseAre;
      ChainsOk(mem, place, L(), ns);
      prev, next, k := NULL, timerQueue, 0;
      FirstOf(mem, timerQueue, ns.timers);
      AtNext(mem, timerQueue, ns.timers, k, prev, next);
      while next != NULL && runtime >= mem[next].ev.runtime
        invariant At(ns.timers, k, prev, next)
        invariant next != NULL ==> next in mem
        invariant forall i :: 0 <= i < k ==> q.timers[i].runtime <= runtime
        decreases |ns.timers| - k
      {
        AtNext(mem, timerQueue, ns.timers, k, prev, next);
        prev := next;
        next := mem[next].next;
        k := k + 1;
        AtNext(mem, timerQueue, ns.timers, k, prev, next);
      }
      AtNext(mem, timerQueue, ns.timers, k, prev, next);
      PositionIs(q.timers, runtime, k);
    }

    /** Link a filled node into the timer queue. */
    method LinkTimer(n: Node, prev: Node, ghost k: nat, ghost loose: set<Node>)
      requires Inv(loose) && n in loose && n in mem && At(ns.timers, k, prev, mem[n].next)
      requires k == Position(q.timers, mem[n].ev.runtime) && mem[n].ev.serial == posts
      modifies this`mem, this`timerQueue, this`place, this`ns, this`q, this`posts
      ensures Inv(loose - {n})
      ensures q == PostTimed(old(q), old(mem[n]).ev.runtime, old(mem[n]).ev.handler, old(mem[n]).ev.arg)
      ensures ns.free == old(ns).free && ns.freeBg == old(ns).freeBg
    {
      hide AllOk, LooseAre, Position, Contents;
      LooseIn(place, loose, n);
      var ev := mem[n].ev;
      InsertOk(mem, place, L(), ns, n, k, prev, mem[n].next);
      TimersIn(mem, place, L(), ns);
      ghost var a, b := ns.timers[..k], ns.timers[k..];
      RelinkContents(mem, prev, n, ns.events);
      InsertedContents(mem, ns.timers, k, prev, n);
      LooseMoved(place, loose, n, InTimerQueue);
      ghost var m := Relink(mem, prev, n);
      if prev == NULL {
        timerQueue := n;
      } else {
        mem := mem[prev := mem[prev].(next := n)];
      }
      assert mem == m;
      place := place[n := InTimerQueue];
      ns := ns.(timers := a + [n] + b);
      q := PostTimed(q, ev.runtime, ev.handler, ev.arg);
      posts := posts + 1;
    }

    /** The first node of a list that was posted for this handler and argument. */
    method Find(head: Node, ghost s: seq<Node>, h: int, a: int) returns (prev: Node, ev: Node, ghost k: nat)
      requires Chain(mem, head, s, NULL)
      ensures At(s, k, prev, ev) && (ev == NULL <==> k == |s|)
      ensures forall i :: 0 <= i < k ==> !Contents(mem, s)[i].Matches(h, a)
      ensures k < |s| ==> Contents(mem, s)[k].Matches(h, a)
    {
      prev, ev, k := NULL, head, 0;
      FirstOf(mem, head, s);
      hide Chain;
      AtNext(mem, head, s, k, prev, ev);
      while ev != NULL
        invariant At(s, k, prev, ev) && (ev == NULL <==> k == |s|)
        invariant k < |s| ==> ev in mem && Contents(mem, s)[k] == mem[ev].ev
        invariant forall i :: 0 <= i < k ==> !Contents(mem, s)[i].Matches(h, a)
        decreases |s| - k
      {
        if mem[ev].ev.Matches(h, a) { return; }
        AtNext(mem, head, s, k, prev, ev);
        prev := ev;
        ev := mem[ev].next;
        k := k + 1;
        AtNext(mem, head, s, k, prev, ev);
      }
    }

    /** Take a node out of the event queue; its event has been cancelled. */
    method UnlinkEvent(ev: Node, prev: Node, ghost k: nat, ghost loose: set<Node>)
      requires Inv(loose) && At(ns.events, k, prev, ev) && k < |ns.events|
      modifies this`mem, this`eventQueue, this`eventLast, this`place, this`ns, this`q
      ensures Inv(loose + {ev}) && ev !in loose
      ensures q == CancelEvent(old(q), k)
    {
      hide AllOk, LooseAre;
      RemoveEventOk(mem, place, L(), ns, ev, k, prev);
      EventsIn(mem, place, L(), ns);
      LooseAdd(place, loose, ev);
      ghost var m, s := Relink(mem, prev, mem[ev].next), ns.events[..k] + ns.events[k + 1..];
      RelinkContents(mem, prev, mem[ev].next, s);
      RelinkContents(mem, prev, mem[ev].next, ns.timers);
      ContentsConcat(mem, ns.events[..k], ns.events[k + 1..]);
      assert Contents(mem, ns.events[..k]) == q.events[..k] && Contents(mem, ns.events[k + 1..]) == q.events[k + 1..];
      var next := mem[ev].next;
      if next == NULL {
        eventLast := prev;
      }
      if prev == NULL {
        eventQueue := next;
      } else {
        mem := mem[prev := mem[prev].(next := next)];
      }
      assert mem == m;
      place := place[ev := Loose];
      ns := ns.(events := s);
      q := CancelEvent(q, k);
    }

    /** Take a node out of the timer queue; its event has been cancelled. */
    method UnlinkTimer(ev: Node, prev: Node, ghost k: nat, ghost loose: set<Node>)
      requires Inv(loose) && At(ns.timers, k, prev, ev) && k < |ns.timers|
      modifies this`mem, this`timerQueue, this`place, this`ns, this`q
      ensures Inv(loose + {ev}) && ev !in loose
      ensures q == CancelTimer(old(q), k)
    {
      hide AllOk, LooseAre;
      RemoveTimerOk(mem, place, L(), ns, ev, k, prev);
      TimersIn(mem, place, L(), ns);
      LooseAdd(place, loose, ev);
      ghost var m, s := Relink(mem, prev, mem[ev].next), ns.timers[..k] + ns.timers[k + 1..];
      RelinkContents(mem, prev, mem[ev].next, ns.events);
      RelinkContents(mem, prev, mem[ev].next, s);
      ContentsConcat(mem, ns.timers[..k], ns.timers[k + 1..]);
      assert Contents(mem, ns.timers[..k]) == q.timers[..k] && Contents(mem, ns.timers[k + 1..]) == q.timers[k + 1..];
      if prev == NULL {
        timerQueue := mem[ev].next;
      } else {
        mem := mem[prev := mem[prev].(next := mem[ev].next)];
      }
      assert mem == m;
      place := place[ev := Loose];
      ns := ns.(timers := s);
      q := CancelTimer(q, k);
    }

    // post_event on the dispatch thread
    method PostEvent(h: int, a: int)
      requires Valid() && cancelHandler == 0
      modifies this`mem, this`eventQueue, this`eventLast, this`freeQueue, this`freeBgQueue, this`heapTop,
               this`place, this`ns, this`q, this`posts
      ensures Valid() && q == PostUntimed(old(q), h, a)
      ensures q.events == old(q).events + [Event(0, h, a, |old(q).posted|)] && q.timers == old(q).timers
      ensures ns.freeBg == old(ns).freeBg
    {
      hide Inv, Good, Untimed;
      var n := Alloc(false, Running());
      Fill(n, Cell(NULL, Event(0, h, a, posts)), Running() + {n});
      LinkEvent(n, Running() + {n});
      PostUntimedGood(old(q), clock, h, a);
      assert Running() + {n} - {n} == Running();
    }

    /** Put an event into the timer queue. */
    method AddTimer(bg: bool, h: int, a: int, runtime: nat)
      requires Valid() && runtime > 0
      modifies this`mem, this`timerQueue, this`freeQueue, this`freeBgQueue, this`heapTop, this`place, this`ns, this`q, this`posts
      ensures Valid() && q == PostTimed(old(q), runtime, h, a)
      ensures Inserted(old(q).timers, q.timers, Event(runtime, h, a, |old(q).posted|)) && q.events == old(q).events
      ensures if bg then ns.free == old(ns).free else ns.freeBg == old(ns).freeBg
    {
      hide Inv, Good, Untimed, Inserted, Sorted;
      var n := Alloc(bg, Running());
      var prev, next, k := FindTimer(runtime, Running() + {n});
      Fill(n, Cell(next, Event(runtime, h, a, posts)), Running() + {n});
      LinkTimer(n, prev, k, Running() + {n});
      PostTimedGood(old(q), clock, runtime, h, a);
      TimersSorted(old(q), clock);
      PostTimedMeans(old(q), runtime, h, a);
      assert Running() + {n} - {n} == Running();
    }

    // post_event_with_delay on the dispatch thread, at time `now`; the delay is in microseconds
    method PostEventWithDelay(h: int, a: int, delay: nat, now: nat)
      requires Valid() && cancelHandler == 0 && now > 0
      modifies this`mem, this`timerQueue, this`freeQueue, this`freeBgQueue, this`heapTop, this`place, this`ns, this`q, this`posts
      ensures Valid() && q == PostTimed(old(q), now + delay * 1000, h, a)
      ensures Inserted(old(q).timers, q.timers, Event(now + delay * 1000, h, a, |old(q).posted|)) && q.events == old(q).events
      ensures ns.freeBg == old(ns).freeBg
    {
      AddTimer(false, h, a, now + delay * 1000);
    }

    // post_from_bg_thread
    method PostFromBgThread(h: int, a: int, delay: nat, now: nat)
      requires Valid() && now > 0 && h != 0
      modifies this`mem, this`timerQueue, this`freeQueue, this`freeBgQueue, this`heapTop, this`place, this`ns, this`q, this`posts,
               this`cancelHandler
      ensures Valid()
      ensures if old(cancelHandler) == h && cancelArg == a
              then cancelHandler == 0 && q == Absorb(old(q), h, a)
              else cancelHandler == old(cancelHandler) && q == PostTimed(old(q), now + delay * 1000, h, a)
      ensures q.events == old(q).events && ns.free == old(ns).free
      ensures if old(cancelHandler) == h && cancelArg == a then q.timers == old(q).timers
              else Inserted(old(q).timers, q.timers, Event(now + delay * 1000, h, a, |old(q).posted|))
    {
      hide Valid;
      if cancelHandler == h && cancelArg == a {
        AbsorbPost(h, a);
        return;
      }
      AddTimer(true, h, a, now + delay * 1000);
    }

    /** A cancel_event is waiting for this very post. */
    method AbsorbPost(h: int, a: int)
      requires Valid()
      modifies this`cancelHandler, this`q, this`posts
      ensures Valid() && cancelHandler == 0 && q == Absorb(old(q), h, a)
    {
      hide Good, AllOk, Untimed;
      AbsorbGood(q, clock, h, a);
      cancelHandler := 0;
      q := Absorb(q, h, a);
      posts := posts + 1;
    }

    // cancel_event; if nothing matches and `wait` is set, the dispatch thread blocks until a post matches
    method Cancel(h: int, a: int, wait: bool) returns (found: bool)
      requires Valid() && h != 0 && cancelHandler == 0
      modifies this`mem, this`eventQueue, this`eventLast, this`timerQueue, this`freeQueue, this`place, this`ns, this`q,
               this`cancelHandler, this`cancelArg
      ensures Valid()
      ensures found ==> cancelHandler == 0 && FirstCancelled(old(q), q, h, a)
      ensures !found ==> q == old(q) && (if wait then cancelHandler == h && cancelArg == a else cancelHandler == 0)
      ensures !found ==> (forall e :: e in q.events ==> e.handler != h || e.arg != a) && (forall e :: e in q.timers ==> e.handler != h || e.arg != a)
    {
      hide Valid;
      found := CancelInEvents(h, a);
      if found { return; }
      found := CancelInTimers(h, a);
      if found { return; }
      if wait {
        Wait(h, a);
      }
    }

    method CancelStep(h: int, a: int, wait: bool)
      requires Valid() && h != 0 && cancelHandler == 0
      modifies this`mem, this`eventQueue, this`eventLast, this`timerQueue, this`freeQueue, this`place, this`ns, this`q,
               this`cancelHandler, this`cancelArg
      ensures Valid() && W() == Cancelled(old(W()), h, a, wait)
    {
      hide Valid, FirstCancelled, FirstMatch, Where, CancelEvent, CancelTimer;
      var found := Cancel(h, a, wait);
      if found {
        CancelledIs(old(W()), q, h, a, wait);
      } else {
        WhereNone(q.events, h, a);
        WhereNone(q.timers, h, a);
      }
    }

    method Wait(h: int, a: int)
      requires Valid()
      modifies this`cancelHandler, this`cancelArg
      ensures Valid() && cancelHandler == h && cancelArg == a
    {
      hide Good, AllOk, LooseAre;
      cancelHandler := h;
      cancelArg := a;
    }

    method CancelInEvents(h: int, a: int) returns (found: bool)
      requires Valid()
      modifies this`mem, this`eventQueue, this`eventLast, this`freeQueue, this`place, this`ns, this`q
      ensures Valid()
      ensures found ==> exists k: nat :: FirstMatch(old(q).events, k, h, a) && q == CancelEvent(old(q), k)
      ensures !found ==> q == old(q) && forall e :: e in q.events ==> e.handler != h || e.arg != a
    {
      hide Good, AllOk, LooseAre;
      ChainsOk(mem, place, L(), ns);
      var prev, ev, k := Find(eventQueue, ns.events, h, a);
      if ev != NULL {
        CancelEventGood(q, clock, k);
        assert FirstMatch(q.events, k, h, a);
        DropEvent(ev, prev, k);
        return true;
      }
      return false;
    }

    method CancelInTimers(h: int, a: int) returns (found: bool)
      requires Valid()
      modifies this`mem, this`timerQueue, this`freeQueue, this`place, this`ns, this`q
      ensures Valid()
      ensures found ==> exists k: nat :: FirstMatch(old(q).timers, k, h, a) && q == CancelTimer(old(q), k)
      ensures !found ==> q == old(q) && forall e :: e in q.timers ==> e.handler != h || e.arg != a
    {
      hide Good, AllOk, LooseAre;
      ChainsOk(mem, place, L(), ns);
      var prev, ev, k := Find(timerQueue, ns.timers, h, a);
      if ev != NULL {
        CancelTimerGood(q, clock, k);
        assert FirstMatch(q.timers, k, h, a);
        DropTimer(ev, prev, k);
        return true;
      }
      return false;
    }

    method DropEvent(ev: Node, prev: Node, ghost k: nat)
      requires Inv(Running()) && At(ns.events, k, prev, ev) && k < |ns.events|
      modifies this`mem, this`eventQueue, this`eventLast, this`freeQueue, this`place, this`ns, this`q
      ensures Inv(Running()) && k < |old(q).events| && q == CancelEvent(old(q), k)
    {
      hide AllOk, LooseAre;
      UnlinkEvent(ev, prev, k, Running());
      Free(ev, Running() + {ev});
      assert Running() + {ev} - {ev} == Running();
    }

    method DropTimer(ev: Node, prev: Node, ghost k: nat)
      requires Inv(Running()) && At(ns.timers, k, prev, ev) && k < |ns.timers|
      modifies this`mem, this`timerQueue, this`freeQueue, this`place, this`ns, this`q
      ensures Inv(Running()) && k < |old(q).timers| && q == CancelTimer(old(q), k)
    {
      hide AllOk, LooseAre;
      UnlinkTimer(ev, prev, k, Running());
      Free(ev, Running() + {ev});
      assert Running() + {ev} - {ev} == Running();
    }

    /** Hand free nodes to the threads that post from the background, until they have at least two. */
    method RefillBg()
      requires Inv(Running())
      modifies this`mem, this`freeQueue, this`freeBgQueue, this`place, this`ns
      ensures Inv(Running()) && ns.events == old(ns).events && ns.timers == old(ns).timers
      ensures ns.free == [] || |ns.freeBg| >= 2
      ensures multiset(ns.free) + multiset(ns.freeBg) == multiset(old(ns).free) + multiset(old(ns).freeBg)
    {
      hide AllOk, LooseAre;
      FreeBgIn(mem, place, L(), ns);
      while freeQueue != NULL && (freeBgQueue == NULL || mem[freeBgQueue].next == NULL)
        invariant Inv(Running()) && ns.events == old(ns).events && ns.timers == old(ns).timers
        invariant freeBgQueue != NULL ==> freeBgQueue in mem
        invariant multiset(ns.free) + multiset(ns.freeBg) == multiset(old(ns).free) + multiset(old(ns).freeBg)
        decreases |ns.free|
      {
        MoveToBg();
      }
      Enough(mem, place, L(), ns);
    }

    /** Once in a turn, before the thread waits. */
    method RefillOnce()
      requires Inv(Running())
      modifies this`mem, this`freeQueue, this`freeBgQueue, this`place, this`ns
      ensures Inv(Running()) && ns.events == old(ns).events && ns.timers == old(ns).timers
      ensures if waiting then ns == old(ns) else ns.free == [] || |ns.freeBg| >= 2
    {
      hide Inv;
      if !waiting { RefillBg(); }
    }

    method MoveToBg()
      requires Inv(Running()) && freeQueue != NULL
      modifies this`mem, this`freeQueue, this`freeBgQueue, this`place, this`ns
      ensures Inv(Running()) && |ns.free| < |old(ns).free|
      ensures ns.events == old(ns).events && ns.timers == old(ns).timers
      ensures freeBgQueue in mem
      ensures old(ns).free != [] && ns.free == old(ns).free[1..] && ns.freeBg == [old(ns).free[0]] + old(ns).freeBg
      ensures multiset(ns.free) + multiset(ns.freeBg) == multiset(old(ns).free) + multiset(old(ns).freeBg)
    {
      hide AllOk, LooseAre;
      var x := freeQueue;
      ghost var mem0, place0, l0 := mem, place, L();
      AllocOk(mem, place, L(), ns);
      FreeBgOk(mem, place, L(), ns);
      LooseKept(place, Running(), x, InFreeBgQueue);
      EventsIn(mem, place, L(), ns);
      TimersIn(mem, place, L(), ns);
      assert x !in ns.events && x !in ns.timers;
      WriteContents(mem, x, mem[x].(next := freeBgQueue), ns.events);
      WriteContents(mem, x, mem[x].(next := freeBgQueue), ns.timers);
      freeQueue := mem[x].next;
      mem := mem[x := mem[x].(next := freeBgQueue)];
      freeBgQueue := x;
      place := place[x := InFreeBgQueue];
      FreeHead(mem0, place0, l0, ns);
      assert ns.free == [x] + ns.free[1..];
      ns := ns.(free := ns.free[1..], freeBg := [x] + ns.freeBg);
    }

    /** Walk over the timers that are due; `last` is the last of them, or NULL. */
    method LastDue(now: nat) returns (last: Node, ghost k: nat)
      requires Inv(Running())
      ensures k == Position(q.timers, now) && k <= |ns.timers| && last == (if k == 0 then NULL else ns.timers[k - 1])
    {
      var next;
      last, next, k := FindTimer(now, Running());
    }

    /** Move the timers that are due to the front of the event queue. */
    method ReleaseDue(last: Node, ghost k: nat, ghost now: nat)
      requires Inv(Running()) && 0 < k <= |ns.timers| && last == ns.timers[k - 1] && k == Position(q.timers, now)
      modifies this`mem, this`eventQueue, this`eventLast, this`timerQueue, this`place, this`ns, this`q
      ensures Inv(Running()) && q == Release(old(q), now) && ns.events != []
      ensures ns.free == old(ns).free && ns.freeBg == old(ns).freeBg
    {
      hide AllOk, LooseAre, Position;
      ReleaseOk(mem, place, L(), ns, k);
      LastIn(mem, place, L(), ns);
      TimersIn(mem, place, L(), ns);
      ghost var a, b := ns.timers[..k], ns.timers[k..];
      assert mem[last := mem[last].(next := eventQueue)] == Relink(mem, last, eventQueue);
      RelinkContents(mem, last, eventQueue, a + ns.events);
      RelinkContents(mem, last, eventQueue, b);
      ContentsConcat(mem, a, ns.events);
      assert Contents(mem, a) == q.timers[..k] && Contents(mem, b) == q.timers[k..];
      LooseReleased(place, Running(), a);
      var ev := timerQueue;
      timerQueue := mem[last].next;
      mem := mem[last := mem[last].(next := eventQueue)];
      if eventQueue == NULL {
        eventLast := last;
      }
      eventQueue := ev;
      place := Moved(place, a, InEventQueue);
      ns := ns.(events := a + ns.events, timers := b);
      q := Release(q, now);
    }

    /** The poll of the timer queue in run_event_loop at time `now`; not `ready` means that the thread waits. Background threads
        get free nodes before the first poll of a turn, and not again when a waiting thread polls once more. */
    method Poll(now: nat) returns (ready: bool)
      requires Valid() && clock <= now && (q.events == [] || eventCnt >= 1)
      modifies this
      ensures Valid() && q == Release(old(q), now) && ready == (q.events != [])
      ensures eventCnt == 0 && executing == old(executing) && cancelHandler == old(cancelHandler)
      ensures clock == now && polls == old(polls) + 1
      ensures busyPolls == old(busyPolls) + (if old(q).events == [] then 0 else 1)
      ensures waiting == !ready
      ensures if old(waiting) then ns.free == old(ns).free && ns.freeBg == old(ns).freeBg else ns.free == [] || |ns.freeBg| >= 2
      ensures Released(old(q), q, now)
    {
      hide Good, AllOk, LooseAre, Untimed, Position, Release, Contents, Released, Sorted;
      ReleaseGood(q, clock, now);
      TimersSorted(q, clock);
      ReleaseMeans(q, now);
      SameHistory(q, now);
      polls := polls + 1;
      busyPolls := busyPolls + (if q.events == [] then 0 else 1);
      eventCnt := 0;
      clock := now;
      ready := PollTimers(now);
    }

    method PollTimers(now: nat) returns (ready: bool)
      requires Inv(Running())
      modifies this`mem, this`eventQueue, this`eventLast, this`timerQueue, this`freeQueue, this`freeBgQueue, this`place, this`ns, this`q,
               this`waiting
      ensures Inv(Running()) && q == Release(old(q), now) && ready == (q.events != []) && waiting == !ready
      ensures if old(waiting) then ns.free == old(ns).free && ns.freeBg == old(ns).freeBg else ns.free == [] || |ns.freeBg| >= 2
    {
      hide AllOk, LooseAre, Position, Release, Contents;
      RefillOnce();
      ReleaseAll(now);
      HeadsOk(mem, place, L(), ns);
      ready := eventQueue != NULL;
      waiting := !ready;
    }

    method ReleaseAll(now: nat)
      requires Inv(Running())
      modifies this`mem, this`eventQueue, this`eventLast, this`timerQueue, this`place, this`ns, this`q
      ensures Inv(Running()) && q == Release(old(q), now)
      ensures ns.free == old(ns).free && ns.freeBg == old(ns).freeBg
    {
      hide AllOk, LooseAre, Position, Release;
      var last, k := LastDue(now);
      if last != NULL {
        ReleaseDue(last, k, now);
      } else {
        NothingDue(now, k);
      }
    }

    lemma NothingDue(now: nat, k: nat)
      requires Inv(Running()) && k == Position(q.timers, now) && (k == 0 || (k <= |ns.timers| && ns.timers[k - 1] == NULL))
      ensures Release(q, now) == q
    {
      TimersIn(mem, place, L(), ns);
      assert q.timers[..0] + q.events == q.events && q.timers[0..] == q.timers;
    }

    /** Take the first event from the queue and start its handler. */
    method Start()
      requires Valid() && executing == NULL && q.events != [] && eventCnt < 100
      modifies this`waiting, this`eventQueue, this`eventLast, this`executing, this`eventCnt, this`place, this`ns, this`q
      ensures Valid() && executing != NULL && !waiting && q == Dispatch(old(q))
      ensures eventCnt == old(eventCnt) + (if old(q).events[0].runtime == 0 then 1 else 0)
      ensures executing in mem && mem[executing].ev == old(q).events[0] && q.events == old(q).events[1..]
    {
      hide Good, AllOk, LooseAre, Untimed, Dispatch;
      DispatchGood(q, clock);
      DispatchLog(q);
      waiting := false;
      executing := PopEvent();
      if mem[executing].ev.runtime == 0 {
        eventCnt := eventCnt + 1;
      }
      assert {} + {executing} == {executing};
    }

    /** Unlink the first event. */
    method PopEvent() returns (ev: Node)
      requires Inv({}) && q.events != []
      modifies this`eventQueue, this`eventLast, this`place, this`ns, this`q
      ensures ev != NULL && Inv({} + {ev}) && q == Dispatch(old(q))
      ensures ev in mem && mem[ev].ev == old(q).events[0]
    {
      hide AllOk, LooseAre;
      ev := eventQueue;
      PopOk(mem, place, L(), ns);
      EventsIn(mem, place, L(), ns);
      LooseAdd(place, {}, ev);
      assert Contents(mem, ns.events[1..]) == q.events[1..];
      eventQueue := mem[ev].next;
      if eventQueue == NULL {
        assert eventLast == ev;
        eventLast := NULL;
      }
      place := place[ev := Loose];
      ns := ns.(events := ns.events[1..]);
      q := Dispatch(q);
    }

    /** One turn of run_event_loop up to the call of the handler, at time `now`; `tick` says that the timer
        interval has elapsed since the last poll.  Not `ran` means that the thread waits for an event. */
    method Turn(now: nat, tick: bool) returns (ran: bool)
      requires Valid() && executing == NULL && cancelHandler == 0 && clock <= now
      modifies this
      ensures Valid() && cancelHandler == 0 && clock <= now
      ensures ran ==> executing != NULL && !waiting
      ensures !ran ==> executing == NULL && waiting && q == Release(old(q), now) && q.events == []
      ensures ran ==>
                var polled := old(q).events == [] || old(eventCnt) >= 100 || (old(eventCnt) >= 1 && tick);
                var ready := if polled then Release(old(q), now) else old(q);
                ready.events != [] && q == Dispatch(ready)
      ensures ran ==> executing in mem && q.dispatched == old(q).dispatched + [mem[executing].ev]
      ensures W() == Turned(old(W()), now, tick)
    {
      hide Good, Inv, Untimed, Fair;
      QueueHead();
      ran := true;
      if eventQueue == NULL || eventCnt >= 100 || (eventCnt >= 1 && tick) {
        ran := Poll(now);
      }
      if ran {
        Start();
      }
    }

    lemma QueueHead()
      requires Valid()
      ensures eventQueue == NULL <==> q.events == []
    {
      HeadsOk(mem, place, L(), ns);
    }

    /** The handler has returned. */
    method Finish()
      requires Valid() && executing != NULL
      modifies this`mem, this`freeQueue, this`place, this`ns, this`executing
      ensures Valid() && executing == NULL && q == old(q)
    {
      hide Good, AllOk, LooseAre, Untimed;
      Free(executing, {executing});
      assert {executing} - {executing} == {};
      executing := NULL;
    }

    // ini_events_queue: all statically allocated nodes go to the free list
    constructor ()
      ensures Valid() && clock == 0 && W() == World(Queues([], [], [], [], [], []), None, false, false, 0)
      ensures |ns.free| == 512 && ns.freeBg == []
    {
      mem := map[];
      eventQueue, eventLast, timerQueue, freeQueue, freeBgQueue := NULL, NULL, NULL, NULL, NULL;
      heapTop, cancelHandler, cancelArg, executing, waiting, eventCnt, posts := EVENT_BUF_SIZE + 1, 0, 0, NULL, false, 0, 0;
      place := map[];
      ns := Nodes([], [], [], []);
      q := Queues([], [], [], [], [], []);
      clock, polls, busyPolls := 0, 0, 0;
      new;
      hide AllOk, LooseAre, Good, Untimed;
      EmptyOk();
      InitFree();
    }

    method InitFree()
      requires AllOk(mem, place, L(), ns) && LooseAre(place, {}) && place == map[] && ns.events == [] && ns.timers == []
      requires ns.free == [] && ns.freeBg == []
      modifies this`mem, this`freeQueue, this`place, this`ns
      ensures AllOk(mem, place, L(), ns) && LooseAre(place, {})
      ensures Contents(mem, ns.events) == [] && Contents(mem, ns.timers) == []
      ensures forall n :: n in place <==> 1 <= n <= EVENT_BUF_SIZE
      ensures |ns.free| == EVENT_BUF_SIZE && ns.freeBg == []
    {
      hide AllOk, LooseAre;
      var i := 1;
      while i <= EVENT_BUF_SIZE
        invariant 1 <= i <= EVENT_BUF_SIZE + 1
        invariant AllOk(mem, place, L(), ns) && LooseAre(place, {})
        invariant ns.events == [] && ns.timers == [] && |ns.free| == i - 1 && ns.freeBg == []
        invariant forall n :: n in place <==> 1 <= n < i
      {
        AddFree(i);
        i := i + 1;
      }
    }

    method AddFree(i: Node)
      requires AllOk(mem, place, L(), ns) && LooseAre(place, {}) && i > 0 && i !in place
      modifies this`mem, this`freeQueue, this`place, this`ns
      ensures AllOk(mem, place, L(), ns) && LooseAre(place, {})
      ensures ns.events == old(ns).events && ns.timers == old(ns).timers
      ensures place == old(place)[i := InFreeQueue]
      ensures ns.free == [i] + old(ns).free && ns.freeBg == old(ns).freeBg
    {
      hide AllOk, LooseAre;
      var c := Cell(freeQueue, Event(0, 0, 0, 0));
      WriteOk(mem, place, L(), ns, i, c);
      FreeOk(mem[i := c], place[i := Loose], L(), ns, i);
      assert mem[i := c][i := c] == mem[i := c];
      assert place[i := Loose][i := InFreeQueue] == place[i := InFreeQueue];
      LooseAdd(place, {}, i);
      LooseMoved(place[i := Loose], {} + {i}, i, InFreeQueue);
      assert {} + {i} - {i} == {};
      mem := mem[i := c];
      freeQueue := i;
      place := place[i := InFreeQueue];
      ns := ns.(free := [i] + ns.free);
    }

    /** In every state of every run: each post has exactly one fate, and is dispatched, if at all, once,
        with what was posted, in order among the undelayed ones, and not before its time. */
    lemma ExactlyOnce(serial: nat)
      requires Valid() && serial < |q.posted|
      ensures Serials(q.events)[serial] + Serials(q.timers)[serial] + Serials(q.dispatched)[serial]
              + Serials(q.cancelled)[serial] + Serials(q.absorbed)[serial] == 1
      ensures Honest(q.dispatched, q.posted) && Due(q.dispatched, clock)
      ensures Ascending(Untimed(q.dispatched))
      ensures Sorted(q.timers)
    {
      assert Placed(q)[serial] == 1;
      AscendingDrop(Untimed(q.dispatched), Untimed(q.events), []);
      assert Untimed(q.dispatched) + Untimed(q.events) + [] == Untimed(q.dispatched) + Untimed(q.events);
      assert Untimed(q.dispatched) + [] == Untimed(q.dispatched);
    }

    /** No undelayed event starves: while it waits, the number of polls made with events waiting stays
        below the number of the post. */
    lemma NoStarvation(r: nat)
      requires Valid() && r < |Untimed(q.events)|
      ensures busyPolls + eventCnt + r <= Untimed(q.events)[r].serial
    {
      hide Inv, Untimed;
      var all := Untimed(q.dispatched) + Untimed(q.events);
      AscendingFloor(all, |Untimed(q.dispatched)| + r);
      assert all[|Untimed(q.dispatched)| + r] == Untimed(q.events)[r];
    }

    /** Timers do not starve either: at most 100 undelayed events run between two polls. */
    lemma PollsInTime()
      requires Valid()
      ensures eventCnt <= 100 && |Untimed(q.dispatched)| - eventCnt <= 100 * polls
    {
      hide Inv, Untimed;
    }

    /** Every node is in exactly one list, or is the one being executed: the statically allocated ones always, one from the
        heap until it is released, and then in none; the tail pointer is right. */
    lemma NodesAccounted(n: Node)
      requires Valid()
      ensures multiset(ns.events)[n] + multiset(ns.timers)[n] + multiset(ns.free)[n] + multiset(ns.freeBg)[n]
              + (if n == executing && n != NULL then 1 else 0) == if n in place then 1 else 0
      ensures 1 <= n <= EVENT_BUF_SIZE ==> n in place
      ensures n in place ==> n in mem && 1 <= n < heapTop
      ensures eventLast == if ns.events == [] then NULL else ns.events[|ns.events| - 1]
    {
      hide Good;
      assert IsLoose(place, n) <==> n in Running();
    }

    /** One step of some thread at time `now`; skipped if that thread is blocked. */
    method Perform(step: Step, now: nat)
      requires Valid() && clock <= now && 0 < now
      modifies this
      ensures Valid() && clock <= now && W() == Stepped(old(W()), step, now)
    {
      hide Valid, Release, Turned, Cancelled, PostTimed, PostUntimed, Absorb, Position;
      match step {
        case Post(h, a) => if cancelHandler == 0 && !waiting { PostEvent(h, a); }
        case PostDelayed(h, a, delay) => if cancelHandler == 0 && !waiting { PostEventWithDelay(h, a, delay, now); }
        case PostFromThread(h, a, delay) => if h != 0 { PostFromBgThread(h, a, delay, now); }
        case CancelOne(h, a, wait) => if h != 0 && cancelHandler == 0 && !waiting { CancelStep(h, a, wait); }
        case Loop(tick) => if executing == NULL && cancelHandler == 0 { var _ := Turn(now, tick); }
        case Return => if executing != NULL && cancelHandler == 0 { Finish(); }
      }
    }

    /** Whatever the threads do and in whatever order, every post keeps exactly one fate. */
    method Run(begin: nat, steps: seq<(Step, nat)>)
      requires Valid() && clock <= begin && 0 < begin
      modifies this
      ensures Valid() && W() == SteppedAll(old(W()), begin, steps)
      ensures forall serial :: 0 <= serial < |q.posted| ==>
                Serials(q.events)[serial] + Serials(q.timers)[serial] + Serials(q.dispatched)[serial]
                + Serials(q.cancelled)[serial] + Serials(q.absorbed)[serial] == 1
    {
      hide Valid, Serials, Stepped;
      var now, i := begin, 0;
      while i < |steps|
        invariant 0 <= i <= |steps| && Valid() && clock <= now && 0 < now
        invariant now == Time(begin, steps[..i]) && W() == SteppedAll(old(W()), begin, steps[..i])
      {
        now := now + steps[i].1;
        assert steps[..i + 1][..i] == steps[..i];
        Perform(steps[i].0, now);
        i := i + 1;
      }
      assert steps[..|steps|] == steps;
      forall serial | 0 <= serial < |q.posted|
        ensures Serials(q.events)[serial] + Serials(q.timers)[serial] + Serials(q.dispatched)[serial]
                + Serials(q.cancelled)[serial] + Serials(q.absorbed)[serial] == 1
      {
        ExactlyOnce(serial);
      }
    }
  }

  lemma EmptyOk()
    ensures AllOk(map[], map[], Lists(NULL, NULL, NULL, NULL, NULL), Nodes([], [], [], []))
    ensures LooseAre(map[], {})
    ensures Good(Queues([], [], [], [], [], []), 0) && Untimed([]) == []
  {
  }

  lemma {:induction false} AscendingFloor(es: seq<Event>, i: nat)
    requires Ascending(es) && i < |es|
    ensures i <= es[i].serial
  {
    if i > 0 {
      AscendingFloor(es, i - 1);
    }
  }

  lemma DispatchLog(q: Queues)
    requires q.events != []
    ensures Dispatch(q).posted == q.posted
    ensures |Untimed(Dispatch(q).dispatched)| == |Untimed(q.dispatched)| + (if q.events[0].runtime == 0 then 1 else 0)
    ensures Dispatch(q).events == q.events[1..]
  {
    UntimedSnoc(q.dispatched, q.events[0]);
  }

  lemma TimersSorted(q: Queues, clock: nat)
    requires Good(q, clock)
    ensures Sorted(q.timers)
  {
  }

  lemma SameHistory(q: Queues, now: nat)
    ensures Release(q, now).dispatched == q.dispatched && Release(q, now).posted == q.posted
  {
  }

  lemma InsertedContents(mem: Memory, s: seq<Node>, k: nat, prev: Node, n: Node)
    requires k <= |s| && n in mem && (prev == NULL || prev in mem)
    ensures Contents(Relink(mem, prev, n), s[..k] + [n] + s[k..]) == Contents(mem, s)[..k] + [mem[n].ev] + Contents(mem, s)[k..]
  {
    RelinkContents(mem, prev, n, s[..k] + [n] + s[k..]);
    ContentsConcat(mem, s[..k] + [n], s[k..]);
    ContentsConcat(mem, s[..k], [n]);
  }

  lemma HeadsOk(mem: Memory, place: map<Node, Place>, l: Lists, ns: Nodes)
    requires AllOk(mem, place, l, ns)
    ensures ns.events == [] <==> l.eventQueue == NULL
  {
    HeadNull(mem, l.eventQueue, ns.events);
  }

  lemma FreeHead(mem: Memory, place: map<Node, Place>, l: Lists, ns: Nodes)
    requires AllOk(mem, place, l, ns) && l.freeQueue != NULL
    ensures ns.free != [] && ns.free[0] == l.freeQueue
  {
    HeadNull(mem, l.freeQueue, ns.free);
  }

  /** When the loop that hands out free nodes stops, none is left or the other threads have two. */
  lemma Enough(mem: Memory, place: map<Node, Place>, l: Lists, ns: Nodes)
    requires AllOk(mem, place, l, ns)
    requires l.freeQueue == NULL || (l.freeBgQueue != NULL && l.freeBgQueue in mem && mem[l.freeBgQueue].next != NULL)
    ensures ns.free == [] || |ns.freeBg| >= 2
  {
    HeadNull(mem, l.freeQueue, ns.free);
    if l.freeQueue != NULL && |ns.freeBg| <= 1 {
      HeadNull(mem, l.freeBgQueue, ns.freeBg);
      HeadNull(mem, mem[l.freeBgQueue].next, ns.freeBg[1..]);
    }
  }

  lemma FreeBgIn(mem: Memory, place: map<Node, Place>, l: Lists, ns: Nodes)
    requires AllOk(mem, place, l, ns)
    ensures l.freeBgQueue != NULL ==> l.freeBgQueue in mem
  {
    HeadNull(mem, l.freeBgQueue, ns.freeBg);
  }

  lemma LooseKept(place: map<Node, Place>, loose: set<Node>, n: Node, q: Place)
    requires LooseAre(place, loose) && n in place && place[n] != Loose && q != Loose
    ensures LooseAre(place[n := q], loose)
  {
  }

  lemma LooseReleased(place: map<Node, Place>, loose: set<Node>, a: seq<Node>)
    requires LooseAre(place, loose) && forall i :: 0 <= i < |a| ==> a[i] in place && place[a[i]] == InTimerQueue
    ensures LooseAre(Moved(place, a, InEventQueue), loose)
  {
  }

  /** The first event of a list that has this handler and this argument. */
  ghost predicate FirstMatch(es: seq<Event>, k: nat, h: int, a: int) {
    && k < |es| && es[k].handler == h && es[k].arg == a
    && forall i :: 0 <= i < k ==> es[i].handler != h || es[i].arg != a
  }

  /** One waiting event for this handler and argument has been cancelled: the first one in the event queue, or, if there is
      none, the first one in the timer queue. */
  ghost predicate FirstCancelled(q: Queues, q': Queues, h: int, a: int) {
    if exists e :: e in q.events && e.handler == h && e.arg == a
    then exists k: nat :: FirstMatch(q.events, k, h, a) && q' == CancelEvent(q, k)
    else exists k: nat :: FirstMatch(q.timers, k, h, a) && q' == CancelTimer(q, k)
  }

  lemma ChainsOk(mem: Memory, place: map<Node, Place>, l: Lists, ns: Nodes)
    requires AllOk(mem, place, l, ns)
    ensures Chain(mem, l.eventQueue, ns.events, NULL) && Chain(mem, l.timerQueue, ns.timers, NULL)
  {
  }

  lemma EventsIn(mem: Memory, place: map<Node, Place>, l: Lists, ns: Nodes)
    requires AllOk(mem, place, l, ns)
    ensures forall i :: 0 <= i < |ns.events| ==> ns.events[i] in mem && ns.events[i] != NULL
                                                 && ns.events[i] in place && place[ns.events[i]] == InEventQueue
  {
    ChainNotNull(mem, l.eventQueue, ns.events, NULL);
    forall i | 0 <= i < |ns.events| ensures ns.events[i] in place && place[ns.events[i]] == InEventQueue {
      PlaceOf(place, ns.events, InEventQueue, ns.events[i]);
    }
  }

  lemma TimersIn(mem: Memory, place: map<Node, Place>, l: Lists, ns: Nodes)
    requires AllOk(mem, place, l, ns)
    ensures forall i :: 0 <= i < |ns.timers| ==> ns.timers[i] in mem && ns.timers[i] != NULL
                                                 && ns.timers[i] in place && place[ns.timers[i]] == InTimerQueue
  {
    ChainNotNull(mem, l.timerQueue, ns.timers, NULL);
    forall i | 0 <= i < |ns.timers| ensures ns.timers[i] in place && place[ns.timers[i]] == InTimerQueue {
      PlaceOf(place, ns.timers, InTimerQueue, ns.timers[i]);
    }
  }

  lemma LooseIn(place: map<Node, Place>, loose: set<Node>, n: Node)
    requires LooseAre(place, loose) && n in loose
    ensures IsLoose(place, n)
  {
  }

  lemma LooseMoved(place: map<Node, Place>, loose: set<Node>, n: Node, q: Place)
    requires LooseAre(place, loose) && n in loose && q != Loose
    ensures LooseAre(place[n := q], loose - {n})
  {
  }

  lemma LooseDropped(place: map<Node, Place>, loose: set<Node>, n: Node)
    requires LooseAre(place, loose) && n in loose
    ensures LooseAre(place - {n}, loose - {n})
  {
  }

  lemma InMem(mem: Memory, place: map<Node, Place>, l: Lists, ns: Nodes, n: Node)
    requires AllOk(mem, place, l, ns) && n in place
    ensures n in mem
  {
  }

  lemma LastIn(mem: Memory, place: map<Node, Place>, l: Lists, ns: Nodes)
    requires AllOk(mem, place, l, ns)
    ensures l.eventQueue == NULL <==> l.eventLast == NULL
    ensures l.eventLast != NULL ==> l.eventLast in mem
  {
    HeadNull(mem, l.eventQueue, ns.events);
    ChainNotNull(mem, l.eventQueue, ns.events, NULL);
  }

  lemma LooseAdd(place: map<Node, Place>, loose: set<Node>, n: Node)
    requires LooseAre(place, loose) && n != NULL && (n in place ==> place[n] != Loose)
    ensures n !in loose && LooseAre(place[n := Loose], loose + {n})
  {
  }

  lemma WriteContents(mem: Memory, n: Node, c: Cell, s: seq<Node>)
    requires n !in s
    ensures Contents(mem[n := c], s) == Contents(mem, s)
  {
    forall i | 0 <= i < |s| ensures Contents(mem[n := c], s)[i] == Contents(mem, s)[i] {
      var x := s[i];
      assert x in s;
    }
  }
}
