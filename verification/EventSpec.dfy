/** What the event queue promises, stated on sequences of events: every post has exactly one fate,
    timers stay sorted and stable, undelayed events run in the order they were posted, and nothing
    runs before its time. */
module EventSpec {

  /** A point in time as the system gives it: seconds and nanoseconds. */
  datatype Timespec = Timespec(sec: nat, nsec: nat) {
    predicate Normal() { nsec < 1_000_000_000 }

    function Nanoseconds(): nat { sec * 1_000_000_000 + nsec }
  }

  // time_cmp
  function TimeCmp(a: Timespec, b: Timespec): int {
    if a.sec < b.sec then -1 else if a.sec > b.sec then 1
    else if a.nsec < b.nsec then -1 else if a.nsec > b.nsec then 1 else 0
  }

  // time_add_usec
  function TimeAddUsec(t: Timespec, usec: nat): Timespec {
    var u := Timespec(t.sec + usec / 1_000_000, t.nsec + usec % 1_000_000 * 1000);
    if u.nsec >= 1_000_000_000 then Timespec(u.sec + 1, u.nsec - 1_000_000_000) else u
  }

  /** Comparing and advancing times agrees with arithmetic on nanoseconds, which is what the queues are stated in. */
  lemma TimeIsNanoseconds(a: Timespec, b: Timespec, usec: nat)
    requires a.Normal() && b.Normal()
    ensures TimeCmp(a, b) < 0 <==> a.Nanoseconds() < b.Nanoseconds()
    ensures TimeCmp(a, b) == 0 <==> a.Nanoseconds() == b.Nanoseconds()
    ensures TimeCmp(a, b) in {-1, 0, 1}
    ensures TimeAddUsec(a, usec).Normal() && TimeAddUsec(a, usec).Nanoseconds() == a.Nanoseconds() + usec * 1000
  {
    assert usec == usec / 1_000_000 * 1_000_000 + usec % 1_000_000;
  }

  /** `runtime` is 0 for events posted without delay by the dispatch thread; `serial` numbers the posts. */
  datatype Event = Event(runtime: nat, handler: int, arg: int, serial: nat) {
    predicate Matches(h: int, a: int) {
      handler == h && arg == a
    }
  }

  /** The queues, and the history of a run.  `posted` lists all posts; each of them ends up in one of
      the other sequences. */
  datatype Queues = Queues(events: seq<Event>, timers: seq<Event>,
                           posted: seq<(int, int)>,
                           dispatched: seq<Event>, cancelled: seq<Event>, absorbed: seq<Event>)

  function Serials(es: seq<Event>): multiset<nat> {
    if es == [] then multiset{} else multiset{es[0].serial} + Serials(es[1..])
  }

  lemma {:induction false} SerialsConcat(a: seq<Event>, b: seq<Event>)
    ensures Serials(a + b) == Serials(a) + Serials(b)
  {
    if a == [] {
      assert a + b == b;
    } else {
      assert (a + b)[1..] == a[1..] + b;
      SerialsConcat(a[1..], b);
    }
  }

  lemma SerialsOne(e: Event)
    ensures Serials([e]) == multiset{e.serial}
  {
    assert [e][1..] == [];
  }

  /** The events of a sequence that were posted without delay. */
  function Untimed(es: seq<Event>): seq<Event> {
    if es == [] then [] else (if es[0].runtime == 0 then [es[0]] else []) + Untimed(es[1..])
  }

  lemma {:induction false} UntimedConcat(a: seq<Event>, b: seq<Event>)
    ensures Untimed(a + b) == Untimed(a) + Untimed(b)
  {
    if a == [] {
      assert a + b == b;
    } else {
      var one := if a[0].runtime == 0 then [a[0]] else [];
      assert (a + b)[1..] == a[1..] + b;
      UntimedConcat(a[1..], b);
      assert Untimed(a + b) == one + Untimed(a[1..] + b);
      assert one + (Untimed(a[1..]) + Untimed(b)) == (one + Untimed(a[1..])) + Untimed(b);
    }
  }

  lemma {:induction false} UntimedNone(es: seq<Event>)
    requires forall i :: 0 <= i < |es| ==> es[i].runtime > 0
    ensures Untimed(es) == []
  {
    if es != [] {
      UntimedNone(es[1..]);
    }
  }

  predicate Ascending(es: seq<Event>) {
    forall i, j :: 0 <= i < j < |es| ==> es[i].serial < es[j].serial
  }

  predicate Before(a: Event, b: Event) {
    a.runtime < b.runtime || (a.runtime == b.runtime && a.serial < b.serial)
  }

  /** Sorted by time, and by order of posting among equal times. */
  predicate Sorted(ts: seq<Event>) {
    forall i, j :: 0 <= i < j < |ts| ==> Before(ts[i], ts[j])
  }

  /** An event carries what was posted under its number. */
  predicate Honest(es: seq<Event>, posted: seq<(int, int)>) {
    forall i :: 0 <= i < |es| ==> es[i].serial < |posted| && posted[es[i].serial] == (es[i].handler, es[i].arg)
  }

  predicate Due(es: seq<Event>, clock: nat) {
    forall i :: 0 <= i < |es| ==> es[i].runtime <= clock
  }

  /** All numbers that have been given a place. */
  ghost function Placed(q: Queues): multiset<nat> {
    Serials(q.events) + Serials(q.timers) + Serials(q.dispatched) + Serials(q.cancelled) + Serials(q.absorbed)
  }

  /** Every post occurs exactly once among: waiting, dispatched, cancelled, absorbed. */
  ghost predicate Ledger(q: Queues) {
    forall x: nat :: Placed(q)[x] == if x < |q.posted| then 1 else 0
  }

  ghost predicate Good(q: Queues, clock: nat) {
    && Ledger(q)
    && Honest(q.events, q.posted) && Honest(q.timers, q.posted) && Honest(q.dispatched, q.posted)
    && Sorted(q.timers)
    && (forall i :: 0 <= i < |q.timers| ==> q.timers[i].runtime > 0)
    && Due(q.events, clock) && Due(q.dispatched, clock)
    && Ascending(Untimed(q.dispatched) + Untimed(q.events))
  }

  // ----- the operations -----

  ghost function PostUntimed(q: Queues, h: int, a: int): Queues {
    q.(events := q.events + [Event(0, h, a, |q.posted|)], posted := q.posted + [(h, a)])
  }

  /** The position of a timer: behind all that are due no later. */
  function Position(ts: seq<Event>, runtime: nat): (k: nat)
    ensures k <= |ts|
    ensures forall i :: 0 <= i < k ==> ts[i].runtime <= runtime
    ensures k < |ts| ==> runtime < ts[k].runtime
  {
    if ts == [] || runtime < ts[0].runtime then 0 else 1 + Position(ts[1..], runtime)
  }

  ghost function PostTimed(q: Queues, runtime: nat, h: int, a: int): Queues {
    var k := Position(q.timers, runtime);
    q.(timers := q.timers[..k] + [Event(runtime, h, a, |q.posted|)] + q.timers[k..], posted := q.posted + [(h, a)])
  }

  /** A timer has been put behind those that are due no later and before those that are due later. */
  ghost predicate Inserted(ts0: seq<Event>, ts1: seq<Event>, e: Event) {
    exists k :: 0 <= k <= |ts0| && ts1 == ts0[..k] + [e] + ts0[k..] && Divides(ts0, k, e.runtime)
  }

  /** The first `k` timers, and no others, are due at time `now`. */
  ghost predicate Divides(ts: seq<Event>, k: nat, now: nat) {
    k <= |ts| && (forall i :: 0 <= i < k ==> ts[i].runtime <= now) && (forall i :: k <= i < |ts| ==> ts[i].runtime > now)
  }

  /** The timers that are due at time `now`, and they alone, have gone to the front of the event queue, in order. */
  ghost predicate Released(q0: Queues, q1: Queues, now: nat) {
    exists k :: 0 <= k <= |q0.timers| && Divides(q0.timers, k, now)
                && q1.events == q0.timers[..k] + q0.events && q1.timers == q0.timers[k..] && q1.dispatched == q0.dispatched
  }

  lemma DueOnes(ts: seq<Event>, k: nat, now: nat, i: nat)
    requires Divides(ts, k, now) && i < |ts|
    ensures i < k <==> ts[i].runtime <= now
  {
  }

  lemma PostTimedMeans(q: Queues, runtime: nat, h: int, a: int)
    requires Sorted(q.timers)
    ensures Inserted(q.timers, PostTimed(q, runtime, h, a).timers, Event(runtime, h, a, |q.posted|))
    ensures PostTimed(q, runtime, h, a).events == q.events && PostTimed(q, runtime, h, a).posted == q.posted + [(h, a)]
  {
    PositionDivides(q.timers, runtime);
  }

  lemma ReleaseMeans(q: Queues, now: nat)
    requires Sorted(q.timers)
    ensures Released(q, Release(q, now), now)
  {
    PositionDivides(q.timers, now);
  }

  lemma PositionDivides(ts: seq<Event>, now: nat)
    requires Sorted(ts)
    ensures Divides(ts, Position(ts, now), now)
  {
    var k := Position(ts, now);
    forall i | k <= i < |ts| ensures ts[i].runtime > now { assert i > k ==> Before(ts[k], ts[i]); }
  }

  /** A post that a waiting cancel consumes. */
  ghost function Absorb(q: Queues, h: int, a: int): Queues {
    q.(absorbed := q.absorbed + [Event(0, h, a, |q.posted|)], posted := q.posted + [(h, a)])
  }

  ghost function CancelEvent(q: Queues, k: nat): Queues
    requires k < |q.events|
  {
    q.(events := q.events[..k] + q.events[k + 1..], cancelled := q.cancelled + [q.events[k]])
  }

  ghost function CancelTimer(q: Queues, k: nat): Queues
    requires k < |q.timers|
  {
    q.(timers := q.timers[..k] + q.timers[k + 1..], cancelled := q.cancelled + [q.timers[k]])
  }

  /** The timers that are due go to the front of the event queue. */
  ghost function Release(q: Queues, now: nat): Queues {
    var k := Position(q.timers, now);
    q.(events := q.timers[..k] + q.events, timers := q.timers[k..])
  }

  ghost function Dispatch(q: Queues): Queues
    requires q.events != []
  {
    q.(events := q.events[1..], dispatched := q.dispatched + [q.events[0]])
  }

  // ----- every operation keeps the promises -----

  lemma SerialsSplit(a: seq<Event>, e: Event, b: seq<Event>)
    ensures Serials(a + [e] + b) == Serials(a + b) + multiset{e.serial}
  {
    SerialsConcat(a + [e], b);
    SerialsConcat(a, [e]);
    SerialsConcat(a, b);
    SerialsOne(e);
  }

  lemma SerialsSnoc(a: seq<Event>, e: Event)
    ensures Serials(a + [e]) == Serials(a) + multiset{e.serial}
  {
    SerialsConcat(a, [e]);
    SerialsOne(e);
  }

  lemma {:induction false} UntimedBelow(es: seq<Event>, posted: seq<(int, int)>)
    requires Honest(es, posted)
    ensures forall i :: 0 <= i < |Untimed(es)| ==> Untimed(es)[i].serial < |posted|
  {
    if es != [] {
      UntimedBelow(es[1..], posted);
    }
  }

  lemma LedgerPost(q: Queues, q': Queues)
    requires Ledger(q) && |q'.posted| == |q.posted| + 1 && Placed(q') == Placed(q) + multiset{|q.posted|}
    ensures Ledger(q')
  {
    hide Placed;
  }

  lemma LedgerMove(q: Queues, q': Queues)
    requires Ledger(q) && |q'.posted| == |q.posted| && Placed(q') == Placed(q)
    ensures Ledger(q')
  {
    hide Placed;
  }

  lemma HonestMore(es: seq<Event>, posted: seq<(int, int)>, p: (int, int))
    requires Honest(es, posted)
    ensures Honest(es, posted + [p])
  {
  }

  lemma AscendingSnoc(es: seq<Event>, e: Event)
    requires Ascending(es) && forall i :: 0 <= i < |es| ==> es[i].serial < e.serial
    ensures Ascending(es + [e])
  {
  }

  lemma UntimedSnoc(es: seq<Event>, e: Event)
    ensures Untimed(es + [e]) == Untimed(es) + (if e.runtime == 0 then [e] else [])
  {
    UntimedConcat(es, [e]);
    assert [e][1..] == [];
  }

  lemma PostUntimedGood(q: Queues, clock: nat, h: int, a: int)
    requires Good(q, clock)
    ensures Good(PostUntimed(q, h, a), clock)
  {
    hide Serials, Untimed, Ledger, Honest, Ascending, Sorted;
    var e, q' := Event(0, h, a, |q.posted|), PostUntimed(q, h, a);
    SerialsSnoc(q.events, e);
    assert Placed(q') == Placed(q) + multiset{e.serial};
    LedgerPost(q, q');
    HonestMore(q.events, q.posted, (h, a));
    HonestMore(q.timers, q.posted, (h, a));
    HonestMore(q.dispatched, q.posted, (h, a));
    HonestSnoc(q.events, e, q'.posted);
    UntimedSnoc(q.events, e);
    UntimedBelow(q.events, q.posted);
    UntimedBelow(q.dispatched, q.posted);
    var d, u := Untimed(q.dispatched), Untimed(q.events);
    assert d + (u + [e]) == d + u + [e];
    AscendingSnoc(d + u, e);
  }

  lemma HonestSnoc(es: seq<Event>, e: Event, posted: seq<(int, int)>)
    requires Honest(es, posted) && e.serial < |posted| && posted[e.serial] == (e.handler, e.arg)
    ensures Honest(es + [e], posted)
  {
  }

  lemma PostTimedGood(q: Queues, clock: nat, runtime: nat, h: int, a: int)
    requires Good(q, clock) && runtime > 0
    ensures Good(PostTimed(q, runtime, h, a), clock)
  {
    hide Serials, Untimed, Ledger, Ascending, Sorted, Honest, Due, Position;
    var n, k := |q.posted|, Position(q.timers, runtime);
    var e, q' := Event(runtime, h, a, n), PostTimed(q, runtime, h, a);
    assert q.timers[..k] + q.timers[k..] == q.timers;
    SerialsSplit(q.timers[..k], e, q.timers[k..]);
    assert Placed(q') == Placed(q) + multiset{n};
    LedgerPost(q, q');
    HonestMore(q.events, q.posted, (h, a));
    HonestMore(q.timers, q.posted, (h, a));
    HonestMore(q.dispatched, q.posted, (h, a));
    HonestInsert(q.timers, k, e, q'.posted);
    SortedInsert(q.timers, e, k, q.posted);
  }

  lemma HonestInsert(es: seq<Event>, k: nat, e: Event, posted: seq<(int, int)>)
    requires Honest(es, posted) && k <= |es| && e.serial < |posted| && posted[e.serial] == (e.handler, e.arg)
    ensures Honest(es[..k] + [e] + es[k..], posted)
  {
  }

  lemma SortedInsert(ts: seq<Event>, e: Event, k: nat, posted: seq<(int, int)>)
    requires Sorted(ts) && Honest(ts, posted) && e.serial == |posted| && k == Position(ts, e.runtime)
    ensures Sorted(ts[..k] + [e] + ts[k..])
  {
    var us := ts[..k] + [e] + ts[k..];
    forall i, j | 0 <= i < j < |us| ensures Before(us[i], us[j]) {
      if j == k {
        assert us[i] == ts[i];
      } else if i == k {
        assert us[j] == ts[j - 1];
        assert k == j - 1 || Before(ts[k], ts[j - 1]);
      } else {
        assert us[i] == ts[if i < k then i else i - 1] && us[j] == ts[if j < k then j else j - 1];
      }
    }
  }

  lemma AbsorbGood(q: Queues, clock: nat, h: int, a: int)
    requires Good(q, clock)
    ensures Good(Absorb(q, h, a), clock)
  {
    hide Serials, Untimed;
    SerialsSnoc(q.absorbed, Event(0, h, a, |q.posted|));
    assert Placed(Absorb(q, h, a)) == Placed(q) + multiset{|q.posted|};
  }

  lemma AscendingDrop(a: seq<Event>, e: seq<Event>, b: seq<Event>)
    requires Ascending(a + e + b)
    ensures Ascending(a + b)
  {
    var s, t := a + e + b, a + b;
    forall i, j | 0 <= i < j < |t| ensures t[i].serial < t[j].serial {
      assert t[i] == s[if i < |a| then i else i + |e|] && t[j] == s[if j < |a| then j else j + |e|];
    }
  }

  lemma CancelEventGood(q: Queues, clock: nat, k: nat)
    requires Good(q, clock) && k < |q.events|
    ensures Good(CancelEvent(q, k), clock)
  {
    hide Serials, Untimed;
    var e, a, b, q' := q.events[k], q.events[..k], q.events[k + 1..], CancelEvent(q, k);
    assert q.events == a + [e] + b;
    SerialsSplit(a, e, b);
    SerialsSnoc(q.cancelled, e);
    assert Placed(q') == Placed(q);
    UntimedConcat(a + [e], b);
    UntimedConcat(a, [e]);
    UntimedConcat(a, b);
    var d := Untimed(q.dispatched);
    assert d + (Untimed(a) + Untimed([e]) + Untimed(b)) == (d + Untimed(a)) + Untimed([e]) + Untimed(b);
    assert d + (Untimed(a) + Untimed(b)) == (d + Untimed(a)) + Untimed(b);
    AscendingDrop(d + Untimed(a), Untimed([e]), Untimed(b));
  }

  lemma CancelTimerGood(q: Queues, clock: nat, k: nat)
    requires Good(q, clock) && k < |q.timers|
    ensures Good(CancelTimer(q, k), clock)
  {
    hide Serials, Untimed;
    var e, a, b, q' := q.timers[k], q.timers[..k], q.timers[k + 1..], CancelTimer(q, k);
    assert q.timers == a + [e] + b;
    SerialsSplit(a, e, b);
    SerialsSnoc(q.cancelled, e);
    assert Placed(q') == Placed(q);
    forall i, j | 0 <= i < j < |a + b| ensures Before((a + b)[i], (a + b)[j]) {
      assert (a + b)[i] == q.timers[if i < k then i else i + 1] && (a + b)[j] == q.timers[if j < k then j else j + 1];
    }
  }

  lemma ReleaseLedger(q: Queues, now: nat)
    requires Ledger(q)
    ensures Ledger(Release(q, now))
  {
    hide Serials, Ledger, Position;
    var k, q' := Position(q.timers, now), Release(q, now);
    assert q.timers == q.timers[..k] + q.timers[k..];
    SerialsConcat(q.timers[..k], q.timers[k..]);
    SerialsConcat(q.timers[..k], q.events);
    assert Placed(q') == Placed(q);
    LedgerMove(q, q');
  }

  lemma ReleaseGood(q: Queues, clock: nat, now: nat)
    requires Good(q, clock) && clock <= now
    ensures Good(Release(q, now), now)
    ensures Untimed(Release(q, now).events) == Untimed(q.events)
  {
    hide Serials, Untimed, Ledger, Ascending, Sorted, Honest, Due, Position;
    ReleaseLedger(q, now);
    var k := Position(q.timers, now);
    var a, b := q.timers[..k], q.timers[k..];
    assert q.timers == a + b;
    UntimedNone(a);
    UntimedConcat(a, q.events);
    assert [] + Untimed(q.events) == Untimed(q.events);
    HonestParts(a, b, q.posted);
    HonestJoin(a, q.events, q.posted);
    DueJoin(a, q.events, clock, now);
    DueJoin([], q.dispatched, clock, now);
    assert [] + q.dispatched == q.dispatched;
    SortedTail(a, b);
  }

  lemma HonestParts(a: seq<Event>, b: seq<Event>, posted: seq<(int, int)>)
    requires Honest(a + b, posted)
    ensures Honest(a, posted) && Honest(b, posted)
  {
    assert forall i :: 0 <= i < |a| ==> (a + b)[i] == a[i];
    assert forall i :: 0 <= i < |b| ==> (a + b)[|a| + i] == b[i];
  }

  lemma HonestJoin(a: seq<Event>, b: seq<Event>, posted: seq<(int, int)>)
    requires Honest(a, posted) && Honest(b, posted)
    ensures Honest(a + b, posted)
  {
  }

  lemma DueJoin(a: seq<Event>, b: seq<Event>, clock: nat, now: nat)
    requires Due(b, clock) && clock <= now && forall i :: 0 <= i < |a| ==> a[i].runtime <= now
    ensures Due(a + b, now)
  {
  }

  lemma SortedTail(a: seq<Event>, b: seq<Event>)
    requires Sorted(a + b)
    ensures Sorted(b)
  {
    assert forall i :: 0 <= i < |b| ==> (a + b)[|a| + i] == b[i];
  }

  lemma DispatchGood(q: Queues, clock: nat)
    requires Good(q, clock) && q.events != []
    ensures Good(Dispatch(q), clock)
    ensures q.events[0].runtime == 0 ==> Untimed(q.events) == [q.events[0]] + Untimed(Dispatch(q).events)
    ensures q.events[0].runtime != 0 ==> Untimed(q.events) == Untimed(Dispatch(q).events)
  {
    hide Serials, Untimed, Ledger, Ascending, Sorted, Honest;
    var e, rest, q' := q.events[0], q.events[1..], Dispatch(q);
    assert q.events == [e] + rest;
    SerialsConcat([e], rest);
    SerialsOne(e);
    UntimedConcat([e], rest);
    UntimedOne(e);
    SerialsSnoc(q.dispatched, e);
    assert Placed(q') == Placed(q);
    LedgerMove(q, q');
    UntimedSnoc(q.dispatched, e);
    var d := Untimed(q.dispatched);
    assert d + Untimed([e]) + Untimed(rest) == d + (Untimed([e]) + Untimed(rest));
    HonestParts([e], rest, q.posted);
    HonestOne(e, q.posted);
    HonestSnoc(q.dispatched, e, q.posted);
  }

  lemma UntimedOne(e: Event)
    ensures Untimed([e]) == if e.runtime == 0 then [e] else []
  {
    assert [e][1..] == [];
  }

  lemma HonestOne(e: Event, posted: seq<(int, int)>)
    requires Honest([e], posted)
    ensures e.serial < |posted| && posted[e.serial] == (e.handler, e.arg)
  {
    assert [e][0] == e;
  }
}
