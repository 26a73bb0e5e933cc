/** Sending commands and delivering their replies: token allocation, the reply table, the failure event of a command
    that could not be sent, and the sweep of the table when a channel is closed or redirected. */
module Replies {
  import opened Wrappers
  import opened ReplySpec
  import opened ReplyWorld

  // ----- chains only grow at the head while callbacks run -----

  /** `b` is `a` with commands for channels outside `disc` put in front. */
  ghost predicate Extends(a: Chain, b: Chain, disc: set<Channel>) {
    && |a| <= |b| && b[|b| - |a|..] == a
    && forall k :: 0 <= k < |b| - |a| ==> b[k].chan !in disc
  }

  ghost predicate Grown(t0: seq<Chain>, t1: seq<Chain>, disc: set<Channel>) {
    && |t0| == |t1|
    && forall h :: 0 <= h < |t0| ==> Extends(t0[h], t1[h], disc)
  }

  lemma ExtendsTrans(a: Chain, b: Chain, c: Chain, disc: set<Channel>)
    requires Extends(a, b, disc) && Extends(b, c, disc)
    ensures Extends(a, c, disc)
  {
    var n, m := |c| - |b|, |b| - |a|;
    assert forall k :: 0 <= k < |b| ==> c[n + k] == c[n..][k];
    assert c[n + m..] == c[n..][m..];
    forall k | 0 <= k < n + m ensures c[k].chan !in disc {
      if k >= n { assert c[k] == b[k - n]; }
    }
  }

  lemma GrownTrans(t0: seq<Chain>, t1: seq<Chain>, t2: seq<Chain>, disc: set<Channel>)
    requires Grown(t0, t1, disc) && Grown(t1, t2, disc)
    ensures Grown(t0, t2, disc)
  {
    hide Extends;
    forall h | 0 <= h < |t0| ensures Extends(t0[h], t2[h], disc) {
      ExtendsTrans(t0[h], t1[h], t2[h], disc);
    }
  }

  lemma GrownSame(t: seq<Chain>, disc: set<Channel>)
    ensures Grown(t, t, disc)
  {
  }

  lemma GrownInsert(t: seq<Chain>, h: nat, e: Entry, disc: set<Channel>)
    requires h < |t| && e.chan !in disc
    ensures Grown(t, t[h := [e] + t[h]], disc)
  {
  }

  lemma GrownKeeps(t0: seq<Chain>, t1: seq<Chain>, disc: set<Channel>)
    requires Grown(t0, t1, disc)
    ensures Keeps(t0, t1, disc)
  {
    forall d | d in disc && NoneOf(t0, d) ensures NoneOf(t1, d) {
      forall h, i | 0 <= h < |t1| && 0 <= i < |t1[h]| ensures t1[h][i].chan != d {
        var n := |t1[h]| - |t0[h]|;
        assert Extends(t0[h], t1[h], disc);
        if i >= n { assert t1[h][n..][i - n] == t1[h][i]; }
      }
    }
  }

  /** Position `k` from the end of a chain is not moved by growth. */
  lemma ExtendsAt(a: Chain, b: Chain, disc: set<Channel>, k: nat)
    requires Extends(a, b, disc) && 0 < k <= |a|
    ensures b[|b| - k] == a[|a| - k]
  {
    assert b[|b| - |a|..][|a| - k] == b[|b| - k];
  }

  /** None of the first `n` entries is for channel `c`. */
  ghost predicate Clear(b: Chain, n: nat, c: Channel) {
    forall k :: 0 <= k < n && k < |b| ==> b[k].chan != c
  }

  /** A command has been put at the head of the chain of its token, which no command of its channel had. */
  ghost predicate Entered(t0: seq<Chain>, t1: seq<Chain>, e: Entry) {
    && |t0| > 0 && Unused(t0, e.chan, e.token)
    && var h := Hash(|t0|, e.chan, e.token);
       t1 == t0[h := [e] + t0[h]]
  }

  class ReplyTable {
    const size: nat
    /** How many values the token counter has. */
    const tokens: nat
    /** How many command records memory holds; the program ends when it needs more. */
    const memory: nat
    var table: seq<Chain>
    var failed: Chain
    var serial: nat
    var disconnected: set<Channel>
    var ready: set<Channel>
    var protocolOf: map<Channel, int>
    var tokenid: map<int, nat>
    ghost var g: Ledger

    ghost function W(): World
      reads this
    {
      World(table, failed, serial, disconnected, ready, protocolOf, tokenid)
    }

    ghost function Env(): Limits { Limits(tokens, memory) }

    ghost predicate Valid()
      reads this
    {
      && |table| == size > 0 && memory < tokens && serial == g.next
      && Good(table, failed, g)
      && forall p :: p in tokenid ==> tokenid[p] < tokens
    }

    constructor (size: nat, tokens: nat, memory: nat)
      requires size > 0 && memory < tokens
      ensures Valid() && this.size == size && this.tokens == tokens && this.memory == memory
      ensures W() == World(seq(size, i => []), [], 0, {}, {}, map[], map[])
      ensures g == Ledger(0, {}, multiset{}, map[], [])
    {
      this.size, this.tokens, this.memory := size, tokens, memory;
      table, failed, serial := seq(size, i => []), [], 0;
      disconnected, ready, protocolOf, tokenid := {}, {}, map[], map[];
      g := Ledger(0, {}, multiset{}, map[], []);
      new;
      EmptyGood(table);
    }

    static lemma {:induction false} EmptyBag(t: seq<Chain>)
      requires forall h :: 0 <= h < |t| ==> t[h] == []
      ensures Bag(t) == multiset{} && Total(t) == 0
    {
      if t != [] { EmptyBag(t[1..]); }
    }

    static lemma EmptyGood(t: seq<Chain>)
      requires |t| > 0 && forall h :: 0 <= h < |t| ==> t[h] == []
      ensures Good(t, [], Ledger(0, {}, multiset{}, map[], []))
    {
      hide Hash;
      EmptyBag(t);
      forall h | 0 <= h < |t| ensures Placed(t, h) {}
      assert Answers(t, map[]);
    }

    /** The protocol object of a channel is replaced by a new one, whose counter starts again at 1. */
    method ReplaceProtocol(c: Channel, p: int)
      requires Valid()
      modifies this`protocolOf, this`tokenid
      ensures Valid() && protocolOf == old(protocolOf)[c := p] && tokenid == old(tokenid)[p := FirstToken(Env())]
      ensures tokens > 1 ==> tokenid[p] == 1
    {
      protocolOf := protocolOf[c := p];
      tokenid := tokenid[p := if tokens > 1 then 1 else 0];
    }

    /** The peer's service list has arrived. */
    method Connected(c: Channel)
      requires Valid()
      modifies this`ready
      ensures Valid() && ready == old(ready) + {c}
    {
      ready := ready + {c};
    }

    method FindReplyHandler(c: Channel, t: nat) returns (i: nat)
      requires Valid()
      ensures i == Find(table[Hash(size, c, t)], c, t)
    {
      var b := table[Hash(size, c, t)];
      i := 0;
      while i < |b| && !Is(b[i], c, t)
        invariant i <= |b| && forall k :: 0 <= k < i ==> !Is(b[k], c, t)
      {
        i := i + 1;
      }
      FindIs(b, c, t, i);
    }

    /** `tried` are the `n` tokens, all of them in use, that were handed out when the counter went from `t0` to `t`, all the way
        round if `wrapped`. */
    static ghost predicate Tried(env: Limits, used: set<nat>, t0: nat, t: nat, wrapped: bool, tried: set<nat>, n: nat) {
      && t < env.tokens && t0 < env.tokens && tried <= used && |tried| == n < env.tokens
      && (if wrapped then t <= t0 && n == env.tokens - t0 + t else t0 <= t && n == t - t0)
      && forall x :: x in tried ==> if wrapped then t0 <= x < env.tokens || x < t else t0 <= x < t
    }

    static lemma TriedNext(env: Limits, used: set<nat>, t0: nat, t: nat, wrapped: bool, tried: set<nat>, n: nat)
      requires Tried(env, used, t0, t, wrapped, tried, n) && t in used && |used| < env.tokens
      ensures n + 1 < env.tokens && Tried(env, used, t0, After(env, t), wrapped || After(env, t) == 0, tried + {t}, n + 1)
    {
      SubsetBound(tried, used);
      assert t !in tried;
      SubsetBound(tried + {t}, used);
    }

    static lemma TriedMeans(env: Limits, used: set<nat>, t0: nat, t: nat, wrapped: bool, tried: set<nat>, n: nat)
      requires Tried(env, used, t0, t, wrapped, tried, n)
      ensures n < env.tokens && t < env.tokens
    {
    }

    /** The token search: it ends, with the first token from the counter on that no outstanding command of the channel has,
        tombstones included; the counter is left behind it. */
    method NextToken(c: Channel) returns (t: nat)
      requires Valid() && Total(table) < tokens
      modifies this`tokenid
      ensures Valid() && t < tokens && Unused(table, c, t)
      ensures t == TokenFor(Env(), old(W()), c) && tokenid == old(tokenid)[Protocol(W(), c) := After(Env(), t)]
    {
      hide Unused, Good, Total, Search;
      var p := if c in protocolOf then protocolOf[c] else 0;
      t := if p in tokenid then tokenid[p] else if tokens > 1 then 1 else 0;
      t := FreeToken(c, t);
      tokenid := tokenid[p := if t + 1 < tokens then t + 1 else 0];
    }

    /** The loop of the search, from the counter `t0` on. */
    method FreeToken(c: Channel, t0: nat) returns (t: nat)
      requires Valid() && Total(table) < tokens && t0 < tokens
      ensures t == Search(Env(), table, c, t0, tokens) < tokens && Unused(table, c, t)
    {
      TokensBound(table, c);
      ghost var used := Tokens(table, c);
      hide Unused, Good, Tokens, Total, Search, Tried;
      t := t0;
      ghost var wrapped, tried, n: nat := false, {}, 0;
      TriedNothing(Env(), used, t);
      var found := HasReplyHandler(c, t);
      while found
        invariant n < tokens && t < tokens && found == !Unused(table, c, t)
        invariant Tried(Env(), used, t0, t, wrapped, tried, n)
        invariant Search(Env(), table, c, t0, tokens) == Search(Env(), table, c, t, tokens - n)
        decreases tokens - n
      {
        UsedToken(table, c, t);
        TriedNext(Env(), used, t0, t, wrapped, tried, n);
        SearchStep(Env(), table, c, t, tokens - n);
        tried, n := tried + {t}, n + 1;
        t := if t + 1 < tokens then t + 1 else 0;
        wrapped := wrapped || t == 0;
        TriedMeans(Env(), used, t0, t, wrapped, tried, n);
        found := HasReplyHandler(c, t);
      }
      SearchEnd(Env(), table, c, t, tokens - n);
    }

    method HasReplyHandler(c: Channel, t: nat) returns (found: bool)
      requires Valid()
      ensures found == !Unused(table, c, t)
    {
      var i := FindReplyHandler(c, t);
      found := i < |table[Hash(size, c, t)]|;
    }

    static lemma UsedToken(t: seq<Chain>, c: Channel, k: nat)
      requires |t| > 0 && !Unused(t, c, k)
      ensures k in Tokens(t, c)
    {
      var h := Hash(|t|, c, k);
      TokensHas(t, c, h, Find(t[h], c, k));
    }

    static lemma TriedNothing(env: Limits, used: set<nat>, t: nat)
      requires t < env.tokens
      ensures Tried(env, used, t, t, false, {}, 0)
    {
    }

    static lemma SearchStep(env: Limits, t: seq<Chain>, c: Channel, from: nat, n: nat)
      requires |t| > 0 && n > 0 && !Unused(t, c, from)
      ensures Search(env, t, c, from, n) == Search(env, t, c, After(env, from), n - 1)
    {
    }

    static lemma SearchEnd(env: Limits, t: seq<Chain>, c: Channel, from: nat, n: nat)
      requires |t| > 0 && Unused(t, c, from)
      ensures Search(env, t, c, from, n) == from
    {
    }

    /** Send a command: it enters the chain of the token found, or, when the channel is closed or has no peer services, waits
        for its failure event. */
    method SendCommand(r: Request)
      requires Valid()
      modifies this`table, this`failed, this`serial, this`tokenid, this`g
      ensures Valid() && W() == SendW(Env(), old(W()), r)
      ensures g == if Full(Env(), old(W())) then old(g)
                   else if !Open(old(W()), r.chan) then Handle(old(g), r.chan, r.handler)
                   else Ask(old(g), r.chan, TokenFor(Env(), old(W()), r.chan), r.handler)
      ensures Grown(old(table), table, disconnected) && More(old(g.unanswered), g.unanswered)
      ensures old(Total(table) + |failed|) >= memory ==> W() == old(W())
      ensures old(Total(table) + |failed|) < memory ==>
                && serial == old(serial) + 1
                && if r.chan in disconnected || r.chan !in ready
                   then failed == old(failed) + [Entry(old(serial), r.chan, 0, r.handler, r.progress)] && table == old(table) && tokenid == old(tokenid)
                   else failed == old(failed) && Entered(old(table), table, Entry(old(serial), r.chan, TokenFor(Env(), old(W()), r.chan), r.handler, r.progress))
    {
      hide Find, Hash, Good, Total, Grown, Answers, Search;
      GrownSame(table, disconnected);
      if Total(table) + |failed| >= memory {
        return;
      }
      if r.chan in disconnected || r.chan !in ready {
        var e := Entry(serial, r.chan, 0, r.handler, r.progress);
        RefuseGood(table, failed, g, e);
        failed, serial := failed + [e], serial + 1;
        g := Handle(g, r.chan, r.handler);
      } else {
        Enter(r);
      }
    }

    /** The command enters the table. */
    method Enter(r: Request)
      requires Valid() && Total(table) + |failed| < memory && r.chan !in disconnected && r.chan in ready
      modifies this`table, this`serial, this`tokenid, this`g
      ensures Valid() && W() == SendW(Env(), old(W()), r)
      ensures g == Ask(old(g), r.chan, TokenFor(Env(), old(W()), r.chan), r.handler)
      ensures Grown(old(table), table, disconnected) && More(old(g.unanswered), g.unanswered)
      ensures serial == old(serial) + 1
      ensures Entered(old(table), table, Entry(old(serial), r.chan, TokenFor(Env(), old(W()), r.chan), r.handler, r.progress))
    {
      hide Find, Hash, Good, Total, Grown, Answers, Search;
      var t := NextToken(r.chan);
      var e := Entry(serial, r.chan, t, r.handler, r.progress);
      var h := Hash(size, r.chan, t);
      AskGood(table, failed, g, e);
      AnswersOf(table, failed, g);
      UnusedIsNew(table, g.unanswered, r.chan, t, serial);
      GrownInsert(table, h, e, disconnected);
      table, serial := table[h := [e] + table[h]], serial + 1;
      g := Ask(g, r.chan, t, r.handler);
    }

    static lemma AnswersOf(t: seq<Chain>, failed: Chain, l: Ledger)
      requires Good(t, failed, l)
      ensures |t| > 0 && Answers(t, l.unanswered)
    {
    }

    /** What a callback does to the table: it sends commands. */
    method Callback(script: seq<Request>)
      requires Valid()
      modifies this`table, this`failed, this`serial, this`tokenid, this`g
      ensures Valid() && W() == ScriptW(Env(), old(W()), script)
      ensures g.invoked == old(g.invoked) && g.cut == old(g.cut) && old(g.handled) <= g.handled
      ensures Grown(old(table), table, disconnected) && More(old(g.unanswered), g.unanswered)
    {
      hide Find, Hash, Good, Total, Grown, SendW, ScriptW, TokenFor;
      GrownSame(table, disconnected);
      ScriptNone(Env(), W());
      for n := 0 to |script|
        invariant Valid() && W() == ScriptW(Env(), old(W()), script[..n])
        invariant g.invoked == old(g.invoked) && g.cut == old(g.cut) && old(g.handled) <= g.handled
        invariant Grown(old(table), table, disconnected) && More(old(g.unanswered), g.unanswered)
      {
        ghost var before := table;
        ScriptSnoc(Env(), old(W()), script[..n], script[n]);
        assert script[..n + 1] == script[..n] + [script[n]];
        SendCommand(script[n]);
        GrownTrans(old(table), before, table, disconnected);
      }
      assert script[..|script|] == script;
    }

    static lemma ScriptNone(env: Limits, w: World)
      requires |w.table| > 0
      ensures ScriptW(env, w, []) == w
    {
    }

    /** The failure event of the command refused first. */
    method SendCommandFailed(behaviour: Behaviour)
      requires Valid() && failed != []
      modifies this`table, this`failed, this`serial, this`tokenid, this`g
      ensures Valid() && W() == FailW(Env(), old(W()), behaviour)
      ensures g.invoked == old(g.invoked) + One(old(failed)[0]) && g.cut == old(g.cut)
      ensures Grown(old(table), table, disconnected)
    {
      hide Find, Hash, Good, Grown, ScriptW;
      var e := failed[0];
      FailGood(table, failed, g);
      failed := failed[1..];
      g := Call(g, e);
      Callback(if e.handler then behaviour(e.id) else []);
    }

    /** Take an entry out of its chain and call its handler. */
    method Deliver(h: nat, i: nat, behaviour: Behaviour)
      requires Valid() && h < |table| && i < |table[h]|
      modifies this`table, this`failed, this`serial, this`tokenid, this`g
      ensures Valid() && W() == ScriptW(Env(), old(W().(table := Removed(table, h, i))), Script(old(table[h][i]), behaviour))
      ensures g.invoked == old(g.invoked) + One(old(table[h][i])) && g.cut == old(g.cut)
      ensures old(table[h][i]).handler ==> Name(old(table[h][i])) in old(Bag(table))
      ensures Keeps(old(table), table, disconnected)
    {
      hide Find, Hash, Good, Grown, Bag, Live, Keeps, ScriptW;
      UnlinkedKeeps(table, h, i, false, true, disconnected);
      var e := table[h][i];
      AnswerGood(table, failed, g, h, i);
      if e.handler { BagHas(table, h, i); }
      table := Removed(table, h, i);
      g := Answer(g, e);
      ghost var mid := table;
      Callback(if e.handler then behaviour(e.id) else []);
      GrownKeeps(mid, table, disconnected);
      KeepsTrans(old(table), mid, table, disconnected);
    }

    /** The entry that a reply with token `t` meets. */
    ghost function Met(c: Channel, t: nat): Option<Entry>
      requires |table| == size > 0
      reads this
    {
      var b := table[Hash(size, c, t)];
      if Find(b, c, t) < |b| then Some(b[Find(b, c, t)]) else None
    }

    /** A reply, a progress message or a refusal with token `t`: it reaches the command that the peer was sent with that
        token, if that one is still in the table, and no other. `skips` counts how often the rest of the message is skipped: a
        refusal that meets a tombstone skips twice, and takes the next message with it. */
    method HandleReply(kind: Kind, c: Channel, t: nat, behaviour: Behaviour, onProgress: seq<Request>)
      returns (who: int, called: bool, skips: nat)
      requires Valid()
      modifies this`table, this`failed, this`serial, this`tokenid, this`g
      ensures Valid() && W() == ReplyW(Env(), old(W()), kind, c, t, behaviour, onProgress)
      ensures who == Get(old(g.unanswered), c, t) && (who >= 0 <==> old(Met(c, t)).Some?)
      ensures g.cut == old(g.cut)
      ensures called == (old(Met(c, t)).Some? && if kind == Progress then old(Met(c, t)).value.progress else old(Met(c, t)).value.handler)
      ensures g.invoked == old(g.invoked) + if kind != Progress && called then multiset{Command(who, c)} else multiset{}
      ensures kind != Progress && called ==> Command(who, c) in old(Bag(table))
      ensures skips == match old(Met(c, t))
                       case None => 0
                       case Some(e) => if kind == Progress then (if e.progress then 0 else 1)
                                       else (if kind == NotRecognized then 1 else 0) + (if e.handler then 0 else 1)
      ensures skips == 2 <==> kind == NotRecognized && old(Met(c, t)).Some? && !old(Met(c, t)).value.handler
      ensures Keeps(old(table), table, disconnected)
    {
      OwnerAt(table, failed, g, c, t);
      hide Find, Hash, Good, Grown, Bag, Live, Keeps, ScriptW, Get;
      KeepsSame(table, disconnected);
      who, called, skips := -1, false, 0;
      var h := Hash(size, c, t);
      var i := FindReplyHandler(c, t);
      FindSays(table[h], c, t);
      if i == |table[h]| {
        return;
      }
      var e := table[h][i];
      who := e.id;
      if kind == Progress {
        called := e.progress;
        if e.progress { Callback(onProgress); GrownKeeps(old(table), table, disconnected); } else { skips := 1; }
      } else {
        if kind == NotRecognized { skips := 1; }
        called := e.handler;
        Deliver(h, i, behaviour);
        if !e.handler { skips := skips + 1; }
      }
    }

    static lemma OwnerAt(tab: seq<Chain>, failed: Chain, l: Ledger, c: Channel, t: nat)
      requires Good(tab, failed, l)
      ensures |tab| > 0 && Owner(tab[Hash(|tab|, c, t)], c, t) == Get(l.unanswered, c, t)
    {
    }

    static lemma FindSays(b: Chain, c: Channel, t: nat)
      ensures Find(b, c, t) <= |b| && (Find(b, c, t) < |b| ==> Is(b[Find(b, c, t)], c, t))
    {
    }

    static lemma BagHas(t: seq<Chain>, h: nat, i: nat)
      requires h < |t| && i < |t[h]| && t[h][i].handler
      ensures Name(t[h][i]) in Bag(t)
    {
      BagUpdate(t, h, []);
      LiveAt(t[h], i);
      assert Name(t[h][i]) in Live(t[h]);
      assert Live([]) == multiset{};
      assert (Bag(t[h := []]) + Live(t[h]))[Name(t[h][i])] == (Bag(t) + Live([]))[Name(t[h][i])];
    }

    /** One entry of the closed channel, `k` from the end of its chain; `atHead` says that the sweep holds the head of the
        chain and not the link of the previous entry. The handler is called while the entry is still linked. On a channel
        that is only redirected the entry becomes a tombstone; otherwise it is unlinked, through the pointer taken before
        the call, and what the handler has put at the head goes with it when that pointer is the head. Handlers are lost
        exactly if the channel is disconnected, the entry is at the head, and a command that its handler sends, with a
        handler, lands in the chain. */
    method SweepEntry(h: nat, k: nat, atHead: bool, c: Channel, behaviour: Behaviour)
      requires Valid() && At(W(), h, k) && (atHead ==> k == |table[h]|) && EntryAt(W(), h, k).chan == c
      modifies this`table, this`failed, this`serial, this`tokenid, this`g
      ensures Valid() && W() == TurnW(Env(), old(W()), h, k, atHead, c, behaviour)
      ensures g.cut == old(g.cut) + TurnCut(Env(), old(W()), h, k, atHead, c, behaviour)
      ensures Lost(g) != old(Lost(g)) <==>
                && c in disconnected && atHead && old(EntryAt(W(), h, k)).handler
                && Lands(Env(), old(W()), behaviour(old(EntryAt(W(), h, k)).id), h)
      ensures g.invoked == old(g.invoked) + One(old(EntryAt(W(), h, k)))
      ensures MoreElse(old(g.unanswered), g.unanswered, c) && (c !in disconnected ==> More(old(g.unanswered), g.unanswered))
      ensures GrownElse(old(table), table, h, disconnected) && Keeps(old(table), table, disconnected)
      ensures Swept(old(table)[h], table[h], k, c, c in disconnected, atHead)
    {
      hide Find, Hash, Good, GrownElse, Bag, Live, Swept, One, Keeps, Lands, TurnW, TurnCut, More, MoreElse;
      TurnIff(Env(), W(), h, k, atHead, c, behaviour);
      ghost var all := TurnCut(Env(), W(), h, k, atHead, c, behaviour);
      CallAndUnlink(h, k, atHead, c, behaviour);
      assert old(g.cut) + all == g.cut + [];
      SameLost(old(g.cut), all, g.cut);
    }

    method CallAndUnlink(h: nat, k: nat, atHead: bool, c: Channel, behaviour: Behaviour)
      requires Valid() && At(W(), h, k) && (atHead ==> k == |table[h]|) && EntryAt(W(), h, k).chan == c
      modifies this`table, this`failed, this`serial, this`tokenid, this`g
      ensures Valid() && W() == TurnW(Env(), old(W()), h, k, atHead, c, behaviour)
      ensures g.cut == old(g.cut) + TurnCut(Env(), old(W()), h, k, atHead, c, behaviour)
      ensures g.invoked == old(g.invoked) + One(old(EntryAt(W(), h, k)))
      ensures MoreElse(old(g.unanswered), g.unanswered, c) && (c !in disconnected ==> More(old(g.unanswered), g.unanswered))
      ensures GrownElse(old(table), table, h, disconnected) && Keeps(old(table), table, disconnected)
      ensures Swept(old(table)[h], table[h], k, c, c in disconnected, atHead)
    {
      hide Find, Hash, Good, Grown, GrownElse, Bag, Live, Extends, Swept, Unlinked, One, Keeps, ScriptW, Landing, More, MoreElse, Keys;
      hide Key, TurnW, TurnCut;
      var e := table[h][|table[h]| - k];
      AnswersOf(table, failed, g);
      Callback(if e.handler then behaviour(e.id) else []);
      ghost var mid, w1, u1 := table, W(), g.unanswered;
      GoodPlaced(table, failed, g);
      Called(old(table), mid, h, k, disconnected);
      CutKeeps(old(table), mid, old(g.unanswered), u1, h, |table[h]| - k, disconnected, atHead, k);
      Unlink(h, |table[h]| - k, atHead, c in disconnected);
      Turned(old(table), mid, table, h, k, c, disconnected, atHead);
      TurnIs(Env(), old(W()), w1, h, k, atHead, c, behaviour, old(g.cut));
    }

    static lemma Called(t0: seq<Chain>, t1: seq<Chain>, h: nat, k: nat, disc: set<Channel>)
      requires Grown(t0, t1, disc) && h < |t0| && 0 < k <= |t0[h]|
      ensures |t0| == |t1| && |t0[h]| <= |t1[h]| && t1[h][|t1[h]| - k] == t0[h][|t0[h]| - k]
    {
      GrownAt(t0, t1, h, disc);
      ExtendsAt(t0[h], t1[h], disc, k);
    }

    static lemma Turned(t0: seq<Chain>, t1: seq<Chain>, t2: seq<Chain>, h: nat, k: nat, c: Channel, disc: set<Channel>, atHead: bool)
      requires Grown(t0, t1, disc) && h < |t0| == |t1| && 0 < k <= |t0[h]| <= |t1[h]|
      requires t2 == t1[h := Unlinked(t1[h], |t1[h]| - k, atHead, c in disc)] && Keeps(t1, t2, disc)
      ensures GrownElse(t0, t2, h, disc) && Keeps(t0, t2, disc) && Swept(t0[h], t2[h], k, c, c in disc, atHead)
    {
      hide Grown, GrownElse, Extends, Swept, Unlinked, Keeps;
      GrownAt(t0, t1, h, disc);
      SweptUnlinked(t0[h], t1[h], t2[h], k, c, disc, atHead);
      GrownElseOf(t0, t1, t2, h, disc);
      GrownKeeps(t0, t1, disc);
      KeepsTrans(t0, t1, t2, disc);
    }

    /** The state after the turn, and what it cuts out. */
    static lemma TurnIs(env: Limits, w0: World, w1: World, h: nat, k: nat, atHead: bool, c: Channel, behaviour: Behaviour, cut: Chain)
      requires At(w0, h, k) && EntryAt(w0, h, k).chan == c && w1 == ScriptW(env, w0, Script(EntryAt(w0, h, k), behaviour))
      requires k <= |w1.table[h]| && (atHead ==> k == |w0.table[h]|)
      ensures var i, disc := |w1.table[h]| - k, c in w0.disconnected;
              && TurnW(env, w0, h, k, atHead, c, behaviour) == w1.(table := w1.table[h := Unlinked(w1.table[h], i, atHead, disc)])
              && cut + TurnCut(env, w0, h, k, atHead, c, behaviour) == if disc && atHead then cut + w1.table[h][..i] else cut
    {
      hide ScriptW, Landing, Unlinked;
      LandingIs(env, w0, Script(EntryAt(w0, h, k), behaviour), h);
      if atHead { Prepended(Landing(env, w0, Script(EntryAt(w0, h, k), behaviour), h), w0.table[h], w1.table[h]); }
      assert cut + [] == cut;
    }

    static lemma Prepended(front: Chain, b0: Chain, b: Chain)
      requires b == front + b0
      ensures b[..|b| - |b0|] == front
    {
    }

    static lemma GoodPlaced(t: seq<Chain>, failed: Chain, l: Ledger)
      requires Good(t, failed, l)
      ensures AllPlaced(t)
    {
    }

    /** What happens to an entry after its handler has been called. */
    method Unlink(h: nat, i: nat, atHead: bool, disc: bool)
      requires Valid() && h < |table| && i < |table[h]|
      modifies this`table, this`g
      ensures Valid() && table == old(table)[h := Unlinked(old(table)[h], i, atHead, disc)]
      ensures g.invoked == old(g.invoked) + One(old(table[h][i]))
      ensures g.cut == if disc && atHead then old(g.cut) + old(table)[h][..i] else old(g.cut)
      ensures g.unanswered == if !disc then old(g.unanswered)
                              else if atHead then old(g.unanswered) - (Keys(old(table)[h][..i]) + {Key(old(table[h][i]))})
                              else old(g.unanswered) - {Key(old(table[h][i]))}
      ensures Keeps(old(table), table, disconnected)
      ensures !disc ==> |table[h]| == |old(table)[h]| && !table[h][i].handler && !table[h][i].progress
    {
      hide Find, Hash, Good, Bag, Live, Keeps, Keys;
      UnlinkedKeeps(table, h, i, atHead, disc, disconnected);
      var e := table[h][i];
      if !disc {
        BuryGood(table, failed, g, h, i);
        table := Buried(table, h, i);
        g := Call(g, e);
      } else if atHead {
        CutGood(table, failed, g, h, i);
        g := Cut(g, e, table[h][..i]);
        table := CutOff(table, h, i);
      } else {
        AnswerGood(table, failed, g, h, i);
        table := Removed(table, h, i);
        g := Answer(g, e);
      }
    }

    static lemma GrownAt(t0: seq<Chain>, t1: seq<Chain>, h: nat, disc: set<Channel>)
      requires Grown(t0, t1, disc) && h < |t0|
      ensures |t0| == |t1| && Extends(t0[h], t1[h], disc) && |t0[h]| <= |t1[h]|
    {
    }

    static lemma GrownElseOf(t0: seq<Chain>, t1: seq<Chain>, t2: seq<Chain>, h: nat, disc: set<Channel>)
      requires Grown(t0, t1, disc) && h < |t1| && |t2| == |t1| && forall j :: 0 <= j < |t1| && j != h ==> t2[j] == t1[j]
      ensures GrownElse(t0, t2, h, disc)
    {
    }

    /** Sweep one chain. */
    method SweepChain(h: nat, c: Channel, behaviour: Behaviour)
      requires Valid() && h < |table|
      modifies this`table, this`failed, this`serial, this`tokenid, this`g
      ensures Valid() && W() == ChainW(Env(), old(W()), h, |old(table)[h]|, true, c, behaviour)
      ensures g.cut == old(g.cut) + ChainCut(Env(), old(W()), h, |old(table)[h]|, true, c, behaviour)
      ensures MoreElse(old(g.unanswered), g.unanswered, c) && (c !in disconnected ==> More(old(g.unanswered), g.unanswered))
      ensures GrownElse(old(table), table, h, disconnected) && Keeps(old(table), table, disconnected)
      ensures CalledFrom(old(table)[h], |old(table)[h]|, c, g.invoked) && old(g.invoked) <= g.invoked
      ensures c in disconnected ==> Clear(table[h], |table[h]|, c)
    {
      hide Find, Hash, Good, Bag, Live, GrownElse, Swept, CalledFrom, Clear, SameTail, One, Keeps, Sweeping, TurnW, TurnCut, ChainW, ChainCut, More, MoreElse;
      var k: nat, atHead := |table[h]|, true;
      SweepStart(table, h, c, disconnected, g.invoked);
      MoreSame(g.unanswered, c);
      ghost var whole, all := ChainW(Env(), W(), h, k, true, c, behaviour), ChainCut(Env(), W(), h, k, true, c, behaviour);
      while k > 0
        invariant Valid() && k <= |table[h]| && (atHead ==> k == |table[h]|)
        invariant Sweeping(old(table), table, h, k, c, disconnected, old(g.invoked), g.invoked)
        invariant whole == ChainW(Env(), W(), h, k, atHead, c, behaviour)
        invariant old(g.cut) + all == g.cut + ChainCut(Env(), W(), h, k, atHead, c, behaviour)
        invariant MoreElse(old(g.unanswered), g.unanswered, c) && (c !in disconnected ==> More(old(g.unanswered), g.unanswered))
      {
        ghost var before, invoked0, u0, cut0 := table, g.invoked, g.unanswered, g.cut;
        SweepingMeans(old(table), table, h, k, c, disconnected, old(g.invoked), g.invoked);
        ChainStep(Env(), W(), h, k, atHead, c, behaviour);
        ghost var turn, rest := TurnCut(Env(), W(), h, k, atHead, c, behaviour), ChainCut(Env(), W(), h, k, atHead, c, behaviour);
        atHead := SweepStep(h, k, atHead, c, behaviour);
        MoreTrans(old(g.unanswered), u0, g.unanswered, c);
        CutStep(old(g.cut) + all, cut0, turn, rest, ChainCut(Env(), W(), h, k - 1, atHead, c, behaviour));
        SweepingStep(old(table), before, table, h, k, c, disconnected, old(g.invoked), invoked0, g.invoked);
        k := k - 1;
      }
      ChainNone(Env(), W(), h, atHead, c, behaviour);
      assert g.cut + [] == g.cut;
      SweepingMeans(old(table), table, h, k, c, disconnected, old(g.invoked), g.invoked);
    }

    static lemma ChainStep(env: Limits, w: World, h: nat, k: nat, atHead: bool, c: Channel, behaviour: Behaviour)
      requires At(w, h, k)
      ensures var v, head := TurnW(env, w, h, k, atHead, c, behaviour), TurnHead(w, h, k, atHead, c);
              && ChainW(env, w, h, k, atHead, c, behaviour) == ChainW(env, v, h, k - 1, head, c, behaviour)
              && ChainCut(env, w, h, k, atHead, c, behaviour)
                 == TurnCut(env, w, h, k, atHead, c, behaviour) + ChainCut(env, v, h, k - 1, head, c, behaviour)
    {
      hide TurnW, TurnCut;
    }

    static lemma ChainNone(env: Limits, w: World, h: nat, atHead: bool, c: Channel, behaviour: Behaviour)
      ensures ChainW(env, w, h, 0, atHead, c, behaviour) == w && ChainCut(env, w, h, 0, atHead, c, behaviour) == []
    {
    }

    static lemma CutStep(all: Chain, cut: Chain, turn: Chain, before: Chain, rest: Chain)
      requires all == cut + before && before == turn + rest
      ensures all == (cut + turn) + rest
    {
    }

    /** One turn of the loop over a chain. */
    method SweepStep(h: nat, k: nat, head: bool, c: Channel, behaviour: Behaviour) returns (atHead: bool)
      requires Valid() && At(W(), h, k) && (head ==> k == |table[h]|)
      requires c in disconnected ==> Clear(table[h], |table[h]| - k, c)
      modifies this`table, this`failed, this`serial, this`tokenid, this`g
      ensures Valid() && W() == TurnW(Env(), old(W()), h, k, head, c, behaviour) && atHead == TurnHead(old(W()), h, k, head, c)
      ensures g.cut == old(g.cut) + TurnCut(Env(), old(W()), h, k, head, c, behaviour)
      ensures MoreElse(old(g.unanswered), g.unanswered, c) && (c !in disconnected ==> More(old(g.unanswered), g.unanswered))
      ensures GrownElse(old(table), table, h, disconnected) && Keeps(old(table), table, disconnected)
      ensures k - 1 <= |table[h]| && (atHead ==> k - 1 == |table[h]|)
      ensures SameTail(old(table)[h], table[h], k - 1)
      ensures c in disconnected ==> Clear(table[h], |table[h]| - (k - 1), c)
      ensures var e := old(table[h][|table[h]| - k]); g.invoked == old(g.invoked) + if e.chan == c then One(e) else multiset{}
    {
      hide Find, Hash, Good, Bag, Live, GrownElse, Swept, Clear, SameTail, Keeps, Sweeping, More, MoreElse, Landing, Lands, ScriptW;
      hide TurnW, TurnCut, One;
      var e := table[h][|table[h]| - k];
      atHead := false;
      if e.chan == c {
        SweepEntry(h, k, head, c, behaviour);
        SweptMeans(old(table)[h], table[h], k, c, c in disconnected, head);
        if c in disconnected { atHead := head; }
      } else {
        TurnOther(Env(), W(), h, k, head, c, behaviour, g.cut);
        assert g.invoked + multiset{} == g.invoked;
        SweepStart(table, h, c, disconnected, g.invoked);
        SameTailSame(table[h], k - 1);
        ClearStep(table[h], |table[h]| - k, c);
        MoreSame(g.unanswered, c);
      }
    }

    static lemma TurnOther(env: Limits, w: World, h: nat, k: nat, atHead: bool, c: Channel, behaviour: Behaviour, cut: Chain)
      requires At(w, h, k) && EntryAt(w, h, k).chan != c
      ensures TurnW(env, w, h, k, atHead, c, behaviour) == w && cut + TurnCut(env, w, h, k, atHead, c, behaviour) == cut
    {
    }

    static lemma SweepStart(t: seq<Chain>, h: nat, c: Channel, disc: set<Channel>, invoked: Commands)
      requires h < |t|
      ensures GrownElse(t, t, h, disc) && Keeps(t, t, disc) && Sweeping(t, t, h, |t[h]|, c, disc, invoked, invoked)
    {
    }

    /** The close listener of the protocol: every handler waiting on the channel is called. After a disconnect the channel
        has no entry left; after a redirect its entries stay, as tombstones. The commands of other channels keep their
        tokens. Handlers are lost exactly if the sweep meets the condition of `ClosedHit`. */
    method ChannelClosed(c: Channel, behaviour: Behaviour)
      requires Valid()
      modifies this`table, this`failed, this`serial, this`tokenid, this`g, this`ready
      ensures Valid() && W() == ClosedW(Env(), old(W()), 0, c, behaviour)
      ensures g.cut == old(g.cut) + ClosedCut(Env(), old(W()), 0, c, behaviour)
      ensures Lost(g) != old(Lost(g)) <==> ClosedHit(Env(), old(W()), 0, c, behaviour)
      ensures MoreElse(old(g.unanswered), g.unanswered, c) && (c !in disconnected ==> More(old(g.unanswered), g.unanswered))
      ensures old(g.invoked) <= g.invoked && Keeps(old(table), table, disconnected)
      ensures forall h, i :: 0 <= h < |old(table)| && 0 <= i < |old(table)[h]| && old(table)[h][i].chan == c && old(table)[h][i].handler
                ==> Name(old(table)[h][i]) in g.invoked
      ensures c in disconnected ==> NoneOf(table, c)
    {
      hide Find, Hash, Good, Bag, Live, GrownElse, CalledFrom, Clear, Extends, Keeps, ChainW, ChainCut, ClosedW, ClosedCut, ClosedHit, More, MoreElse, NoneOf;
      KeepsSame(table, disconnected);
      MoreSame(g.unanswered, c);
      ClosedIff(Env(), W(), 0, c, behaviour);
      ghost var whole, all := ClosedW(Env(), W(), 0, c, behaviour), ClosedCut(Env(), W(), 0, c, behaviour);
      forall j | 0 <= j < |table| ensures Extends(table[j], table[j], disconnected) { ExtendsSame(table[j], disconnected); }
      for h := 0 to size
        invariant Valid() && old(g.invoked) <= g.invoked && Keeps(old(table), table, disconnected)
        invariant whole == ClosedW(Env(), W(), h, c, behaviour)
        invariant old(g.cut) + all == g.cut + ClosedCut(Env(), W(), h, c, behaviour)
        invariant MoreElse(old(g.unanswered), g.unanswered, c) && (c !in disconnected ==> More(old(g.unanswered), g.unanswered))
        invariant forall j :: h <= j < size ==> Extends(old(table)[j], table[j], disconnected)
        invariant forall j :: 0 <= j < h ==> CalledFrom(old(table)[j], |old(table)[j]|, c, g.invoked)
        invariant c in disconnected ==> forall j :: 0 <= j < h ==> Clear(table[j], |table[j]|, c)
      {
        ghost var before, invoked0, u0, cut0 := table, g.invoked, g.unanswered, g.cut;
        ClosedStep(Env(), W(), h, c, behaviour);
        ghost var part, rest := ChainCut(Env(), W(), h, |table[h]|, true, c, behaviour), ClosedCut(Env(), W(), h, c, behaviour);
        SweepChain(h, c, behaviour);
        MoreTrans(old(g.unanswered), u0, g.unanswered, c);
        CutStep(old(g.cut) + all, cut0, part, rest, ClosedCut(Env(), W(), h + 1, c, behaviour));
        KeepsTrans(old(table), before, table, disconnected);
        forall j | h < j < size ensures Extends(old(table)[j], table[j], disconnected) {
          GrownElseAt(before, table, h, j, disconnected);
          ExtendsTrans(old(table)[j], before[j], table[j], disconnected);
        }
        CalledExtended(old(table)[h], before[h], disconnected, c, g.invoked);
        forall j | 0 <= j < h ensures CalledFrom(old(table)[j], |old(table)[j]|, c, g.invoked) {
          CalledMore(old(table)[j], |old(table)[j]|, c, invoked0, g.invoked);
        }
        if c in disconnected {
          forall j | 0 <= j < h ensures Clear(table[j], |table[j]|, c) {
            GrownElseAt(before, table, h, j, disconnected);
            ClearExtended(before[j], table[j], disconnected, c);
          }
        }
      }
      forall j, i | 0 <= j < size && 0 <= i < |old(table)[j]| && old(table)[j][i].chan == c && old(table)[j][i].handler
        ensures Name(old(table)[j][i]) in g.invoked
      {
        CalledAt(old(table)[j], i, c, g.invoked);
      }
      if c in disconnected { ClearAll(table, c); }
      ClosedNone(Env(), W(), c, behaviour);
      SameLost(old(g.cut), all, g.cut);
      ready := ready - {c};
    }

    static lemma ClosedStep(env: Limits, w: World, h: nat, c: Channel, behaviour: Behaviour)
      requires h < |w.table|
      ensures var v := ChainW(env, w, h, |w.table[h]|, true, c, behaviour);
              && ClosedW(env, w, h, c, behaviour) == ClosedW(env, v, h + 1, c, behaviour)
              && ClosedCut(env, w, h, c, behaviour)
                 == ChainCut(env, w, h, |w.table[h]|, true, c, behaviour) + ClosedCut(env, v, h + 1, c, behaviour)
    {
      hide ChainW, ChainCut;
    }

    static lemma ClosedNone(env: Limits, w: World, c: Channel, behaviour: Behaviour)
      ensures ClosedW(env, w, |w.table|, c, behaviour) == w.(ready := w.ready - {c})
      ensures ClosedCut(env, w, |w.table|, c, behaviour) == []
    {
    }

    static lemma SameLost(cut0: Chain, all: Chain, cut: Chain)
      requires cut0 + all == cut + []
      ensures cut == cut0 + all && (Live(cut) != Live(cut0) <==> Live(all) != multiset{})
    {
      hide Live;
      assert cut + [] == cut;
      LiveConcat(cut0, all);
      if Live(cut) == Live(cut0) {
        forall x ensures Live(all)[x] == 0 { assert (Live(cut0) + Live(all))[x] == Live(cut)[x]; }
        assert Live(all) == multiset{};
      }
    }

    /** A lost handler has not been called. */
    static lemma LostNotCalled(t: seq<Chain>, failed: Chain, l: Ledger, id: Command)
      requires Good(t, failed, l) && id in Lost(l)
      ensures l.invoked[id] == 0
    {
      hide Lost;
      var all := Bag(t) + Live(failed) + l.invoked + Lost(l);
      assert all[id] == Bag(t)[id] + Live(failed)[id] + l.invoked[id] + Lost(l)[id];
      assert all[id] == multiset(l.handled)[id];
    }

    /** A channel is disconnected: from here on no command is sent on it. */
    method Disconnect(c: Channel, behaviour: Behaviour)
      requires Valid() && Quiet(table, disconnected) && c !in disconnected
      modifies this`table, this`failed, this`serial, this`tokenid, this`g, this`ready, this`disconnected
      ensures Valid() && Quiet(table, disconnected)
      ensures W() == StepW(Env(), old(W()), Close(c), behaviour)
      ensures g.cut == old(g.cut) + StepCut(Env(), old(W()), Close(c), behaviour)
      ensures Lost(g) != old(Lost(g)) <==> StepHit(Env(), old(W()), Close(c), behaviour)
      ensures MoreElse(old(g.unanswered), g.unanswered, c)
    {
      hide Good, Keeps, NoneOf, ClosedW, ClosedCut, ClosedHit, MoreElse;
      disconnected := disconnected + {c};
      ghost var before := table;
      ClosedFrame(Env(), W(), 0, c, behaviour);
      ChannelClosed(c, behaviour);
      forall d | d in disconnected ensures NoneOf(table, d) {
        if d != c { KeepsAt(before, table, disconnected, d); }
      }
    }

    static lemma {:induction false} ClosedFrame(env: Limits, w: World, h: nat, c: Channel, behaviour: Behaviour)
      ensures ClosedW(env, w, h, c, behaviour).disconnected == w.disconnected
      decreases |w.table| - h
    {
      hide ChainW;
      if h < |w.table| { ClosedFrame(env, ChainW(env, w, h, |w.table[h]|, true, c, behaviour), h + 1, c, behaviour); }
    }

    /** One step of a run. */
    method Perform(step: Step, behaviour: Behaviour)
      requires Valid() && Quiet(table, disconnected)
      modifies this
      ensures Valid() && Quiet(table, disconnected)
      ensures W() == StepW(Env(), old(W()), step, behaviour)
      ensures g.cut == old(g.cut) + StepCut(Env(), old(W()), step, behaviour)
    {
      hide Good, Keeps, NoneOf, Quiet, Grown, SendW, FailW, ReplyW, ClosedW, ClosedCut, ClosedHit, More, MoreElse, TokenFor;
      ghost var before := table;
      KeepsSame(table, disconnected);
      assert g.cut + [] == g.cut;
      match step {
        case Send(r) =>
          SendCommand(r);
          GrownKeeps(before, table, disconnected);
        case Fail =>
          if failed != [] {
            SendCommandFailed(behaviour);
            GrownKeeps(before, table, disconnected);
          } else {
            NothingFailed(Env(), W(), behaviour);
          }
        case Receive(kind, c, t, onProgress) =>
          var who, called, skips := HandleReply(kind, c, t, behaviour, onProgress);
        case Hello(c) =>
          Connected(c);
        case Redirect(c) =>
          if c !in disconnected {
            ClosedCutNothing(Env(), W(), 0, c, behaviour);
            ClosedFrame(Env(), W(), 0, c, behaviour);
            ChannelClosed(c, behaviour);
          }
        case Replace(c, p) =>
          ReplaceProtocol(c, p);
        case Close(c) =>
          if c !in disconnected {
            Disconnect(c, behaviour);
            return;
          }
      }
      QuietKept(before, table, disconnected);
    }

    static lemma NothingFailed(env: Limits, w: World, behaviour: Behaviour)
      requires |w.table| > 0 && w.failed == []
      ensures FailW(env, w, behaviour) == w
    {
    }

    /** Every run: each handler is called at most once, and on a disconnected channel exactly once, unless it waits for its
        failure event or was lost; the handlers lost are exactly those of `RunCut`, so none is if and only if the run never
        meets the condition of `RunHit`. */
    method Run(steps: seq<Step>, behaviour: Behaviour)
      requires Valid() && Quiet(table, disconnected)
      modifies this
      ensures Valid() && Quiet(table, disconnected)
      ensures W() == RunW(Env(), old(W()), steps, behaviour)
      ensures g.cut == old(g.cut) + RunCut(Env(), old(W()), steps, behaviour)
      ensures Lost(g) != old(Lost(g)) <==> RunHit(Env(), old(W()), steps, behaviour)
      ensures forall id :: id in g.handled && id.chan in disconnected ==> g.invoked[id] == 1 || id in Live(failed) || id in Lost(g)
      ensures forall id :: g.invoked[id] <= 1
    {
      hide Good, NoneOf, Live, StepW, StepCut, RunW, RunCut, RunHit;
      RunIff(Env(), W(), steps, behaviour);
      ghost var whole, all := RunW(Env(), W(), steps, behaviour), RunCut(Env(), W(), steps, behaviour);
      assert steps[0..] == steps;
      for n := 0 to |steps|
        invariant Valid() && Quiet(table, disconnected)
        invariant whole == RunW(Env(), W(), steps[n..], behaviour)
        invariant old(g.cut) + all == g.cut + RunCut(Env(), W(), steps[n..], behaviour)
      {
        ghost var cut0, rest := g.cut, RunCut(Env(), W(), steps[n..], behaviour);
        ghost var part := StepCut(Env(), W(), steps[n], behaviour);
        RunStep(Env(), W(), steps, n, behaviour);
        Perform(steps[n], behaviour);
        CutStep(old(g.cut) + all, cut0, part, rest, RunCut(Env(), W(), steps[n + 1..], behaviour));
      }
      RunNone(Env(), W(), steps[|steps|..], behaviour);
      SameLost(old(g.cut), all, g.cut);
      forall id | id in g.handled && id.chan in disconnected ensures g.invoked[id] == 1 || id in Live(failed) || id in Lost(g) {
        AllDelivered(table, failed, g, id);
      }
      forall id ensures g.invoked[id] <= 1 { ExactlyOnce(table, failed, g, id); }
    }

    static lemma RunStep(env: Limits, w: World, steps: seq<Step>, n: nat, behaviour: Behaviour)
      requires |w.table| > 0 && n < |steps|
      ensures var v := StepW(env, w, steps[n], behaviour);
              && RunW(env, w, steps[n..], behaviour) == RunW(env, v, steps[n + 1..], behaviour)
              && RunCut(env, w, steps[n..], behaviour) == StepCut(env, w, steps[n], behaviour) + RunCut(env, v, steps[n + 1..], behaviour)
    {
      hide StepW, StepCut;
      assert steps[n..][0] == steps[n] && steps[n..][1..] == steps[n + 1..];
    }

    static lemma RunNone(env: Limits, w: World, steps: seq<Step>, behaviour: Behaviour)
      requires |w.table| > 0 && steps == []
      ensures RunW(env, w, steps, behaviour) == w && RunCut(env, w, steps, behaviour) == []
    {
    }
  }

  /** The commands of channels other than `c` that were unanswered before are so still, under their tokens. */
  predicate MoreElse(u0: Unanswered, u1: Unanswered, c: Channel) {
    forall k :: k in u0 && k.0 != c ==> k in u1 && u1[k] == u0[k]
  }

  lemma MoreSame(u: Unanswered, c: Channel)
    ensures More(u, u) && MoreElse(u, u, c)
  {
  }

  lemma MoreTrans(u0: Unanswered, u1: Unanswered, u2: Unanswered, c: Channel)
    ensures More(u0, u1) && More(u1, u2) ==> More(u0, u2)
    ensures MoreElse(u0, u1, c) && MoreElse(u1, u2, c) ==> MoreElse(u0, u2, c)
  {
  }

  /** Cutting off what a callback has put at the head of a chain takes no token of an older command away. */
  lemma CutKeeps(t0: seq<Chain>, t1: seq<Chain>, u0: Unanswered, u1: Unanswered, h: nat, i: nat, disc: set<Channel>, atHead: bool, k: nat)
    requires |t0| > 0 && Answers(t0, u0) && Grown(t0, t1, disc) && h < |t0| && |t0[h]| <= |t1[h]| && AllPlaced(t1) && More(u0, u1)
    requires 0 < k <= |t0[h]| && i == |t1[h]| - k && (atHead ==> k == |t0[h]|)
    ensures i < |t1[h]|
    ensures MoreElse(u0, u1, t1[h][i].chan) && MoreElse(u0, u1 - {Key(t1[h][i])}, t1[h][i].chan)
    ensures atHead ==> MoreElse(u0, u1 - (Keys(t1[h][..i]) + {Key(t1[h][i])}), t1[h][i].chan)
  {
    if atHead {
      forall j | 0 <= j < i ensures Key(t1[h][..i][j]) !in u0 { NewToken(t0, t1, u0, h, j, disc); }
    }
  }

  lemma NewToken(t0: seq<Chain>, t1: seq<Chain>, u0: Unanswered, h: nat, j: nat, disc: set<Channel>)
    requires |t0| > 0 && Answers(t0, u0) && Grown(t0, t1, disc) && h < |t0| && AllPlaced(t1)
    requires |t0[h]| <= |t1[h]| && j < |t1[h]| - |t0[h]|
    ensures Key(t1[h][j]) !in u0
  {
    hide Find, Hash;
    var e, n := t1[h][j], |t1[h]| - |t0[h]|;
    assert Placed(t1, h) && Hash(|t1|, e.chan, e.token) == h;
    assert Extends(t0[h], t1[h], disc);
    forall i | 0 <= i < |t0[h]| ensures !Is(t0[h][i], e.chan, e.token) {
      assert t1[h][n..][i] == t1[h][n + i];
      assert !Is(e, t1[h][n + i].chan, t1[h][n + i].token);
    }
    OwnerNone(t0[h], e.chan, e.token);
    assert Owner(t0[Hash(|t0|, e.chan, e.token)], e.chan, e.token) == Get(u0, e.chan, e.token);
  }

  /** No disconnected channel has an entry. */
  ghost predicate Quiet(t: seq<Chain>, disc: set<Channel>) {
    forall d :: d in disc ==> NoneOf(t, d)
  }

  lemma KeepsAt(t0: seq<Chain>, t1: seq<Chain>, disc: set<Channel>, d: Channel)
    requires Keeps(t0, t1, disc) && d in disc && NoneOf(t0, d)
    ensures NoneOf(t1, d)
  {
  }

  lemma QuietKept(t0: seq<Chain>, t1: seq<Chain>, disc: set<Channel>)
    requires Keeps(t0, t1, disc) && Quiet(t0, disc)
    ensures Quiet(t1, disc)
  {
    hide NoneOf;
  }

  // ----- the sweep, chain by chain -----

  /** Every chain but `h` has only grown. */
  ghost predicate GrownElse(t0: seq<Chain>, t1: seq<Chain>, h: nat, disc: set<Channel>) {
    && |t0| == |t1|
    && forall j :: 0 <= j < |t0| && j != h ==> Extends(t0[j], t1[j], disc)
  }

  lemma GrownElseAt(t0: seq<Chain>, t1: seq<Chain>, h: nat, j: nat, disc: set<Channel>)
    requires GrownElse(t0, t1, h, disc) && j < |t0| && j != h
    ensures |t0| == |t1| && Extends(t0[j], t1[j], disc)
  {
  }

  lemma GrownElseTrans(t0: seq<Chain>, t1: seq<Chain>, t2: seq<Chain>, h: nat, disc: set<Channel>)
    requires GrownElse(t0, t1, h, disc) && GrownElse(t1, t2, h, disc)
    ensures GrownElse(t0, t2, h, disc)
  {
    hide Extends;
    forall j | 0 <= j < |t0| && j != h ensures Extends(t0[j], t2[j], disc) {
      ExtendsTrans(t0[j], t1[j], t2[j], disc);
    }
  }

  lemma ExtendsSame(b: Chain, disc: set<Channel>)
    ensures Extends(b, b, disc)
  {
  }

  /** Two chains have the same last `k` entries. */
  ghost predicate SameTail(a: Chain, b: Chain, k: nat) {
    k <= |a| && k <= |b| && b[|b| - k..] == a[|a| - k..]
  }

  /** What sweeping the entry `k` from the end does to a chain: the entries after it stay, and on a disconnect nothing of
      the channel is left before them. */
  ghost predicate Swept(b0: Chain, b1: Chain, k: nat, c: Channel, disc: bool, atHead: bool) {
    && 0 < k <= |b0| && SameTail(b0, b1, k - 1)
    && (disc && Clear(b0, |b0| - k, c) ==> Clear(b1, |b1| - (k - 1), c))
    && (disc && atHead ==> |b1| == k - 1)
  }

  lemma SweptMeans(b0: Chain, b1: Chain, k: nat, c: Channel, disc: bool, atHead: bool)
    requires Swept(b0, b1, k, c, disc, atHead)
    ensures 0 < k <= |b0| && k - 1 <= |b1| && SameTail(b0, b1, k - 1)
    ensures disc && Clear(b0, |b0| - k, c) ==> Clear(b1, |b1| - (k - 1), c)
    ensures disc && atHead ==> |b1| == k - 1
  {
  }

  lemma ExtendsTail(a: Chain, b: Chain, disc: set<Channel>, n: nat)
    requires Extends(a, b, disc) && n <= |a|
    ensures b[|b| - n..] == a[|a| - n..]
  {
    assert b[|b| - |a|..][|a| - n..] == b[|b| - n..];
  }

  lemma ExtendsClear(a: Chain, b: Chain, disc: set<Channel>, k: nat, c: Channel)
    requires Extends(a, b, disc) && k <= |a| && Clear(a, |a| - k, c) && c in disc
    ensures Clear(b, |b| - k, c)
  {
    var n := |b| - |a|;
    forall j | 0 <= j < |b| - k ensures b[j].chan != c {
      if j >= n { assert b[n..][j - n] == b[j]; }
    }
  }

  lemma SweptBuried(b0: Chain, b: Chain, k: nat, c: Channel, disc: set<Channel>, atHead: bool)
    requires Extends(b0, b, disc) && 0 < k <= |b0| && c !in disc
    ensures var i := |b| - k; Swept(b0, b[i := Bury(b[i])], k, c, false, atHead)
  {
    ExtendsTail(b0, b, disc, k - 1);
  }

  lemma SweptCut(b0: Chain, b: Chain, k: nat, c: Channel, disc: set<Channel>)
    requires Extends(b0, b, disc) && 0 < k <= |b0| && c in disc
    ensures var i := |b| - k; Swept(b0, b[i + 1..], k, c, true, true)
  {
    ExtendsTail(b0, b, disc, k - 1);
  }

  lemma SweptRemoved(b0: Chain, b: Chain, k: nat, c: Channel, disc: set<Channel>)
    requires Extends(b0, b, disc) && 0 < k <= |b0| && c in disc
    ensures var i := |b| - k; Swept(b0, b[..i] + b[i + 1..], k, c, true, false)
  {
    ExtendsTail(b0, b, disc, k - 1);
    var i := |b| - k;
    var r := b[..i] + b[i + 1..];
    assert r[|r| - (k - 1)..] == b[i + 1..];
    if Clear(b0, |b0| - k, c) { ExtendsClear(b0, b, disc, k, c); }
  }

  lemma UnlinkedKeeps(t: seq<Chain>, h: nat, i: nat, atHead: bool, disc: bool, channels: set<Channel>)
    requires h < |t| && i < |t[h]|
    ensures Keeps(t, t[h := Unlinked(t[h], i, atHead, disc)], channels)
  {
    var a := t[h];
    var b := Unlinked(a, i, atHead, disc);
    forall k | 0 <= k < |b| ensures exists j :: 0 <= j < |a| && a[j].chan == b[k].chan {
      assert a[if !disc then k else if atHead then i + 1 + k else if k < i then k else k + 1].chan == b[k].chan;
    }
    KeepsChain(t, h, b, channels);
  }

  lemma SweptUnlinked(b0: Chain, b: Chain, b1: Chain, k: nat, c: Channel, disc: set<Channel>, atHead: bool)
    requires Extends(b0, b, disc) && 0 < k <= |b0| && b1 == Unlinked(b, |b| - k, atHead, c in disc)
    ensures Swept(b0, b1, k, c, c in disc, atHead)
  {
    hide Swept, Extends;
    if c !in disc {
      SweptBuried(b0, b, k, c, disc, atHead);
    } else if atHead {
      SweptCut(b0, b, k, c, disc);
    } else {
      SweptRemoved(b0, b, k, c, disc);
    }
  }

  /** How far the sweep of chain `h` has come when `k` entries are left. */
  ghost predicate Sweeping(t0: seq<Chain>, t: seq<Chain>, h: nat, k: nat, c: Channel, disc: set<Channel>, i0: Commands, i: Commands) {
    && h < |t0| == |t| && SameTail(t0[h], t[h], k)
    && GrownElse(t0, t, h, disc) && Keeps(t0, t, disc)
    && CalledFrom(t0[h], |t0[h]| - k, c, i) && i0 <= i
    && (c in disc ==> Clear(t[h], |t[h]| - k, c))
  }

  lemma SweepingMeans(t0: seq<Chain>, t: seq<Chain>, h: nat, k: nat, c: Channel, disc: set<Channel>, i0: Commands, i: Commands)
    requires Sweeping(t0, t, h, k, c, disc, i0, i)
    ensures h < |t0| == |t| && k <= |t0[h]| && k <= |t[h]|
    ensures GrownElse(t0, t, h, disc) && Keeps(t0, t, disc) && i0 <= i
    ensures CalledFrom(t0[h], |t0[h]| - k, c, i)
    ensures c in disc ==> Clear(t[h], |t[h]| - k, c)
  {
  }

  lemma SweepingStep(t0: seq<Chain>, t1: seq<Chain>, t2: seq<Chain>, h: nat, k: nat, c: Channel, disc: set<Channel>,
                     i0: Commands, i1: Commands, i2: Commands)
    requires k > 0 && Sweeping(t0, t1, h, k, c, disc, i0, i1)
    requires GrownElse(t1, t2, h, disc) && Keeps(t1, t2, disc) && |t1| == |t2| && SameTail(t1[h], t2[h], k - 1)
    requires c in disc ==> Clear(t2[h], |t2[h]| - (k - 1), c)
    requires k <= |t1[h]| && var e := t1[h][|t1[h]| - k]; i2 == i1 + if e.chan == c then One(e) else multiset{}
    ensures Sweeping(t0, t2, h, k - 1, c, disc, i0, i2)
  {
    SweepingLengths(t0, t1, h, k, c, disc, i0, i1);
    hide GrownElse, CalledFrom, Clear, SameTail, Keeps, One;
    TailStep(t0[h], t1[h], k);
    GrownElseTrans(t0, t1, t2, h, disc);
    KeepsTrans(t0, t1, t2, disc);
    TailTrans(t0[h], t1[h], t2[h], k - 1);
    CalledStep(t0[h], |t0[h]| - k, c, i1, i2);
  }

  lemma SweepingLengths(t0: seq<Chain>, t: seq<Chain>, h: nat, k: nat, c: Channel, disc: set<Channel>, i0: Commands, i: Commands)
    requires Sweeping(t0, t, h, k, c, disc, i0, i)
    ensures h < |t0| == |t| && k <= |t0[h]| && k <= |t[h]|
  {
  }

  lemma TailStep(b0: Chain, b: Chain, k: nat)
    requires 0 < k && SameTail(b0, b, k)
    ensures k <= |b| && k <= |b0| && b[|b| - k] == b0[|b0| - k] && SameTail(b0, b, k - 1)
  {
    assert b[|b| - k..][0] == b0[|b0| - k..][0];
    assert b[|b| - k..][1..] == b[|b| - (k - 1)..];
    assert b0[|b0| - k..][1..] == b0[|b0| - (k - 1)..];
  }

  lemma TailTrans(a: Chain, b: Chain, c: Chain, k: nat)
    requires SameTail(a, b, k) && SameTail(b, c, k)
    ensures SameTail(a, c, k)
  {
  }

  lemma SameTailSame(b: Chain, k: nat)
    requires k <= |b|
    ensures SameTail(b, b, k)
  {
  }

  lemma ClearStep(b: Chain, n: nat, c: Channel)
    requires n < |b| && b[n].chan != c
    ensures Clear(b, n, c) ==> Clear(b, n + 1, c)
  {
  }

  lemma ClearExtended(a: Chain, b: Chain, disc: set<Channel>, c: Channel)
    requires Extends(a, b, disc) && Clear(a, |a|, c) && c in disc
    ensures Clear(b, |b|, c)
  {
    ExtendsClear(a, b, disc, 0, c);
  }

  lemma ClearAll(t: seq<Chain>, c: Channel)
    requires forall j :: 0 <= j < |t| ==> Clear(t[j], |t[j]|, c)
    ensures NoneOf(t, c)
  {
  }

  /** The handlers of the first `n` entries that belong to the channel have been called. */
  ghost predicate CalledFrom(b: Chain, n: nat, c: Channel, invoked: Commands) {
    forall i :: 0 <= i < n && i < |b| && b[i].chan == c && b[i].handler ==> Name(b[i]) in invoked
  }

  lemma CalledStep(b: Chain, n: nat, c: Channel, invoked0: Commands, invoked: Commands)
    requires n < |b| && CalledFrom(b, n, c, invoked0) && invoked0 <= invoked
    requires b[n].chan == c ==> invoked == invoked0 + One(b[n])
    ensures CalledFrom(b, n + 1, c, invoked)
  {
  }

  lemma CalledMore(b: Chain, n: nat, c: Channel, invoked0: Commands, invoked: Commands)
    requires CalledFrom(b, n, c, invoked0) && invoked0 <= invoked
    ensures CalledFrom(b, n, c, invoked)
  {
  }

  lemma CalledAt(b: Chain, i: nat, c: Channel, invoked: Commands)
    requires CalledFrom(b, |b|, c, invoked) && i < |b| && b[i].chan == c && b[i].handler
    ensures Name(b[i]) in invoked
  {
  }

  lemma CalledExtended(a: Chain, b: Chain, disc: set<Channel>, c: Channel, invoked: Commands)
    requires Extends(a, b, disc) && CalledFrom(b, |b|, c, invoked)
    ensures CalledFrom(a, |a|, c, invoked)
  {
    var n := |b| - |a|;
    forall i | 0 <= i < |a| && a[i].chan == c && a[i].handler ensures Name(a[i]) in invoked {
      assert b[n..][i] == b[n + i];
    }
  }
}
