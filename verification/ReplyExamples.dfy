/** The defect of the sweep on concrete inputs: a command that is never answered, and a late reply that reaches the wrong
    command. */
module ReplyExamples {
  import opened Wrappers
  import opened ReplySpec
  import opened ReplyWorld
  import opened Replies

  /** Empty chains are passed over. */
  lemma {:induction false} PassOver(env: Limits, w: World, i: nat, h: nat, c: Channel, behaviour: Behaviour)
    requires i <= h <= |w.table| && forall j :: i <= j < h ==> w.table[j] == []
    ensures ClosedCut(env, w, i, c, behaviour) == ClosedCut(env, w, h, c, behaviour)
    ensures ClosedW(env, w, i, c, behaviour) == ClosedW(env, w, h, c, behaviour)
    decreases h - i
  {
    hide ClosedCut, ClosedW, ChainCut, ChainW;
    if i < h {
      PassOver(env, w, i + 1, h, c, behaviour);
      ReplyTable.ChainNone(env, w, i, true, c, behaviour);
      ReplyTable.ClosedStep(env, w, i, c, behaviour);
      var rest := ClosedCut(env, w, i + 1, c, behaviour);
      assert [] + rest == rest;
    }
  }

  /** The table holds one command, of a channel that is disconnected; its handler sends a command on another channel, which
      gets the same chain. */
  ghost predicate Trap(env: Limits, w: World, h: nat, c: Channel, d: Channel, behaviour: Behaviour) {
    && h < |w.table| && (forall j :: 0 <= j < |w.table| && j != h ==> w.table[j] == [])
    && |w.table[h]| == 1 && w.table[h][0].chan == c && w.table[h][0].handler && c in w.disconnected
    && behaviour(w.table[h][0].id) == [Request(d, true, false)]
    && Accepted(env, w, d) && ChainFor(env, w, d) == h
  }

  lemma TrapTurn(env: Limits, w: World, h: nat, c: Channel, d: Channel, behaviour: Behaviour)
    requires Trap(env, w, h, c, d, behaviour)
    ensures At(w, h, 1) && TurnCut(env, w, h, 1, true, c, behaviour) == [EntryFor(env, w, Request(d, true, false))]
    ensures var v := TurnW(env, w, h, 1, true, c, behaviour);
            && v.serial == w.serial + 1 && v.failed == w.failed && v.protocolOf == w.protocolOf
            && v.tokenid == w.tokenid[Protocol(w, d) := After(env, TokenFor(env, w, d))]
            && forall j :: 0 <= j < |v.table| ==> v.table[j] == []
  {
    hide Full, TokenFor, Hash;
    var r, script := Request(d, true, false), behaviour(w.table[h][0].id);
    var e := EntryFor(env, w, r);
    assert script[1..] == [];
    assert ScriptW(env, w, script) == SendW(env, w, r);
    assert Landing(env, SendW(env, w, r), [], h) == [];
    assert Landing(env, w, script, h) == [] + [e] == [e];
    var b := [e] + w.table[h];
    assert SendW(env, w, r).table[h] == b && |b| == 2;
    assert b[2..] == [];
  }

  /** Closing the channel loses the handler of that command, and no other. */
  lemma TrapLoses(env: Limits, w: World, h: nat, c: Channel, d: Channel, behaviour: Behaviour)
    requires Trap(env, w, h, c, d, behaviour)
    ensures ClosedCut(env, w, 0, c, behaviour) == [EntryFor(env, w, Request(d, true, false))]
    ensures ClosedW(env, w, 0, c, behaviour) == TurnW(env, w, h, 1, true, c, behaviour).(ready := w.ready - {c})
  {
    TrapTurn(env, w, h, c, d, behaviour);
    hide TurnW, TurnCut, ClosedCut, ClosedW, ChainCut, ChainW, Accepted, ChainFor;
    var v, one := TurnW(env, w, h, 1, true, c, behaviour), TurnCut(env, w, h, 1, true, c, behaviour);
    PassOver(env, w, 0, h, c, behaviour);
    ReplyTable.ClosedStep(env, w, h, c, behaviour);
    ReplyTable.ChainStep(env, w, h, 1, true, c, behaviour);
    ReplyTable.ChainNone(env, v, h, TurnHead(w, h, 1, true, c), c, behaviour);
    PassOver(env, v, h + 1, |v.table|, c, behaviour);
    ReplyTable.ClosedNone(env, v, c, behaviour);
    assert one + [] == one && one + [] + [] == one;
  }

  /** A channel whose second token leads to the chain of the first token of channel 16. */
  function Other(size: nat): Channel { 16 * size }

  lemma SharedChain(size: nat)
    requires 3 <= size < 0x1000_0000
    ensures Hash(size, 16, 1) == 2 && Hash(size, Other(size), 2) == 2 && Hash(size, Other(size), 1) == 1
  {
    Wraps(size, 1);
    Wraps(size, 2);
  }

  lemma Wraps(size: nat, k: nat)
    requires k < size < 0x1000_0000
    ensures (size + k) % 0x1_0000_0000 % size == k && k % 0x1_0000_0000 % size == k
  {
    OnceRound(size, k);
  }

  lemma OnceRound(size: nat, k: nat)
    requires k < size
    ensures (size + k) % size == k && k % size == k
  {
    var q, m := (size + k) / size, (size + k) % size;
    assert size + k == size * q + m;
    Quotient(size, k, q, m);
  }

  lemma Quotient(size: nat, k: nat, q: int, m: int)
    requires k < size && size + k == size * q + m && 0 <= m < size
    ensures q == 1 && m == k
  {
    if q <= 0 { NotAbove(size, q, 0); } else if q >= 2 { NotAbove(size, 2, q); }
  }

  lemma NotAbove(size: nat, a: int, b: int)
    requires a <= b
    ensures size * a <= size * b
  {
  }

  /** The handler of command 0 sends a command on the other channel, and no other handler sends anything. */
  function Sends(d: Channel): Behaviour { (id: nat) => if id == 0 then [Request(d, true, false)] else [] }

  /** The token counter is the next token if its chain is empty. */
  lemma EmptyToken(env: Limits, w: World, c: Channel)
    requires |w.table| > 0 && w.table[Hash(|w.table|, c, Counter(env, w, c))] == []
    ensures TokenFor(env, w, c) == Counter(env, w, c)
  {
    hide Hash;
  }

  lemma {:induction false} TotalOne(t: seq<Chain>, h: nat)
    requires h < |t| && |t[h]| <= 1 && forall j :: 0 <= j < |t| && j != h ==> t[j] == []
    ensures Total(t) <= 1
  {
    if h == 0 { ReplyTable.EmptyBag(t[1..]); } else { TotalOne(t[1..], h - 1); }
  }

  /** The table with one command on channel 16, before the other channel has been used. */
  function Before(size: nat): World
    requires size >= 3
  {
    World(seq(size, i => if i == 2 then [Entry(0, 16, 1, true, false)] else []), [], 1, {}, {16, Other(size)}, map[], map[0 := 2])
  }

  const ENV := Limits(0x1_0000_0000, 1000)

  lemma FirstCommand(size: nat)
    requires 3 <= size < 0x1000_0000
    ensures SendW(ENV, World(seq(size, i => []), [], 0, {}, {16, Other(size)}, map[], map[]), Request(16, true, false)) == Before(size)
  {
    var w := World(seq(size, i => []), [], 0, {}, {16, Other(size)}, map[], map[]);
    SharedChain(size);
    EmptyToken(ENV, w, 16);
    ReplyTable.EmptyBag(w.table);
    hide Hash, TokenFor, Total;
    var e := Entry(0, 16, 1, true, false);
    assert [e] + w.table[2] == [e];
    assert SendW(ENV, w, Request(16, true, false)).table == w.table[2 := [e] + w.table[2]] == Before(size).table;
  }

  lemma Trapped(size: nat)
    requires 3 <= size < 0x1000_0000
    ensures var w := Before(size).(disconnected := {16});
            Trap(ENV, w, 2, 16, Other(size), Sends(Other(size))) && TokenFor(ENV, w, Other(size)) == 2
  {
    var w := Before(size).(disconnected := {16});
    SharedChain(size);
    TotalOne(w.table, 2);
    NextIsTwo(size);
    hide Hash, TokenFor, Total;
  }

  /** Token 2 of the other channel is free although its chain is not empty. */
  lemma NextIsTwo(size: nat)
    requires 3 <= size < 0x1000_0000
    ensures TokenFor(ENV, Before(size).(disconnected := {16}), Other(size)) == 2
  {
    SharedChain(size);
    hide Hash;
    var w := Before(size).(disconnected := {16});
    assert w.table[2][1..] == [];
    assert Unused(w.table, Other(size), 2);
  }

  /** A command that is never answered: channel 16 has one command outstanding, whose handler sends a command on another
      channel when it is told that channel 16 is closed. That command is cut out of the table with its handler. */
  method LostReply(size: nat) returns (r: ReplyTable)
    requires 3 <= size < 0x1000_0000
    ensures fresh(r) && r.Valid() && r.size == size && r.Env() == ENV
    ensures r.g.cut == [Entry(1, Other(size), 2, true, false)] && Lost(r.g) == multiset{Command(1, Other(size))}
    ensures r.g.invoked[Command(1, Other(size))] == 0
    ensures r.W() == World(seq(size, i => []), [], 2, {16}, {Other(size)}, map[], map[0 := 3])
  {
    var d := Other(size);
    r := new ReplyTable(size, 0x1_0000_0000, 1000);
    r.Connected(16);
    r.Connected(d);
    FirstCommand(size);
    hide SendW, StepW, StepCut;
    assert r.W() == World(seq(size, i => []), [], 0, {}, {16, d}, map[], map[]);
    r.SendCommand(Request(16, true, false));
    Nobody(r.table);
    r.Disconnect(16, Sends(d));
    Outcome(size);
    ReplyTable.LostNotCalled(r.table, r.failed, r.g, Command(1, d));
  }

  /** No channel is disconnected yet. */
  lemma Nobody(t: seq<Chain>)
    ensures Quiet(t, {})
  {
  }

  lemma Outcome(size: nat)
    requires 3 <= size < 0x1000_0000
    ensures var d := Other(size);
            && StepCut(ENV, Before(size), Close(16), Sends(d)) == [Entry(1, d, 2, true, false)]
            && StepW(ENV, Before(size), Close(16), Sends(d)) == World(seq(size, i => []), [], 2, {16}, {d}, map[], map[0 := 3])
            && Live([Entry(1, d, 2, true, false)]) == multiset{Command(1, d)}
  {
    var d := Other(size);
    var w := Before(size).(disconnected := {16});
    assert Before(size).disconnected + {16} == {16};
    Trapped(size);
    hide Trap, ClosedCut, ClosedW, TokenFor;
    TrapLoses(ENV, w, 2, 16, d, Sends(d));
    TrapTurn(ENV, w, 2, 16, d, Sends(d));
    hide TurnW;
    var v := TurnW(ENV, w, 2, 1, true, 16, Sends(d));
    assert v.table == seq(size, i => []);
    assert w.ready - {16} == {d};
    LiveOne(Entry(1, d, 2, true, false));
  }

  /** A command on a channel whose counter leads to an empty chain takes the counter as its token. */
  lemma PlainSend(w: World, d: Channel, h: nat, handler: bool)
    requires |w.table| > 0 && Open(w, d) && Total(w.table) + |w.failed| < 1000
    requires Hash(|w.table|, d, Counter(ENV, w, d)) == h && w.table[h] == []
    ensures !Full(ENV, w) && TokenFor(ENV, w, d) == Counter(ENV, w, d)
    ensures var t := Counter(ENV, w, d);
            SendW(ENV, w, Request(d, handler, false)) ==
            w.(table := w.table[h := [Entry(w.serial, d, t, handler, false)]], serial := w.serial + 1,
               tokenid := w.tokenid[Protocol(w, d) := After(ENV, t)])
  {
    EmptyToken(ENV, w, d);
    hide Hash, TokenFor, Total;
    var e := Entry(w.serial, d, Counter(ENV, w, d), handler, false);
    assert [e] + w.table[h] == [e];
  }

  /** After the loss the protocol of the other channel is replaced, its counter starts again, and the token of the command that
      was lost is given to a newer one. */
  method TakenAgain(size: nat) returns (r: ReplyTable)
    requires 3 <= size < 0x1000_0000
    ensures fresh(r) && r.Valid() && r.g.cut == [Entry(1, Other(size), 2, true, false)]
    ensures r.Met(Other(size), 2) == Some(Entry(3, Other(size), 2, true, false))
  {
    var d := Other(size);
    r := LostReply(size);
    r.ReplaceProtocol(d, 5);
    SharedChain(size);
    ReplyTable.EmptyBag(r.table);
    hide SendW, Full, TokenFor, Hash, Total, Good;
    PlainSend(r.W(), d, 1, true);
    r.SendCommand(Request(d, true, false));
    TotalOne(r.table, 1);
    PlainSend(r.W(), d, 2, true);
    r.SendCommand(Request(d, true, false));
    AtOwnPlace(r, d);
  }

  /** A late reply that reaches the wrong command: the peer's answer to the command that was lost, number 1, calls the handler
      of command 3. */
  method LateReply(size: nat) returns (r: ReplyTable, who: int, called: bool)
    requires 3 <= size < 0x1000_0000
    ensures fresh(r) && r.Valid() && r.g.cut == [Entry(1, Other(size), 2, true, false)]
    ensures who == 3 && called && r.g.invoked[Command(3, Other(size))] == 1 && r.g.invoked[Command(1, Other(size))] == 0
  {
    var d := Other(size);
    r := TakenAgain(size);
    hide Good, Find, Hash;
    Owned(r, d);
    var skips;
    who, called, skips := r.HandleReply(Reply, d, 2, (id: nat) => [], []);
    LiveOne(Entry(1, d, 2, true, false));
    ReplyTable.LostNotCalled(r.table, r.failed, r.g, Command(1, d));
    ExactlyOnce(r.table, r.failed, r.g, Command(3, d));
  }

  lemma Owned(r: ReplyTable, d: Channel)
    requires r.Valid() && r.Met(d, 2) == Some(Entry(3, d, 2, true, false))
    ensures Get(r.g.unanswered, d, 2) == 3
  {
    hide Hash;
    ReplyTable.OwnerAt(r.table, r.failed, r.g, d, 2);
  }

  lemma AtOwnPlace(r: ReplyTable, d: Channel)
    requires r.Valid() && Hash(r.size, d, 2) == 2 && r.size >= 3 && r.table[2] == [Entry(3, d, 2, true, false)]
    ensures r.Met(d, 2) == Some(Entry(3, d, 2, true, false))
  {
  }
}
