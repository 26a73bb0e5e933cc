/** The table of reply handlers as a value: hash chains of outstanding commands, the bookkeeping
    that says what became of every command sent, and how each change of a chain affects it. */
module ReplySpec {

  /** A channel is identified by the address of its record. */
  type Channel = int

  /** One outstanding command. A tombstone has neither a handler nor a progress handler. */
  datatype Entry = Entry(id: nat, chan: Channel, token: nat, handler: bool, progress: bool)

  type Chain = seq<Entry>

  /** The identity of a command: the channel it was sent on and its place among all commands. */
  datatype Command = Command(serial: nat, chan: Channel)

  function Name(e: Entry): Command { Command(e.id, e.chan) }

  type Commands = multiset<Command>

  predicate Is(e: Entry, c: Channel, t: nat) { e.chan == c && e.token == t }

  function Hash(size: nat, c: Channel, t: nat): (h: nat)
    requires size > 0
    ensures h < size
  {
    (c % 0x1_0000_0000 / 16 + t) % 0x1_0000_0000 % size
  }

  /** The hash in numbers: an address and a token of a table of seven chains, and what is cut off above 32 bits. */
  lemma HashExamples()
    ensures Hash(7, 0x30, 1) == 4 && Hash(7, 0x3F, 1) == 4 && Hash(7, 0x40, 1) == 5 && Hash(7, 0x50, 2) == 0
    ensures Hash(127, 0x1_0000_0030, 5) == 8 && Hash(127, 0x30, 0x1_0000_0005) == 8
  {
  }

  // ----- the handlers still to be called in a chain -----

  function One(e: Entry): Commands { if e.handler then multiset{Name(e)} else multiset{} }

  function Live(b: Chain): Commands {
    if b == [] then multiset{} else One(b[0]) + Live(b[1..])
  }

  lemma {:induction false} LiveConcat(a: Chain, b: Chain)
    ensures Live(a + b) == Live(a) + Live(b)
  {
    if a == [] {
      assert a + b == b;
      assert Live(a) == multiset{};
    } else {
      LiveConcat(a[1..], b);
      LiveStep(a, b);
    }
  }

  lemma LiveStep(a: Chain, b: Chain)
    requires a != []
    ensures Live(a) == One(a[0]) + Live(a[1..]) && Live(a + b) == One(a[0]) + Live(a[1..] + b)
  {
    assert (a + b)[1..] == a[1..] + b && (a + b)[0] == a[0];
  }

  lemma LiveOne(e: Entry)
    ensures Live([e]) == One(e)
  {
    assert [e][1..] == [];
  }

  lemma LiveAt(b: Chain, i: nat)
    requires i < |b|
    ensures Live(b) == Live(b[..i]) + One(b[i]) + Live(b[i + 1..])
  {
    LiveConcat(b[..i], b[i..]);
    assert b == b[..i] + b[i..] && b[i..][1..] == b[i + 1..];
  }

  function Bag(t: seq<Chain>): Commands {
    if t == [] then multiset{} else Live(t[0]) + Bag(t[1..])
  }

  lemma Regroup(a: Commands, b0: Commands, b1: Commands, l0: Commands, l1: Commands)
    requires b1 + l0 == b0 + l1
    ensures (a + b1) + l0 == (a + b0) + l1
  {
    assert (a + b1) + l0 == a + (b1 + l0);
    assert (a + b0) + l1 == a + (b0 + l1);
  }

  /** Changing one chain moves handlers between the table, the called ones and the lost ones. */
  lemma Settle(b0: Commands, b1: Commands, l0: Commands, l1: Commands, f: Commands,
               i0: Commands, z0: Commands, i1: Commands, z1: Commands, h0: Commands, h1: Commands, x: Commands, y: Commands)
    requires b1 + l0 == b0 + l1 && l0 + x == l1 + y
    requires b0 + f + i0 + z0 == h0 && i1 + z1 == i0 + z0 + y && h1 == h0 + x
    ensures b1 + f + i1 + z1 == h1
  {
    forall n ensures (b1 + f + i1 + z1)[n] == h1[n] {
      assert (b1 + l0)[n] == (b0 + l1)[n] && (l0 + x)[n] == (l1 + y)[n];
      assert (i1 + z1)[n] == (i0 + z0 + y)[n] && (b0 + f + i0 + z0)[n] == h0[n];
    }
  }

  lemma {:induction false} BagUpdate(t: seq<Chain>, h: nat, b: Chain)
    requires h < |t|
    ensures Bag(t[h := b]) + Live(t[h]) == Bag(t) + Live(b)
  {
    hide Live;
    if h == 0 {
      assert t[0 := b][1..] == t[1..];
    } else {
      BagUpdate(t[1..], h - 1, b);
      assert t[h := b][1..] == t[1..][h - 1 := b];
      Regroup(Live(t[0]), Bag(t[1..]), Bag(t[h := b][1..]), Live(t[h]), Live(b));
    }
  }

  // ----- the command a token stands for -----

  /** The first entry of a chain for a channel and token, as its position; the length if there is none. */
  function Find(b: Chain, c: Channel, t: nat): (i: nat)
    ensures i <= |b|
    ensures i < |b| ==> Is(b[i], c, t)
    ensures forall k :: 0 <= k < i ==> !Is(b[k], c, t)
  {
    if b == [] then 0 else if Is(b[0], c, t) then 0 else 1 + Find(b[1..], c, t)
  }

  lemma {:induction false} FindIs(b: Chain, c: Channel, t: nat, i: nat)
    requires i <= |b| && (i < |b| ==> Is(b[i], c, t))
    requires forall k :: 0 <= k < i ==> !Is(b[k], c, t)
    ensures Find(b, c, t) == i
  {
    if i > 0 { FindIs(b[1..], c, t, i - 1); }
  }

  /** No outstanding command of the channel has the token. */
  predicate Unused(t: seq<Chain>, c: Channel, k: nat)
    requires |t| > 0
  {
    var b := t[Hash(|t|, c, k)];
    Find(b, c, k) == |b|
  }

  predicate Unique(b: Chain) {
    forall i, j :: 0 <= i < j < |b| ==> !Is(b[i], b[j].chan, b[j].token)
  }

  /** The commands a peer has been sent and has not answered yet. */
  type Unanswered = map<(Channel, nat), nat>

  function Key(e: Entry): (Channel, nat) { (e.chan, e.token) }

  function Keys(b: Chain): set<(Channel, nat)> { set k | 0 <= k < |b| :: Key(b[k]) }

  function Get(u: Unanswered, c: Channel, t: nat): int { if (c, t) in u then u[(c, t)] else -1 }

  /** Every command unanswered before is still unanswered, under its token. */
  predicate More(u0: Unanswered, u1: Unanswered) {
    forall k :: k in u0 ==> k in u1 && u1[k] == u0[k]
  }

  function Owner(b: Chain, c: Channel, t: nat): int {
    var i := Find(b, c, t);
    if i < |b| then b[i].id else -1
  }

  lemma OwnerIs(b: Chain, i: nat)
    requires Unique(b) && i < |b|
    ensures Find(b, b[i].chan, b[i].token) == i
  {
    assert Is(b[i], b[i].chan, b[i].token);
  }

  lemma OwnerUnique(b: Chain, c: Channel, t: nat, i: nat)
    requires Unique(b) && i < |b| && Is(b[i], c, t)
    ensures Owner(b, c, t) == b[i].id
  {
    OwnerIs(b, i);
  }

  lemma OwnerNone(b: Chain, c: Channel, t: nat)
    requires forall k :: 0 <= k < |b| ==> !Is(b[k], c, t)
    ensures Owner(b, c, t) == -1
  {
  }

  lemma OwnerInsert(e: Entry, b: Chain, c: Channel, t: nat)
    ensures Owner([e] + b, c, t) == if Is(e, c, t) then e.id else Owner(b, c, t)
  {
    assert ([e] + b)[1..] == b;
  }

  lemma OwnerRemove(b: Chain, i: nat, c: Channel, t: nat)
    requires Unique(b) && i < |b|
    ensures Unique(b[..i] + b[i + 1..])
    ensures Owner(b[..i] + b[i + 1..], c, t) == if Is(b[i], c, t) then -1 else Owner(b, c, t)
  {
    hide Find;
    var r := b[..i] + b[i + 1..];
    assert forall k :: 0 <= k < |r| ==> r[k] == if k < i then b[k] else b[k + 1];
    var j := Find(b, c, t);
    if Is(b[i], c, t) || j == |b| {
      OwnerNone(r, c, t);
    } else {
      assert j != i;
      OwnerUnique(r, c, t, if j < i then j else j - 1);
    }
  }

  lemma OwnerCut(b: Chain, i: nat, c: Channel, t: nat)
    requires Unique(b) && i < |b|
    ensures Owner(b[i + 1..], c, t) == if (c, t) in Keys(b[..i]) + {Key(b[i])} then -1 else Owner(b, c, t)
  {
    hide Find;
    var r := b[i + 1..];
    assert forall k :: 0 <= k < |r| ==> r[k] == b[k + i + 1];
    var j := Find(b, c, t);
    if j == |b| {
      OwnerNone(r, c, t);
      CutKey(b, i, c, t);
    } else if j <= i {
      assert Is(b[j], c, t);
      OwnerNone(r, c, t);
      CutKey(b, i, c, t);
    } else {
      CutKey(b, i, c, t);
      OwnerUnique(r, c, t, j - i - 1);
    }
  }

  /** The keys that a cut takes away are those of the entries up to the one swept. */
  lemma CutKey(b: Chain, i: nat, c: Channel, t: nat)
    requires i < |b|
    ensures (c, t) in Keys(b[..i]) + {Key(b[i])} <==> exists k :: 0 <= k <= i && Is(b[k], c, t)
  {
    if (c, t) in Keys(b[..i]) {
      var k :| 0 <= k < i && Key(b[..i][k]) == (c, t);
      assert Is(b[k], c, t);
    }
    if exists k :: 0 <= k <= i && Is(b[k], c, t) {
      var k :| 0 <= k <= i && Is(b[k], c, t);
      if k < i { assert Key(b[..i][k]) == (c, t); }
    }
  }

  function Bury(e: Entry): Entry { e.(handler := false, progress := false) }

  /** A tombstone has the token and neither handler. */
  lemma BuryIs(e: Entry)
    ensures var t := Bury(e); t.chan == e.chan && t.token == e.token && t.id == e.id && !t.handler && !t.progress
  {
  }

  lemma OwnerBury(b: Chain, i: nat, c: Channel, t: nat)
    requires Unique(b) && i < |b|
    ensures Unique(b[i := Bury(b[i])])
    ensures Owner(b[i := Bury(b[i])], c, t) == Owner(b, c, t)
  {
    hide Find;
    var r := b[i := Bury(b[i])];
    assert forall k :: 0 <= k < |r| ==> r[k].chan == b[k].chan && r[k].token == b[k].token && r[k].id == b[k].id;
    var j := Find(b, c, t);
    if j < |b| {
      OwnerUnique(r, c, t, j);
    } else {
      OwnerNone(r, c, t);
    }
  }

  // ----- the whole state -----

  /** What became of the commands: `handled` were given a handler, `invoked` had it called; `unanswered` are the commands in
      the table by their tokens; `cut` are those that the peer has been sent and that a sweep has cut out of the table,
      whether they had a handler or not. */
  datatype Ledger = Ledger(next: nat, handled: set<Command>, invoked: Commands, unanswered: Unanswered, cut: Chain)

  /** The commands whose handlers are lost. */
  function Lost(g: Ledger): Commands { Live(g.cut) }

  ghost predicate Placed(t: seq<Chain>, h: nat)
    requires h < |t|
  {
    && Unique(t[h])
    && forall k :: 0 <= k < |t[h]| ==> Hash(|t|, t[h][k].chan, t[h][k].token) == h
  }

  ghost predicate AllPlaced(t: seq<Chain>) {
    forall h :: 0 <= h < |t| ==> Placed(t, h)
  }

  /** The token of an unanswered command leads to that command, and every other token to none. */
  ghost predicate Answers(t: seq<Chain>, u: Unanswered)
    requires |t| > 0
  {
    forall c, k: nat :: Owner(t[Hash(|t|, c, k)], c, k) == Get(u, c, k)
  }

  /** Every command with a handler is in exactly one place: still waiting, refused, called, or lost. */
  ghost predicate Conserved(t: seq<Chain>, failed: Chain, g: Ledger) {
    && Bag(t) + Live(failed) + g.invoked + Lost(g) == multiset(g.handled)
    && forall i :: i in g.handled ==> i.serial < g.next
  }

  ghost predicate Good(t: seq<Chain>, failed: Chain, g: Ledger) {
    && |t| > 0 && AllPlaced(t)
    && Conserved(t, failed, g)
    && Answers(t, g.unanswered)
  }

  function Handle(g: Ledger, c: Channel, handler: bool): Ledger {
    g.(next := g.next + 1, handled := if handler then g.handled + {Command(g.next, c)} else g.handled)
  }

  function Ask(g: Ledger, c: Channel, t: nat, handler: bool): Ledger {
    Handle(g, c, handler).(unanswered := g.unanswered[(c, t) := g.next])
  }

  function Answer(g: Ledger, e: Entry): Ledger {
    g.(unanswered := g.unanswered - {Key(e)}, invoked := g.invoked + One(e))
  }

  function Call(g: Ledger, e: Entry): Ledger {
    g.(invoked := g.invoked + One(e))
  }

  function Cut(g: Ledger, e: Entry, dropped: Chain): Ledger {
    g.(unanswered := g.unanswered - (Keys(dropped) + {Key(e)}), invoked := g.invoked + One(e),
       cut := g.cut + dropped)
  }

  lemma HandleBag(g: Ledger, e: Entry)
    requires e.id == g.next && forall i :: i in g.handled ==> i.serial < g.next
    ensures multiset(Handle(g, e.chan, e.handler).handled) == multiset(g.handled) + One(e)
  {
    assert Name(e) !in g.handled;
  }

  /** A refused command waits for its failure event. */
  lemma RefuseGood(t: seq<Chain>, failed: Chain, g: Ledger, e: Entry)
    requires Good(t, failed, g) && e.id == g.next
    ensures Good(t, failed + [e], Handle(g, e.chan, e.handler))
  {
    hide Live, Answers, Bag, AllPlaced;
    LiveConcat(failed, [e]);
    LiveOne(e);
    HandleBag(g, e);
  }

  /** The failure event calls the handler. */
  lemma FailGood(t: seq<Chain>, failed: Chain, g: Ledger)
    requires Good(t, failed, g) && failed != []
    ensures Good(t, failed[1..], Call(g, failed[0]))
  {
    hide Answers, Bag, AllPlaced;
  }

  lemma PlacedInsert(t: seq<Chain>, e: Entry)
    requires |t| > 0 && AllPlaced(t)
    requires Unused(t, e.chan, e.token)
    ensures var h := Hash(|t|, e.chan, e.token); AllPlaced(t[h := [e] + t[h]])
  {
    hide Find, Hash;
    var h := Hash(|t|, e.chan, e.token);
    assert Placed(t, h);
    var r := t[h := [e] + t[h]];
    assert forall k :: 0 <= k < |r[h]| ==> r[h][k] == if k == 0 then e else t[h][k - 1];
    assert Placed(r, h);
    forall i | 0 <= i < |r| && i != h ensures Placed(r, i) { assert Placed(t, i); }
  }

  lemma AnswersInsert(t: seq<Chain>, u: Unanswered, e: Entry)
    requires |t| > 0 && Answers(t, u)
    ensures var h := Hash(|t|, e.chan, e.token); Answers(t[h := [e] + t[h]], u[(e.chan, e.token) := e.id])
  {
    hide Hash, Owner;
    var h := Hash(|t|, e.chan, e.token);
    var r, v := t[h := [e] + t[h]], u[(e.chan, e.token) := e.id];
    forall c, k: nat ensures Owner(r[Hash(|r|, c, k)], c, k) == Get(v, c, k) {
      OwnerInsert(e, t[h], c, k);
      assert Owner(t[Hash(|t|, c, k)], c, k) == Get(u, c, k);
    }
  }

  /** A token that is not used belongs to no unanswered command. */
  lemma UnusedIsNew(t: seq<Chain>, u: Unanswered, c: Channel, k: nat, id: nat)
    requires |t| > 0 && Answers(t, u) && Unused(t, c, k)
    ensures (c, k) !in u && More(u, u[(c, k) := id])
  {
    hide Hash, Find;
    assert Owner(t[Hash(|t|, c, k)], c, k) == Get(u, c, k);
  }

  /** A command that is sent enters the chain of its token, which no other outstanding command of the channel has. */
  lemma AskGood(t: seq<Chain>, failed: Chain, g: Ledger, e: Entry)
    requires Good(t, failed, g) && e.id == g.next
    requires Unused(t, e.chan, e.token)
    ensures var h := Hash(|t|, e.chan, e.token);
            Good(t[h := [e] + t[h]], failed, Ask(g, e.chan, e.token, e.handler))
  {
    hide Live, Answers, Bag, AllPlaced, Find, Hash;
    var h := Hash(|t|, e.chan, e.token);
    BagUpdate(t, h, [e] + t[h]);
    LiveConcat([e], t[h]);
    LiveOne(e);
    HandleBag(g, e);
    PlacedInsert(t, e);
    var one := One(e);
    Settle(Bag(t), Bag(t[h := [e] + t[h]]), Live(t[h]), Live([e] + t[h]), Live(failed), g.invoked, Lost(g), g.invoked, Lost(g),
           multiset(g.handled), multiset(Handle(g, e.chan, e.handler).handled), one, multiset{});
    AnswersInsert(t, g.unanswered, e);
  }

  function Removed(t: seq<Chain>, h: nat, i: nat): seq<Chain>
    requires h < |t| && i < |t[h]|
  {
    t[h := t[h][..i] + t[h][i + 1..]]
  }

  lemma PlacedRemove(t: seq<Chain>, h: nat, i: nat)
    requires AllPlaced(t) && h < |t| && i < |t[h]|
    ensures AllPlaced(Removed(t, h, i))
  {
    hide Hash;
    assert Placed(t, h);
    OwnerRemove(t[h], i, t[h][i].chan, t[h][i].token);
    var r := Removed(t, h, i);
    assert forall k :: 0 <= k < |r[h]| ==> r[h][k] == if k < i then t[h][k] else t[h][k + 1];
    assert Placed(r, h);
    forall j | 0 <= j < |r| && j != h ensures Placed(r, j) { assert Placed(t, j); }
  }

  lemma AnswersRemove(t: seq<Chain>, u: Unanswered, h: nat, i: nat)
    requires |t| > 0 && Answers(t, u) && h < |t| && i < |t[h]| && Placed(t, h)
    ensures Answers(Removed(t, h, i), u - {Key(t[h][i])})
  {
    hide Hash, Owner;
    var e, r := t[h][i], Removed(t, h, i);
    var v := u - {Key(e)};
    forall c, k: nat ensures Owner(r[Hash(|r|, c, k)], c, k) == Get(v, c, k) {
      OwnerRemove(t[h], i, c, k);
      assert Owner(t[Hash(|t|, c, k)], c, k) == Get(u, c, k);
    }
  }

  /** An entry that is taken out has its handler called. */
  lemma AnswerGood(t: seq<Chain>, failed: Chain, g: Ledger, h: nat, i: nat)
    requires Good(t, failed, g) && h < |t| && i < |t[h]|
    ensures Good(Removed(t, h, i), failed, Answer(g, t[h][i]))
  {
    hide Live, Answers, Bag, Hash;
    BagUpdate(t, h, t[h][..i] + t[h][i + 1..]);
    LiveConcat(t[h][..i], t[h][i + 1..]);
    LiveAt(t[h], i);
    PlacedRemove(t, h, i);
    assert Placed(t, h);
    Settle(Bag(t), Bag(Removed(t, h, i)), Live(t[h]), Live(t[h][..i] + t[h][i + 1..]), Live(failed), g.invoked, Lost(g),
           g.invoked + One(t[h][i]), Lost(g), multiset(g.handled), multiset(g.handled), multiset{}, One(t[h][i]));
    AnswersRemove(t, g.unanswered, h, i);
  }

  function Buried(t: seq<Chain>, h: nat, i: nat): seq<Chain>
    requires h < |t| && i < |t[h]|
  {
    t[h := t[h][i := Bury(t[h][i])]]
  }

  lemma PlacedBury(t: seq<Chain>, h: nat, i: nat)
    requires AllPlaced(t) && h < |t| && i < |t[h]|
    ensures AllPlaced(Buried(t, h, i))
  {
    hide Hash;
    assert Placed(t, h);
    OwnerBury(t[h], i, t[h][i].chan, t[h][i].token);
    var r: seq<Chain> := Buried(t, h, i);
    assert forall k :: 0 <= k < |r[h]| ==> r[h][k].chan == t[h][k].chan && r[h][k].token == t[h][k].token;
    assert Placed(r, h);
    forall j | 0 <= j < |r| && j != h ensures Placed(r, j) { assert Placed(t, j); }
  }

  lemma AnswersBury(t: seq<Chain>, u: Unanswered, h: nat, i: nat)
    requires |t| > 0 && Answers(t, u) && h < |t| && i < |t[h]| && Placed(t, h)
    ensures Answers(Buried(t, h, i), u)
  {
    hide Hash, Owner;
    var r := Buried(t, h, i);
    forall c, k: nat ensures Owner(r[Hash(|r|, c, k)], c, k) == Get(u, c, k) {
      OwnerBury(t[h], i, c, k);
      assert Owner(t[Hash(|t|, c, k)], c, k) == Get(u, c, k);
    }
  }

  /** A tombstone keeps the token taken, so that the late reply finds it. */
  lemma BuryGood(t: seq<Chain>, failed: Chain, g: Ledger, h: nat, i: nat)
    requires Good(t, failed, g) && h < |t| && i < |t[h]|
    ensures Good(Buried(t, h, i), failed, Call(g, t[h][i]))
  {
    hide Answers, Bag, Hash, Live;
    var b, e := t[h], t[h][i];
    var r := b[i := Bury(e)];
    BagUpdate(t, h, r);
    LiveAt(b, i);
    LiveAt(r, i);
    assert r[..i] == b[..i] && r[i + 1..] == b[i + 1..];
    PlacedBury(t, h, i);
    assert Placed(t, h);
    Settle(Bag(t), Bag(Buried(t, h, i)), Live(b), Live(r), Live(failed), g.invoked, Lost(g),
           g.invoked + One(e), Lost(g), multiset(g.handled), multiset(g.handled), multiset{}, One(e));
    AnswersBury(t, g.unanswered, h, i);
  }

  function CutOff(t: seq<Chain>, h: nat, i: nat): seq<Chain>
    requires h < |t| && i < |t[h]|
  {
    t[h := t[h][i + 1..]]
  }

  lemma PlacedCut(t: seq<Chain>, h: nat, i: nat)
    requires AllPlaced(t) && h < |t| && i < |t[h]|
    ensures AllPlaced(CutOff(t, h, i))
  {
    hide Hash;
    assert Placed(t, h);
    var r := CutOff(t, h, i);
    assert forall k :: 0 <= k < |r[h]| ==> r[h][k] == t[h][k + i + 1];
    assert Placed(r, h);
    forall j | 0 <= j < |r| && j != h ensures Placed(r, j) { assert Placed(t, j); }
  }

  lemma AnswersCut(t: seq<Chain>, u: Unanswered, h: nat, i: nat)
    requires |t| > 0 && Answers(t, u) && h < |t| && i < |t[h]| && AllPlaced(t)
    ensures Answers(CutOff(t, h, i), u - (Keys(t[h][..i]) + {Key(t[h][i])}))
  {
    hide Hash, Owner, Keys;
    var r, gone := CutOff(t, h, i), Keys(t[h][..i]) + {Key(t[h][i])};
    var v := u - gone;
    assert Placed(t, h);
    forall c, k: nat ensures Owner(r[Hash(|r|, c, k)], c, k) == Get(v, c, k) {
      OwnerCut(t[h], i, c, k);
      CutKey(t[h], i, c, k);
      assert Owner(t[Hash(|t|, c, k)], c, k) == Get(u, c, k);
    }
  }

  /** Unlinking through the head of the chain drops whatever was put in front in the meantime. */
  lemma CutGood(t: seq<Chain>, failed: Chain, g: Ledger, h: nat, i: nat)
    requires Good(t, failed, g) && h < |t| && i < |t[h]|
    ensures Good(CutOff(t, h, i), failed, Cut(g, t[h][i], t[h][..i]))
  {
    hide Answers, Bag, Live, Hash;
    var b, e := t[h], t[h][i];
    BagUpdate(t, h, b[i + 1..]);
    LiveAt(b, i);
    PlacedCut(t, h, i);
    Settle(Bag(t), Bag(CutOff(t, h, i)), Live(b), Live(b[i + 1..]), Live(failed), g.invoked, Lost(g),
           g.invoked + One(e), Lost(g) + Live(b[..i]), multiset(g.handled), multiset(g.handled), multiset{}, One(e) + Live(b[..i]));
    AnswersCut(t, g.unanswered, h, i);
    LiveConcat(g.cut, b[..i]);
  }

  // ----- tokens in use -----

  function TokensIn(b: Chain, c: Channel): set<nat> {
    if b == [] then {} else (if b[0].chan == c then {b[0].token} else {}) + TokensIn(b[1..], c)
  }

  function Tokens(t: seq<Chain>, c: Channel): set<nat> {
    if t == [] then {} else TokensIn(t[0], c) + Tokens(t[1..], c)
  }

  function Total(t: seq<Chain>): nat {
    if t == [] then 0 else |t[0]| + Total(t[1..])
  }

  lemma {:induction false} TokensInBound(b: Chain, c: Channel)
    ensures |TokensIn(b, c)| <= |b|
  {
    if b != [] {
      TokensInBound(b[1..], c);
      UnionBound(if b[0].chan == c then {b[0].token} else {}, TokensIn(b[1..], c));
    }
  }

  lemma {:induction false} UnionBound(a: set<nat>, b: set<nat>)
    ensures |a + b| <= |a| + |b|
  {
    assert a + b == a + (b - a);
    assert |a + (b - a)| == |a| + |b - a|;
    SubsetBound(b - a, b);
  }

  lemma {:induction false} SubsetBound(a: set<nat>, b: set<nat>)
    requires a <= b
    ensures |a| <= |b|
  {
    assert b == a + (b - a);
    assert |a + (b - a)| == |a| + |b - a|;
  }

  lemma {:induction false} TokensBound(t: seq<Chain>, c: Channel)
    ensures |Tokens(t, c)| <= Total(t)
  {
    if t != [] {
      TokensBound(t[1..], c);
      TokensInBound(t[0], c);
      UnionBound(TokensIn(t[0], c), Tokens(t[1..], c));
    }
  }

  lemma {:induction false} TokensInHas(b: Chain, c: Channel, i: nat)
    requires i < |b| && b[i].chan == c
    ensures b[i].token in TokensIn(b, c)
  {
    if i > 0 { TokensInHas(b[1..], c, i - 1); }
  }

  lemma {:induction false} TokensHas(t: seq<Chain>, c: Channel, h: nat, i: nat)
    requires h < |t| && i < |t[h]| && t[h][i].chan == c
    ensures t[h][i].token in Tokens(t, c)
  {
    if h > 0 { TokensHas(t[1..], c, h - 1, i); } else { TokensInHas(t[0], c, i); }
  }

  // ----- what the bookkeeping means -----

  lemma {:induction false} LiveSource(b: Chain, id: Command)
    requires id in Live(b)
    ensures exists i :: 0 <= i < |b| && b[i].handler && Name(b[i]) == id
  {
    if id in One(b[0]) {
      assert b[0].handler && Name(b[0]) == id;
    } else {
      LiveSource(b[1..], id);
      var i :| 0 <= i < |b[1..]| && b[1..][i].handler && Name(b[1..][i]) == id;
      assert b[i + 1].handler && Name(b[i + 1]) == id;
    }
  }

  /** A handler that is still to be called belongs to some entry of the table. */
  ghost predicate Waiting(t: seq<Chain>, id: Command) {
    exists h, i :: 0 <= h < |t| && 0 <= i < |t[h]| && t[h][i].handler && Name(t[h][i]) == id
  }

  lemma {:induction false} BagSource(t: seq<Chain>, id: Command)
    requires id in Bag(t)
    ensures Waiting(t, id)
  {
    if id in Live(t[0]) {
      LiveSource(t[0], id);
      var i :| 0 <= i < |t[0]| && t[0][i].handler && Name(t[0][i]) == id;
      assert t[0][i].handler && Name(t[0][i]) == id;
    } else {
      BagSource(t[1..], id);
      var h, i :| 0 <= h < |t[1..]| && 0 <= i < |t[1..][h]| && t[1..][h][i].handler && Name(t[1..][h][i]) == id;
      assert t[h + 1][i].handler && Name(t[h + 1][i]) == id;
    }
  }

  /** No handler is called twice, and one that has not been called is waiting in the table, waiting for its failure
      event, or was lost. */
  lemma ExactlyOnce(t: seq<Chain>, failed: Chain, g: Ledger, id: Command)
    requires Good(t, failed, g)
    ensures g.invoked[id] <= 1 && (id in g.invoked ==> id in g.handled)
    ensures id in g.handled && id !in g.invoked && id !in Live(failed) && id !in Lost(g) ==> Waiting(t, id)
    ensures id in g.invoked ==> id !in Bag(t) && id !in Live(failed) && id !in Lost(g)
  {
    var all := Bag(t) + Live(failed) + g.invoked + Lost(g);
    assert all[id] == Bag(t)[id] + Live(failed)[id] + g.invoked[id] + Lost(g)[id];
    assert all[id] == multiset(g.handled)[id];
    if id in g.handled && id !in g.invoked && id !in Live(failed) && id !in Lost(g) {
      BagSource(t, id);
    }
  }

  ghost predicate NoneOf(t: seq<Chain>, c: Channel) {
    forall h, i :: 0 <= h < |t| && 0 <= i < |t[h]| ==> t[h][i].chan != c
  }

  /** Once a channel has no entry left, every handler given for a command on it has been called exactly once, except
      those of refused commands, whose failure event is still to run, and of lost commands. */
  lemma AllDelivered(t: seq<Chain>, failed: Chain, g: Ledger, id: Command)
    requires Good(t, failed, g) && NoneOf(t, id.chan) && id in g.handled
    ensures g.invoked[id] == 1 || id in Live(failed) || id in Lost(g)
    ensures id !in Lost(g) && failed == [] ==> g.invoked[id] == 1
  {
    ExactlyOnce(t, failed, g, id);
    assert !Waiting(t, id);
  }

  /** The tokens of the outstanding commands of a channel are distinct. */
  lemma DistinctTokens(t: seq<Chain>, h1: nat, i1: nat, h2: nat, i2: nat)
    requires |t| > 0 && AllPlaced(t) && h1 < |t| && i1 < |t[h1]| && h2 < |t| && i2 < |t[h2]|
    requires t[h1][i1].chan == t[h2][i2].chan && t[h1][i1].token == t[h2][i2].token
    ensures h1 == h2 && i1 == i2
  {
    assert Placed(t, h1) && Placed(t, h2);
    if i1 < i2 { assert Is(t[h1][i1], t[h2][i2].chan, t[h2][i2].token); }
    if i2 < i1 { assert Is(t[h2][i2], t[h1][i1].chan, t[h1][i1].token); }
  }

  /** A command that a handler puts in front of the entry being swept, in a chain whose head the sweep holds, is gone: its
      handler has not been called and nothing is left that would call it. */
  lemma LostCommand(t: seq<Chain>, failed: Chain, g: Ledger, h: nat, i: nat, k: nat)
    requires Good(t, failed, g) && h < |t| && i < |t[h]| && k < i && t[h][k].handler
    ensures var l := Cut(g, t[h][i], t[h][..i]);
            && Name(t[h][k]) in l.handled && Name(t[h][k]) !in l.invoked
            && Name(t[h][k]) !in Bag(CutOff(t, h, i)) && Name(t[h][k]) !in Live(failed)
  {
    var x, l, t1 := Name(t[h][k]), Cut(g, t[h][i], t[h][..i]), CutOff(t, h, i);
    CutGood(t, failed, g, h, i);
    LiveAt(t[h][..i], k);
    assert x in Live(t[h][..i]);
    LiveConcat(g.cut, t[h][..i]);
    var all := Bag(t1) + Live(failed) + l.invoked + Lost(l);
    assert all[x] == Bag(t1)[x] + Live(failed)[x] + l.invoked[x] + Lost(l)[x];
    assert all[x] == multiset(l.handled)[x];
  }

  // ----- channels without entries -----

  /** A channel in `disc` without entries gets none. */
  ghost predicate Keeps(t0: seq<Chain>, t1: seq<Chain>, disc: set<Channel>) {
    forall d :: d in disc && NoneOf(t0, d) ==> NoneOf(t1, d)
  }

  lemma KeepsSame(t: seq<Chain>, disc: set<Channel>)
    ensures Keeps(t, t, disc)
  {
  }

  lemma KeepsTrans(t0: seq<Chain>, t1: seq<Chain>, t2: seq<Chain>, disc: set<Channel>)
    requires Keeps(t0, t1, disc) && Keeps(t1, t2, disc)
    ensures Keeps(t0, t2, disc)
  {
    hide NoneOf;
  }

  /** Replacing a chain by one made of the same channels' entries. */
  lemma KeepsChain(t: seq<Chain>, h: nat, b: Chain, disc: set<Channel>)
    requires h < |t|
    requires forall k :: 0 <= k < |b| ==> exists j :: 0 <= j < |t[h]| && t[h][j].chan == b[k].chan
    ensures Keeps(t, t[h := b], disc)
  {
    forall d | d in disc && NoneOf(t, d) ensures NoneOf(t[h := b], d) {
      var r: seq<Chain> := t[h := b];
      forall i, k | 0 <= i < |r| && 0 <= k < |r[i]| ensures r[i][k].chan != d {
        if i == h { var j :| 0 <= j < |t[h]| && t[h][j].chan == b[k].chan; }
      }
    }
  }
}
