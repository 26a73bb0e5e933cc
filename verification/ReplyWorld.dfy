/** Sending commands and closing channels as functions of the state before: which token a command gets, which chain it
    enters, what a sweep of the table does, and which commands it loses. */
module ReplyWorld {
  import opened ReplySpec

  /** A command that a callback sends. */
  datatype Request = Request(chan: Channel, handler: bool, progress: bool)

  datatype Kind = Reply | Progress | NotRecognized

  /** How many values the token counter has, and how many command records memory holds. */
  datatype Limits = Limits(tokens: nat, memory: nat)

  datatype World = World(
    table: seq<Chain>, failed: Chain, serial: nat, disconnected: set<Channel>, ready: set<Channel>,
    protocolOf: map<Channel, int>, tokenid: map<int, nat>)

  /** What the handlers do when they are called: the commands that the handler of each command sends. */
  type Behaviour = nat -> seq<Request>

  // ----- tokens -----

  function After(env: Limits, t: nat): nat { if t + 1 < env.tokens then t + 1 else 0 }

  function FirstToken(env: Limits): nat { if env.tokens > 1 then 1 else 0 }

  function Protocol(w: World, c: Channel): int { if c in w.protocolOf then w.protocolOf[c] else 0 }

  /** The token counter of a channel's protocol. */
  function Counter(env: Limits, w: World, c: Channel): nat {
    var p := Protocol(w, c);
    if p in w.tokenid then w.tokenid[p] else FirstToken(env)
  }

  /** The first of `n` consecutive tokens that no outstanding command of the channel has. */
  function Search(env: Limits, t: seq<Chain>, c: Channel, from: nat, n: nat): nat
    requires |t| > 0
    decreases n
  {
    if n == 0 || Unused(t, c, from) then from else Search(env, t, c, After(env, from), n - 1)
  }

  function TokenFor(env: Limits, w: World, c: Channel): nat
    requires |w.table| > 0
  {
    Search(env, w.table, c, Counter(env, w, c), env.tokens)
  }

  /** The chain that the next command on a channel enters. */
  function ChainFor(env: Limits, w: World, c: Channel): (h: nat)
    requires |w.table| > 0
    ensures h < |w.table|
  {
    Hash(|w.table|, c, TokenFor(env, w, c))
  }

  // ----- sending -----

  predicate Full(env: Limits, w: World) { Total(w.table) + |w.failed| >= env.memory }

  predicate Open(w: World, c: Channel) { c !in w.disconnected && c in w.ready }

  /** A command on the channel is sent: it enters the table. */
  predicate Accepted(env: Limits, w: World, c: Channel) { !Full(env, w) && Open(w, c) }

  function EntryFor(env: Limits, w: World, r: Request): Entry
    requires |w.table| > 0
  {
    Entry(w.serial, r.chan, TokenFor(env, w, r.chan), r.handler, r.progress)
  }

  function SendW(env: Limits, w: World, r: Request): (v: World)
    requires |w.table| > 0
    ensures |v.table| == |w.table| && v.disconnected == w.disconnected && v.ready == w.ready
  {
    if Full(env, w) then w
    else if !Open(w, r.chan) then
      w.(failed := w.failed + [Entry(w.serial, r.chan, 0, r.handler, r.progress)], serial := w.serial + 1)
    else
      var h := ChainFor(env, w, r.chan);
      w.(table := w.table[h := [EntryFor(env, w, r)] + w.table[h]], serial := w.serial + 1,
         tokenid := w.tokenid[Protocol(w, r.chan) := After(env, TokenFor(env, w, r.chan))])
  }

  function ScriptW(env: Limits, w: World, script: seq<Request>): (v: World)
    requires |w.table| > 0
    ensures |v.table| == |w.table| && v.disconnected == w.disconnected && v.ready == w.ready
    decreases |script|
  {
    if script == [] then w else ScriptW(env, SendW(env, w, script[0]), script[1..])
  }

  lemma {:induction false} ScriptSnoc(env: Limits, w: World, script: seq<Request>, r: Request)
    requires |w.table| > 0
    ensures ScriptW(env, w, script + [r]) == SendW(env, ScriptW(env, w, script), r)
    decreases |script|
  {
    hide SendW;
    var s := script + [r];
    if script == [] {
      assert s[0] == r && s[1..] == [];
    } else {
      assert s[0] == script[0] && s[1..] == script[1..] + [r];
      ScriptSnoc(env, SendW(env, w, script[0]), script[1..], r);
    }
  }

  /** The first command of a script enters chain `h`. */
  predicate LandsFirst(env: Limits, w: World, r: Request, h: nat)
    requires |w.table| > 0
  {
    Accepted(env, w, r.chan) && ChainFor(env, w, r.chan) == h
  }

  /** What a script puts in front of chain `h`, the last command first. */
  function Landing(env: Limits, w: World, script: seq<Request>, h: nat): Chain
    requires |w.table| > 0
    decreases |script|
  {
    if script == [] then []
    else Landing(env, SendW(env, w, script[0]), script[1..], h)
         + if LandsFirst(env, w, script[0], h) then [EntryFor(env, w, script[0])] else []
  }

  lemma {:induction false} LandingIs(env: Limits, w: World, script: seq<Request>, h: nat)
    requires |w.table| > 0 && h < |w.table|
    ensures ScriptW(env, w, script).table[h] == Landing(env, w, script, h) + w.table[h]
    decreases |script|
  {
    if script != [] {
      var v := SendW(env, w, script[0]);
      LandingIs(env, v, script[1..], h);
      SendChain(env, w, script[0], h);
    }
  }

  lemma SendChain(env: Limits, w: World, r: Request, h: nat)
    requires |w.table| > 0 && h < |w.table|
    ensures SendW(env, w, r).table[h] == (if LandsFirst(env, w, r, h) then [EntryFor(env, w, r)] else []) + w.table[h]
  {
    hide Total, Search, Hash;
  }

  /** Some command of the script that is given a handler is for an open channel with peer services and gets a token that
      leads to chain `h`. */
  predicate Lands(env: Limits, w: World, script: seq<Request>, h: nat)
    requires |w.table| > 0
  {
    exists j :: 0 <= j < |script| && LandsAt(env, w, script, h, j)
  }

  predicate LandsAt(env: Limits, w: World, script: seq<Request>, h: nat, j: nat)
    requires |w.table| > 0 && j < |script|
  {
    script[j].handler && LandsFirst(env, ScriptW(env, w, script[..j]), script[j], h)
  }

  lemma LandsLater(env: Limits, w: World, script: seq<Request>, h: nat, j: nat)
    requires |w.table| > 0 && j + 1 < |script|
    ensures LandsAt(env, w, script, h, j + 1) == LandsAt(env, SendW(env, w, script[0]), script[1..], h, j)
  {
    hide SendW, LandsFirst;
    assert script[..j + 1][1..] == script[1..][..j];
  }

  lemma LandsNow(env: Limits, w: World, script: seq<Request>, h: nat)
    requires |w.table| > 0 && script != []
    ensures LandsAt(env, w, script, h, 0) == (script[0].handler && LandsFirst(env, w, script[0], h))
  {
    assert script[..0] == [];
  }

  lemma {:induction false} LandsIff(env: Limits, w: World, script: seq<Request>, h: nat)
    requires |w.table| > 0
    ensures Live(Landing(env, w, script, h)) != multiset{} <==> Lands(env, w, script, h)
    decreases |script|
  {
    hide SendW, LandsFirst, LandsAt;
    if script != [] {
      var v, rest := SendW(env, w, script[0]), script[1..];
      LandsIff(env, v, rest, h);
      LandsNow(env, w, script, h);
      forall j | 0 <= j < |rest| ensures LandsAt(env, w, script, h, j + 1) == LandsAt(env, v, rest, h, j) {
        LandsLater(env, w, script, h, j);
      }
      LandsSplit(env, w, v, script, h);
      LiveConcat(Landing(env, v, rest, h), if LandsFirst(env, w, script[0], h) then [EntryFor(env, w, script[0])] else []);
      LiveOne(EntryFor(env, w, script[0]));
    }
  }

  lemma LandsSplit(env: Limits, w: World, v: World, script: seq<Request>, h: nat)
    requires |w.table| > 0 && |v.table| > 0 && script != []
    requires forall j :: 0 <= j < |script[1..]| ==> LandsAt(env, w, script, h, j + 1) == LandsAt(env, v, script[1..], h, j)
    ensures Lands(env, w, script, h) <==> LandsAt(env, w, script, h, 0) || Lands(env, v, script[1..], h)
  {
    hide LandsAt;
    if Lands(env, w, script, h) && !LandsAt(env, w, script, h, 0) {
      var j :| 0 <= j < |script| && LandsAt(env, w, script, h, j);
      assert LandsAt(env, v, script[1..], h, j - 1);
    }
    if Lands(env, v, script[1..], h) {
      var j :| 0 <= j < |script[1..]| && LandsAt(env, v, script[1..], h, j);
      assert LandsAt(env, w, script, h, j + 1);
    }
  }

  /** Commands for channels that are closed or have no peer services enter no chain. */
  lemma {:induction false} LandingNone(env: Limits, w: World, script: seq<Request>, h: nat)
    requires |w.table| > 0 && forall j :: 0 <= j < |script| ==> !Open(w, script[j].chan)
    ensures Landing(env, w, script, h) == []
    decreases |script|
  {
    if script != [] { LandingNone(env, SendW(env, w, script[0]), script[1..], h); }
  }

  // ----- the sweep -----

  /** The chain after its entry `i` has been swept. */
  function Unlinked(b: Chain, i: nat, atHead: bool, disc: bool): Chain
    requires i < |b|
  {
    if !disc then b[i := Bury(b[i])] else if atHead then b[i + 1..] else b[..i] + b[i + 1..]
  }

  /** There is an entry `k` from the end of chain `h`. */
  predicate At(w: World, h: nat, k: nat) { h < |w.table| && 0 < k <= |w.table[h]| }

  function EntryAt(w: World, h: nat, k: nat): Entry
    requires At(w, h, k)
  {
    w.table[h][|w.table[h]| - k]
  }

  function Script(e: Entry, behaviour: Behaviour): seq<Request> { if e.handler then behaviour(e.id) else [] }

  /** One turn of the sweep of a chain, at the entry `k` from its end; `atHead` says that the sweep holds the head of the
      chain and not the link of an entry. */
  function TurnW(env: Limits, w: World, h: nat, k: nat, atHead: bool, c: Channel, behaviour: Behaviour): (v: World)
    requires At(w, h, k)
    ensures |v.table| == |w.table| && v.disconnected == w.disconnected && v.ready == w.ready
  {
    var e := EntryAt(w, h, k);
    if e.chan != c then w
    else
      var mid := ScriptW(env, w, Script(e, behaviour));
      if |mid.table[h]| < k then mid
      else mid.(table := mid.table[h := Unlinked(mid.table[h], |mid.table[h]| - k, atHead, c in w.disconnected)])
  }

  /** Whether the sweep holds the head of the chain after the turn. */
  predicate TurnHead(w: World, h: nat, k: nat, atHead: bool, c: Channel)
    requires At(w, h, k)
  {
    atHead && EntryAt(w, h, k).chan == c && c in w.disconnected
  }

  /** The commands that the turn cuts out of the table although they do not belong to the channel. */
  function TurnCut(env: Limits, w: World, h: nat, k: nat, atHead: bool, c: Channel, behaviour: Behaviour): Chain
    requires At(w, h, k)
  {
    if TurnHead(w, h, k, atHead, c) then Landing(env, w, Script(EntryAt(w, h, k), behaviour), h) else []
  }

  /** The turn meets an entry of the disconnected channel at the head of its chain, and the entry's handler sends a command
      with a handler that lands in that chain. */
  predicate TurnHit(env: Limits, w: World, h: nat, k: nat, atHead: bool, c: Channel, behaviour: Behaviour)
    requires At(w, h, k)
  {
    TurnHead(w, h, k, atHead, c) && EntryAt(w, h, k).handler && Lands(env, w, behaviour(EntryAt(w, h, k).id), h)
  }

  lemma TurnIff(env: Limits, w: World, h: nat, k: nat, atHead: bool, c: Channel, behaviour: Behaviour)
    requires At(w, h, k)
    ensures Live(TurnCut(env, w, h, k, atHead, c, behaviour)) != multiset{} <==> TurnHit(env, w, h, k, atHead, c, behaviour)
  {
    hide Lands;
    LandsIff(env, w, Script(EntryAt(w, h, k), behaviour), h);
    if !EntryAt(w, h, k).handler { assert Landing(env, w, [], h) == [] && Live([]) == multiset{}; }
  }

  function ChainW(env: Limits, w: World, h: nat, k: nat, atHead: bool, c: Channel, behaviour: Behaviour): (v: World)
    ensures |v.table| == |w.table| && v.disconnected == w.disconnected && v.ready == w.ready
    decreases k
  {
    if !At(w, h, k) then w
    else ChainW(env, TurnW(env, w, h, k, atHead, c, behaviour), h, k - 1, TurnHead(w, h, k, atHead, c), c, behaviour)
  }

  function ChainCut(env: Limits, w: World, h: nat, k: nat, atHead: bool, c: Channel, behaviour: Behaviour): Chain
    decreases k
  {
    if !At(w, h, k) then []
    else TurnCut(env, w, h, k, atHead, c, behaviour)
         + ChainCut(env, TurnW(env, w, h, k, atHead, c, behaviour), h, k - 1, TurnHead(w, h, k, atHead, c), c, behaviour)
  }

  predicate ChainHit(env: Limits, w: World, h: nat, k: nat, atHead: bool, c: Channel, behaviour: Behaviour)
    decreases k
  {
    At(w, h, k) &&
    (|| TurnHit(env, w, h, k, atHead, c, behaviour)
     || ChainHit(env, TurnW(env, w, h, k, atHead, c, behaviour), h, k - 1, TurnHead(w, h, k, atHead, c), c, behaviour))
  }

  lemma {:induction false} ChainIff(env: Limits, w: World, h: nat, k: nat, atHead: bool, c: Channel, behaviour: Behaviour)
    ensures Live(ChainCut(env, w, h, k, atHead, c, behaviour)) != multiset{} <==> ChainHit(env, w, h, k, atHead, c, behaviour)
    decreases k
  {
    hide TurnW, TurnCut, TurnHit, TurnHead;
    if At(w, h, k) {
      TurnIff(env, w, h, k, atHead, c, behaviour);
      LiveConcat(TurnCut(env, w, h, k, atHead, c, behaviour),
                 ChainCut(env, TurnW(env, w, h, k, atHead, c, behaviour), h, k - 1, TurnHead(w, h, k, atHead, c), c, behaviour));
      ChainIff(env, TurnW(env, w, h, k, atHead, c, behaviour), h, k - 1, TurnHead(w, h, k, atHead, c), c, behaviour);
    }
  }

  /** The sweep of the chains from `h` on. */
  function ClosedW(env: Limits, w: World, h: nat, c: Channel, behaviour: Behaviour): (v: World)
    ensures |v.table| == |w.table|
    decreases |w.table| - h
  {
    if h >= |w.table| then w.(ready := w.ready - {c})
    else ClosedW(env, ChainW(env, w, h, |w.table[h]|, true, c, behaviour), h + 1, c, behaviour)
  }

  function ClosedCut(env: Limits, w: World, h: nat, c: Channel, behaviour: Behaviour): Chain
    decreases |w.table| - h
  {
    if h >= |w.table| then []
    else ChainCut(env, w, h, |w.table[h]|, true, c, behaviour)
         + ClosedCut(env, ChainW(env, w, h, |w.table[h]|, true, c, behaviour), h + 1, c, behaviour)
  }

  /** The exact condition under which closing a channel loses a handler: in some turn of the sweep the hit happens. */
  predicate ClosedHit(env: Limits, w: World, h: nat, c: Channel, behaviour: Behaviour)
    decreases |w.table| - h
  {
    h < |w.table| &&
    (|| ChainHit(env, w, h, |w.table[h]|, true, c, behaviour)
     || ClosedHit(env, ChainW(env, w, h, |w.table[h]|, true, c, behaviour), h + 1, c, behaviour))
  }

  lemma {:induction false} ClosedIff(env: Limits, w: World, h: nat, c: Channel, behaviour: Behaviour)
    ensures Live(ClosedCut(env, w, h, c, behaviour)) != multiset{} <==> ClosedHit(env, w, h, c, behaviour)
    decreases |w.table| - h
  {
    hide ChainW, ChainCut, ChainHit;
    if h < |w.table| {
      ChainIff(env, w, h, |w.table[h]|, true, c, behaviour);
      LiveConcat(ChainCut(env, w, h, |w.table[h]|, true, c, behaviour),
                 ClosedCut(env, ChainW(env, w, h, |w.table[h]|, true, c, behaviour), h + 1, c, behaviour));
      ClosedIff(env, ChainW(env, w, h, |w.table[h]|, true, c, behaviour), h + 1, c, behaviour);
    }
  }

  /** A channel that is only redirected loses nothing. */
  lemma {:induction false} ChainCutNothing(env: Limits, w: World, h: nat, k: nat, atHead: bool, c: Channel, behaviour: Behaviour)
    requires c !in w.disconnected
    ensures ChainCut(env, w, h, k, atHead, c, behaviour) == []
    decreases k
  {
    hide TurnW;
    if At(w, h, k) {
      ChainCutNothing(env, TurnW(env, w, h, k, atHead, c, behaviour), h, k - 1, TurnHead(w, h, k, atHead, c), c, behaviour);
    }
  }

  lemma {:induction false} ClosedCutNothing(env: Limits, w: World, h: nat, c: Channel, behaviour: Behaviour)
    requires c !in w.disconnected
    ensures ClosedCut(env, w, h, c, behaviour) == []
    decreases |w.table| - h
  {
    hide ChainW, ChainCut;
    if h < |w.table| {
      ChainCutNothing(env, w, h, |w.table[h]|, true, c, behaviour);
      ClosedCutNothing(env, ChainW(env, w, h, |w.table[h]|, true, c, behaviour), h + 1, c, behaviour);
    }
  }

  /** Every request of every handler is for a channel that is closed or has no peer services. */
  ghost predicate Harmless(w: World, behaviour: Behaviour) {
    forall id, j :: 0 <= j < |behaviour(id)| ==> !Open(w, behaviour(id)[j].chan)
  }

  lemma {:induction false} HarmlessChain(env: Limits, w: World, h: nat, k: nat, atHead: bool, c: Channel, behaviour: Behaviour)
    requires Harmless(w, behaviour)
    ensures ChainCut(env, w, h, k, atHead, c, behaviour) == []
    decreases k
  {
    hide TurnW;
    if At(w, h, k) {
      LandingNone(env, w, Script(EntryAt(w, h, k), behaviour), h);
      HarmlessChain(env, TurnW(env, w, h, k, atHead, c, behaviour), h, k - 1, TurnHead(w, h, k, atHead, c), c, behaviour);
    }
  }

  /** Closing a channel loses nothing if the handlers send nothing, or only on channels that are closed. */
  lemma {:induction false} HarmlessClosed(env: Limits, w: World, h: nat, c: Channel, behaviour: Behaviour)
    requires Harmless(w, behaviour)
    ensures ClosedCut(env, w, h, c, behaviour) == []
    decreases |w.table| - h
  {
    hide ChainW, ChainCut;
    if h < |w.table| {
      HarmlessChain(env, w, h, |w.table[h]|, true, c, behaviour);
      HarmlessClosed(env, ChainW(env, w, h, |w.table[h]|, true, c, behaviour), h + 1, c, behaviour);
    }
  }

  // ----- runs -----

  datatype Step =
    | Send(request: Request)
    | Fail
    | Receive(kind: Kind, chan: Channel, token: nat, onProgress: seq<Request>)
    | Hello(chan: Channel)
    | Redirect(chan: Channel)
    | Replace(chan: Channel, protocol: int)
    | Close(chan: Channel)

  function FailW(env: Limits, w: World, behaviour: Behaviour): (v: World)
    requires |w.table| > 0
    ensures |v.table| == |w.table|
  {
    if w.failed == [] then w else ScriptW(env, w.(failed := w.failed[1..]), Script(w.failed[0], behaviour))
  }

  function ReplyW(env: Limits, w: World, kind: Kind, c: Channel, t: nat, behaviour: Behaviour, onProgress: seq<Request>): (v: World)
    requires |w.table| > 0
    ensures |v.table| == |w.table|
  {
    var h := Hash(|w.table|, c, t);
    var i := Find(w.table[h], c, t);
    if i == |w.table[h]| then w
    else
      var e := w.table[h][i];
      if kind == Progress then (if e.progress then ScriptW(env, w, onProgress) else w)
      else ScriptW(env, w.(table := Removed(w.table, h, i)), Script(e, behaviour))
  }

  function StepW(env: Limits, w: World, step: Step, behaviour: Behaviour): (v: World)
    requires |w.table| > 0
    ensures |v.table| == |w.table|
  {
    match step
    case Send(r) => SendW(env, w, r)
    case Fail => FailW(env, w, behaviour)
    case Receive(kind, c, t, onProgress) => ReplyW(env, w, kind, c, t, behaviour, onProgress)
    case Hello(c) => w.(ready := w.ready + {c})
    case Redirect(c) => if c in w.disconnected then w else ClosedW(env, w, 0, c, behaviour)
    case Replace(c, p) => w.(protocolOf := w.protocolOf[c := p], tokenid := w.tokenid[p := FirstToken(env)])
    case Close(c) => if c in w.disconnected then w else ClosedW(env, w.(disconnected := w.disconnected + {c}), 0, c, behaviour)
  }

  function StepCut(env: Limits, w: World, step: Step, behaviour: Behaviour): Chain {
    if step.Close? && step.chan !in w.disconnected
    then ClosedCut(env, w.(disconnected := w.disconnected + {step.chan}), 0, step.chan, behaviour) else []
  }

  predicate StepHit(env: Limits, w: World, step: Step, behaviour: Behaviour) {
    step.Close? && step.chan !in w.disconnected
    && ClosedHit(env, w.(disconnected := w.disconnected + {step.chan}), 0, step.chan, behaviour)
  }

  function RunW(env: Limits, w: World, steps: seq<Step>, behaviour: Behaviour): (v: World)
    requires |w.table| > 0
    ensures |v.table| == |w.table|
    decreases |steps|
  {
    if steps == [] then w else RunW(env, StepW(env, w, steps[0], behaviour), steps[1..], behaviour)
  }

  function RunCut(env: Limits, w: World, steps: seq<Step>, behaviour: Behaviour): Chain
    requires |w.table| > 0
    decreases |steps|
  {
    if steps == [] then []
    else StepCut(env, w, steps[0], behaviour) + RunCut(env, StepW(env, w, steps[0], behaviour), steps[1..], behaviour)
  }

  /** The exact condition under which a run loses a handler, given the state it starts in and its steps. */
  predicate RunHit(env: Limits, w: World, steps: seq<Step>, behaviour: Behaviour)
    requires |w.table| > 0
    decreases |steps|
  {
    steps != [] && (|| StepHit(env, w, steps[0], behaviour)
                    || RunHit(env, StepW(env, w, steps[0], behaviour), steps[1..], behaviour))
  }

  lemma {:induction false} RunIff(env: Limits, w: World, steps: seq<Step>, behaviour: Behaviour)
    requires |w.table| > 0
    ensures Live(RunCut(env, w, steps, behaviour)) != multiset{} <==> RunHit(env, w, steps, behaviour)
    decreases |steps|
  {
    hide StepW, ClosedCut, ClosedHit;
    if steps != [] {
      if steps[0].Close? { ClosedIff(env, w.(disconnected := w.disconnected + {steps[0].chan}), 0, steps[0].chan, behaviour); }
      LiveConcat(StepCut(env, w, steps[0], behaviour), RunCut(env, StepW(env, w, steps[0], behaviour), steps[1..], behaviour));
      RunIff(env, StepW(env, w, steps[0], behaviour), steps[1..], behaviour);
    }
  }

  /** In particular none is lost if no handler sends anything. */
  lemma {:induction false} SilentRun(env: Limits, w: World, steps: seq<Step>, behaviour: Behaviour)
    requires |w.table| > 0 && forall id :: behaviour(id) == []
    ensures RunCut(env, w, steps, behaviour) == []
    decreases |steps|
  {
    hide StepW, ClosedCut;
    if steps != [] {
      if steps[0].Close? { HarmlessClosed(env, w.(disconnected := w.disconnected + {steps[0].chan}), 0, steps[0].chan, behaviour); }
      SilentRun(env, StepW(env, w, steps[0], behaviour), steps[1..], behaviour);
    }
  }
}
