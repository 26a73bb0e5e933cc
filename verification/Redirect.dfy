/** The Hello handshake and the redirect protocol over a chain of channels: a client, any number of value-add proxies, and
    the server at the far end. Only Hello events, redirect commands and their replies are kept of the traffic; each channel
    delivers what is sent in order. */
module Redirect {

  datatype Phase = Started | HelloSent | HelloReceived | Connected | RedirectSent | RedirectReceived

  /** A Hello carries the number of redirects its sender had granted when it was sent, to tell Hellos apart. */
  datatype Message = Hello(granted: nat) | RedirectCommand | Reply(ok: bool)

  /** One channel. `up` is its end on the client's side and `down` the other one. For the end at a proxy, `pending` says that
      a redirect command is being relayed and `relays` that the handler which does so is installed. */
  datatype Link = Link(
    up: Phase, down: Phase, pending: bool, relays: bool, toDown: seq<Message>, toUp: seq<Message>, granted: nat, known: nat)

  /** Whether an end has sent its Hello, or received the peer's, since its handshake began. */
  predicate Sent(p: Phase) { p != Started && p != HelloReceived }

  predicate Received(p: Phase) { p != Started && p != HelloSent }

  function HelloIf(b: bool, n: nat): seq<Message> { if b then [Hello(n)] else [] }

  /** How the two ends of a channel and the messages on the way fit together. */
  predicate LinkOk(l: Link) {
    if l.up != RedirectSent then
      && l.up != RedirectReceived && l.down != RedirectReceived && l.down != RedirectSent && !l.pending
      && l.known == l.granted && (Received(l.up) ==> Sent(l.down)) && (Received(l.down) ==> Sent(l.up))
      && l.toDown == HelloIf(Sent(l.up) && !Received(l.down), 0)
      && l.toUp == HelloIf(Sent(l.down) && !Received(l.up), l.granted)
    else
      || (// the command is on its way
        && (l.down == HelloSent || l.down == Connected) && !l.pending && l.known == l.granted && l.toUp == []
        && l.toDown == HelloIf(!Received(l.down), 0) + [RedirectCommand])
      || (// the command is being carried out
        && (if l.pending then l.down == Connected else l.down == RedirectReceived) && l.known == l.granted
        && l.toUp == [] && l.toDown == [])
      || (// refused
        && l.down == Connected && !l.pending && l.known == l.granted && l.toUp == [Reply(false)] && l.toDown == [])
      || (// granted; the Hello of the new target follows the reply
        && (l.down == HelloReceived || l.down == Connected) && !l.pending && l.known + 1 == l.granted && l.toDown == []
        && l.toUp == [Reply(true)] + HelloIf(l.down == Connected, l.granted))
  }

  /** How the two channels of a proxy fit together: `a` is the host's and `b` the target's. */
  predicate RelayOk(a: Link, b: Link) {
    && (a.down == HelloReceived || a.down == Connected)
    && (a.down == HelloReceived ==> b.up == HelloSent)
    && (a.down == Connected ==> a.relays && b.up == if a.pending then RedirectSent else Connected)
  }

  /** The server at the end of the chain has granted no redirect: that would have made it a proxy. */
  predicate Last(l: Link) { !l.pending && l.granted == 0 }

  ghost predicate ChainOk(links: seq<Link>) {
    && |links| > 0 && Last(links[|links| - 1])
    && (forall i :: 0 <= i < |links| ==> LinkOk(links[i]))
    && (forall i :: 0 < i < |links| ==> RelayOk(links[i - 1], links[i]))
  }

  lemma ChangeOne(links: seq<Link>, i: nat, l: Link)
    requires ChainOk(links) && i < |links| && LinkOk(l)
    requires i > 0 ==> RelayOk(links[i - 1], l)
    requires i + 1 < |links| ==> RelayOk(l, links[i + 1])
    requires i + 1 == |links| ==> Last(l)
    ensures ChainOk(links[i := l])
  {
    hide LinkOk, RelayOk;
  }

  lemma ChangeTwo(links: seq<Link>, i: nat, a: Link, b: Link)
    requires ChainOk(links) && 0 < i < |links| && LinkOk(a) && LinkOk(b) && RelayOk(a, b)
    requires i > 1 ==> RelayOk(links[i - 2], a)
    requires i + 1 < |links| ==> RelayOk(b, links[i + 1])
    requires i + 1 == |links| ==> Last(b)
    ensures ChainOk(links[i - 1 := a][i := b])
  {
    hide LinkOk, RelayOk;
  }

  lemma Extend(links: seq<Link>, a: Link, b: Link)
    requires ChainOk(links) && LinkOk(a) && LinkOk(b) && RelayOk(a, b) && Last(b)
    requires |links| > 1 ==> RelayOk(links[|links| - 2], a)
    ensures ChainOk(links[|links| - 1 := a] + [b])
  {
    hide LinkOk, RelayOk;
  }

  lemma At(links: seq<Link>, i: nat)
    requires ChainOk(links) && i < |links|
    ensures LinkOk(links[i])
    ensures i > 0 ==> RelayOk(links[i - 1], links[i])
    ensures i + 1 < |links| ==> RelayOk(links[i], links[i + 1])
    ensures i + 1 == |links| ==> Last(links[i])
  {
    hide LinkOk, RelayOk;
    if i + 1 < |links| { assert RelayOk(links[i + 1 - 1], links[i + 1]); }
  }

  // ----- what the invariant means -----

  /** The client's side sees a Hello only while it waits for one, and it is the Hello of the target of its last granted
      redirect; a reply to a redirect only while it waits for that. */
  lemma SeenInTime(links: seq<Link>, i: nat)
    requires ChainOk(links) && i < |links| && links[i].toUp != []
    ensures var l := links[i];
            match l.toUp[0]
            case Hello(n) => (l.up == HelloSent || (i == 0 && (l.up == Started))) && n == l.known
            case Reply(_) => l.up == RedirectSent
            case RedirectCommand => false
  {
    At(links, i);
  }

  /** The server's side sees a redirect command only when connected, so it is never refused for the state of the channel. */
  lemma CommandInTime(links: seq<Link>, i: nat)
    requires ChainOk(links) && i < |links| && links[i].toDown != []
    ensures var l := links[i];
            match l.toDown[0]
            case Hello(_) => l.down == Started || l.down == HelloSent
            case RedirectCommand => l.down == Connected
            case Reply(_) => false
  {
    At(links, i);
  }

  predicate NoHello(ms: seq<Message>) { forall k :: 0 <= k < |ms| ==> !ms[k].Hello? }

  /** An end is connected only when both Hellos of its handshake are accounted for. The client's side has received the Hello of
      the other end, which has sent no other, and its own has been received or is the next message to be; the server's side
      has received the client's Hello, and its own has been received or is the last message on the way, to an end that waits
      for it now or after the reply to its redirect. */
  lemma BothHellos(links: seq<Link>, i: nat)
    requires ChainOk(links) && i < |links|
    ensures var l := links[i];
            l.up == Connected ==>
              Sent(l.down) && NoHello(l.toUp) && l.toDown == HelloIf(!Received(l.down), 0)
    ensures var l := links[i];
            l.down == Connected ==>
              && NoHello(l.toDown)
              && (if l.up == Connected || (l.up == RedirectSent && l.known == l.granted) then NoHello(l.toUp)
                  else (l.up == HelloSent || l.up == RedirectSent) && l.toUp != []
                       && l.toUp[|l.toUp| - 1] == Hello(l.granted) && NoHello(l.toUp[..|l.toUp| - 1])
                       && (l.up == RedirectSent ==> l.toUp[0] == Reply(true)))
  {
    At(links, i);
  }

  /** When the target of a proxy completes its handshake, the host channel waits for just that. */
  lemma HostWaits(links: seq<Link>, i: nat)
    requires ChainOk(links) && 0 < i < |links| && links[i].up == HelloSent
    ensures links[i - 1].down == HelloReceived
  {
    At(links, i);
  }

  /** After a refused redirect both ends are connected and nothing is on the way. */
  lemma RefusalRestores(links: seq<Link>, i: nat)
    requires ChainOk(links) && i < |links| && links[i].toUp != [] && links[i].toUp[0] == Reply(false)
    ensures var l := links[i]; l.up == RedirectSent && l.down == Connected && l.toUp[1..] == [] && l.toDown == []
  {
    At(links, i);
  }

  /** Nothing can happen any more: no message is on the way, the last server is not connecting to a target, and both ends of
      the chain have sent their Hellos. */
  ghost predicate Quiescent(links: seq<Link>) {
    && |links| > 0
    && (forall i :: 0 <= i < |links| ==> links[i].toUp == [] && links[i].toDown == [])
    && Sent(links[0].up) && Sent(links[|links| - 1].down) && links[|links| - 1].down != RedirectReceived
  }

  /** No deadlock: when nothing can happen any more, every channel is connected at both ends. */
  lemma {:induction false} AllConnected(links: seq<Link>, i: nat)
    requires ChainOk(links) && Quiescent(links) && i < |links|
    ensures links[i].up == Connected && links[i].down == Connected
    decreases |links| - i
  {
    At(links, i);
    if i + 1 < |links| {
      AllConnected(links, i + 1);
    }
    if i > 0 { assert Sent(links[i].up); }
  }

  datatype Step =
    | ClientHello
    | ServerHello
    | ClientRedirect
    | ReceiveDown(link: nat, peerKnown: bool)
    | ReceiveUp(link: nat)
    | ConnectDone(ok: bool)

  /** The chain after a step; a step that cannot happen changes nothing. */
  function Stepped(links: seq<Link>, step: Step): (r: seq<Link>)
    requires links != []
    ensures r != []
  {
    var n := |links| - 1;
    match step
    case ClientHello =>
      var l := links[0];
      if l.up != Started && l.up != HelloReceived then links
      else links[0 := l.(toDown := l.toDown + [Hello(0)], up := if l.up == Started then HelloSent else Connected)]
    case ServerHello =>
      var l := links[n];
      if l.down != Started && l.down != HelloReceived then links
      else links[n := l.(toUp := l.toUp + [Hello(l.granted)], down := if l.down == Started then HelloSent else Connected)]
    case ClientRedirect =>
      if links[0].up != Connected then links
      else links[0 := links[0].(up := RedirectSent, toDown := links[0].toDown + [RedirectCommand])]
    case ReceiveDown(i, known) => if i >= |links| || links[i].toDown == [] then links else ReceivedDown(links, i, known)
    case ReceiveUp(i) => if i >= |links| || links[i].toUp == [] then links else ReceivedUp(links, i)
    case ConnectDone(ok) =>
      var l := links[n].(toUp := links[n].toUp + [Reply(ok)]);
      if links[n].down != RedirectReceived then links
      else if ok then links[n := l.(down := HelloReceived, granted := l.granted + 1, relays := false)]
                      + [Link(HelloSent, Started, false, false, [Hello(0)], [], 0, 0)]
      else links[n := l.(down := Connected)]
  }

  /** The first message on its way down channel `i` arrives. */
  function ReceivedDown(links: seq<Link>, i: nat, known: bool): (r: seq<Link>)
    requires i < |links| && links[i].toDown != []
    ensures |r| == |links|
  {
    var l := links[i].(toDown := links[i].toDown[1..]);
    if links[i].toDown[0].Hello? then links[i := l.(down := if l.down == Started then HelloReceived else Connected)]
    else if i + 1 == |links| then links[i := if known then l.(down := RedirectReceived) else l.(toUp := l.toUp + [Reply(false)])]
    else links[i := l.(pending := true)][i + 1 := links[i + 1].(up := RedirectSent, toDown := links[i + 1].toDown + [RedirectCommand])]
  }

  /** The first message on its way up channel `i` arrives. */
  function ReceivedUp(links: seq<Link>, i: nat): (r: seq<Link>)
    requires i < |links| && links[i].toUp != []
    ensures |r| == |links|
  {
    var l := links[i];
    var m := l.(toUp := l.toUp[1..]);
    match l.toUp[0]
    case Hello(_) =>
      if i == 0 then links[0 := m.(up := if l.up == Started then HelloReceived else Connected)]
      else
        var a := links[i - 1];
        links[i - 1 := a.(down := Connected, toUp := a.toUp + [Hello(a.granted)], relays := true)][i := m.(up := Connected)]
    case Reply(ok) =>
      var done := if ok then m.(up := HelloSent, known := m.known + 1) else m.(up := Connected);
      if i == 0 then links[0 := done]
      else
        var a := if ok then links[i - 1].(down := HelloReceived, relays := false, granted := links[i - 1].granted + 1) else links[i - 1];
        links[i - 1 := a.(toUp := a.toUp + [Reply(ok)], pending := false)][i := done]
    case RedirectCommand => links
  }

  function SteppedAll(links: seq<Link>, steps: seq<Step>): (r: seq<Link>)
    requires links != []
    ensures r != []
  {
    if steps == [] then links else Stepped(SteppedAll(links, steps[..|steps| - 1]), steps[|steps| - 1])
  }

  /** An example: the Hellos of a client and a server cross, and then both are connected. */
  lemma Handshake()
    ensures SteppedAll([Link(Started, Started, false, false, [], [], 0, 0)],
                       [ClientHello, ServerHello, ReceiveDown(0, true), ReceiveUp(0)])
            == [Link(Connected, Connected, false, false, [], [], 0, 0)]
    ensures Quiescent([Link(Connected, Connected, false, false, [], [], 0, 0)])
  {
    hide Stepped, Quiescent;
    var l0 := [Link(Started, Started, false, false, [], [], 0, 0)];
    HelloSteps();
    assert [] + [ClientHello] == [ClientHello] && [ClientHello] + [ServerHello] == [ClientHello, ServerHello];
    assert [ClientHello, ServerHello] + [ReceiveDown(0, true)] == [ClientHello, ServerHello, ReceiveDown(0, true)];
    assert [ClientHello, ServerHello, ReceiveDown(0, true)] + [ReceiveUp(0)]
        == [ClientHello, ServerHello, ReceiveDown(0, true), ReceiveUp(0)];
    SteppedOne(l0, [], ClientHello);
    SteppedOne(l0, [ClientHello], ServerHello);
    SteppedOne(l0, [ClientHello, ServerHello], ReceiveDown(0, true));
    SteppedOne(l0, [ClientHello, ServerHello, ReceiveDown(0, true)], ReceiveUp(0));
  }

  lemma HelloSteps()
    ensures Stepped([Link(Started, Started, false, false, [], [], 0, 0)], ClientHello)
            == [Link(HelloSent, Started, false, false, [Hello(0)], [], 0, 0)]
    ensures Stepped([Link(HelloSent, Started, false, false, [Hello(0)], [], 0, 0)], ServerHello)
            == [Link(HelloSent, HelloSent, false, false, [Hello(0)], [Hello(0)], 0, 0)]
    ensures Stepped([Link(HelloSent, HelloSent, false, false, [Hello(0)], [Hello(0)], 0, 0)], ReceiveDown(0, true))
            == [Link(HelloSent, Connected, false, false, [], [Hello(0)], 0, 0)]
    ensures Stepped([Link(HelloSent, Connected, false, false, [], [Hello(0)], 0, 0)], ReceiveUp(0))
            == [Link(Connected, Connected, false, false, [], [], 0, 0)]
    ensures Quiescent([Link(Connected, Connected, false, false, [], [], 0, 0)])
  {
    assert [] + [Hello(0)] == [Hello(0)] && [Hello(0)][1..] == [];
  }

  lemma SteppedOne(links: seq<Link>, steps: seq<Step>, step: Step)
    requires links != []
    ensures SteppedAll(links, steps + [step]) == Stepped(SteppedAll(links, steps), step)
  {
    assert (steps + [step])[..|steps|] == steps;
  }

  lemma NotEmpty(links: seq<Link>)
    requires ChainOk(links)
    ensures links != []
  {
  }

  class Chain {
    var links: seq<Link>

    ghost predicate Valid()
      reads this
    {
      ChainOk(links)
    }

    /** A client that connects to a server. */
    constructor ()
      ensures Valid() && links == [Link(Started, Started, false, false, [], [], 0, 0)]
    {
      links := [Link(Started, Started, false, false, [], [], 0, 0)];
    }

    /** The client sends its Hello. */
    method ClientHello()
      requires Valid() && |links| > 0 && (links[0].up == Started || links[0].up == HelloReceived)
      modifies this
      ensures Valid()
      ensures var l := old(links)[0];
              links == old(links)[0 := l.(toDown := l.toDown + [Hello(0)], up := if l.up == Started then HelloSent else Connected)]
    {
      At(links, 0);
      hide ChainOk;
      var l := links[0];
      var m := l.(toDown := l.toDown + [Hello(0)], up := if l.up == Started then HelloSent else Connected);
      assert m.toDown == [Hello(0)];
      ChangeOne(links, 0, m);
      links := links[0 := m];
    }

    /** The server at the end of the chain sends its Hello. */
    method ServerHello()
      requires Valid() && |links| > 0 && (links[|links| - 1].down == Started || links[|links| - 1].down == HelloReceived)
      modifies this
      ensures Valid()
      ensures var i := |old(links)| - 1;
              var l := old(links)[i];
              links == old(links)[i := l.(toUp := l.toUp + [Hello(l.granted)], down := if l.down == Started then HelloSent else Connected)]
    {
      var i := |links| - 1;
      At(links, i);
      hide ChainOk;
      var l := links[i];
      var m := l.(toUp := l.toUp + [Hello(l.granted)], down := if l.down == Started then HelloSent else Connected);
      assert m.toUp == [Hello(l.granted)];
      ChangeOne(links, i, m);
      links := links[i := m];
    }

    /** The client asks to be redirected. */
    method ClientRedirect()
      requires Valid() && |links| > 0 && links[0].up == Connected
      modifies this
      ensures Valid() && links == old(links)[0 := old(links)[0].(up := RedirectSent, toDown := old(links)[0].toDown + [RedirectCommand])]
    {
      At(links, 0);
      hide ChainOk;
      var l := links[0];
      var m := l.(up := RedirectSent, toDown := l.toDown + [RedirectCommand]);
      ChangeOne(links, 0, m);
      links := links[0 := m];
    }

    /** A Hello arrives at the server's side. */
    method HelloDown(i: nat)
      requires Valid() && i < |links| && links[i].toDown != [] && links[i].toDown[0].Hello?
      modifies this
      ensures Valid()
      ensures var l := old(links)[i];
              links == old(links)[i := l.(toDown := l.toDown[1..], down := if l.down == Started then HelloReceived else Connected)]
    {
      At(links, i);
      hide ChainOk;
      var l := links[i];
      assert l.down == Started || l.down == HelloSent;
      var m := l.(toDown := l.toDown[1..], down := if l.down == Started then HelloReceived else Connected);
      ChangeOne(links, i, m);
      links := links[i := m];
    }

    /** A redirect command arrives at the last server, which starts to connect to the target, if it knows it. */
    method RedirectAtServer(peerKnown: bool)
      requires Valid() && |links| > 0 && links[|links| - 1].toDown != [] && links[|links| - 1].toDown[0] == RedirectCommand
      modifies this
      ensures Valid()
      ensures var i := |old(links)| - 1;
              var l := old(links)[i].(toDown := old(links)[i].toDown[1..]);
              links == old(links)[i := if peerKnown then l.(down := RedirectReceived) else l.(toUp := l.toUp + [Reply(false)])]
    {
      var i := |links| - 1;
      At(links, i);
      hide ChainOk;
      var l := links[i];
      assert l.down == Connected;
      var m := l.(toDown := l.toDown[1..]);
      m := if peerKnown then m.(down := RedirectReceived) else m.(toUp := m.toUp + [Reply(false)]);
      ChangeOne(links, i, m);
      links := links[i := m];
    }

    /** A redirect command arrives at a proxy, which relays it to its target. */
    method RedirectAtProxy(i: nat)
      requires Valid() && i + 1 < |links| && links[i].toDown != [] && links[i].toDown[0] == RedirectCommand
      modifies this
      ensures Valid()
      ensures var a, b := old(links)[i], old(links)[i + 1];
              links == old(links)[i := a.(toDown := a.toDown[1..], pending := true)]
                                 [i + 1 := b.(up := RedirectSent, toDown := b.toDown + [RedirectCommand])]
    {
      At(links, i);
      At(links, i + 1);
      hide ChainOk;
      var a, b := links[i], links[i + 1];
      assert a.down == Connected && a.relays;
      assert b.up == Connected;
      var a1 := a.(toDown := a.toDown[1..], pending := true);
      var b1 := b.(up := RedirectSent, toDown := b.toDown + [RedirectCommand]);
      ChangeTwo(links, i + 1, a1, b1);
      links := links[i := a1][i + 1 := b1];
    }

    /** The last server has connected to the target, or failed to. On success it becomes a proxy: its host channel now waits
        for the Hello of the target, to which it sends its own. */
    method ConnectDone(ok: bool)
      requires Valid() && |links| > 0 && links[|links| - 1].down == RedirectReceived
      modifies this
      ensures Valid()
      ensures var i := |old(links)| - 1;
              var l := old(links)[i].(toUp := old(links)[i].toUp + [Reply(ok)]);
              links == if ok then old(links)[i := l.(down := HelloReceived, granted := l.granted + 1, relays := false)]
                                  + [Link(HelloSent, Started, false, false, [Hello(0)], [], 0, 0)]
                       else old(links)[i := l.(down := Connected)]
    {
      var i := |links| - 1;
      At(links, i);
      hide ChainOk;
      var l := links[i];
      var m := l.(toUp := l.toUp + [Reply(ok)]);
      if ok {
        m := m.(down := HelloReceived, granted := m.granted + 1, relays := false);
        var t := Link(Started, Started, false, false, [], [], 0, 0);
        assert t.up == Started && m.down == HelloReceived;
        t := t.(toDown := t.toDown + [Hello(0)], up := HelloSent);
        Extend(links, m, t);
        links := links[i := m] + [t];
      } else {
        m := m.(down := Connected);
        ChangeOne(links, i, m);
        links := links[i := m];
      }
    }

    /** A Hello arrives at the client. */
    method HelloAtClient()
      requires Valid() && |links| > 0 && links[0].toUp != [] && links[0].toUp[0].Hello?
      modifies this
      ensures Valid()
      ensures var l := old(links)[0];
              links == old(links)[0 := l.(toUp := l.toUp[1..], up := if l.up == Started then HelloReceived else Connected)]
    {
      At(links, 0);
      hide ChainOk;
      var l := links[0];
      assert l.up == Started || l.up == HelloSent;
      var m := l.(toUp := l.toUp[1..], up := if l.up == Started then HelloReceived else Connected);
      ChangeOne(links, 0, m);
      links := links[0 := m];
    }

    /** The Hello of its target arrives at a proxy, which sends its Hello to the host and relays redirects from then on. */
    method HelloAtProxy(i: nat)
      requires Valid() && 0 < i < |links| && links[i].toUp != [] && links[i].toUp[0].Hello?
      modifies this
      ensures Valid()
      ensures var a, b := old(links)[i - 1], old(links)[i];
              links == old(links)[i - 1 := a.(down := Connected, toUp := a.toUp + [Hello(a.granted)], relays := true)]
                                 [i := b.(toUp := b.toUp[1..], up := Connected)]
    {
      At(links, i);
      At(links, i - 1);
      hide ChainOk;
      var a, b := links[i - 1], links[i];
      assert b.up == HelloSent;
      var b1 := b.(toUp := b.toUp[1..], up := Connected);
      assert a.down == HelloReceived;
      var a1 := a.(down := Connected, toUp := a.toUp + [Hello(a.granted)], relays := true);
      ChangeTwo(links, i, a1, b1);
      links := links[i - 1 := a1][i := b1];
    }

    /** The reply to its redirect arrives at the client. */
    method ReplyAtClient()
      requires Valid() && |links| > 0 && links[0].toUp != [] && links[0].toUp[0].Reply?
      modifies this
      ensures Valid() && links == old(links)[0 := Done(old(links)[0])]
      ensures !old(links)[0].toUp[0].ok ==> links[0].down == Connected && links[0].toUp == [] && links[0].toDown == []
    {
      At(links, 0);
      hide ChainOk;
      var l := links[0];
      assert l.up == RedirectSent;
      var m := Done(l);
      ChangeOne(links, 0, m);
      links := links[0 := m];
    }

    /** The end that sent a redirect command takes the reply. */
    static function Done(l: Link): Link
      requires l.toUp != [] && l.toUp[0].Reply?
    {
      var m := l.(toUp := l.toUp[1..]);
      if l.toUp[0].ok then m.(up := HelloSent, known := m.known + 1) else m.(up := Connected)
    }

    /** The reply to a relayed redirect arrives at a proxy, which passes it on; if the redirect was granted, the host channel
        first goes back to waiting for the Hello of the target. */
    method ReplyAtProxy(i: nat)
      requires Valid() && 0 < i < |links| && links[i].toUp != [] && links[i].toUp[0].Reply?
      modifies this
      ensures Valid()
      ensures var a, b := old(links)[i - 1], old(links)[i];
              var ok := b.toUp[0].ok;
              var a1 := if ok then a.(down := HelloReceived, relays := false, granted := a.granted + 1) else a;
              links == old(links)[i - 1 := a1.(toUp := a.toUp + [Reply(ok)], pending := false)][i := Done(b)]
    {
      hide ChainOk, LinkOk, RelayOk, Done;
      At(links, i);
      At(links, i - 1);
      var a, b := links[i - 1], links[i];
      RelayedReply(a, b);
      assert b.up == RedirectSent;
      var ok := b.toUp[0].ok;
      var b1 := Done(b);
      var a1 := a;
      if ok {
        assert a.down == Connected && b1.up == HelloSent;
        a1 := a.(down := HelloReceived, relays := false, granted := a.granted + 1);
      }
      a1 := a1.(toUp := a1.toUp + [Reply(ok)], pending := false);
      ChangeTwo(links, i, a1, b1);
      links := links[i - 1 := a1][i := b1];
    }

    /** The two channels of a proxy that passes a reply on. */
    static lemma RelayedReply(a: Link, b: Link)
      requires LinkOk(a) && LinkOk(b) && RelayOk(a, b) && b.toUp != [] && b.toUp[0].Reply?
      ensures b.up == RedirectSent && a.down == Connected && (b.toUp[0].ok ==> Done(b).up == HelloSent)
      ensures var ok := b.toUp[0].ok;
              var a1 := if ok then a.(down := HelloReceived, relays := false, granted := a.granted + 1) else a;
              var a2 := a1.(toUp := a.toUp + [Reply(ok)], pending := false);
              && LinkOk(a2) && LinkOk(Done(b)) && RelayOk(a2, Done(b)) && (Last(b) ==> Last(Done(b)))
              && (forall x :: RelayOk(x, a) ==> RelayOk(x, a2)) && (forall y :: RelayOk(b, y) ==> RelayOk(Done(b), y))
    {
    }

    /** The first message on its way down a channel arrives. */
    method ReceiveDown(i: nat, known: bool)
      requires Valid() && i < |links| && links[i].toDown != []
      modifies this
      ensures Valid() && links == ReceivedDown(old(links), i, known)
    {
      hide ChainOk, LinkOk, RelayOk;
      CommandInTime(links, i);
      if links[i].toDown[0].Hello? { HelloDown(i); }
      else if i + 1 == |links| { RedirectAtServer(known); }
      else { RedirectAtProxy(i); }
    }

    /** The first message on its way up a channel arrives. */
    method ReceiveUp(i: nat)
      requires Valid() && i < |links| && links[i].toUp != []
      modifies this
      ensures Valid() && links == ReceivedUp(old(links), i)
    {
      hide ChainOk, LinkOk, RelayOk;
      SeenInTime(links, i);
      if links[i].toUp[0].Hello? {
        if i == 0 { HelloAtClient(); } else { HelloAtProxy(i); }
      } else {
        if i == 0 { ReplyAtClient(); } else { ReplyAtProxy(i); }
      }
    }

    /** One step of the chain, if it is enabled. */
    method Perform(step: Step)
      requires Valid()
      modifies this
      ensures Valid()
      ensures old(links) != [] && links == Stepped(old(links), step)
    {
      var n := |links|;
      At(links, 0);
      hide ChainOk, LinkOk, RelayOk, ReceivedDown, ReceivedUp;
      match step {
        case ClientHello => if links[0].up == Started || links[0].up == HelloReceived { ClientHello(); }
        case ServerHello => if links[n - 1].down == Started || links[n - 1].down == HelloReceived { ServerHello(); }
        case ClientRedirect => if links[0].up == Connected { ClientRedirect(); }
        case ConnectDone(ok) => if links[n - 1].down == RedirectReceived { ConnectDone(ok); }
        case ReceiveDown(i, known) => if i < n && links[i].toDown != [] { ReceiveDown(i, known); }
        case ReceiveUp(i) => if i < n && links[i].toUp != [] { ReceiveUp(i); }
      }
    }

    /** Every run, of any length and any chain that it builds, keeps the invariant; if it comes to rest, every channel is
        connected at both ends. */
    method Run(steps: seq<Step>)
      requires Valid()
      modifies this
      ensures Valid()
      ensures Quiescent(links) ==> forall i :: 0 <= i < |links| ==> links[i].up == Connected && links[i].down == Connected
      ensures old(links) != [] && links == SteppedAll(old(links), steps)
    {
      hide ChainOk, LinkOk, RelayOk, Quiescent, Stepped;
      NotEmpty(links);
      for n := 0 to |steps|
        invariant Valid() && links == SteppedAll(old(links), steps[..n])
      {
        Perform(steps[n]);
        assert steps[..n + 1][..n] == steps[..n];
      }
      assert steps[..|steps|] == steps;
      if Quiescent(links) {
        forall i | 0 <= i < |links| ensures links[i].up == Connected && links[i].down == Connected { AllConnected(links, i); }
      }
    }
  }
}
